// A small deployment that meets every hypothesis of the transaction: two
// copies, one profile that sees the first through an alias, and the eleven
// removals, none of which finds its file.
module Sample {
  import opened Paths
  import opened FileStore
  import opened Options
  import opened SafePaths
  import opened LinkDepth
  import opened Projections
  import opened Planner
  import opened Staging
  import opened Copying
  import opened Dedup
  import opened Execution
  import opened Backup
  import opened Orphans
  import opened Allowlist
  import opened Planting
  import opened Deploy
  import opened Transaction
  import opened Outcomes

  const ALIAS: Projection := Projection("p", ["profiles", "p", "plugins", "aota-tools"], TARGET)
  const PROFILES: Path := HOME + ["profiles"]
  const SOURCE: Path := ["src", "f"]
  const WRITTEN: Path := HOME + TARGET + ["f"]
  const SEEN: Path := HOME + ALIAS.logical + ["f"]
  const EXTRA: Path := HOME + ["made"] + ["f"]

  function Planned(id: Path, destination: Path, profile: Option<string>): Entry {
    Entry(id, Copy, SOURCE, destination, HOME, ["src"], ["f"], true, profile, false, None, None, None, None, None, None)
  }

  function Copies(): seq<Entry> {
    [Planned(["global", "f"], WRITTEN, None), Planned(PluginId("p", ["f"]), SEEN, Some("p")),
     Planned(["extra", "f"], EXTRA, None)]
  }

  function Entries(): seq<Entry> {
    Copies() + Removals()
  }

  function OrphanNames(): set<Path> {
    set j | 0 <= j < AUTHORIZED_COUNT :: HOME + OrphanPath(j)
  }

  function Managed(): Scope {
    var names := {WRITTEN, EXTRA} + OrphanNames();
    Scope(names, names, {WRITTEN, EXTRA}, {SOURCE})
  }

  /* ---- The host ---- */

  // What matters about the file tree.
  ghost predicate IsHost(s: Store) {
    && IsDirAt(s, HOME) && IsDirAt(s, HOME + TARGET) && IsDirAt(s, PROFILES)
    && IsLinkAt(s, HOME + ALIAS.logical) && s[HOME + ALIAS.logical] == Link(true, HOME + TARGET)
    && SOURCE in s && s[SOURCE].File? && IsBare(s)
  }

  // What is not there, and what profiles there are.
  ghost predicate IsBare(s: Store) {
    && WellFormed(s) && WRITTEN !in s && HOME + ["made"] !in s
    && PROFILES + ["task-main"] !in s && PROFILES + ["aota-task-main"] !in s
    && (forall q | q in s :: "skills" !in q)
    && (forall q | q in s && q != [] && Parent(q) == PROFILES :: Last(q) == "p" || Last(q) == "x")
  }

  lemma NoSkills(q: Path)
    requires "skills" !in q
    ensures !UnderOrchestration(q)
  {}

  lemma ChildIsClear(s: Store, d: Path, n: Name)
    requires WellFormed(s) && IsDirAt(s, d) && n != UP
    ensures Clear(s, d + [n])
  {
    KeysArePlain(s, d);
    var p := d + [n];
    forall k | 0 <= k < |p|
      ensures p[..k] in s && s[p[..k]].Dir?
    {
      assert p[..k] == d[..k];
      if k < |d| {
        PrefixesAreDirs(s, d, k);
      } else {
        assert d[..k] == d;
      }
    }
  }

  lemma WrittenIsFree(s: Store)
    requires IsHost(s)
    ensures Clear(s, WRITTEN) && WRITTEN !in s && Clear(s, EXTRA) && EXTRA !in s
    ensures Clear(s, SOURCE) && NoTaskMain(s)
  {
    ChildIsClear(s, HOME + TARGET, "f");
    BelowMissing(s, HOME, "made", ["f"]);
    KeysAreClear(s, SOURCE);
  }

  // The managed names are told apart by their second components.
  lemma NamesDiffer()
    ensures WRITTEN[0] == EXTRA[0] == "r" && WRITTEN[1] == "plugins" && EXTRA[1] == "made" && SOURCE[0] == "src"
    ensures forall d | d in OrphanNames() :: |d| == 6 && d[0] == "r" && d[1] == "profiles"
  {
    forall j: nat
      ensures |HOME + OrphanPath(j)| == 6 && (HOME + OrphanPath(j))[0] == "r" && (HOME + OrphanPath(j))[1] == "profiles"
    {
      assert (HOME + OrphanPath(j))[1] == OrphanPath(j)[0];
    }
  }

  lemma PrefixSharesSecond(d: Path, e: Path)
    requires d < e && |d| > 1
    ensures d[1] == e[1] && |d| < |e|
  {}

  lemma ManagedApart(d: Path, e: Path)
    requires d in Managed().managed && e in Managed().managed
    ensures !(d < e)
  {
    NamesDiffer();
    if d < e {
      PrefixSharesSecond(d, e);
    }
  }

  lemma OrphanIsFree(s: Store, d: Path)
    requires NoTaskMain(s) && d in OrphanNames()
    ensures Clear(s, d) && d !in s
  {
    var j :| 0 <= j < AUTHORIZED_COUNT && HOME + OrphanPath(j) == d;
    ListedIsMissing(s, j);
  }

  lemma ManagedIsFree(s: Store, d: Path)
    requires IsHost(s) && d in Managed().managed
    ensures Clear(s, d) && d !in s
  {
    WrittenIsFree(s);
    if d in OrphanNames() {
      OrphanIsFree(s, d);
    }
  }

  lemma ManagedOffSource(d: Path)
    requires d in Managed().managed
    ensures !(d <= SOURCE)
  {
    NamesDiffer();
    assert d[0] == "r" && d != [];
  }

  lemma HostIsQuiet(s: Store)
    requires IsHost(s)
    ensures Quiet(s, Managed())
  {
    WrittenIsFree(s);
    forall d | d in Managed().managed
      ensures Clear(s, d) && d !in s && !(d <= SOURCE)
    {
      ManagedIsFree(s, d);
      ManagedOffSource(d);
    }
    forall d, e | d in Managed().managed && e in Managed().managed
      ensures !(d < e)
    {
      ManagedApart(d, e);
    }
  }

  lemma {:induction false} NameBytesThen(p: Path, n: Name)
    ensures NameBytes(p + [n]) == NameBytes(p) + 1 + |n|
  {
    ParentOfChild(p, n);
  }

  lemma BytesOfMore(p: Path, a: Name, b: Name)
    ensures NameBytes(p + [a, b]) == NameBytes(p) + 2 + |a| + |b|
  {
    NameBytesThen(p, a);
    NameBytesThen(p + [a], b);
    assert p + [a] + [b] == p + [a, b];
  }

  lemma ShortNames()
    ensures !TooLong(HOME + ALIAS.logical) && !TooLong(HOME + TARGET)
  {
    NameBytesThen([], "r");
    assert [] + ["r"] == HOME;
    BytesOfMore(HOME, "plugins", "aota-tools");
    BytesOfMore(HOME, "profiles", "p");
    BytesOfMore(HOME + ["profiles", "p"], "plugins", "aota-tools");
    assert HOME + ["profiles", "p"] + ["plugins", "aota-tools"] == HOME + ALIAS.logical;
  }

  lemma NothingSpared(s: Store)
    requires forall q | q in s :: "skills" !in q
    ensures Spared(s) == s
  {
    forall q | q in s
      ensures !UnderOrchestration(q)
    {
      NoSkills(q);
    }
  }

  lemma AliasIsWellFormed()
    ensures WellFormedContract([ALIAS]) && ALIAS.logical == LogicalOf("p") && Declared([ALIAS], LogicalOf("p"))
  {
    assert ALIAS.logical[1] == "p";
    assert [ALIAS][0].logical == LogicalOf("p");
  }

  lemma AliasHolds(s: Store, hops: nat)
    requires IsHost(s) && hops > 0
    ensures Holds(s, HOME, ALIAS, hops)
  {
    ShortNames();
    AliasIsWellFormed();
    StraightLinkHolds(s, HOME, ALIAS, hops);
  }

  lemma AliasIsStable(s: Store, hops: nat)
    requires IsHost(s) && hops > 0
    ensures AliasesStable(s, HOME, [ALIAS], hops)
  {
    AliasIsWellFormed();
    AliasHolds(s, hops);
    NothingSpared(s);
    NoSkills(HOME);
  }

  // With "p" as the only profile, nothing is undeclared.
  lemma OnlyDeclared(g: Store, hops: nat)
    requires WellFormed(g) && IsDirAt(g, PROFILES)
    requires forall q | q in g && q != [] && Parent(q) == PROFILES :: Last(q) == "p"
    ensures NoneUndeclared(g, HOME, [ALIAS], hops)
  {
    PhysicalWalk(g, PROFILES, hops);
    AliasIsWellFormed();
  }

  // The directories that the copies make are no profiles.
  lemma GrownProfiles(s: Store, q: Path)
    requires q in Grown(s, {WRITTEN, EXTRA}) && q !in s
    ensures |q| < 2 || q[1] != "profiles"
  {
    NamesDiffer();
    var d, k :| d in {WRITTEN, EXTRA} && 0 <= k < |d| && d[..k] == q;
    assert k > 1 ==> q[1] == d[1];
  }

  lemma ChildOfProfiles(q: Path)
    requires q != [] && Parent(q) == PROFILES
    ensures |q| == 3 && q[1] == "profiles"
  {
    assert q[1] == PROFILES[1] == "profiles";
  }

  /* ---- The plan ---- */

  ghost function ThePlan(): seq<Entry> {
    var es, c := Entries(), [ALIAS];
    seq(|es|, i requires 0 <= i < |es| => WithDefaults(Marked(es, Targets(es, c, HOME), i, |es|)))
  }

  lemma {:induction false} NoCopyBehind(a: seq<Entry>, b: seq<Entry>, d: Path, n: nat)
    requires n <= |b| && forall i | 0 <= i < |b| :: !b[i].kind.Copy?
    ensures LastCopy(a + b, d, |a| + n) == LastCopy(a, d, |a|)
  {
    if n > 0 {
      NoCopyBehind(a, b, d, n - 1);
      assert (a + b)[|a| + n - 1] == b[n - 1];
    } else {
      SameLastCopy(a, b, d, |a|);
    }
  }

  lemma {:induction false} SameLastCopy(a: seq<Entry>, b: seq<Entry>, d: Path, n: nat)
    requires n <= |a|
    ensures LastCopy(a + b, d, n) == LastCopy(a, d, n)
  {
    if n > 0 {
      SameLastCopy(a, b, d, n - 1);
    }
  }

  lemma EntryAt(i: nat)
    requires i < |Entries()|
    ensures Entries()[i] == if i < 3 then Copies()[i] else Removal(i - 3)
  {}

  // Only the second entry is projected, and the first one owns its write.
  lemma SecondIsProjected()
    ensures forall i | 0 <= i < |Entries()| :: IsProjected([ALIAS], Entries()[i]) <==> i == 1
    ensures TargetOf(Entries(), [ALIAS], HOME, 1) == Some(Target(WRITTEN, 0))
  {
    var es, c := Entries(), [ALIAS];
    forall i | 0 <= i < |es|
      ensures IsProjected(c, es[i]) <==> i == 1
    {
      EntryAt(i);
      ProjectedOnly(i);
    }
    EntryAt(1);
    assert Physical(c, HOME, es[1]) == WRITTEN;
    forall i | 0 <= i < |Removals()|
      ensures !Removals()[i].kind.Copy?
    {
      assert Removals()[i] == Removal(i);
    }
    NoCopyBehind(Copies(), Removals(), WRITTEN, |Removals()|);
    FirstWrites();
  }

  lemma ProjectedOnly(i: nat)
    requires i < |Entries()| && Entries()[i] == if i < 3 then Copies()[i] else Removal(i - 3)
    ensures IsProjected([ALIAS], Entries()[i]) <==> i == 1
  {
    assert ProjectionFor([ALIAS], None) == None && ProjectionFor([ALIAS], Some("p")) == Some(ALIAS);
    if i == 1 {
      assert Entries()[1].id[2] == "plugin";
      assert NamesPlugin(Entries()[1].id);
    }
  }

  lemma FirstWrites()
    ensures LastCopy(Copies(), WRITTEN, 3) == Some(0)
  {
    NamesDiffer();
    assert SEEN[1] == "profiles";
    assert LastCopy(Copies(), WRITTEN, 1) == Some(0);
    assert LastCopy(Copies(), WRITTEN, 2) == LastCopy(Copies(), WRITTEN, 1);
    assert LastCopy(Copies(), WRITTEN, 3) == LastCopy(Copies(), WRITTEN, 2);
  }

  lemma EntriesArePlannable()
    ensures GoodPlan(Entries(), ThePlan(), [ALIAS], HOME)
  {
    var es, c := Entries(), [ALIAS];
    SecondIsProjected();
    forall i | 0 <= i < |es|
      ensures es[i].Unplanned() && (es[i].kind.Copy? ==> es[i].source == SOURCE)
      ensures OwnerExists(es, c, HOME, i) && OwnerWrites(es, c, HOME, i)
    {
      EntryAt(i);
    }
  }

  // What matters about the plan: two entries write, one is seen through the
  // alias, and the others remove.
  ghost predicate IsHostPlan(plan: seq<Entry>) {
    EndsWithRemovals(plan, 3) && StartsWithCopies(plan) && plan[1].verifyProjection == Some(true)
  }

  ghost predicate StartsWithCopies(plan: seq<Entry>) {
    && |plan| >= 3 && plan[0].Writes() && plan[1].IsAlias() && plan[2].Writes()
    && IsHostCopy(plan[0], ["global", "f"], WRITTEN) && IsHostCopy(plan[1], PluginId("p", ["f"]), SEEN)
    && IsHostCopy(plan[2], ["extra", "f"], EXTRA)
    && plan[1].writeOwner == Some(["global", "f"])
  }

  predicate IsHostCopy(e: Entry, id: Path, destination: Path) {
    && e.kind.Copy? && e.source == SOURCE && e.managed && e.root == HOME && e.id == id && e.destination == destination
    && !e.orphan
  }

  lemma PlanIsHosts()
    ensures IsHostPlan(ThePlan())
  {
    CopiesArePlanned();
    RemovalsArePlanned();
    ViewIsVerified();
    FirstAreNoCleanups(ThePlan());
  }

  lemma FirstAreNoCleanups(plan: seq<Entry>)
    requires StartsWithCopies(plan) && |plan| == 3 + AUTHORIZED_COUNT
    requires forall i | 3 <= i < |plan| :: RemovesListed(plan[i], i - 3)
    ensures EndsWithRemovals(plan, 3)
  {}

  lemma RemovalsArePlanned()
    ensures |ThePlan()| == 3 + AUTHORIZED_COUNT
    ensures forall i | 3 <= i < |ThePlan()| :: RemovesListed(ThePlan()[i], i - 3)
  {
    var es, plan, c := Entries(), ThePlan(), [ALIAS];
    EntriesArePlannable();
    SecondIsProjected();
    forall i | 3 <= i < |plan|
      ensures RemovesListed(plan[i], i - 3)
    {
      EntryAt(i);
      PlanEntry(es, plan, c, HOME, i);
    }
  }

  lemma CopiesArePlanned()
    ensures StartsWithCopies(ThePlan())
  {
    var es, plan, c := Entries(), ThePlan(), [ALIAS];
    EntriesArePlannable();
    SecondIsProjected();
    forall i: nat | i < 3
      ensures es[i] == Copies()[i] && Base(plan[i]) == es[i] && (plan[i].IsAlias() <==> i == 1)
      ensures plan[i].Writes() <==> i != 1
    {
      EntryAt(i);
      PlanEntry(es, plan, c, HOME, i);
    }
    PlanEntry(es, plan, c, HOME, 1);
  }

  lemma ViewIsVerified()
    ensures ThePlan()[1].verifyProjection == Some(true)
  {
    var es, ts := Entries(), Targets(Entries(), [ALIAS], HOME);
    EntriesArePlannable();
    SecondIsProjected();
    assert ts[1] == Some(Target(WRITTEN, 0));
    AliasListsItself(es, [ALIAS], HOME, 1);
  }

  lemma CopiesOfPlan(plan: seq<Entry>)
    requires IsHostPlan(plan)
    ensures forall i | 0 <= i < |plan| :: plan[i].kind.Copy? <==> i < 3
    ensures forall i | 0 <= i < |plan| :: plan[i].Writes() <==> i == 0 || i == 2
    ensures forall i | 0 <= i < |plan| :: plan[i].IsAlias() <==> i == 1
  {
    assert forall i | 3 <= i < |plan| :: RemovesListed(plan[i], i - 3);
  }

  lemma PlanNames(plan: seq<Entry>)
    requires IsHostPlan(plan)
    ensures WrittenNames(plan) == {WRITTEN, EXTRA} && OriginalsOf(plan) == Managed().managed
  {
    CopiesOfPlan(plan);
    assert plan[0].destination in WrittenNames(plan) && plan[2].destination in WrittenNames(plan);
    forall d | d in OriginalsOf(plan)
      ensures d in Managed().managed
    {
      var i :| 0 <= i < |plan| && !plan[i].IsAlias() && Original(plan[i]) == d;
      if i >= 3 {
        assert RemovesListed(plan[i], i - 3);
        assert HOME + OrphanPath(i - 3) in OrphanNames();
      }
    }
    forall d | d in Managed().managed
      ensures d in OriginalsOf(plan)
    {
      assert Original(plan[0]) == WRITTEN && Original(plan[2]) == EXTRA;
      if d in OrphanNames() {
        var j :| 0 <= j < AUTHORIZED_COUNT && HOME + OrphanPath(j) == d;
        assert RemovesListed(plan[j + 3], j + 3 - 3);
        assert Original(plan[j + 3]) == d;
      }
    }
  }

  lemma BelowHome(d: Path)
    requires d in Managed().managed || d == SEEN
    ensures HOME < d
  {
    NamesDiffer();
    assert SEEN[0] == "r" && |SEEN| > 1;
    assert d[..1] == HOME;
  }

  lemma EntryIsReady(plan: seq<Entry>, i: nat)
    requires IsHostPlan(plan) && i < |plan|
    ensures EntryReady(Managed(), plan[i])
    ensures !plan[i].IsAlias() ==> Original(plan[i]) in Managed().managed && SafeRootOf(plan[i]) == HOME
    ensures plan[i].kind.Copy? ==> plan[i].source == SOURCE
  {
    if i >= 3 {
      assert RemovesListed(plan[i], i - 3);
      assert HOME + OrphanPath(i - 3) in OrphanNames();
    }
    BelowHome(Original(plan[i]));
  }

  lemma PlanIsReady(s: Store, plan: seq<Entry>, hops: nat)
    requires IsHost(s) && IsHostPlan(plan) && hops > 0
    ensures Ready(s, Managed(), plan, [ALIAS], HOME, hops) && SourcesPresent(s, plan)
  {
    HostIsQuiet(s);
    AliasIsStable(s, hops);
    PlanNames(plan);
    forall i | 0 <= i < |plan|
      ensures EntryReady(Managed(), plan[i]) && (plan[i].kind.Copy? ==> plan[i].source == SOURCE)
    {
      EntryIsReady(plan, i);
    }
    assert SourcesAgree(plan);
  }

  lemma IdsDiffer(plan: seq<Entry>, i: nat, j: nat)
    requires IsHostPlan(plan) && i < |plan| && j < |plan| && i != j
    ensures !(plan[i].id <= plan[j].id) && plan[i].id != [] && Plain(plan[i].id)
  {
    IdOf(plan, i);
    IdOf(plan, j);
  }

  lemma IdOf(plan: seq<Entry>, i: nat)
    requires IsHostPlan(plan) && i < |plan|
    ensures var id := plan[i].id;
      && id != [] && Plain(id)
      && (id[0] == if i == 0 then "global" else if i == 1 then "profile_runtime_assembly"
                   else if i == 2 then "extra" else "orphan")
      && (i >= 3 ==> |id| == 2 && |id[1]| == i - 2)
  {
    if i >= 3 {
      assert RemovesListed(plan[i], i - 3);
      assert |Letters(i - 3)| == i - 2 && Letters(i - 3)[0] == 'f';
    }
  }

  lemma {:induction false} OwnerIsFirst(plan: seq<Entry>, n: nat)
    requires IsHostPlan(plan) && 0 < n <= |plan|
    ensures LastWithId(plan, ["global", "f"], n) == Some(0)
  {
    if n > 1 {
      IdsDiffer(plan, 0, n - 1);
      OwnerIsFirst(plan, n - 1);
    }
  }

  lemma PlanIsBackable(s: Store, plan: seq<Entry>, hops: nat)
    requires IsHost(s) && IsHostPlan(plan)
    ensures IdsApart(plan) && Backable(s, plan, |plan|, hops)
  {
    forall i, j | 0 <= i < |plan| && 0 <= j < |plan| && i != j
      ensures !(plan[i].id <= plan[j].id) && plan[i].id != [] && Plain(plan[i].id)
    {
      IdsDiffer(plan, i, j);
    }
    forall i | 0 <= i < |plan|
      ensures EntryBackable(s, plan, i, hops) && plan[i].id != [] && Plain(plan[i].id)
    {
      IdOf(plan, i);
      EntryIsBackable(s, plan, i, hops);
    }
  }

  lemma EntryIsBackable(s: Store, plan: seq<Entry>, i: nat, hops: nat)
    requires IsHost(s) && IsHostPlan(plan) && i < |plan|
    ensures EntryBackable(s, plan, i, hops)
  {
    CopiesOfPlan(plan);
    if i == 1 {
      OwnerIsFirst(plan, |plan|);
    } else {
      EntryIsReady(plan, i);
      var d := Original(plan[i]);
      ManagedIsFree(s, d);
      BelowHome(d);
      ClearLookups(s, d, hops);
      ClearIsSafe(s, d, HOME, hops);
    }
  }

  lemma {:induction false} ProjectedIsFound(plan: seq<Entry>, n: nat, i: nat)
    requires i < n <= |plan| && plan[i].verifyProjection == Some(true)
    ensures FirstProjected(plan, n).Some?
  {
    if i < n - 1 {
      ProjectedIsFound(plan, n - 1, i);
    }
  }

  lemma ProjectedRelatives()
    ensures forall i | 0 <= i < |Entries()| && IsProjected([ALIAS], Entries()[i]) :: Entries()[i].relative == ["f"]
  {
    SecondIsProjected();
    EntryAt(1);
  }

  lemma ViewIsFirst()
    ensures var o := FirstProjected(ThePlan(), |ThePlan()|); o.Some? && Entries()[o.value].relative == ["f"]
  {
    var es, plan := Entries(), ThePlan();
    EntriesArePlannable();
    ViewIsVerified();
    ProjectedIsFound(plan, |plan|, 1);
    AliasIsWellFormed();
    ProjectedTarget(es, plan, [ALIAS], HOME, FirstProjected(plan, |plan|).value);
    ProjectedRelatives();
  }

  lemma RootIsRecorded()
    ensures RootRecorded(ThePlan(), HOME) && FirstTarget(ThePlan()).Some?
  {
    EntriesArePlannable();
    AliasIsWellFormed();
    ProjectedRelatives();
    ViewIsFirst();
    RootRecordedExactly(Entries(), ThePlan(), [ALIAS], HOME);
  }

  lemma ViewIsNamed()
    ensures forall i | 0 <= i < |Entries()| && IsProjected([ALIAS], Entries()[i]) ::
      NamedUnderAlias([ALIAS], HOME, Entries()[i])
    ensures SharedSources(Entries(), [ALIAS], HOME)
  {
    SecondIsProjected();
    EntryAt(0);
    EntryAt(1);
    assert ProjectionFor([ALIAS], Some("p")) == Some(ALIAS);
    assert NamedUnderAlias([ALIAS], HOME, Entries()[1]);
  }

  lemma PlanIsRunnable(s: Store, hops: nat)
    requires Quiet(s, Managed()) && Covers(Managed(), ThePlan()) && AliasesStable(s, HOME, [ALIAS], hops)
    requires SourcesPresent(s, ThePlan())
    ensures Runnable(s, Managed(), Entries(), ThePlan(), [ALIAS], HOME, hops) && SharedSources(Entries(), [ALIAS], HOME)
  {
    EntriesArePlannable();
    ViewIsNamed();
  }

  /* ---- A run on this host ---- */

  // The hypotheses of the transaction and of writing once.
  ghost predicate MeetsHypotheses(s: Store, w: Scope, es: seq<Entry>, plan: seq<Entry>, c: Contract, root: Path,
      hops: nat) {
    && Runnable(s, w, es, plan, c, root, hops) && Ready(s, w, plan, c, root, hops)
    && RootRecorded(plan, root) && FirstTarget(plan).Some? && IdsApart(plan) && SharedSources(es, c, root)
  }

  lemma HostMeetsThem(s: Store, hops: nat)
    requires IsHost(s) && hops > 0
    ensures MeetsHypotheses(s, Managed(), Entries(), ThePlan(), [ALIAS], HOME, hops)
    ensures ContractHolds(s, HOME, [ALIAS], hops) ==> MayStart(s, ThePlan(), [ALIAS], HOME, Items(), {}, hops)
  {
    PlanIsHosts();
    PlanIsReady(s, ThePlan(), hops);
    PlanIsRunnable(s, hops);
    PlanIsBackable(s, ThePlan(), hops);
    RootIsRecorded();
    WrittenIsFree(s);
    NothingListed(s, ThePlan(), 3, hops);
  }

  // The host on which the only profile is the declared one.
  ghost predicate IsSample(s: Store) {
    IsHost(s) && forall q | q in s && q != [] && Parent(q) == PROFILES :: Last(q) == "p"
  }

  lemma SampleUncoversNothing(s: Store, hops: nat)
    requires IsSample(s) && hops > 0
    ensures ContractHolds(s, HOME, [ALIAS], hops) && !Uncovers(s, ThePlan(), HOME, [ALIAS], hops)
  {
    var plan := ThePlan();
    PlanIsHosts();
    PlanNames(plan);
    HostIsQuiet(s);
    AliasIsStable(s, hops);
    OnlyDeclared(s, hops);
    StageStart(s, Managed());
    AliasesKept(s, s, HOME, [ALIAS], hops);
    GrownWellFormed(s, {WRITTEN, EXTRA});
    forall q | q in Grown(s, {WRITTEN, EXTRA}) && q != [] && Parent(q) == PROFILES
      ensures Last(q) == "p"
    {
      ChildOfProfiles(q);
      if q !in s {
        GrownProfiles(s, q);
      }
    }
    OnlyDeclared(Grown(s, {WRITTEN, EXTRA}), hops);
    PlanIsReady(s, plan, hops);
    NoneBefore(s, Managed(), plan, |plan|, HOME, [ALIAS], hops);
  }

  // However a calm run on the sample ends, it is a success.
  lemma SampleDeploys(s: Store, t: Store, u: Store, r: Result, hops: nat)
    requires IsSample(s) && hops > 0
    requires Ends(s, t, u, Managed(), ThePlan(), [ALIAS], HOME, Items(), {}, true, true, r, hops)
    ensures MayStart(s, ThePlan(), [ALIAS], HOME, Items(), {}, hops) && r.Deployed?
  {
    HostMeetsThem(s, hops);
    SampleUncoversNothing(s, hops);
    RollbackFailsExactly(s, t, u, Managed(), ThePlan(), [ALIAS], HOME, Items(), {}, true, r, hops);
    if r.RolledBack? {
      OnlyForeignChecksFail(s, t, Managed(), Entries(), ThePlan(), [ALIAS], HOME, Items(), {}, true, r.cause.check,
                            hops);
      StillNoTaskMain(s, t);
      PlanIsHosts();
      NothingListed(t, ThePlan(), 3, hops);
    }
  }

  // The copies make no directory of task-main.
  lemma StillNoTaskMain(s: Store, t: Store)
    requires IsHost(s) && CopiedTo(s, t, Managed(), ThePlan(), |ThePlan()|)
    ensures NoTaskMain(t)
  {
    var plan := ThePlan();
    PlanIsHosts();
    PlanNames(plan);
    WriteMapKeys(plan, |plan|);
    StillMissing(s, t, WriteMap(plan, |plan|), "task-main");
    StillMissing(s, t, WriteMap(plan, |plan|), "aota-task-main");
  }

  lemma StillMissing(s: Store, t: Store, m: map<Path, Path>, n: Name)
    requires Shows(s, t, Managed(), m) && m.Keys == {WRITTEN, EXTRA} && PROFILES + [n] !in s
    ensures PROFILES + [n] !in t
  {
    var q := PROFILES + [n];
    NamesDiffer();
    assert q[1] == "profiles";
    if q in Grown(s, m.Keys) {
      GrownProfiles(s, q);
    }
    assert q !in Files(s) && q !in Overlaid(Files(s), m);
    DirOrFile(t, q);
  }

  lemma DirOrFile(t: Store, q: Path)
    ensures q in t ==> IsDirAt(t, q) || q in Files(t)
  {}

  /* ---- Such a host ---- */

  // Names under which a host may have nodes.
  predicate FitsHost(d: Path) {
    && d != [] && Plain(d) && "skills" !in d
    && !(WRITTEN <= d) && !(HOME + ["made"] <= d)
    && !(PROFILES + ["task-main"] <= d) && !(PROFILES + ["aota-task-main"] <= d)
    && (PROFILES < d ==> d[2] == "p" || d[2] == "x")
  }

  function HostPlants(): seq<Plant> {
    [Plant(HOME + TARGET + ["old"], File("old", 420)), Plant(HOME + ALIAS.logical, Link(true, HOME + TARGET)),
     Plant(SOURCE, File("tool", 420))]
  }

  lemma OnTheWayFits(s: Store, ps: seq<Plant>, q: Path)
    requires HoldsOnly(s, ps) && q in s && forall i | 0 <= i < |ps| :: FitsHost(ps[i].at)
    ensures q != WRITTEN && q != HOME + ["made"] && "skills" !in q
    ensures q != PROFILES + ["task-main"] && q != PROFILES + ["aota-task-main"]
    ensures q != [] && Parent(q) == PROFILES ==> OnTheWay(ps, q) && (Last(q) == "p" || Last(q) == "x")
  {
    if q != [] {
      assert OnTheWay(ps, q);
      var i :| 0 <= i < |ps| && q <= ps[i].at;
      assert FitsHost(ps[i].at);
      if Parent(q) == PROFILES {
        ChildOfProfiles(q);
        assert q[..2] == PROFILES && Last(q) == ps[i].at[2] && PROFILES < ps[i].at;
      }
    }
  }

  lemma IsAHost(s: Store, ps: seq<Plant>)
    requires HoldsOnly(s, ps) && |ps| >= 3 && ps[..3] == HostPlants()
    requires forall i | 0 <= i < |ps| :: FitsHost(ps[i].at)
    ensures IsHost(s)
  {
    assert ps[0] == HostPlants()[0] && ps[1] == HostPlants()[1] && ps[2] == HostPlants()[2];
    HostDirs(s);
    forall q | q in s
      ensures q != WRITTEN && q != HOME + ["made"] && "skills" !in q
      ensures q != PROFILES + ["task-main"] && q != PROFILES + ["aota-task-main"]
      ensures q != [] && Parent(q) == PROFILES ==> Last(q) == "p" || Last(q) == "x"
    {
      OnTheWayFits(s, ps, q);
    }
  }

  lemma HostDirs(s: Store)
    requires WellFormed(s) && HOME + TARGET + ["old"] in s && HOME + ALIAS.logical in s
    ensures IsDirAt(s, HOME) && IsDirAt(s, HOME + TARGET) && IsDirAt(s, PROFILES)
  {
    var p, q := HOME + TARGET + ["old"], HOME + ALIAS.logical;
    assert p[..3] == HOME + TARGET && p[..1] == HOME && q[..2] == PROFILES;
    PrefixesAreDirs(s, p, 3);
    PrefixesAreDirs(s, p, 1);
    PrefixesAreDirs(s, q, 2);
  }

  lemma FitsByNames(d: Path)
    requires d != [] && Plain(d) && "skills" !in d
    requires |d| > 1 && d[0] == "r" ==> d[1] != "made"
    requires |d| > 3 && d[0] == "r" && d[1] == "plugins" ==> d[3] != "f"
    requires |d| > 2 && d[0] == "r" && d[1] == "profiles" ==> d[2] == "p" || d[2] == "x"
    ensures FitsHost(d)
  {
    NamesDiffer();
    assert WRITTEN[3] == "f" && PROFILES[0] == "r" && PROFILES[1] == "profiles";
    assert (HOME + ["made"])[0] == "r" && (HOME + ["made"])[1] == "made";
    assert (PROFILES + ["task-main"])[2] == "task-main" && (PROFILES + ["aota-task-main"])[2] == "aota-task-main";
  }

  lemma HostNames()
    ensures HOME + TARGET + ["old"] == ["r", "plugins", "aota-tools", "old"]
    ensures HOME + ALIAS.logical == ["r", "profiles", "p", "plugins", "aota-tools"]
  {}

  lemma HostPlantsFit()
    ensures Plantable(HostPlants()) && forall i | 0 <= i < 3 :: FitsHost(HostPlants()[i].at)
  {
    HostNames();
    FitsByNames(HOME + TARGET + ["old"]);
    FitsByNames(HOME + ALIAS.logical);
    FitsByNames(SOURCE);
    assert (HOME + TARGET + ["old"])[1] == "plugins" && (HOME + ALIAS.logical)[1] == "profiles";
  }

  // The host with these nodes is the sample.
  ghost function Tree(hops: nat): Store {
    Planted(HostPlants(), hops)
  }

  lemma TreeIsSample(hops: nat)
    ensures IsSample(Tree(hops))
  {
    var s, ps := Tree(hops), HostPlants();
    HostPlantsFit();
    PlantedHolds(ps, hops);
    IsAHost(s, ps);
    forall q | q in s && q != [] && Parent(q) == PROFILES
      ensures Last(q) == "p"
    {
      OnTheWayFits(s, ps, q);
      var i :| 0 <= i < 3 && q <= ps[i].at;
      OnlyProfile(i, q);
    }
  }

  lemma OnlyProfile(i: nat, q: Path)
    requires i < 3 && q <= HostPlants()[i].at && q != [] && Parent(q) == PROFILES
    ensures Last(q) == "p"
  {
    var d := HostPlants()[i].at;
    ChildOfProfiles(q);
    HostNames();
    assert q[1] == d[1] && q[2] == d[2];
  }

  // The hypotheses can all be met at once, with an alias in the plan.
  lemma HypothesesCanBeMet(hops: nat)
    requires hops > 0
    ensures MeetsHypotheses(Tree(hops), Managed(), Entries(), ThePlan(), [ALIAS], HOME, hops) && ThePlan()[1].IsAlias()
    ensures MayStart(Tree(hops), ThePlan(), [ALIAS], HOME, Items(), {}, hops)
  {
    TreeIsSample(hops);
    PlanIsHosts();
    HostMeetsThem(Tree(hops), hops);
    SampleUncoversNothing(Tree(hops), hops);
  }
}
