// Two runs on a host where a listed file has changed: one removes it, the other
// puts it back without its special mode bits.
module Drifted {
  import opened Paths
  import opened FileStore
  import opened Projections
  import opened Planner
  import opened SafePaths
  import opened Staging
  import opened Copying
  import opened Backup
  import opened Rollback
  import opened Orphans
  import opened Allowlist
  import opened Planting
  import opened Deploy
  import opened Transaction

  function Removed(): Scope {
    Scope(OriginalsOf(Removals()), OriginalsOf(Removals()), {}, {})
  }

  // The first listed file has changed, its renamed twin has the recorded
  // content, and nothing else is there but the directories above them.
  const DRIFTED: Path := HOME + OrphanPath(0)
  const RECORDED: Path := HOME + Twin(0)

  function DriftPlants(mode: nat): seq<Plant> {
    [Plant(DRIFTED, File("changed", mode)), Plant(RECORDED, File("recorded", 420))]
  }

  ghost predicate IsDrift(s: Store) {
    && WellFormed(s) && DRIFTED in s && s[DRIFTED].File? && s[DRIFTED].content == "changed"
    && RECORDED in s && s[RECORDED] == File("recorded", 420)
    && forall q | q in s :: q <= DRIFTED || q <= RECORDED
  }

  lemma DriftIsThere(mode: nat, hops: nat)
    ensures var s := Planted(DriftPlants(mode), hops); IsDrift(s) && s[DRIFTED].mode == mode
  {
    var s, ps := Planted(DriftPlants(mode), hops), DriftPlants(mode);
    DriftNames();
    PlantedHolds(ps, hops);
    assert ps[0].at in s && ps[1].at in s;
    forall q | q in s
      ensures q <= DRIFTED || q <= RECORDED
    {
      assert q != [] ==> OnTheWay(ps, q);
    }
  }

  lemma DriftNames()
    ensures |DRIFTED| == |RECORDED| == 6 && DRIFTED[0] == RECORDED[0] == "r"
    ensures DRIFTED[2] == "task-main" && RECORDED[2] == "aota-task-main"
    ensures DRIFTED[5] == RECORDED[5] == Letters(0) && Plain(DRIFTED) && Plain(RECORDED)
  {
    assert DRIFTED[2] == OrphanPath(0)[1] && RECORDED[2] == Twin(0)[1];
    assert DRIFTED[5] == OrphanPath(0)[4] && RECORDED[5] == Twin(0)[4];
    assert Letters(0)[0] == 'f' && UP[0] == '.';
  }

  // The names of the other listed files, and of their twins, are not there.
  lemma OthersMissing(s: Store, j: nat)
    requires IsDrift(s)
    ensures j > 0 ==> HOME + OrphanPath(j) !in s && HOME + Twin(j) !in s
    ensures HOME + OrphanPath(j) in s ==> s[HOME + OrphanPath(j)].File?
  {
    var p, q := HOME + OrphanPath(j), HOME + Twin(j);
    DriftNames();
    assert p[5] == OrphanPath(j)[4] == Letters(j) && q[5] == Twin(j)[4] == Letters(j);
    assert p[2] == OrphanPath(j)[1] == "task-main" && q[2] == Twin(j)[1] == "aota-task-main";
    assert |Letters(j)| == j + 1;
  }

  lemma NamesAreClear(s: Store, j: nat)
    requires IsDrift(s)
    ensures Clear(s, HOME + OrphanPath(j)) && Clear(s, HOME + Twin(j))
  {
    assert Letters(j)[0] == 'f' && UP[0] == '.';
    ClearBeside(s, DRIFTED, HOME + OrphanPath(j));
    ClearBeside(s, RECORDED, HOME + Twin(j));
  }

  // A name in the directory of a file that is there is clear.
  lemma ClearBeside(s: Store, p: Path, q: Path)
    requires WellFormed(s) && p in s && q != [] && p != [] && Parent(p) == Parent(q) && Last(q) != UP
    ensures Clear(s, q)
  {
    KeysArePlain(s, p);
    JoinParentLast(q);
    assert forall n | n in Parent(q) :: n in p;
    forall k | 0 <= k < |q|
      ensures q[..k] in s && s[q[..k]].Dir?
    {
      assert q[..k] == Parent(q)[..k] == p[..k];
      PrefixesAreDirs(s, p, k);
    }
  }

  lemma NoLinksInDrift(s: Store, q: Path)
    requires IsDrift(s)
    ensures !IsLinkAt(s, q)
  {
    if q in s {
      if q < DRIFTED {
        PrefixesAreDirs(s, DRIFTED, |q|);
        assert DRIFTED[..|q|] == q;
      } else if q < RECORDED {
        PrefixesAreDirs(s, RECORDED, |q|);
        assert RECORDED[..|q|] == q;
      } else {
        assert q == DRIFTED || q == RECORDED;
      }
    }
  }

  lemma ListedItemHolds(s: Store, j: nat, hops: nat)
    requires IsDrift(s)
    ensures ItemHolds(s, HOME, ListedItem(j), {}, {}, hops)
  {
    var item, p, q := ListedItem(j), HOME + OrphanPath(j), HOME + Twin(j);
    RenamedIsTwin(j);
    NamesAreClear(s, j);
    ClearLookups(s, p, hops);
    ClearLookups(s, q, hops);
    if j == 0 {
      assert ["gone"] !in s by {
        DriftNames();
        assert ["gone"][0] == "gone";
      }
      assert q[..5] == HOME + ["profiles", "aota-task-main", "skills", "x"];
      AliasItemHolds(s, HOME, item, q, hops);
    } else {
      OthersMissing(s, j);
      assert !Present(s, CheckedPath(s, HOME, item, hops), hops);
    }
  }

  lemma NoPackagePaths()
    ensures PackagePaths(Removals()) == {}
  {
    forall i | 0 <= i < |Removals()|
      ensures Removals()[i].orphan
    {
      assert Removals()[i] == Removal(i);
    }
  }

  lemma DriftEvidence(s: Store, hops: nat)
    requires IsDrift(s)
    ensures EvidenceHolds(s, HOME, Removals(), Items(), {}, hops)
  {
    OnlyRemovals();
    AllowlistIsExact(Removals(), 0);
    NoPackagePaths();
    forall i | 0 <= i < |Items()|
      ensures ItemHolds(s, HOME, Items()[i], {}, {}, hops)
    {
      ListedItemHolds(s, i, hops);
    }
  }

  lemma DriftIsQuiet(s: Store)
    requires IsDrift(s)
    ensures Quiet(s, Removed())
  {
    var plan := Removals();
    forall d | d in OriginalsOf(plan)
      ensures Clear(s, d) && (d in s ==> s[d].File?) && |d| == 6
    {
      var i :| 0 <= i < |plan| && !plan[i].IsAlias() && Original(plan[i]) == d;
      NamesAreClear(s, i);
      OthersMissing(s, i);
    }
  }

  lemma DriftIsStable(s: Store, hops: nat)
    requires IsDrift(s)
    ensures AliasesStable(s, HOME, [], hops) && ContractHolds(s, HOME, [], hops)
  {
    assert IsDirAt(s, HOME) by {
      PrefixesAreDirs(s, DRIFTED, 1);
      assert DRIFTED[..1] == HOME;
    }
    forall n
      ensures !IsSymlink(s, HOME + LogicalOf(n), hops)
    {
      var l := Locate(s, HOME + LogicalOf(n), hops);
      if l.Found? {
        NoLinksInDrift(s, l.at);
      }
    }
  }

  lemma DriftIsReady(s: Store, hops: nat)
    requires IsDrift(s)
    ensures Ready(s, Removed(), Removals(), [], HOME, hops) && ContractHolds(s, HOME, [], hops)
    ensures Backable(s, Removals(), AUTHORIZED_COUNT, hops)
  {
    var plan := Removals();
    DriftIsQuiet(s);
    DriftIsStable(s, hops);
    assert WrittenNames(plan) == {};
    forall i | 0 <= i < |plan|
      ensures EntryReady(Removed(), plan[i]) && EntryBackable(s, plan, i, hops)
    {
      var d := plan[i].destination;
      assert d == Original(plan[i]) && d in OriginalsOf(plan);
      NamesAreClear(s, i);
      OthersMissing(s, i);
      ClearLookups(s, d, hops);
      ClearIsSafe(s, d, HOME, hops);
    }
  }

  ghost predicate OnlyRemoves(plan: seq<Entry>) {
    forall i | 0 <= i < |plan| :: plan[i].kind.Remove?
  }

  lemma {:induction false} NoWrites(plan: seq<Entry>, n: nat)
    requires OnlyRemoves(plan) && n <= |plan|
    ensures WriteMap(plan, n) == map[]
  {
    if n > 0 {
      NoWrites(plan, n - 1);
    }
  }

  lemma NothingWrittenBy(s: Store, plan: seq<Entry>, n: nat, root: Path, c: Contract, hops: nat)
    requires OnlyRemoves(plan) && n <= |plan|
    ensures WrittenBy(plan, n) == {} && WritersPresent(s, plan, n)
    ensures NoneUncovered(s, plan, n, root, c, hops) <==> NoneUndeclared(s, root, c, hops)
  {
    assert Grown(s, {}) == s;
  }

  lemma NothingLaidOver(s: Store)
    ensures Grown(s, {}) == s && Overlaid(Files(s), map[]) == Files(s) && s + Files(s) == s
  {}

  lemma AfterNoCopies(s: Store, plan: seq<Entry>, root: Path, c: Contract, hops: nat)
    requires OnlyRemoves(plan) && NoneUndeclared(s, root, c, hops)
    ensures AfterCopies(s, plan) == s && Overlaid(Files(s), WriteMap(plan, |plan|)) == Files(s)
    ensures !Uncovers(s, plan, root, c, hops) && WritersPresent(s, plan, |plan|)
  {
    NoWrites(plan, |plan|);
    NothingLaidOver(s);
    forall n: nat | n <= |plan|
      ensures WrittenBy(plan, n) == {} && !UncoversAt(s, plan, n, root, c, hops)
    {
      NothingWrittenBy(s, plan, n, root, c, hops);
    }
    NothingWrittenBy(s, plan, |plan|, root, c, hops);
  }

  // A run without copies and projections that may start fails only by the
  // assembly check.
  lemma OnlyTheAssembly(s: Store, t: Store, w: Scope, plan: seq<Entry>, c: Contract, root: Path, items: seq<Item>,
                        assemblyPaths: set<Path>, assemblyPasses: bool, check: Check, hops: nat)
    requires Ready(s, w, plan, c, root, hops) && OnlyRemoves(plan)
    requires MayStart(s, plan, c, root, items, assemblyPaths, hops)
    requires Expected(s, t, w, plan, c, root, items, assemblyPaths, assemblyPasses, check, hops)
    ensures check.AssemblyCheck? && !assemblyPasses
  {
    AfterNoCopies(s, plan, root, c, hops);
    if CopiedTo(s, t, w, plan, |plan|) {
      CopiedStore(s, t, w, plan, |plan|);
    }
    assert AliasesReadable(t, plan, |plan|, hops);
  }

  // A calm one is a success, or rolled back.
  lemma CalmRemovals(s: Store, t: Store, u: Store, w: Scope, plan: seq<Entry>, c: Contract, root: Path,
                     items: seq<Item>, assemblyPaths: set<Path>, assemblyPasses: bool, r: Result, hops: nat)
    requires Ready(s, w, plan, c, root, hops) && OnlyRemoves(plan) && FirstTarget(plan).None?
    requires MayStart(s, plan, c, root, items, assemblyPaths, hops)
    requires Ends(s, t, u, w, plan, c, root, items, assemblyPaths, assemblyPasses, true, r, hops)
    ensures r == if assemblyPasses then Deployed else RolledBack(Failed(AssemblyCheck))
    ensures Files(u) == if assemblyPasses then Files(s) - RemovedNames(plan, |plan|) else Reset(Files(s), s, w.managed)
  {
    NoWrites(plan, |plan|);
    if r.RolledBack? {
      OnlyTheAssembly(s, t, w, plan, c, root, items, assemblyPaths, assemblyPasses, r.cause.check, hops);
    } else {
      AfterNoCopies(s, plan, root, c, hops);
    }
  }

  lemma RemovalsAreNotProjected()
    ensures FirstTarget(Removals()).None?
  {
    var plan := Removals();
    assert forall i | 0 <= i < |plan| :: plan[i] == Removal(i);
  }

  lemma RemovesTheFirst()
    ensures DRIFTED in RemovedNames(Removals(), |Removals()|) && OnlyRemoves(Removals())
    ensures forall k | 0 <= k < |Items()| :: Items()[k].digest == Sha256("recorded")
  {
    assert Removals()[0].destination == DRIFTED;
  }

  // However a calm run from the drifted store ends, it is a success that has
  // removed the changed file, although no item records its hash.
  lemma DriftedFileIsRemoved(s: Store, t: Store, u: Store, r: Result, hops: nat)
    requires IsDrift(s)
    requires Ends(s, t, u, Removed(), Removals(), [], HOME, Items(), {}, true, true, r, hops)
    ensures r.Deployed? && DRIFTED in Files(s) && DRIFTED !in Files(u)
    ensures forall k | 0 <= k < |Items()| :: NodeDigest(s[DRIFTED]) != Items()[k].digest
  {
    DriftEvidence(s, hops);
    DriftIsReady(s, hops);
    RemovesTheFirst();
    RemovalsAreNotProjected();
    CalmRemovals(s, t, u, Removed(), Removals(), [], HOME, Items(), {}, true, r, hops);
    assert "changed" != "recorded";
  }

  // If the changed file has mode bits beyond the permissions, such as the
  // setuid bit, and the assembly check fails, every calm run is rolled back,
  // and the file is not what it was.
  lemma SpecialBitsAreLost(s: Store, t: Store, u: Store, r: Result, hops: nat)
    requires IsDrift(s) && s[DRIFTED].mode >= 512
    requires Ends(s, t, u, Removed(), Removals(), [], HOME, Items(), {}, false, true, r, hops)
    ensures r == RolledBack(Failed(AssemblyCheck))
    ensures DRIFTED in Files(u) && Files(u)[DRIFTED] == s[DRIFTED].(mode := PermBits(s[DRIFTED].mode)) != s[DRIFTED]
  {
    DriftEvidence(s, hops);
    DriftIsReady(s, hops);
    RemovesTheFirst();
    RemovalsAreNotProjected();
    CalmRemovals(s, t, u, Removed(), Removals(), [], HOME, Items(), {}, false, r, hops);
    DriftedIsManaged();
    ResetAt(Files(s), s, Removed().managed, DRIFTED);
  }

  lemma DriftedIsManaged()
    ensures DRIFTED in Removed().managed
  {
    assert Original(Removals()[0]) == DRIFTED;
  }

  lemma ResetAt(f: Store, s: Store, names: set<Path>, p: Path)
    requires p in names && p in s && s[p].File?
    ensures p in Reset(f, s, names) && Reset(f, s, names)[p] == s[p].(mode := PermBits(s[p].mode))
  {}

  // The file comes back without its setuid bit: from mode 4755 to 755.
  lemma SetuidIsLost(t: Store, u: Store, r: Result, hops: nat)
    requires Ends(Planted(DriftPlants(2541), hops), t, u, Removed(), Removals(), [], HOME, Items(), {}, false, true, r,
                  hops)
    ensures r.RolledBack? && DRIFTED in Files(u) && Files(u)[DRIFTED] == File("changed", 493)
  {
    DriftIsThere(2541, hops);
    SpecialBitsAreLost(Planted(DriftPlants(2541), hops), t, u, r, hops);
  }
}
