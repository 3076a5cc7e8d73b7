// The deployment plan: entries, and `apply_projection_plan`, which turns many
// logical plugin destinations into one physical write with an owner.
module Planner {
  import opened Paths
  import opened Options
  import opened PathText
  import opened Substrings
  import opened Projections

  datatype Kind = Copy | SourceOnly | Remove

  // A line of an owner's `logical_projections`.
  datatype Alias = Alias(profile: Option<string>, logical: Path)

  // An entry of the plan.  The second line is filled in by the planner.
  datatype Entry = Entry(
    id: Path, kind: Kind, source: Path, destination: Path, root: Path, sourceRoot: Path,
    relative: Path, managed: bool, profile: Option<string>, orphan: bool,
    writeRequired: Option<bool>, writeOwner: Option<Path>, physicalTarget: Option<Path>,
    deduplicatedFrom: Option<seq<Path>>, aliases: Option<seq<Alias>>, verifyProjection: Option<bool>)
  {
    predicate Unplanned() {
      && writeRequired.None? && writeOwner.None? && physicalTarget.None?
      && deduplicatedFrom.None? && aliases.None? && verifyProjection.None?
    }

    // `kind == "copy" and entry.get("write_required", True)`
    predicate Writes() {
      kind.Copy? && writeRequired != Some(false)
    }

    predicate IsAlias() {
      kind.Copy? && writeRequired == Some(false)
    }
  }

  // `by_profile.get(profile)`: the last declaration counts.
  function ProjectionFor(c: Contract, profile: Option<string>): Option<Projection> {
    if c == [] || profile.None? then None
    else if c[|c| - 1].profile == profile.value then Some(c[|c| - 1])
    else ProjectionFor(c[..|c| - 1], profile)
  }

  // `"/plugin/" in id`
  predicate NamesPlugin(id: Path) {
    exists i | 0 < i < |id| - 1 :: id[i] == "plugin"
  }

  // The id of an entry is its text, split at the slashes.
  lemma NamesPluginExactly(id: Path)
    requires id != [] && AreNames(id)
    ensures NamesPlugin(id) <==> Occurs(Joined(id), "/plugin/")
  {
    var mid := ["plugin"];
    assert IsName("plugin") && AreNames(mid) && Joined(mid) == "plugin";
    assert [SLASH] + Joined(mid) + [SLASH] == "/plugin/";
    InsideRelative(id, mid);
    if i :| 0 < i < |id| - 1 && id[i] == "plugin" {
      assert InsideAt(id, mid, 1, i);
    }
    if i: nat :| InsideAt(id, mid, 1, i) {
      assert id[i] == id[i..i + 1][0] == "plugin";
    }
  }

  predicate IsProjected(c: Contract, e: Entry) {
    e.kind.Copy? && ProjectionFor(c, e.profile).Some? && NamesPlugin(e.id)
  }

  function Physical(c: Contract, root: Path, e: Entry): Path
    requires IsProjected(c, e)
  {
    root + ProjectionFor(c, e.profile).value.target + e.relative
  }

  // The last copy entry with destination `d` among the first `n`.
  function LastCopy(es: seq<Entry>, d: Path, n: nat): (o: Option<nat>)
    requires n <= |es|
    ensures o.Some? ==> o.value < n && es[o.value].kind.Copy? && es[o.value].destination == d
    ensures o.None? ==> forall j | 0 <= j < n :: !(es[j].kind.Copy? && es[j].destination == d)
  {
    if n == 0 then None
    else if es[n - 1].kind.Copy? && es[n - 1].destination == d then Some(n - 1)
    else LastCopy(es, d, n - 1)
  }

  // Two copies to one place have one source.
  ghost predicate SourcesAgree(es: seq<Entry>) {
    forall i, j | 0 <= i < |es| && 0 <= j < |es| :: SourceAgrees(es[i], es[j])
  }

  predicate SourceAgrees(a: Entry, b: Entry) {
    a.kind.Copy? && b.kind.Copy? && a.destination == b.destination ==> a.source == b.source
  }

  ghost predicate OwnersExist(es: seq<Entry>, c: Contract, root: Path) {
    forall i | 0 <= i < |es| :: OwnerExists(es, c, root, i)
  }

  // The first `n` entries have their owners.
  ghost predicate OwnersFound(es: seq<Entry>, c: Contract, root: Path, n: nat)
    requires n <= |es|
  {
    forall i | 0 <= i < n :: OwnerExists(es, c, root, i)
  }

  predicate OwnerExists(es: seq<Entry>, c: Contract, root: Path, i: nat)
    requires i < |es|
  {
    IsProjected(c, es[i]) ==> TargetOf(es, c, root, i).Some?
  }

  // Where entry `i` is redirected to, and which entry owns that write.
  datatype Target = Target(physical: Path, owner: nat)

  function TargetOf(es: seq<Entry>, c: Contract, root: Path, i: nat): (t: Option<Target>)
    requires i < |es|
    ensures t.Some? ==> t.value.owner < |es|
  {
    if !IsProjected(c, es[i]) then None
    else
      var o := LastCopy(es, Physical(c, root, es[i]), |es|);
      if o.Some? then Some(Target(Physical(c, root, es[i]), o.value)) else None
  }

  ghost function Targets(es: seq<Entry>, c: Contract, root: Path): seq<Option<Target>> {
    seq(|es|, i requires 0 <= i < |es| => TargetOf(es, c, root, i))
  }

  predicate Owns(ts: seq<Option<Target>>, o: nat, j: nat)
    requires j < |ts|
  {
    ts[j].Some? && ts[j].value.owner == o
  }

  // The entries from `lo` up to `n` that `o` owns, in plan order.
  ghost function OwnedBy(ts: seq<Option<Target>>, o: nat, lo: nat, n: nat): (r: seq<nat>)
    requires n <= |ts|
    ensures forall k | 0 <= k < |r| :: lo <= r[k] < n && Owns(ts, o, r[k])
    ensures forall j | lo <= j < n && Owns(ts, o, j) :: j in r
    ensures forall k, l | 0 <= k < l < |r| :: r[k] < r[l]
  {
    if n <= lo then []
    else if Owns(ts, o, n - 1) then OwnedBy(ts, o, lo, n - 1) + [n - 1]
    else OwnedBy(ts, o, lo, n - 1)
  }

  ghost function Ids(es: seq<Entry>, at: seq<nat>): seq<Path>
    requires forall k | 0 <= k < |at| :: at[k] < |es|
  {
    seq(|at|, k requires 0 <= k < |at| => es[at[k]].id)
  }

  function AliasLine(e: Entry): Alias {
    Alias(e.profile, e.destination)
  }

  ghost function AliasLines(es: seq<Entry>, at: seq<nat>): seq<Alias>
    requires forall k | 0 <= k < |at| :: at[k] < |es|
  {
    seq(|at|, k requires 0 <= k < |at| => AliasLine(es[at[k]]))
  }

  // Entry `i` after the redirected ones among the first `n` were processed.
  // Its own redirection forgets the ids that it has listed before.
  ghost function Marked(es: seq<Entry>, ts: seq<Option<Target>>, i: nat, n: nat): Entry
    requires |ts| == |es| && i < |es| && n <= |es|
    requires ts[i].Some? ==> ts[i].value.owner < |es|
  {
    var listed := Listed(es[i], es, OwnedBy(ts, i, 0, n));
    if ts[i].Some? && i < n then
      Redirected(listed, ts[i].value.physical, es[ts[i].value.owner].id)
      .(deduplicatedFrom := Some([es[i].id] + Ids(es, OwnedBy(ts, i, i, n))))
    else listed
  }

  // An entry that lists the entries `at`.
  ghost function Listed(e: Entry, es: seq<Entry>, at: seq<nat>): Entry
    requires forall k | 0 <= k < |at| :: at[k] < |es|
  {
    if at == [] then e else e.(deduplicatedFrom := Some(Ids(es, at)), aliases := Some(AliasLines(es, at)))
  }

  function Redirected(e: Entry, physical: Path, owner: Path): Entry {
    e.(physicalTarget := Some(physical), writeRequired := Some(false), writeOwner := Some(owner),
       deduplicatedFrom := Some([e.id]), verifyProjection := Some(true))
  }

  // The `setdefault` calls at the end.
  function WithDefaults(e: Entry): Entry {
    var required := GetOr(e.writeRequired, e.kind.Copy?);
    e.(writeRequired := Some(required),
       physicalTarget := Some(GetOr(e.physicalTarget, e.destination)),
       deduplicatedFrom := Some(GetOr(e.deduplicatedFrom, [])),
       verifyProjection := Some(GetOr(e.verifyProjection, false)),
       aliases := Some(GetOr(e.aliases, [])),
       writeOwner := if e.writeOwner.Some? then e.writeOwner else if required then Some(e.id) else None)
  }

  // The plan that has to come out.
  ghost predicate IsPlan(es: seq<Entry>, plan: seq<Entry>, c: Contract, root: Path) {
    && |plan| == |es|
    && forall i | 0 <= i < |es| :: plan[i] == WithDefaults(Marked(es, Targets(es, c, root), i, |es|))
  }

  function Listing(owner: Entry, e: Entry): Entry {
    owner.(aliases := Some(GetOr(owner.aliases, []) + [AliasLine(e)]),
           deduplicatedFrom := Some(GetOr(owner.deduplicatedFrom, []) + [e.id]))
  }

  lemma OneLineMore(es: seq<Entry>, at: seq<nat>, i: nat)
    requires (forall k | 0 <= k < |at| :: at[k] < |es|) && i < |es|
    ensures Ids(es, at + [i]) == Ids(es, at) + [es[i].id]
    ensures AliasLines(es, at + [i]) == AliasLines(es, at) + [AliasLine(es[i])]
    ensures Ids(es, []) == [] && AliasLines(es, []) == []
  {}

  lemma ListsOneMore(e: Entry, es: seq<Entry>, at: seq<nat>, i: nat)
    requires (forall k | 0 <= k < |at| :: at[k] < |es|) && i < |es| && e.Unplanned()
    ensures Listed(e, es, at + [i]) == Listing(Listed(e, es, at), es[i])
  {
    OneLineMore(es, at, i);
    assert [] + [es[i].id] == [es[i].id] && [] + [AliasLine(es[i])] == [AliasLine(es[i])];
  }

  // An owner gets one more line for each entry redirected to it.
  lemma MarkOwner(es: seq<Entry>, ts: seq<Option<Target>>, i: nat, o: nat)
    requires |ts| == |es| && i < |es| && o < |es| && o != i && Owns(ts, o, i) && es[o].Unplanned()
    requires ts[o].Some? ==> ts[o].value.owner < |es|
    ensures Marked(es, ts, o, i + 1) == Listing(Marked(es, ts, o, i), es[i])
  {
    ListsOneMore(es[o], es, OwnedBy(ts, o, 0, i), i);
    if ts[o].Some? && o < i {
      var at := OwnedBy(ts, o, o, i);
      OneLineMore(es, at, i);
      assert [es[o].id] + (Ids(es, at) + [es[i].id]) == ([es[o].id] + Ids(es, at)) + [es[i].id];
    }
  }

  // An entry that is redirected to itself lists itself again.
  lemma SelfListing(e: Entry, es: seq<Entry>, at: seq<nat>, i: nat, physical: Path, owner: Path)
    requires (forall k | 0 <= k < |at| :: at[k] < |es|) && i < |es| && e.Unplanned()
    ensures Listing(Redirected(Listed(e, es, at), physical, owner), es[i]) ==
      Redirected(Listed(e, es, at + [i]), physical, owner).(deduplicatedFrom := Some([e.id] + [es[i].id]))
  {
    OneLineMore(es, at, i);
    assert [] + [AliasLine(es[i])] == [AliasLine(es[i])];
  }

  // The redirected entry, which may be its own owner.
  lemma MarkRedirected(es: seq<Entry>, ts: seq<Option<Target>>, i: nat)
    requires |ts| == |es| && i < |es| && ts[i].Some? && ts[i].value.owner < |es| && es[i].Unplanned()
    ensures var t := ts[i].value; var r := Redirected(Marked(es, ts, i, i), t.physical, es[t.owner].id);
      Marked(es, ts, i, i + 1) == if t.owner == i then Listing(r, es[i]) else r
  {
    var at, t := OwnedBy(ts, i, 0, i), ts[i].value;
    OneLineMore(es, [], i);
    assert [es[i].id] + [] == [es[i].id] && [] + [i] == [i];
    assert Ids(es, [i]) == [es[i].id];
    OwnsItself(ts, i);
    SelfListing(es[i], es, at, i, t.physical, es[i].id);
  }

  lemma OwnsItself(ts: seq<Option<Target>>, i: nat)
    requires i < |ts|
    ensures OwnedBy(ts, i, i, i + 1) == if Owns(ts, i, i) then [i] else []
    ensures OwnedBy(ts, i, 0, i + 1) == if Owns(ts, i, i) then OwnedBy(ts, i, 0, i) + [i] else OwnedBy(ts, i, 0, i)
  {
    assert OwnedBy(ts, i, i, i) == [] && [] + [i] == [i];
  }

  // What the first `n` rounds have made of the entries.
  ghost predicate AllMarked(es: seq<Entry>, ts: seq<Option<Target>>, entries: seq<Entry>, n: nat)
    requires |ts| == |es| && n <= |es|
    requires forall j | 0 <= j < |es| && ts[j].Some? :: ts[j].value.owner < |es|
  {
    |entries| == |es| && forall j | 0 <= j < |es| :: IsMarked(es, ts, entries, j, n)
  }

  ghost predicate IsMarked(es: seq<Entry>, ts: seq<Option<Target>>, entries: seq<Entry>, j: nat, n: nat)
    requires |ts| == |es| == |entries| && n <= |es| && j < |es|
    requires ts[j].Some? ==> ts[j].value.owner < |es|
  {
    entries[j] == Marked(es, ts, j, n)
  }

  // So far `n` rounds have been made.
  ghost predicate IsRound(es: seq<Entry>, c: Contract, root: Path, entries: seq<Entry>, n: nat)
    requires n <= |es|
  {
    HaveBase(entries, es) && AllMarked(es, Targets(es, c, root), entries, n)
  }

  lemma MarkStart(es: seq<Entry>, c: Contract, root: Path)
    requires forall j | 0 <= j < |es| :: es[j].Unplanned()
    ensures IsRound(es, c, root, es, 0)
  {}

  // One round of the redirection.
  lemma MarkStep(es: seq<Entry>, ts: seq<Option<Target>>, i: nat, before: seq<Entry>, after: seq<Entry>)
    requires |es| == |ts| && i < |es| && forall j | 0 <= j < |es| :: es[j].Unplanned()
    requires forall j | 0 <= j < |es| && ts[j].Some? :: ts[j].value.owner < |es|
    requires AllMarked(es, ts, before, i)
    requires match ts[i]
      case None => after == before
      case Some(t) =>
        var redirected := before[i := Redirected(before[i], t.physical, es[t.owner].id)];
        after == redirected[t.owner := Listing(redirected[t.owner], es[i])]
    ensures AllMarked(es, ts, after, i + 1)
  {
    var n := i + 1;
    forall j | 0 <= j < |es|
      ensures IsMarked(es, ts, after, j, n)
    {
      assert IsMarked(es, ts, before, j, i);
      if ts[i].Some? && j == i {
        MarkRedirected(es, ts, i);
      } else if ts[i].Some? && j == ts[i].value.owner {
        MarkOwner(es, ts, i, j);
      }
    }
  }

  // No owner of a write is redirected itself.
  ghost predicate OwnersWrite(es: seq<Entry>, c: Contract, root: Path) {
    forall i | 0 <= i < |es| :: OwnerWrites(es, c, root, i)
  }

  predicate OwnerWrites(es: seq<Entry>, c: Contract, root: Path, i: nat)
    requires i < |es|
  {
    var t := TargetOf(es, c, root, i);
    t.Some? ==> TargetOf(es, c, root, t.value.owner).None?
  }

  lemma {:induction false} OwnsNothing(ts: seq<Option<Target>>, o: nat, lo: nat, n: nat)
    requires n <= |ts| && forall j | 0 <= j < n :: !Owns(ts, o, j)
    ensures OwnedBy(ts, o, lo, n) == []
  {
    if n > lo {
      OwnsNothing(ts, o, lo, n - 1);
    }
  }

  // So a redirected entry lists itself and nothing else.
  lemma AliasListsItself(es: seq<Entry>, c: Contract, root: Path, i: nat)
    requires i < |es| && OwnersWrite(es, c, root) && TargetOf(es, c, root, i).Some?
    ensures var t := TargetOf(es, c, root, i).value;
      Marked(es, Targets(es, c, root), i, |es|) == Redirected(es[i], t.physical, es[t.owner].id)
  {
    var ts := Targets(es, c, root);
    forall j | 0 <= j < |es|
      ensures !Owns(ts, i, j)
    {
      assert OwnerWrites(es, c, root, j);
    }
    OwnsNothing(ts, i, 0, |es|);
    OwnsNothing(ts, i, i, |es|);
    assert [es[i].id] + Ids(es, []) == [es[i].id];
  }

  // The entry without what the planner adds.
  function Base(e: Entry): Entry {
    e.(writeRequired := None, writeOwner := None, physicalTarget := None,
       deduplicatedFrom := None, aliases := None, verifyProjection := None)
  }

  ghost predicate HaveBase(plan: seq<Entry>, es: seq<Entry>) {
    |plan| == |es| && forall j | 0 <= j < |es| :: Base(plan[j]) == es[j]
  }

  lemma PlanComplete(es: seq<Entry>, c: Contract, root: Path, marked: seq<Entry>, plan: seq<Entry>)
    requires IsRound(es, c, root, marked, |es|)
    requires |plan| == |marked| && forall i | 0 <= i < |plan| :: plan[i] == WithDefaults(marked[i])
    ensures IsPlan(es, plan, c, root)
  {
    forall i | 0 <= i < |es|
      ensures plan[i] == WithDefaults(Marked(es, Targets(es, c, root), i, |es|))
    {
      assert IsMarked(es, Targets(es, c, root), marked, i, |es|);
    }
  }

  /* ---- What the planner makes of each entry ---- */

  ghost predicate DeclaresProfile(c: Contract, profile: Option<string>) {
    profile.Some? && exists k | 0 <= k < |c| :: c[k].profile == profile.value
  }

  // A copy whose id tells that it is a plugin file of a declared profile.
  ghost predicate IsPluginCopy(c: Contract, e: Entry) {
    e.kind.Copy? && DeclaresProfile(c, e.profile) && Occurs(Joined(e.id), "/plugin/")
  }

  // Ids are texts that were split at their slashes.
  ghost predicate IdsAreTexts(es: seq<Entry>) {
    forall i | 0 <= i < |es| :: es[i].id != [] && AreNames(es[i].id)
  }

  lemma {:induction false} ProjectionForExactly(c: Contract, profile: Option<string>)
    ensures ProjectionFor(c, profile).Some? <==> DeclaresProfile(c, profile)
    ensures var o := ProjectionFor(c, profile);
      o.Some? ==> exists k | 0 <= k < |c| ::
        c[k] == o.value && c[k].profile == profile.value && forall l | k < l < |c| :: c[l].profile != profile.value
    decreases |c|
  {
    if c != [] && profile.Some? {
      var n := |c| - 1;
      if c[n].profile != profile.value {
        ProjectionForExactly(c[..n], profile);
        assert c == c[..n] + [c[n]];
        if DeclaresProfile(c[..n], profile) {
          var k :| 0 <= k < n && c[..n][k] == ProjectionFor(c, profile).value && c[..n][k].profile == profile.value
            && forall l | k < l < n :: c[..n][l].profile != profile.value;
          assert c[k] == c[..n][k] && forall l | k < l < n :: c[l] == c[..n][l];
        }
      }
    }
  }

  lemma ProjectedExactly(c: Contract, root: Path, e: Entry)
    requires WellFormedContract(c) && e.id != [] && AreNames(e.id)
    ensures IsProjected(c, e) <==> IsPluginCopy(c, e)
    ensures IsProjected(c, e) ==> Physical(c, root, e) == root + TARGET + e.relative
  {
    ProjectionForExactly(c, e.profile);
    NamesPluginExactly(e.id);
    if IsProjected(c, e) {
      var k :| 0 <= k < |c| && c[k] == ProjectionFor(c, e.profile).value;
      assert WellFormedItem(c[k]);
    }
  }

  // The ids that the assembly gives to the plugin files of a profile and to its
  // skill files.
  function PluginId(profile: Name, relative: Path): Path {
    ["profile_runtime_assembly", profile, "plugin"] + relative
  }

  function SkillId(profile: Name, activation: Name, skill: Name, relative: Path): Path {
    ["profile_runtime_assembly", profile, activation, skill] + relative
  }

  // Every plugin file of a declared profile is one ...
  lemma PluginFileIsPluginCopy(c: Contract, e: Entry, profile: Name)
    requires e.kind.Copy? && e.relative != [] && e.id == PluginId(profile, e.relative) && AreNames(e.id)
    requires e.profile == Some(profile) && DeclaresProfile(c, e.profile)
    ensures IsPluginCopy(c, e)
  {
    assert e.id[2] == "plugin";
    NamesPluginExactly(e.id);
  }

  // ... and a skill file is taken for one exactly if some directory on its way
  // is called "plugin", or its skill or profile is.
  lemma TakenForPluginExactly(c: Contract, e: Entry, profile: Name, activation: Name, skill: Name)
    requires e.kind.Copy? && e.profile == Some(profile) && DeclaresProfile(c, e.profile)
    requires e.relative != [] && e.id == SkillId(profile, activation, skill, e.relative) && AreNames(e.id)
    requires activation == "active-skill" || activation == "reference-skill"
    ensures IsPluginCopy(c, e) <==> profile == "plugin" || skill == "plugin" || "plugin" in Parent(e.relative)
  {
    NamesPluginExactly(e.id);
    SkillIdNamesPlugin(profile, activation, skill, e.relative);
  }

  lemma SkillIdNamesPlugin(profile: Name, activation: Name, skill: Name, rel: Path)
    requires rel != [] && activation != "plugin"
    ensures NamesPlugin(SkillId(profile, activation, skill, rel)) <==>
      profile == "plugin" || skill == "plugin" || "plugin" in Parent(rel)
  {
    var id := SkillId(profile, activation, skill, rel);
    assert id[1] == profile && id[2] == activation && id[3] == skill;
    forall i | 0 <= i < |rel|
      ensures id[i + 4] == rel[i]
    {}
    if "plugin" in Parent(rel) {
      var i :| 0 <= i < |Parent(rel)| && Parent(rel)[i] == "plugin";
      assert id[i + 4] == "plugin";
    }
    if i :| 0 < i < |id| - 1 && id[i] == "plugin" {
      assert i < 4 || Parent(rel)[i - 4] == "plugin";
    }
  }

  ghost predicate HasCopyTo(es: seq<Entry>, d: Path) {
    exists j | 0 <= j < |es| :: es[j].kind.Copy? && es[j].destination == d
  }

  // The planner finds every owner exactly if some copy goes to the place in the
  // global plugin directory of each plugin file.
  lemma OwnersExistExactly(es: seq<Entry>, c: Contract, root: Path)
    requires WellFormedContract(c) && IdsAreTexts(es)
    ensures OwnersExist(es, c, root) <==>
      forall i | 0 <= i < |es| && IsPluginCopy(c, es[i]) :: HasCopyTo(es, root + TARGET + es[i].relative)
  {
    forall i | 0 <= i < |es|
      ensures OwnerExists(es, c, root, i) <==>
        (IsPluginCopy(c, es[i]) ==> HasCopyTo(es, root + TARGET + es[i].relative))
    {
      ProjectedExactly(c, root, es[i]);
    }
  }

  // `o` is the last copy to `d`.
  ghost predicate IsLastCopy(es: seq<Entry>, d: Path, o: nat) {
    && o < |es| && es[o].kind.Copy? && es[o].destination == d
    && forall j | o < j < |es| && es[j].kind.Copy? :: es[j].destination != d
  }

  // What has become of entry `i`: a plugin file is an alias of its place in the
  // global plugin directory, which the last copy to it owns; any other copy
  // writes its own destination; what is no copy writes nothing.
  ghost predicate IsPlanned(es: seq<Entry>, c: Contract, root: Path, i: nat, e: Entry)
    requires i < |es|
  {
    var target := root + TARGET + es[i].relative;
    && Base(e) == es[i] && e.verifyProjection == Some(IsPluginCopy(c, es[i]))
    && if IsPluginCopy(c, es[i]) then
         && e.IsAlias() && e.physicalTarget == Some(target)
         && exists o: nat :: IsLastCopy(es, target, o) && e.writeOwner == Some(es[o].id)
       else
         && e.physicalTarget == Some(es[i].destination) && e.writeRequired == Some(es[i].kind.Copy?)
         && e.writeOwner == if es[i].kind.Copy? then Some(es[i].id) else None
  }

  lemma PlannedExactly(es: seq<Entry>, plan: seq<Entry>, c: Contract, root: Path, i: nat)
    requires IsPlan(es, plan, c, root) && OwnersExist(es, c, root) && i < |es| && es[i].Unplanned()
    requires WellFormedContract(c) && IdsAreTexts(es)
    ensures IsPlanned(es, c, root, i, plan[i])
  {
    var ts := Targets(es, c, root);
    ProjectedExactly(c, root, es[i]);
    assert plan[i] == WithDefaults(Marked(es, ts, i, |es|)) && ts[i] == TargetOf(es, c, root, i);
    assert OwnerExists(es, c, root, i);
    if ts[i].Some? {
      LastCopyExactly(es, ts[i].value.physical, |es|);
      assert IsLastCopy(es, ts[i].value.physical, ts[i].value.owner);
    }
  }

  lemma {:induction false} LastCopyExactly(es: seq<Entry>, d: Path, n: nat)
    requires n <= |es|
    ensures var o := LastCopy(es, d, n);
      o.Some? ==> forall j | o.value < j < n && es[j].kind.Copy? :: es[j].destination != d
  {
    if n > 0 && LastCopy(es, d, n) != Some(n - 1) {
      LastCopyExactly(es, d, n - 1);
    }
  }

  // `by_destination`: the last copy to each destination.
  ghost predicate IsIndex(es: seq<Entry>, byDestination: map<Path, nat>) {
    IsIndexTo(es, byDestination, |es|)
  }

  ghost predicate IsIndexTo(es: seq<Entry>, byDestination: map<Path, nat>, n: nat)
    requires n <= |es|
  {
    forall d :: LastCopy(es, d, n) == if d in byDestination then Some(byDestination[d]) else None
  }

  lemma IndexStep(es: seq<Entry>, byDestination: map<Path, nat>, i: nat)
    requires i < |es| && IsIndexTo(es, byDestination, i)
    ensures IsIndexTo(es, if es[i].kind.Copy? then byDestination[es[i].destination := i] else byDestination, i + 1)
  {}

  // One more entry agrees with all before it exactly if it agrees with the one
  // that the index has for its destination.
  lemma AgreeStep(es: seq<Entry>, byDestination: map<Path, nat>, i: nat)
    requires i < |es| && IsIndexTo(es, byDestination, i) && SourcesAgree(es[..i])
    ensures var e := es[i]; var d := e.destination;
      if e.kind.Copy? && d in byDestination && es[byDestination[d]].source != e.source
      then !SourcesAgree(es)
      else SourcesAgree(es[..i + 1])
  {
    var e := es[i];
    var o := LastCopy(es, e.destination, i);
    if e.kind.Copy? && o.Some? {
      if es[o.value].source != e.source {
        assert !SourceAgrees(es[o.value], e);
      } else {
        AgreesLikeLast(es, i, o.value);
      }
    }
  }

  lemma AgreesLikeLast(es: seq<Entry>, i: nat, o: nat)
    requires o < i < |es| && SourcesAgree(es[..i]) && es[i].kind.Copy? && es[o].kind.Copy?
    requires es[o].destination == es[i].destination && es[o].source == es[i].source
    ensures SourcesAgree(es[..i + 1])
  {
    var front, all := es[..i], es[..i + 1];
    forall j, k | 0 <= j < |all| && 0 <= k < |all|
      ensures SourceAgrees(all[j], all[k])
    {
      assert SourceAgrees(front[if j < i then j else o], front[if k < i then k else o]);
    }
  }

  datatype PlanResult = Ok | Collision(destination: Path) | NoOwner(target: Path)

  class Plan {
    var entries: seq<Entry>

    constructor (entries: seq<Entry>)
      ensures this.entries == entries
    {
      this.entries := entries;
    }

    // `apply_projection_plan`
    method Apply(c: Contract, root: Path) returns (r: PlanResult)
      requires forall i | 0 <= i < |entries| :: entries[i].Unplanned()
      modifies this`entries
      ensures r.Collision? <==> !SourcesAgree(old(entries))
      ensures r.NoOwner? <==> SourcesAgree(old(entries)) && !OwnersExist(old(entries), c, root)
      ensures r.Ok? ==> IsPlan(old(entries), entries, c, root)
      ensures r.Ok? && WellFormedContract(c) && IdsAreTexts(old(entries)) ==>
        forall i | 0 <= i < |entries| :: IsPlanned(old(entries), c, root, i, entries[i])
      ensures r.NoOwner? && WellFormedContract(c) && IdsAreTexts(old(entries)) ==>
        exists i | 0 <= i < |old(entries)| ::
          IsPluginCopy(c, old(entries)[i]) && !HasCopyTo(old(entries), root + TARGET + old(entries)[i].relative)
    {
      var byDestination;
      r, byDestination := IndexDestinations();
      if !r.Ok? {
        return;
      }
      ghost var es := entries;
      if WellFormedContract(c) && IdsAreTexts(es) {
        OwnersExistExactly(es, c, root);
      }
      r := Redirect(c, root, byDestination);
      if r.Ok? {
        ghost var marked := entries;
        FillDefaults();
        PlanComplete(es, c, root, marked, entries);
        if WellFormedContract(c) && IdsAreTexts(es) {
          forall i | 0 <= i < |entries|
            ensures IsPlanned(es, c, root, i, entries[i])
          {
            PlannedExactly(es, entries, c, root, i);
          }
        }
      }
    }

    method IndexDestinations() returns (r: PlanResult, byDestination: map<Path, nat>)
      ensures r == Ok || r.Collision?
      ensures r.Ok? <==> SourcesAgree(entries)
      ensures r.Ok? ==> IsIndex(entries, byDestination)
    {
      byDestination := map[];
      for i := 0 to |entries|
        invariant IsIndexTo(entries, byDestination, i) && SourcesAgree(entries[..i])
      {
        var e := entries[i];
        IndexStep(entries, byDestination, i);
        AgreeStep(entries, byDestination, i);
        if e.kind.Copy? {
          if e.destination in byDestination {
            var prior := byDestination[e.destination];
            if entries[prior].source != e.source {
              return Collision(e.destination), byDestination;
            }
          }
          byDestination := byDestination[e.destination := i];
        }
      }
      assert entries[..|entries|] == entries;
      r := Ok;
    }

    method Redirect(c: Contract, root: Path, byDestination: map<Path, nat>) returns (r: PlanResult)
      requires forall i | 0 <= i < |entries| :: entries[i].Unplanned()
      requires IsIndex(entries, byDestination)
      modifies this`entries
      ensures r == Ok || r.NoOwner?
      ensures r.Ok? <==> OwnersExist(old(entries), c, root)
      ensures r.Ok? ==> IsRound(old(entries), c, root, entries, |old(entries)|)
    {
      ghost var es := entries;
      MarkStart(es, c, root);
      for i := 0 to |entries|
        invariant IsRound(es, c, root, entries, i) && OwnersFound(es, c, root, i)
      {
        r := RedirectOne(c, root, byDestination, i, es);
        if !r.Ok? {
          return;
        }
      }
      r := Ok;
    }

    // One round: the entry becomes an alias, if it is projected.
    method RedirectOne(c: Contract, root: Path, byDestination: map<Path, nat>, i: nat, ghost es: seq<Entry>)
        returns (r: PlanResult)
      requires IsIndex(es, byDestination) && i < |es| && IsRound(es, c, root, entries, i)
      requires forall j | 0 <= j < |es| :: es[j].Unplanned()
      modifies this`entries
      ensures r == Ok || r.NoOwner?
      ensures r.Ok? <==> OwnerExists(es, c, root, i)
      ensures r.Ok? ==> IsRound(es, c, root, entries, i + 1)
    {
      var e := entries[i];
      ghost var before, ts := entries, Targets(es, c, root);
      assert Base(e) == es[i];
      if IsProjected(c, e) {
        var physical := Physical(c, root, e);
        if physical !in byDestination {
          return NoOwner(physical);
        }
        var o := byDestination[physical];
        assert ts[i] == Some(Target(physical, o));
        assert Base(entries[o]) == es[o];
        RedirectEntry(i, physical, o, es);
      }
      MarkStep(es, ts, i, before, entries);
      r := Ok;
    }

    // The entry becomes an alias, and its owner lists it.
    method RedirectEntry(i: nat, physical: Path, o: nat, ghost es: seq<Entry>)
      requires i < |entries| && o < |entries| && HaveBase(entries, es)
      modifies this`entries
      ensures var redirected := old(entries)[i := Redirected(old(entries)[i], physical, old(entries)[o].id)];
        entries == redirected[o := Listing(redirected[o], old(entries)[i])]
      ensures HaveBase(entries, es)
    {
      var e := entries[i];
      entries := entries[i := Redirected(e, physical, entries[o].id)];
      entries := entries[o := Listing(entries[o], e)];
    }

    method FillDefaults()
      modifies this`entries
      ensures |entries| == |old(entries)|
      ensures forall i | 0 <= i < |entries| :: entries[i] == WithDefaults(old(entries)[i])
    {
      for i := 0 to |entries|
        invariant |entries| == |old(entries)|
        invariant forall j | 0 <= j < i :: entries[j] == WithDefaults(old(entries)[j])
        invariant forall j | i <= j < |entries| :: entries[j] == old(entries)[j]
      {
        entries := entries[i := WithDefaults(entries[i])];
      }
    }
  }
}
