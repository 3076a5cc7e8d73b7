// What the plan means: who owns each write, and how the counts add up.
module Dedup {
  import opened Paths
  import opened Options
  import opened Projections
  import opened Planner

  // A plan made by the planner from entries `es`.
  ghost predicate GoodPlan(es: seq<Entry>, plan: seq<Entry>, c: Contract, root: Path) {
    && IsPlan(es, plan, c, root) && (forall i | 0 <= i < |es| :: es[i].Unplanned())
    && SourcesAgree(es) && OwnersExist(es, c, root) && OwnersWrite(es, c, root)
  }

  /* ---- Ownership ---- */

  // What the planner made of entry `i`.
  lemma PlanEntry(es: seq<Entry>, plan: seq<Entry>, c: Contract, root: Path, i: nat)
    requires GoodPlan(es, plan, c, root) && i < |plan|
    ensures Base(plan[i]) == es[i]
    ensures IsProjected(c, es[i]) <==> plan[i].IsAlias()
    ensures plan[i].Writes() <==> es[i].kind.Copy? && !IsProjected(c, es[i])
    ensures plan[i].Writes() ==> plan[i].writeRequired == Some(true)
    ensures plan[i].Writes() ==> plan[i].writeOwner == Some(plan[i].id)
    ensures plan[i].Writes() ==> plan[i].physicalTarget == Some(plan[i].destination)
    ensures plan[i].IsAlias() ==> TargetOf(es, c, root, i).Some?
    ensures plan[i].IsAlias() ==> plan[i].physicalTarget == Some(Physical(c, root, es[i]))
    ensures plan[i].IsAlias() ==> plan[i].writeOwner == Some(es[TargetOf(es, c, root, i).value.owner].id)
  {
    var ts := Targets(es, c, root);
    assert plan[i] == WithDefaults(Marked(es, ts, i, |es|));
    assert ts[i] == TargetOf(es, c, root, i) && OwnerExists(es, c, root, i);
    if ts[i].Some? {
      AliasListsItself(es, c, root, i);
    }
  }

  // `plan[o]` is the entry that performs the write of `plan[i]`.
  ghost predicate OwnsWrite(plan: seq<Entry>, o: nat, i: nat)
    requires o < |plan| && i < |plan|
  {
    && plan[o].Writes() && plan[o].writeRequired == Some(true)
    && plan[i].writeOwner == Some(plan[o].id)
    && plan[i].physicalTarget == Some(plan[o].destination)
  }

  function OwnerOf(es: seq<Entry>, c: Contract, root: Path, i: nat): nat
    requires i < |es|
  {
    var t := TargetOf(es, c, root, i);
    if t.Some? then t.value.owner else i
  }

  lemma OwnerPerformsWrite(es: seq<Entry>, plan: seq<Entry>, c: Contract, root: Path, i: nat)
    requires GoodPlan(es, plan, c, root) && i < |plan| && plan[i].kind.Copy?
    ensures var o := OwnerOf(es, c, root, i); o < |plan| && OwnsWrite(plan, o, i) && (plan[i].Writes() ==> o == i)
  {
    PlanEntry(es, plan, c, root, i);
    var o := OwnerOf(es, c, root, i);
    assert OwnerWrites(es, c, root, i);
    PlanEntry(es, plan, c, root, o);
  }

  ghost predicate DistinctIds(plan: seq<Entry>) {
    forall i, j | 0 <= i < |plan| && 0 <= j < |plan| && plan[i].id == plan[j].id :: i == j
  }

  ghost predicate OnlyNamed(plan: seq<Entry>, id: Option<Path>, o: nat) {
    forall k | 0 <= k < |plan| && id == Some(plan[k].id) :: k == o
  }

  // Every copy entry has one owner, and no other entry carries that name.
  lemma EveryCopyHasOneOwner(es: seq<Entry>, plan: seq<Entry>, c: Contract, root: Path, i: nat)
    requires GoodPlan(es, plan, c, root) && DistinctIds(plan) && i < |plan| && plan[i].kind.Copy?
    ensures exists o: nat :: o < |plan| && OwnsWrite(plan, o, i) && OnlyNamed(plan, plan[i].writeOwner, o)
  {
    OwnerPerformsWrite(es, plan, c, root, i);
    var o := OwnerOf(es, c, root, i);
    assert OwnsWrite(plan, o, i);
  }

  // The owners that the planner names perform their writes exactly when none of
  // them is redirected itself.
  lemma OwnersWriteExactly(es: seq<Entry>, plan: seq<Entry>, c: Contract, root: Path)
    requires IsPlan(es, plan, c, root) && OwnersExist(es, c, root) && forall i | 0 <= i < |es| :: es[i].Unplanned()
    ensures OwnersWrite(es, c, root) <==>
      forall i | 0 <= i < |es| && TargetOf(es, c, root, i).Some? :: plan[TargetOf(es, c, root, i).value.owner].Writes()
  {
    forall i | 0 <= i < |es| && TargetOf(es, c, root, i).Some?
      ensures OwnerWrites(es, c, root, i) <==> plan[TargetOf(es, c, root, i).value.owner].Writes()
    {
      var o := TargetOf(es, c, root, i).value.owner;
      assert plan[o] == WithDefaults(Marked(es, Targets(es, c, root), o, |es|));
      assert Targets(es, c, root)[o] == TargetOf(es, c, root, o);
    }
  }

  // `at` lists, in plan order and each once, the aliases that `o` writes for.
  ghost predicate AliasesOf(plan: seq<Entry>, o: nat, at: seq<nat>)
    requires o < |plan|
  {
    && (forall k, l | 0 <= k < l < |at| :: at[k] < at[l])
    && (forall k | 0 <= k < |at| :: at[k] < |plan|)
    && (forall j: nat | j < |plan| :: j in at <==> plan[j].IsAlias() && plan[j].writeOwner == Some(plan[o].id))
  }

  // The lists of entry `o` name the profile and the logical path of each of
  // these entries, and their ids.
  ghost predicate ListsInOrder(plan: seq<Entry>, o: nat, at: seq<nat>)
    requires o < |plan| && forall k | 0 <= k < |at| :: at[k] < |plan|
  {
    && plan[o].aliases.Some? && plan[o].deduplicatedFrom.Some?
    && var lines, ids := plan[o].aliases.value, plan[o].deduplicatedFrom.value;
      && |lines| == |ids| == |at|
      && forall k | 0 <= k < |at| ::
           lines[k] == Alias(plan[at[k]].profile, plan[at[k]].destination) && ids[k] == plan[at[k]].id
  }

  // An owner's list names each alias it writes for, each once, in plan order.
  lemma OwnerListsEachAliasOnce(es: seq<Entry>, plan: seq<Entry>, c: Contract, root: Path, o: nat)
    requires GoodPlan(es, plan, c, root) && DistinctIds(plan) && o < |plan| && plan[o].Writes()
    ensures exists at: seq<nat> :: (
      AliasesOf(plan, o, at) && ListsInOrder(plan, o, at))
  {
    var ts := Targets(es, c, root);
    var at := OwnedBy(ts, o, 0, |es|);
    PlanEntry(es, plan, c, root, o);
    assert plan[o] == WithDefaults(Marked(es, ts, o, |es|));
    forall j: nat | j < |plan|
      ensures Base(plan[j]) == es[j]
      ensures j in at <==> plan[j].IsAlias() && plan[j].writeOwner == Some(plan[o].id)
    {
      AliasNamesOwner(es, plan, c, root, o, j);
    }
    assert AliasesOf(plan, o, at);
    SameLines(es, plan, at);
    assert Ids(es, []) == [] && AliasLines(es, []) == [];
    LinesInOrder(plan, o, at);
  }

  lemma LinesInOrder(plan: seq<Entry>, o: nat, at: seq<nat>)
    requires o < |plan| && forall k | 0 <= k < |at| :: at[k] < |plan|
    requires plan[o].aliases == Some(AliasLines(plan, at)) && plan[o].deduplicatedFrom == Some(Ids(plan, at))
    ensures ListsInOrder(plan, o, at)
  {}

  lemma SameLines(es: seq<Entry>, plan: seq<Entry>, at: seq<nat>)
    requires |plan| == |es| && forall j | 0 <= j < |es| :: Base(plan[j]) == es[j]
    requires forall k | 0 <= k < |at| :: at[k] < |es|
    ensures AliasLines(plan, at) == AliasLines(es, at) && Ids(plan, at) == Ids(es, at)
  {
    forall k | 0 <= k < |at|
      ensures AliasLine(plan[at[k]]) == AliasLine(es[at[k]]) && plan[at[k]].id == es[at[k]].id
    {
      assert Base(plan[at[k]]) == es[at[k]];
    }
  }

  // An alias names `o` as its owner exactly when it was redirected to it.
  lemma AliasNamesOwner(es: seq<Entry>, plan: seq<Entry>, c: Contract, root: Path, o: nat, j: nat)
    requires GoodPlan(es, plan, c, root) && DistinctIds(plan) && o < |plan| && j < |plan|
    ensures Base(plan[j]) == es[j]
    ensures Owns(Targets(es, c, root), o, j) <==> plan[j].IsAlias() && plan[j].writeOwner == Some(plan[o].id)
  {
    PlanEntry(es, plan, c, root, j);
    PlanEntry(es, plan, c, root, o);
    if plan[j].IsAlias() {
      PlanEntry(es, plan, c, root, TargetOf(es, c, root, j).value.owner);
    }
  }

  /* ---- Counting ---- */

  function CopyIndexes(plan: seq<Entry>): set<nat> {
    set i | 0 <= i < |plan| && plan[i].kind.Copy? :: i
  }

  function WriterIndexes(plan: seq<Entry>): set<nat> {
    set i | 0 <= i < |plan| && plan[i].kind.Copy? && plan[i].writeRequired == Some(true) :: i
  }

  function DestinationsOf(plan: seq<Entry>, at: set<nat>): set<Path>
    requires forall i | i in at :: i < |plan|
  {
    set i | i in at :: plan[i].destination
  }

  function ProjectedProfiles(plan: seq<Entry>): set<Option<string>> {
    set i | 0 <= i < |plan| && plan[i].kind.Copy? && plan[i].verifyProjection == Some(true) :: plan[i].profile
  }

  datatype Summary = Summary(logical: nat, physical: nat, projections: nat, deduplicated: nat)

  // `projection_plan_summary`
  function Summarize(plan: seq<Entry>): Summary {
    Summary(|CopyIndexes(plan)|,
            |DestinationsOf(plan, WriterIndexes(plan))|,
            |ProjectedProfiles(plan)|,
            |set i | 0 <= i < |plan| && plan[i].kind.Copy? && plan[i].writeRequired != Some(true) :: i|)
  }

  // What the four numbers count among the entries that were planned: copies,
  // places that are written, profiles with a plugin file, plugin files.
  lemma SummaryExactly(es: seq<Entry>, plan: seq<Entry>, c: Contract, root: Path)
    requires IsPlan(es, plan, c, root) && OwnersExist(es, c, root) && (forall i | 0 <= i < |es| :: es[i].Unplanned())
    requires WellFormedContract(c) && IdsAreTexts(es)
    ensures Summarize(plan) == Summary(
      |set i: nat | i < |es| && es[i].kind.Copy? :: i|,
      |set i | 0 <= i < |es| && es[i].kind.Copy? && !IsPluginCopy(c, es[i]) :: es[i].destination|,
      |set i | 0 <= i < |es| && IsPluginCopy(c, es[i]) :: es[i].profile|,
      |set i | 0 <= i < |es| && IsPluginCopy(c, es[i]) :: i|)
  {
    forall i | 0 <= i < |es|
      ensures CountsAs(c, es[i], plan[i])
    {
      PlannedExactly(es, plan, c, root, i);
      assert Base(plan[i]) == es[i];
    }
    SameCopies(es, plan, c);
    SameWriters(es, plan, c);
    SameProjected(es, plan, c);
  }

  // What the summary looks at.
  ghost predicate CountsAs(c: Contract, e: Entry, planned: Entry) {
    && planned.kind == e.kind && planned.destination == e.destination && planned.profile == e.profile
    && planned.writeRequired == Some(e.kind.Copy? && !IsPluginCopy(c, e))
    && planned.verifyProjection == Some(IsPluginCopy(c, e))
  }

  ghost predicate AllCountAs(c: Contract, es: seq<Entry>, plan: seq<Entry>) {
    |plan| == |es| && forall i | 0 <= i < |es| :: CountsAs(c, es[i], plan[i])
  }

  lemma SameCopies(es: seq<Entry>, plan: seq<Entry>, c: Contract)
    requires AllCountAs(c, es, plan)
    ensures CopyIndexes(plan) == set i: nat | i < |es| && es[i].kind.Copy? :: i
  {}

  lemma SameWriters(es: seq<Entry>, plan: seq<Entry>, c: Contract)
    requires AllCountAs(c, es, plan)
    ensures DestinationsOf(plan, WriterIndexes(plan)) ==
      set i | 0 <= i < |es| && es[i].kind.Copy? && !IsPluginCopy(c, es[i]) :: es[i].destination
  {
    var places := set i | 0 <= i < |es| && es[i].kind.Copy? && !IsPluginCopy(c, es[i]) :: es[i].destination;
    forall i: nat | i < |es| && es[i].kind.Copy? && !IsPluginCopy(c, es[i])
      ensures i in WriterIndexes(plan) && plan[i].destination == es[i].destination
    {
      assert CountsAs(c, es[i], plan[i]);
    }
    forall i | i in WriterIndexes(plan)
      ensures plan[i].destination in places
    {
      assert CountsAs(c, es[i], plan[i]);
    }
    forall d | d in places
      ensures d in DestinationsOf(plan, WriterIndexes(plan))
    {
      var i :| 0 <= i < |es| && es[i].kind.Copy? && !IsPluginCopy(c, es[i]) && es[i].destination == d;
      assert CountsAs(c, es[i], plan[i]) && i in WriterIndexes(plan);
    }
  }

  lemma SameProjected(es: seq<Entry>, plan: seq<Entry>, c: Contract)
    requires AllCountAs(c, es, plan)
    ensures ProjectedProfiles(plan) == set i | 0 <= i < |es| && IsPluginCopy(c, es[i]) :: es[i].profile
    ensures (set i | 0 <= i < |plan| && plan[i].kind.Copy? && plan[i].writeRequired != Some(true) :: i) ==
      set i | 0 <= i < |es| && IsPluginCopy(c, es[i]) :: i
  {
    forall i | 0 <= i < |es|
      ensures plan[i].kind.Copy? && plan[i].verifyProjection == Some(true) <==> IsPluginCopy(c, es[i])
      ensures plan[i].kind.Copy? && plan[i].writeRequired != Some(true) <==> IsPluginCopy(c, es[i])
      ensures plan[i].profile == es[i].profile
    {
      assert CountsAs(c, es[i], plan[i]);
    }
  }

  ghost predicate DistinctDestinations(plan: seq<Entry>, at: set<nat>)
    requires forall i | i in at :: i < |plan|
  {
    forall i, j | i in at && j in at && plan[i].destination == plan[j].destination :: i == j
  }

  // An image is as large as its source exactly when nothing is hit twice.
  lemma {:induction false} ImageSize(plan: seq<Entry>, at: set<nat>)
    requires forall i | i in at :: i < |plan|
    ensures |DestinationsOf(plan, at)| <= |at|
    ensures |DestinationsOf(plan, at)| == |at| <==> DistinctDestinations(plan, at)
  {
    if at != {} {
      var i :| i in at;
      var rest := at - {i};
      var d := plan[i].destination;
      ImageSize(plan, rest);
      assert DestinationsOf(plan, at) == DestinationsOf(plan, rest) + {d};
      if d in DestinationsOf(plan, rest) {
        assert DestinationsOf(plan, at) == DestinationsOf(plan, rest);
        var j :| j in rest && plan[j].destination == d;
        assert !DistinctDestinations(plan, at);
      } else {
        assert forall j | j in rest :: plan[j].destination in DestinationsOf(plan, rest);
      }
    }
  }

  // logical = physical + deduplicated exactly when no two writers share a target.
  lemma CountsAddUp(es: seq<Entry>, plan: seq<Entry>, c: Contract, root: Path)
    requires GoodPlan(es, plan, c, root)
    ensures var n := Summarize(plan);
      n.logical == n.physical + n.deduplicated <==> DistinctDestinations(plan, WriterIndexes(plan))
  {
    var aliases := set i | 0 <= i < |plan| && plan[i].kind.Copy? && plan[i].writeRequired != Some(true) :: i;
    assert CopyIndexes(plan) == WriterIndexes(plan) + aliases;
    ImageSize(plan, WriterIndexes(plan));
  }

  /* ---- One write per target ---- */

  lemma {:induction false} ProjectionForIsListed(c: Contract, profile: Option<string>)
    requires ProjectionFor(c, profile).Some?
    ensures ProjectionFor(c, profile).value in c
    decreases |c|
  {
    if c[|c| - 1].profile != profile.value {
      ProjectionForIsListed(c[..|c| - 1], profile);
    }
  }

  lemma PlanSourcesAgree(es: seq<Entry>, plan: seq<Entry>, c: Contract, root: Path)
    requires GoodPlan(es, plan, c, root)
    ensures SourcesAgree(plan)
  {
    forall i, j | 0 <= i < |plan| && 0 <= j < |plan|
      ensures SourceAgrees(plan[i], plan[j])
    {
      PlanEntry(es, plan, c, root, i);
      PlanEntry(es, plan, c, root, j);
      assert SourceAgrees(es[i], es[j]);
    }
  }

  // Each projected entry is copied from the file its owner is copied from.
  ghost predicate SharedSources(es: seq<Entry>, c: Contract, root: Path) {
    forall i | 0 <= i < |es| && TargetOf(es, c, root, i).Some? ::
      es[i].source == es[TargetOf(es, c, root, i).value.owner].source
  }
}
