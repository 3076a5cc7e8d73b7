// Carrying out a plan: writing through every alias, in any order, against
// writing once for each physical target.
module Execution {
  import opened Paths
  import opened FileStore
  import opened FileOps
  import opened Options
  import opened Projections
  import opened Planner
  import opened Staging
  import opened Copying
  import opened Dedup

  // The situation in which a plan is carried out.
  ghost predicate Runnable(s: Store, w: Scope, es: seq<Entry>, plan: seq<Entry>, c: Contract, root: Path, hops: nat) {
    && GoodPlan(es, plan, c, root) && Quiet(s, w) && Covers(w, plan)
    && AliasesStable(s, root, c, hops)
    && SourcesPresent(s, plan)
    && (forall i | 0 <= i < |es| && IsProjected(c, es[i]) :: NamedUnderAlias(c, root, es[i]))
  }

  ghost predicate SourcesPresent(s: Store, plan: seq<Entry>) {
    forall i | 0 <= i < |plan| && plan[i].kind.Copy? :: plan[i].source in s && s[plan[i].source].File?
  }

  // How the manifest loader names a projected destination.
  ghost predicate NamedUnderAlias(c: Contract, root: Path, e: Entry)
    requires IsProjected(c, e)
  {
    e.relative != [] && e.destination == root + ProjectionFor(c, e.profile).value.logical + e.relative
  }

  // Copy the entries in order: all of them, each at its own name, or only
  // those that have to write.
  function Run(s: Store, plan: seq<Entry>, n: nat, hops: nat, once: bool): Outcome
    requires n <= |plan|
  {
    if n == 0 then Outcome(s, true)
    else
      var before := Run(s, plan, n - 1, hops, once);
      var e := plan[n - 1];
      if !before.ok || !(if once then e.Writes() else e.kind.Copy?) then before
      else CopyInto(before.store, e.source, e.destination, hops)
  }

  // Where the entries land when each is written, and from what source.
  ghost function LandMap(plan: seq<Entry>, n: nat): map<Path, Path>
    requires n <= |plan|
  {
    if n == 0 then map[]
    else
      var before := LandMap(plan, n - 1);
      if plan[n - 1].kind.Copy? && plan[n - 1].physicalTarget.Some?
      then before[plan[n - 1].physicalTarget.value := plan[n - 1].source] else before
  }

  lemma RunNext(s: Store, plan: seq<Entry>, n: nat, hops: nat, once: bool)
    requires n < |plan| && Run(s, plan, n, hops, once).ok
    ensures Run(s, plan, n + 1, hops, once) ==
      if if once then plan[n].Writes() else plan[n].kind.Copy? then
        CopyInto(Run(s, plan, n, hops, once).store, plan[n].source, plan[n].destination, hops)
      else Run(s, plan, n, hops, once)
  {}

  /* ---- One entry ---- */

  // Each entry lands at its physical target.
  lemma EntryLands(s: Store, t: Store, w: Scope, es: seq<Entry>, plan: seq<Entry>, c: Contract, root: Path,
                   hops: nat, i: nat)
    requires Runnable(s, w, es, plan, c, root, hops) && Stage(s, t, w)
    requires i < |plan| && plan[i].kind.Copy?
    ensures plan[i].physicalTarget.Some?
    ensures plan[i].physicalTarget.value in w.made
    ensures LandsAt(t, plan[i].destination, plan[i].physicalTarget.value, hops)
  {
    PlanEntry(es, plan, c, root, i);
    OwnerPerformsWrite(es, plan, c, root, i);
    var d := plan[i].physicalTarget.value;
    ManagedClear(s, t, w, d);
    if plan[i].Writes() {
      ClearLandsAtItself(t, d, hops);
    } else {
      var p := ProjectionFor(c, es[i].profile).value;
      ProjectionForIsListed(c, es[i].profile);
      var k :| 0 <= k < |c| && c[k] == p;
      StageKeepsAliases(s, t, w, root, c, hops);
      ItemIsPlain(c[k]);
      AliasLandsAtTarget(t, root, p, hops, es[i].relative);
    }
  }

  lemma StepThroughLinks(s: Store, t: Store, w: Scope, es: seq<Entry>, plan: seq<Entry>, c: Contract, root: Path,
                         hops: nat, i: nat, m: map<Path, Path>)
    requires Runnable(s, w, es, plan, c, root, hops)
    requires i < |plan| && plan[i].kind.Copy? && Shows(s, t, w, m)
    ensures plan[i].physicalTarget.Some?
    ensures var o := CopyInto(t, plan[i].source, plan[i].destination, hops);
      o.ok && Shows(s, o.store, w, m[plan[i].physicalTarget.value := plan[i].source])
  {
    EntryLands(s, t, w, es, plan, c, root, hops, i);
    CopyLands(s, t, w, plan[i].source, plan[i].destination, plan[i].physicalTarget.value, m, hops);
  }

  /* ---- Entries of a plan, in any order ---- */

  ghost predicate DrawnFrom(q: seq<Entry>, plan: seq<Entry>) {
    forall e | e in q :: e in plan
  }

  // The copies so far all worked, and the store shows the sources in `m`.
  ghost predicate Succeeds(s: Store, o: Outcome, w: Scope, m: map<Path, Path>) {
    o.ok && Shows(s, o.store, w, m)
  }

  lemma RunNone(s: Store, w: Scope, q: seq<Entry>, hops: nat)
    requires Quiet(s, w)
    ensures Succeeds(s, Run(s, q, 0, hops, false), w, LandMap(q, 0))
    ensures Succeeds(s, Run(s, q, 0, hops, true), w, WriteMap(q, 0))
  {
    StageStart(s, w);
    assert Overlaid(Files(s), map[]) == Files(s);
  }

  lemma NextThroughLinks(s: Store, w: Scope, es: seq<Entry>, plan: seq<Entry>, c: Contract, root: Path, hops: nat,
                         q: seq<Entry>, k: nat)
    requires Runnable(s, w, es, plan, c, root, hops) && DrawnFrom(q, plan) && k < |q|
    requires Succeeds(s, Run(s, q, k, hops, false), w, LandMap(q, k))
    ensures Succeeds(s, Run(s, q, k + 1, hops, false), w, LandMap(q, k + 1))
  {
    RunNext(s, q, k, hops, false);
    if q[k].kind.Copy? {
      assert q[k] in plan;
      var i :| 0 <= i < |plan| && plan[i] == q[k];
      StepThroughLinks(s, Run(s, q, k, hops, false).store, w, es, plan, c, root, hops, i, LandMap(q, k));
    }
  }

  // Every entry copied at its own name.
  lemma RunThroughLinks(s: Store, w: Scope, es: seq<Entry>, plan: seq<Entry>, c: Contract, root: Path, hops: nat,
                        q: seq<Entry>, n: nat)
    requires Runnable(s, w, es, plan, c, root, hops) && DrawnFrom(q, plan) && n <= |q|
    ensures Succeeds(s, Run(s, q, n, hops, false), w, LandMap(q, n))
  {
    RunNone(s, w, q, hops);
    for k := 0 to n
      invariant Succeeds(s, Run(s, q, k, hops, false), w, LandMap(q, k))
    {
      NextThroughLinks(s, w, es, plan, c, root, hops, q, k);
    }
  }

  lemma NextOnce(s: Store, w: Scope, es: seq<Entry>, plan: seq<Entry>, c: Contract, root: Path, hops: nat,
                 q: seq<Entry>, k: nat)
    requires Runnable(s, w, es, plan, c, root, hops) && DrawnFrom(q, plan) && k < |q|
    requires Succeeds(s, Run(s, q, k, hops, true), w, WriteMap(q, k))
    ensures Succeeds(s, Run(s, q, k + 1, hops, true), w, WriteMap(q, k + 1))
  {
    RunNext(s, q, k, hops, true);
    if q[k].Writes() {
      assert q[k] in plan;
      var i :| 0 <= i < |plan| && plan[i] == q[k];
      PlanEntry(es, plan, c, root, i);
      StepThroughLinks(s, Run(s, q, k, hops, true).store, w, es, plan, c, root, hops, i, WriteMap(q, k));
    }
  }

  // Only the write-required entries copied.
  lemma RunOnce(s: Store, w: Scope, es: seq<Entry>, plan: seq<Entry>, c: Contract, root: Path, hops: nat,
                q: seq<Entry>, n: nat)
    requires Runnable(s, w, es, plan, c, root, hops) && DrawnFrom(q, plan) && n <= |q|
    ensures Succeeds(s, Run(s, q, n, hops, true), w, WriteMap(q, n))
  {
    RunNone(s, w, q, hops);
    for k := 0 to n
      invariant Succeeds(s, Run(s, q, k, hops, true), w, WriteMap(q, k))
    {
      NextOnce(s, w, es, plan, c, root, hops, q, k);
    }
  }

  /* ---- Where the entries land ---- */

  // Some entry lands on `d`, from `source`.
  ghost predicate Lands(plan: seq<Entry>, n: nat, d: Path, source: Path)
    requires n <= |plan|
  {
    exists i | 0 <= i < n :: plan[i].kind.Copy? && plan[i].physicalTarget == Some(d) && plan[i].source == source
  }

  lemma {:induction false} LandMapFrom(plan: seq<Entry>, n: nat, d: Path)
    requires n <= |plan| && d in LandMap(plan, n)
    ensures Lands(plan, n, d, LandMap(plan, n)[d])
  {
    if plan[n - 1].kind.Copy? && plan[n - 1].physicalTarget == Some(d) {
    } else {
      LandMapFrom(plan, n - 1, d);
    }
  }

  lemma {:induction false} LandMapHas(plan: seq<Entry>, n: nat, i: nat)
    requires i < n <= |plan| && plan[i].kind.Copy? && plan[i].physicalTarget.Some?
    ensures plan[i].physicalTarget.value in LandMap(plan, n)
  {
    if i < n - 1 {
      LandMapHas(plan, n - 1, i);
    }
  }

  lemma SameElements(q: seq<Entry>, plan: seq<Entry>)
    requires multiset(q) == multiset(plan)
    ensures DrawnFrom(q, plan) && DrawnFrom(plan, q)
  {
    forall e
      ensures e in q <==> e in plan
    {
      assert e in q <==> e in multiset(q);
      assert e in plan <==> e in multiset(plan);
    }
  }

  // What lands on `d` last is the source of an entry that lands there.
  lemma LandedFrom(q: seq<Entry>, plan: seq<Entry>, d: Path)
    requires DrawnFrom(q, plan) && d in LandMap(q, |q|)
    ensures Lands(plan, |plan|, d, LandMap(q, |q|)[d])
  {
    LandMapFrom(q, |q|, d);
    var k :| 0 <= k < |q| && q[k].kind.Copy? && q[k].physicalTarget == Some(d) && q[k].source == LandMap(q, |q|)[d];
    assert q[k] in plan;
    var i :| 0 <= i < |plan| && plan[i] == q[k];
  }

  // In any order the same names are written.
  lemma SameNamesWritten(es: seq<Entry>, plan: seq<Entry>, c: Contract, root: Path, q: seq<Entry>)
    requires GoodPlan(es, plan, c, root) && multiset(q) == multiset(plan)
    ensures LandMap(q, |q|).Keys == WriteMap(plan, |plan|).Keys
  {
    SameElements(q, plan);
    var land, write := LandMap(q, |q|), WriteMap(plan, |plan|);
    forall d | d in land
      ensures d in write
    {
      LandedFrom(q, plan, d);
      var i :| 0 <= i < |plan| && plan[i].kind.Copy? && plan[i].physicalTarget == Some(d);
      OwnerPerformsWrite(es, plan, c, root, i);
      WriteMapHas(plan, |plan|, OwnerOf(es, c, root, i));
    }
    forall d | d in write
      ensures d in land
    {
      WriteMapFrom(plan, |plan|, d);
      var i :| 0 <= i < |plan| && plan[i].Writes() && plan[i].destination == d;
      PlanEntry(es, plan, c, root, i);
      assert plan[i] in q;
      var k :| 0 <= k < |q| && q[k] == plan[i];
      LandMapHas(q, |q|, k);
    }
  }

  lemma SourcesAreThere(s: Store, plan: seq<Entry>, q: seq<Entry>, d: Path)
    requires SourcesPresent(s, plan) && DrawnFrom(q, plan)
    requires d in LandMap(q, |q|) && d in WriteMap(plan, |plan|)
    ensures LandMap(q, |q|)[d] in Files(s) && WriteMap(plan, |plan|)[d] in Files(s)
  {
    LandedFrom(q, plan, d);
    WriteMapFrom(plan, |plan|, d);
  }

  lemma OverlaysEqual(s: Store, land: map<Path, Path>, write: map<Path, Path>)
    requires land.Keys == write.Keys
    requires forall d | d in write :: land[d] in Files(s) && write[d] in Files(s)
    ensures Overlaid(Files(s), land) == Overlaid(Files(s), write) <==>
        forall d | d in write :: s[land[d]] == s[write[d]]
  {
    var a, b := Overlaid(Files(s), land), Overlaid(Files(s), write);
    assert forall d | d in write :: a[d] == s[land[d]] && b[d] == s[write[d]];
    assert a.Keys == b.Keys;
  }

  /* ---- Writing once is enough ---- */

  // The last entry of `q` that lands on a target brings the file that the
  // writer of the plan brings.
  ghost predicate SameContent(s: Store, plan: seq<Entry>, q: seq<Entry>) {
    var land, write := LandMap(q, |q|), WriteMap(plan, |plan|);
    forall d | d in write :: d in land && land[d] in s && write[d] in s && s[land[d]] == s[write[d]]
  }

  // Writing every entry through the links, in the order of `q`, gives the same
  // files as writing once per target exactly when the last entry to land on
  // each target brings what its writer brings.
  lemma OnceIsEnoughExactly(s: Store, w: Scope, es: seq<Entry>, plan: seq<Entry>, c: Contract, root: Path, hops: nat,
                            q: seq<Entry>)
    requires Runnable(s, w, es, plan, c, root, hops) && multiset(q) == multiset(plan)
    ensures var all, once := Run(s, q, |q|, hops, false), Run(s, plan, |plan|, hops, true);
      all.ok && once.ok && (Files(all.store) == Files(once.store) <==> SameContent(s, plan, q))
  {
    SameElements(q, plan);
    RunThroughLinks(s, w, es, plan, c, root, hops, q, |q|);
    RunOnce(s, w, es, plan, c, root, hops, plan, |plan|);
    SameNamesWritten(es, plan, c, root, q);
    var land, write := LandMap(q, |q|), WriteMap(plan, |plan|);
    forall d | d in write
      ensures land[d] in Files(s) && write[d] in Files(s)
    {
      SourcesAreThere(s, plan, q, d);
    }
    OverlaysEqual(s, land, write);
  }

  // Every entry brings the file that the writer of its target brings.
  ghost predicate OneFilePerTarget(s: Store, plan: seq<Entry>) {
    forall i | 0 <= i < |plan| && plan[i].kind.Copy? && plan[i].physicalTarget.Some? ::
      BringsWhatWriterBrings(s, plan, i)
  }

  ghost predicate BringsWhatWriterBrings(s: Store, plan: seq<Entry>, i: nat)
    requires i < |plan| && plan[i].physicalTarget.Some?
  {
    var d, write := plan[i].physicalTarget.value, WriteMap(plan, |plan|);
    d in write && write[d] in s && plan[i].source in s && s[plan[i].source] == s[write[d]]
  }

  // Two runs end with the same files.
  ghost predicate SameEnd(s: Store, q: seq<Entry>, qOnce: bool, p: seq<Entry>, pOnce: bool, hops: nat) {
    var a, b := Run(s, q, |q|, hops, qOnce), Run(s, p, |p|, hops, pOnce);
    a.ok && b.ok && Files(a.store) == Files(b.store)
  }

  ghost predicate EveryOrderAgrees(s: Store, plan: seq<Entry>, hops: nat) {
    forall q: seq<Entry> | multiset(q) == multiset(plan) :: SameEnd(s, q, false, plan, true, hops)
  }

  // Writing through the links is the same as writing once in every order
  // exactly when each entry brings the file that the writer of its target
  // brings.
  lemma EveryOrderExactly(s: Store, w: Scope, es: seq<Entry>, plan: seq<Entry>, c: Contract, root: Path, hops: nat)
    requires Runnable(s, w, es, plan, c, root, hops)
    ensures EveryOrderAgrees(s, plan, hops) <==> OneFilePerTarget(s, plan)
  {
    if OneFilePerTarget(s, plan) {
      forall q: seq<Entry> | multiset(q) == multiset(plan)
        ensures SameEnd(s, q, false, plan, true, hops)
      {
        OnceIsEnoughExactly(s, w, es, plan, c, root, hops, q);
        OneFileMeansSame(s, es, plan, c, root, q);
      }
    }
    if EveryOrderAgrees(s, plan, hops) {
      forall i | 0 <= i < |plan| && plan[i].kind.Copy? && plan[i].physicalTarget.Some?
        ensures BringsWhatWriterBrings(s, plan, i)
      {
        var q := MovedLast(plan, i);
        assert SameEnd(s, q, false, plan, true, hops);
        OnceIsEnoughExactly(s, w, es, plan, c, root, hops, q);
        SameNamesWritten(es, plan, c, root, q);
        assert LandMap(q, |q|)[plan[i].physicalTarget.value] == plan[i].source;
      }
    }
  }

  lemma OneFileMeansSame(s: Store, es: seq<Entry>, plan: seq<Entry>, c: Contract, root: Path, q: seq<Entry>)
    requires GoodPlan(es, plan, c, root) && multiset(q) == multiset(plan) && OneFilePerTarget(s, plan)
    ensures SameContent(s, plan, q)
  {
    SameElements(q, plan);
    SameNamesWritten(es, plan, c, root, q);
    forall d | d in WriteMap(plan, |plan|)
      ensures LandMap(q, |q|)[d] in s && WriteMap(plan, |plan|)[d] in s
      ensures s[LandMap(q, |q|)[d]] == s[WriteMap(plan, |plan|)[d]]
    {
      LandedFrom(q, plan, d);
      var i :| 0 <= i < |plan| && plan[i].kind.Copy? && plan[i].physicalTarget == Some(d)
        && plan[i].source == LandMap(q, |q|)[d];
      assert BringsWhatWriterBrings(s, plan, i);
    }
  }

  // The entries with entry `i` moved to the end.
  lemma MovedLast(plan: seq<Entry>, i: nat) returns (q: seq<Entry>)
    requires i < |plan|
    ensures multiset(q) == multiset(plan) && q != [] && q[|q| - 1] == plan[i]
  {
    q := plan[..i] + plan[i + 1..] + [plan[i]];
    assert plan == plan[..i] + [plan[i]] + plan[i + 1..];
  }

  // With shared sources the order does not matter, for either way of writing.
  lemma OnceIsEnough(s: Store, w: Scope, es: seq<Entry>, plan: seq<Entry>, c: Contract, root: Path, hops: nat,
                     q: seq<Entry>)
    requires Runnable(s, w, es, plan, c, root, hops) && SharedSources(es, c, root)
    requires multiset(q) == multiset(plan)
    ensures SameEnd(s, q, false, plan, true, hops) && SameEnd(s, q, true, plan, true, hops)
  {
    SharedMeansOneFile(s, es, plan, c, root);
    EveryOrderExactly(s, w, es, plan, c, root, hops);
    SameElements(q, plan);
    RunOnce(s, w, es, plan, c, root, hops, q, |q|);
    RunOnce(s, w, es, plan, c, root, hops, plan, |plan|);
    PlanSourcesAgree(es, plan, c, root);
    DrawnAgree(q, plan);
    WriteMapOrderFree(q, plan);
  }

  lemma DrawnAgree(q: seq<Entry>, plan: seq<Entry>)
    requires DrawnFrom(q, plan) && SourcesAgree(plan)
    ensures SourcesAgree(q)
  {
    forall i, j | 0 <= i < |q| && 0 <= j < |q|
      ensures SourceAgrees(q[i], q[j])
    {
      assert q[i] in plan && q[j] in plan;
      var k, l :| 0 <= k < |plan| && 0 <= l < |plan| && plan[k] == q[i] && plan[l] == q[j];
      assert SourceAgrees(plan[k], plan[l]);
    }
  }

  lemma SharedMeansOneFile(s: Store, es: seq<Entry>, plan: seq<Entry>, c: Contract, root: Path)
    requires GoodPlan(es, plan, c, root) && SharedSources(es, c, root) && SourcesPresent(s, plan)
    ensures OneFilePerTarget(s, plan)
  {
    PlanSourcesAgree(es, plan, c, root);
    forall i | 0 <= i < |plan| && plan[i].kind.Copy? && plan[i].physicalTarget.Some?
      ensures BringsWhatWriterBrings(s, plan, i)
    {
      PlanEntry(es, plan, c, root, i);
      OwnerPerformsWrite(es, plan, c, root, i);
      var o := OwnerOf(es, c, root, i);
      PlanEntry(es, plan, c, root, o);
      WriteMapAgrees(plan, |plan|, o);
    }
  }
}
