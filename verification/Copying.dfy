// Copying the entries of a plan: through the links, entry by entry, or only
// once per physical target.
module Copying {
  import opened Paths
  import opened FileStore
  import opened FileOps
  import opened Options
  import opened Projections
  import opened Planner
  import opened Staging

  // `copy_preserving(source, destination)` within one volume.
  function CopyInto(s: Store, source: Path, destination: Path, hops: nat): Outcome {
    Install(s, destination, SourceNode(MakeDirs(s, Parent(destination), hops).store, source, hops), hops)
  }

  // The files `f` with the file at `m[d]` copied to each `d`.
  function Overlaid(f: Store, m: map<Path, Path>): Store {
    f + map d | d in m && m[d] in f :: f[m[d]]
  }

  // What the first `n` entries write, destination to source.
  ghost function WriteMap(plan: seq<Entry>, n: nat): map<Path, Path>
    requires n <= |plan|
  {
    if n == 0 then map[]
    else
      var before := WriteMap(plan, n - 1);
      if plan[n - 1].Writes() then before[plan[n - 1].destination := plan[n - 1].source] else before
  }

  // Some writer among the first `n` copies `source` to `d`.
  ghost predicate Wrote(plan: seq<Entry>, n: nat, d: Path, source: Path)
    requires n <= |plan|
  {
    exists j | 0 <= j < n :: plan[j].Writes() && plan[j].destination == d && plan[j].source == source
  }

  lemma {:induction false} WriteMapFrom(plan: seq<Entry>, n: nat, d: Path)
    requires n <= |plan| && d in WriteMap(plan, n)
    ensures Wrote(plan, n, d, WriteMap(plan, n)[d])
  {
    if plan[n - 1].Writes() && plan[n - 1].destination == d {
    } else {
      WriteMapFrom(plan, n - 1, d);
    }
  }

  lemma {:induction false} WriteMapHas(plan: seq<Entry>, n: nat, j: nat)
    requires j < n <= |plan| && plan[j].Writes()
    ensures plan[j].destination in WriteMap(plan, n)
  {
    if j < n - 1 {
      WriteMapHas(plan, n - 1, j);
    }
  }

  lemma WriteMapAgrees(plan: seq<Entry>, n: nat, j: nat)
    requires n <= |plan| && j < n && SourcesAgree(plan) && plan[j].Writes()
    ensures plan[j].destination in WriteMap(plan, n) && WriteMap(plan, n)[plan[j].destination] == plan[j].source
  {
    var d := plan[j].destination;
    WriteMapHas(plan, n, j);
    WriteMapFrom(plan, n, d);
    var k :| 0 <= k < n && plan[k].Writes() && plan[k].destination == d && plan[k].source == WriteMap(plan, n)[d];
    assert SourceAgrees(plan[k], plan[j]);
  }

  // Writing does not depend on the order of the plan.
  lemma WriteMapOrderFree(p: seq<Entry>, q: seq<Entry>)
    requires SourcesAgree(p) && SourcesAgree(q)
    requires forall e :: e in p <==> e in q
    ensures WriteMap(p, |p|) == WriteMap(q, |q|)
  {
    WriteMapWithin(p, q);
    WriteMapWithin(q, p);
  }

  lemma WriteMapWithin(p: seq<Entry>, q: seq<Entry>)
    requires SourcesAgree(q) && forall e :: e in p ==> e in q
    ensures forall d | d in WriteMap(p, |p|) :: d in WriteMap(q, |q|) && WriteMap(q, |q|)[d] == WriteMap(p, |p|)[d]
  {
    forall d | d in WriteMap(p, |p|)
      ensures d in WriteMap(q, |q|) && WriteMap(q, |q|)[d] == WriteMap(p, |p|)[d]
    {
      WriteMapFrom(p, |p|, d);
      var j :| 0 <= j < |p| && p[j].Writes() && p[j].destination == d && p[j].source == WriteMap(p, |p|)[d];
      assert p[j] in q;
      var k :| 0 <= k < |q| && q[k] == p[j];
      WriteMapAgrees(q, |q|, k);
    }
  }

  // The destinations of the writers, among the first `n` entries or all.
  function WrittenBy(plan: seq<Entry>, n: nat): set<Path>
    requires n <= |plan|
  {
    set i | 0 <= i < n && plan[i].Writes() :: plan[i].destination
  }

  function WrittenNames(plan: seq<Entry>): set<Path> {
    WrittenBy(plan, |plan|)
  }

  lemma WriteMapKeys(plan: seq<Entry>, n: nat)
    requires n <= |plan|
    ensures WriteMap(plan, n).Keys == WrittenBy(plan, n)
  {
    forall d | d in WriteMap(plan, n)
      ensures d in WrittenBy(plan, n)
    {
      WriteMapFrom(plan, n, d);
    }
    forall d | d in WrittenBy(plan, n)
      ensures d in WriteMap(plan, n)
    {
      var i :| 0 <= i < n && plan[i].Writes() && plan[i].destination == d;
      WriteMapHas(plan, n, i);
    }
  }

  // The scope covers the copies of a plan.
  ghost predicate Covers(w: Scope, plan: seq<Entry>) {
    && w.made == WrittenNames(plan)
    && (forall i | 0 <= i < |plan| && plan[i].kind.Copy? :: plan[i].source in w.sources)
  }

  // From `s`, the first `n` entries have been copied, once per target.
  ghost predicate CopiedTo(s: Store, t: Store, w: Scope, plan: seq<Entry>, n: nat)
    requires n <= |plan|
  {
    Shows(s, t, w, WriteMap(plan, n))
  }

  // The stage at which the sources in `m` have been copied to its names, with
  // directories made for them and none gone.
  ghost predicate Shows(s: Store, t: Store, w: Scope, m: map<Path, Path>) {
    Stage(s, t, w) && Grows(s, t) && Grows(t, Grown(s, m.Keys)) && Files(t) == Overlaid(Files(s), m)
  }

  // The store once the writers among the first `n` entries have copied.
  ghost function CopiedBy(s: Store, plan: seq<Entry>, n: nat): Store
    requires n <= |plan|
  {
    Grown(s, WrittenBy(plan, n)) + Overlaid(Files(s), WriteMap(plan, n))
  }

  ghost function AfterCopies(s: Store, plan: seq<Entry>): Store {
    CopiedBy(s, plan, |plan|)
  }

  /* ---- One copy ---- */

  // A copy from a regular source, seen at the physical name `d` it lands on.
  lemma CopyLands(s: Store, t: Store, w: Scope, source: Path, name: Path, d: Path, m: map<Path, Path>, hops: nat)
    requires Quiet(s, w) && Shows(s, t, w, m) && d in w.made && source in w.sources
    requires source in s && s[source].File?
    requires LandsAt(t, name, d, hops)
    ensures var o := CopyInto(t, source, name, hops);
      o.ok && Shows(s, o.store, w, m[d := source])
  {
    CopyReads(s, t, w, source, name, d, m, hops);
    StageInstall(s, t, w, d, s[source], hops);
    ShowsMore(s, t, w, m, d, source, Install(t, d, Some(s[source]), hops).store);
  }

  lemma ShowsMore(s: Store, t: Store, w: Scope, m: map<Path, Path>, d: Path, source: Path, u: Store)
    requires Quiet(s, w) && Shows(s, t, w, m) && d in w.made && source in Files(s) && s[source].File?
    requires Stage(s, u, w) && Touches(t, u, d) && Files(u) == Files(t)[d := s[source]]
    ensures Shows(s, u, w, m[d := source])
  {
    assert d in Files(u);
    OverlayOne(Files(s), m, d, source);
    GrowsPast(s, t, w, d, m, source, u);
  }

  // The copy installs the file that was at the source from the start.
  lemma CopyReads(s: Store, t: Store, w: Scope, source: Path, name: Path, d: Path, m: map<Path, Path>, hops: nat)
    requires Quiet(s, w) && Shows(s, t, w, m) && source in w.sources && source in s && s[source].File?
    requires LandsAt(t, name, d, hops)
    ensures CopyInto(t, source, name, hops) == Install(t, d, Some(s[source]), hops)
    ensures source in Files(s) && Files(s)[source] == s[source]
  {
    SourceClear(s, t, w, source);
    assert source in Files(s);
    var up := MakeDirs(t, Parent(name), hops).store;
    ClearGrown(t, up, source);
    ClearLookups(up, source, hops);
  }

  lemma GrowsPast(s: Store, t: Store, w: Scope, d: Path, m: map<Path, Path>, source: Path, u: Store)
    requires Quiet(s, w) && d in w.made && Grows(s, t) && Grows(t, Grown(s, m.Keys)) && Touches(t, u, d)
    requires d in u && u[d].File?
    ensures Grows(s, u) && Grows(u, Grown(s, m[d := source].Keys))
  {
    forall q | q in u && (u[q].Dir? || u[q].Link?)
      ensures q in Grown(s, m[d := source].Keys) && Grown(s, m[d := source].Keys)[q] == u[q]
    {
      if q !in t {
        assert q < d && q == d[..|q|] && d in m[d := source].Keys;
        assert Clear(s, d);
      }
    }
  }

  lemma OverlayOne(f: Store, m: map<Path, Path>, d: Path, source: Path)
    requires source in f
    ensures Overlaid(f, m[d := source]) == Overlaid(f, m)[d := f[source]]
  {}

  // Making the parents of `name` and installing at `name` act at `d`.
  ghost predicate LandsAt(t: Store, name: Path, d: Path, hops: nat) {
    && OnlyDirsAdded(t, MakeDirs(t, Parent(name), hops).store)
    && WellFormed(MakeDirs(t, Parent(name), hops).store)
    && forall node: Node | node.File? :: Install(t, name, Some(node), hops) == Install(t, d, Some(node), hops)
  }

  ghost predicate OnlyDirsAdded(t: Store, u: Store) {
    && (forall q | q in t :: q in u && u[q] == t[q])
    && (forall q | q in u && q !in t :: u[q].Dir?)
  }

  lemma ClearGrown(t: Store, u: Store, q: Path)
    requires OnlyDirsAdded(t, u) && Clear(t, q)
    ensures Clear(u, q)
  {}

  lemma ClearLandsAtItself(t: Store, d: Path, hops: nat)
    requires WellFormed(t) && Clear(t, d)
    ensures LandsAt(t, d, d, hops)
  {
    ParentsClear(t, d, hops);
  }

  /* ---- Through an alias ---- */

  // Below a target that runs through no link the budget does not matter, so
  // the alias answers the lookups of the target.
  lemma AliasWalk(s: Store, root: Path, p: Projection, hops: nat, rest: Path)
    requires WellFormed(s) && Holds(s, root, p, hops)
    ensures root + p.target + rest in s && !s[root + p.target + rest].Link? ==>
      Walk(s, [], root + p.logical + rest, hops) == Found(root + p.target + rest)
    ensures Clear(s, root + p.target + rest) && root + p.target + rest !in s ==>
      !Walk(s, [], root + p.logical + rest, hops).Found?
  {
    var d := root + p.target + rest;
    var left := hops - Cost(s, [], root + p.logical, hops);
    AliasResolvesAsTarget(s, root, p, hops, rest, left);
    if d in s {
      if !s[d].Link? {
        PhysicalWalk(s, d, left);
      }
    } else if Clear(s, d) {
      ClearLookups(s, d, left);
      WalkEnds(s, [], d, left);
    }
  }

  // The lookups that `Install` makes below the alias, and below the target.
  lemma AliasLookups(s: Store, root: Path, p: Projection, hops: nat, rest: Path)
    requires WellFormed(s) && Holds(s, root, p, hops) && rest != []
    requires Clear(s, root + p.target + rest) && Parent(root + p.target + rest) in s
    ensures Locate(s, root + p.logical + rest, hops) == Locate(s, root + p.target + rest, hops)
  {
    var logical, expected := root + p.logical, root + p.target;
    var q := Parent(rest);
    ParentOfJoin(logical, rest);
    ParentOfJoin(expected, rest);
    ParentIsDir(s, expected + rest);
    AliasWalk(s, root, p, hops, q);
    LocateUnder(s, logical + rest, expected + rest, hops);
    ClearLookups(s, expected + rest, hops);
  }

  lemma LocateUnder(s: Store, a: Path, d: Path, hops: nat)
    requires a != [] && d != [] && Last(a) == Last(d) && Plain(d)
    requires Walk(s, [], Parent(a), hops) == Found(Parent(d)) && IsDirAt(s, Parent(d))
    ensures Locate(s, a, hops) == Found(d)
  {
    JoinParentLast(d);
    assert Last(d) in d;
  }

  lemma ParentIsDir(s: Store, d: Path)
    requires Clear(s, d) && Parent(d) in s
    ensures s[Parent(d)].Dir?
  {
    assert Parent(d) == d[..|d| - 1];
  }

  lemma {:induction false} AliasMakesSameDirs(s: Store, root: Path, p: Projection, hops: nat, rest: Path)
    requires WellFormed(s) && Holds(s, root, p, hops) && p.logical != [] && p.target != []
    requires rest == [] || Clear(s, root + p.target + rest)
    requires root + p.target + rest in s ==> s[root + p.target + rest].Dir?
    ensures MakeDirs(s, root + p.logical + rest, hops) == MakeDirs(s, root + p.target + rest, hops)
    decreases |rest|
  {
    var logical, expected := root + p.logical, root + p.target;
    if rest == [] {
      assert logical + rest == logical && expected + rest == expected;
      PhysicalWalk(s, expected, hops);
    } else {
      var q := Parent(rest);
      ParentOfJoin(logical, rest);
      ParentOfJoin(expected, rest);
      AliasWalk(s, root, p, hops, rest);
      ClearLookups(s, expected + rest, hops);
      if expected + rest in s {
        PhysicalWalk(s, expected + rest, hops);
      } else {
        ParentsClear(s, expected + rest, hops);
        ClearPrefix(s, expected + rest);
        AliasMakesSameDirs(s, root, p, hops, q);
        var t := MakeDirs(s, expected + q, hops).store;
        HoldsGrows(s, t, root, p, hops);
        AliasLookups(t, root, p, hops, rest);
        assert !IsDir(s, expected + rest, hops);
      }
    }
  }

  lemma ClearPrefix(s: Store, d: Path)
    requires Clear(s, d) && |d| > 1
    ensures Clear(s, Parent(d)) && (Parent(d) in s ==> s[Parent(d)].Dir?)
  {
    var q := Parent(d);
    assert q == d[..|d| - 1];
    forall k | 0 <= k < |q|
      ensures q[..k] in s ==> s[q[..k]].Dir?
    {
      assert q[..k] == d[..k];
    }
  }

  // A write below the alias lands below the target.
  lemma AliasLandsAtTarget(s: Store, root: Path, p: Projection, hops: nat, rest: Path)
    requires WellFormed(s) && Holds(s, root, p, hops) && p.logical != [] && p.target != []
    requires rest != [] && Clear(s, root + p.target + rest)
    ensures LandsAt(s, root + p.logical + rest, root + p.target + rest, hops)
  {
    var logical, expected := root + p.logical, root + p.target;
    var q := Parent(rest);
    ParentOfJoin(logical, rest);
    ParentOfJoin(expected, rest);
    ParentsClear(s, expected + rest, hops);
    ClearPrefix(s, expected + rest);
    AliasMakesSameDirs(s, root, p, hops, q);
    var t := MakeDirs(s, expected + q, hops).store;
    HoldsGrows(s, t, root, p, hops);
    AliasLookups(t, root, p, hops, rest);
    SamePlaceSameInstall(s, logical + rest, expected + rest, hops);
  }

  lemma SamePlaceSameInstall(s: Store, a: Path, d: Path, hops: nat)
    requires var o := MakeDirs(s, Parent(d), hops);
      MakeDirs(s, Parent(a), hops) == o && Locate(o.store, a, hops) == Locate(o.store, d, hops)
      && WellFormed(o.store) && OnlyDirsAdded(s, o.store)
    ensures LandsAt(s, a, d, hops)
  {}
}
