// Stores that a run may pass through: they differ from the store it started
// from only in files at managed names and in directories.
module Staging {
  import opened Paths
  import opened FileStore
  import opened FileOps
  import opened Options
  import opened Projections

  // The names a run is told to manage (`managed`), those of them it changes
  // (`touched`), those of them it makes directories for (`made`), and the names
  // it reads (`sources`).
  datatype Scope = Scope(managed: set<Path>, touched: set<Path>, made: set<Path>, sources: set<Path>)

  // What a caller can check before a run: managed names run through no link,
  // hold a regular file or nothing, and none lies below another; no source is
  // a link, or lies at or below a name that is changed.
  ghost predicate Quiet(s: Store, w: Scope) {
    && WellFormed(s) && w.made <= w.touched <= w.managed
    && (forall d | d in w.managed :: Clear(s, d) && (d in s ==> s[d].File?))
    && (forall d, e | d in w.managed && e in w.managed :: !(d < e))
    && (forall q | q in w.sources :: Clear(s, q) && !IsLinkAt(s, q))
    && (forall d, q | d in w.touched && q in w.sources :: !(d <= q))
  }

  ghost predicate Stage(s: Store, t: Store, w: Scope) {
    && WellFormed(t)
    && Grows(Spared(s), t) && Grows(t, Grown(s, w.made))
    && Files(t) - w.touched == Files(s) - w.touched
    && forall d | d in w.managed && d in t :: t[d].File?
  }

  lemma StageStart(s: Store, w: Scope)
    requires Quiet(s, w)
    ensures Stage(s, s, w)
  {}

  lemma FileUntouched(s: Store, t: Store, w: Scope, p: Path)
    requires Stage(s, t, w) && p !in w.touched
    ensures p in Files(t) <==> p in Files(s)
    ensures p in Files(t) ==> t[p] == s[p]
  {
    assert p in Files(t) <==> p in Files(t) - w.touched;
    assert p in Files(s) <==> p in Files(s) - w.touched;
    assert p in Files(t) ==> (Files(t) - w.touched)[p] == (Files(s) - w.touched)[p];
  }

  lemma StageClear(s: Store, t: Store, w: Scope, p: Path)
    requires Quiet(s, w) && Stage(s, t, w) && Clear(s, p)
    requires forall d | d in w.touched :: !(d < p)
    ensures Clear(t, p)
  {
    forall k | 0 <= k < |p|
      ensures p[..k] in t ==> t[p[..k]].Dir?
    {
      if p[..k] in w.touched {
        assert p[..k] < p;
      } else {
        FileUntouched(s, t, w, p[..k]);
      }
    }
  }

  lemma ManagedClear(s: Store, t: Store, w: Scope, d: Path)
    requires Quiet(s, w) && Stage(s, t, w) && d in w.managed
    ensures Clear(t, d)
  {
    StageClear(s, t, w, d);
  }

  lemma SourceClear(s: Store, t: Store, w: Scope, q: Path)
    requires Quiet(s, w) && Stage(s, t, w) && q in w.sources
    ensures Clear(t, q) && !IsLinkAt(t, q)
    ensures q in Files(t) <==> q in Files(s)
    ensures q in Files(t) ==> t[q] == s[q]
  {
    StageClear(s, t, w, q);
    FileUntouched(s, t, w, q);
  }

  /* ---- The steps ---- */

  lemma StageStep(s: Store, t: Store, w: Scope, d: Path, v: Store)
    requires Quiet(s, w) && Stage(s, t, w) && d in w.touched
    requires WellFormed(v) && Touches(t, v, d) && (d in v ==> v[d].File?)
    requires d in w.made || v.Keys <= t.Keys
    ensures Stage(s, v, w)
  {
    NewDirsAreMade(s, t, w, d, v);
    forall q | q in Spared(s) && (s[q].Dir? || s[q].Link?)
      ensures q in v && v[q] == s[q]
    {
      assert Spared(s)[q] == s[q];
    }
    forall e | e in w.managed && e in v
      ensures v[e].File?
    {
      assert !(e < d);
    }
    FilesElsewhere(t, v, d, w.touched);
  }

  lemma NewDirsAreMade(s: Store, t: Store, w: Scope, d: Path, v: Store)
    requires Quiet(s, w) && Grows(t, Grown(s, w.made)) && d in w.touched
    requires Touches(t, v, d) && (d in v ==> v[d].File?) && (d in w.made || v.Keys <= t.Keys)
    ensures Grows(v, Grown(s, w.made))
  {
    forall q | q in v && (v[q].Dir? || v[q].Link?)
      ensures q in Grown(s, w.made) && Grown(s, w.made)[q] == v[q]
    {
      if q !in t {
        assert q < d && q == d[..|q|] && q in Above(w.made);
        assert Clear(s, d);
      }
    }
  }

  lemma FilesElsewhere(t: Store, v: Store, d: Path, names: set<Path>)
    requires Touches(t, v, d) && d in names
    ensures Files(v) - names == Files(t) - names
  {}

  lemma StageInstall(s: Store, t: Store, w: Scope, d: Path, node: Node, hops: nat)
    requires Quiet(s, w) && Stage(s, t, w) && d in w.made && node.File?
    ensures var o := Install(t, d, Some(node), hops);
      o.ok && Stage(s, o.store, w) && Files(o.store) == Files(t)[d := node] && Touches(t, o.store, d)
  {
    ManagedClear(s, t, w, d);
    InstallClear(t, d, node, hops);
    StageStep(s, t, w, d, Install(t, d, Some(node), hops).store);
  }

  lemma StageUnlink(s: Store, t: Store, w: Scope, d: Path, hops: nat)
    requires Quiet(s, w) && Stage(s, t, w) && d in w.touched && d in t
    ensures var o := Unlink(t, d, hops);
      o.ok && Stage(s, o.store, w) && Files(o.store) == Files(t) - {d}
  {
    ManagedClear(s, t, w, d);
    UnlinkClear(t, d, hops);
    StageStep(s, t, w, d, Unlink(t, d, hops).store);
  }

  lemma StageRmdir(s: Store, t: Store, w: Scope, d: Path)
    requires Stage(s, t, w) && d != [] && IsEmptyDir(t, d) && UnderOrchestration(d)
    ensures Stage(s, t - {d}, w) && Files(t - {d}) == Files(t)
  {
    DropWellFormed(t, d);
    DropDir(s, t, d);
  }

  lemma DropDir(s: Store, t: Store, d: Path)
    requires IsDirAt(t, d) && UnderOrchestration(d) && Grows(Spared(s), t)
    ensures Files(t - {d}) == Files(t) && Grows(Spared(s), t - {d}) && Grows(t - {d}, t)
  {}

  // The aliases survive every stage, and the contract does if no undeclared
  // link shows up among the directories of the run.
  lemma StageKeepsAliases(s: Store, t: Store, w: Scope, root: Path, c: Contract, hops: nat)
    requires AliasesStable(s, root, c, hops) && Stage(s, t, w)
    ensures forall i | 0 <= i < |c| :: Holds(t, root, c[i], hops)
    ensures ContractHolds(t, root, c, hops) <==> NoneUndeclared(t, root, c, hops)
  {
    AliasesKept(s, t, root, c, hops);
  }

  lemma StageKeepsContract(s: Store, t: Store, w: Scope, root: Path, c: Contract, hops: nat)
    requires ContractStable(s, root, c, w.made, hops) && Stage(s, t, w)
    ensures ContractHolds(t, root, c, hops)
  {
    ContractKept(s, t, root, c, w.made, hops);
  }

  /* ---- A run from a stage of another ---- */

  // A stage that makes no other directories is quiet itself.
  lemma StageIsQuiet(s: Store, t: Store, w: Scope)
    requires Quiet(s, w) && Stage(s, t, w)
    ensures Quiet(t, w)
  {
    forall d | d in w.managed
      ensures Clear(t, d)
    {
      ManagedClear(s, t, w, d);
    }
    forall q | q in w.sources
      ensures Clear(t, q) && !IsLinkAt(t, q)
    {
      SourceClear(s, t, w, q);
    }
  }

  // The aliases, and the contract, are as stable at a stage as at the start.
  lemma StageIsStable(s: Store, t: Store, w: Scope, root: Path, c: Contract, hops: nat)
    requires Quiet(s, w) && Stage(s, t, w) && AliasesStable(s, root, c, hops)
    ensures AliasesStable(t, root, c, hops)
    ensures NoneUndeclared(Grown(s, w.made), root, c, hops) ==> NoneUndeclared(Grown(t, w.made), root, c, hops)
  {
    StageIsQuiet(s, t, w);
    AliasesStayStable(s, t, root, c, hops);
    if NoneUndeclared(Grown(s, w.made), root, c, hops) {
      GrownTwice(s, t, w.made);
      StableWhenGrown(s, t, root, c, w.made, w.made, hops);
    }
  }
}
