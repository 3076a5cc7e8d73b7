// The system calls that change the tree, as functions from store to store,
// and what they do at a name that runs through no link.
module FileOps {
  import opened Paths
  import opened FileStore
  import opened Options

  // The store after the call, which may have changed it before it failed.
  datatype Outcome = Outcome(store: Store, ok: bool)

  // `Path.mkdir(parents=True, exist_ok=True)`
  function MakeDirs(s: Store, p: Path, hops: nat): Outcome
    decreases |p|
  {
    if IsDir(s, p, hops) then Outcome(s, true)
    else if p == [] then Outcome(s, false)
    else
      var up := MakeDirs(s, Parent(p), hops);
      if !up.ok then up
      else
        var l := Locate(up.store, p, hops);
        if !l.Found? || l.at in up.store then Outcome(up.store, false)
        else Outcome(up.store[l.at := Dir], true)
  }

  // rename(2) of a finished temporary file onto `p`.
  function Place(s: Store, p: Path, node: Node, hops: nat): Outcome {
    var l := Locate(s, p, hops);
    if !l.Found? || IsDirAt(s, l.at) then Outcome(s, false)
    else Outcome(s[l.at := node], true)
  }

  function Unlink(s: Store, p: Path, hops: nat): Outcome {
    var l := Locate(s, p, hops);
    if !l.Found? || l.at !in s || s[l.at].Dir? then Outcome(s, false)
    else Outcome(s - {l.at}, true)
  }

  // symlink(2): refuses a name that is taken.
  function Symlink(s: Store, p: Path, link: Node, hops: nat): Outcome {
    var l := Locate(s, p, hops);
    if !l.Found? || l.at in s then Outcome(s, false)
    else Outcome(s[l.at := link], true)
  }

  predicate IsEmptyDir(s: Store, p: Path) {
    IsDirAt(s, p) && forall q | q in s :: !(p < q)
  }

  function Rmdir(s: Store, p: Path, hops: nat): Outcome {
    var l := Locate(s, p, hops);
    if !l.Found? || l.at == [] || !IsEmptyDir(s, l.at) then Outcome(s, false)
    else Outcome(s - {l.at}, true)
  }

  // chmod(2) follows links.
  function Chmod(s: Store, p: Path, mode: nat, hops: nat): Outcome {
    var l := Walk(s, [], p, hops);
    if !l.Found? || l.at !in s || !s[l.at].File? then Outcome(s, false)
    else Outcome(s[l.at := s[l.at].(mode := mode)], true)
  }

  // What `copy_preserving` reads at `p`: a link as a link, a file with its
  // content and mode; anything else makes it raise.
  function SourceNode(s: Store, p: Path, hops: nat): Option<Node> {
    if IsSymlink(s, p, hops) then Some(s[Locate(s, p, hops).at])
    else if IsFile(s, p, hops) then Some(s[Walk(s, [], p, hops).at])
    else None
  }

  // `copy_preserving`, once the source node is known.  A link replaces what is
  // there in two steps, a file in one.
  function Install(s: Store, p: Path, node: Option<Node>, hops: nat): Outcome {
    var up := MakeDirs(s, Parent(p), hops);
    if !up.ok then up
    else if node.None? then Outcome(up.store, false)
    else if !node.value.Link? then Place(up.store, p, node.value, hops)
    else
      var freed := if Present(up.store, p, hops) then Unlink(up.store, p, hops) else up;
      if !freed.ok then freed else Symlink(freed.store, p, node.value, hops)
  }

  /* ---- Changes that touch one name ---- */

  // From `s` to `t`, only `p` may differ, apart from new directories above it.
  ghost predicate Touches(s: Store, t: Store, p: Path) {
    && (forall q | q in s && q != p :: q in t && t[q] == s[q])
    && (forall q | q in t && q !in s && q != p :: t[q].Dir? && q < p)
  }

  lemma {:induction false} MakeDirsClear(s: Store, p: Path, hops: nat)
    requires WellFormed(s) && (p == [] || Clear(s, p)) && (p in s ==> s[p].Dir?)
    ensures var o := MakeDirs(s, p, hops);
      && o.ok && WellFormed(o.store) && IsDirAt(o.store, p)
      && (forall q | q in s :: q in o.store && o.store[q] == s[q])
      && (forall q | q in o.store && q !in s :: o.store[q].Dir? && q <= p)
    decreases |p|
  {
    if p != [] {
      ClearLookups(s, p, hops);
      if p !in s {
        assert !Exists(s, p, hops) && !IsDir(s, p, hops);
        var q := Parent(p);
        assert q == p[..|p| - 1];
        forall k | 0 <= k < |q|
          ensures q[..k] in s ==> s[q[..k]].Dir?
        {
          assert q[..k] == p[..k];
        }
        MakeDirsClear(s, q, hops);
        var t := MakeDirs(s, q, hops).store;
        forall k | 0 <= k < |p|
          ensures p[..k] in t ==> t[p[..k]].Dir?
        {}
        ClearLookups(t, p, hops);
      }
    }
  }

  // The parents of a clear name can be made, and that is all `Install` adds.
  lemma ParentsClear(s: Store, p: Path, hops: nat)
    requires WellFormed(s) && Clear(s, p)
    ensures var o := MakeDirs(s, Parent(p), hops);
      && o.ok && WellFormed(o.store) && Clear(o.store, p) && IsDirAt(o.store, Parent(p))
      && (forall q | q in s :: q in o.store && o.store[q] == s[q])
      && (forall q | q in o.store && q !in s :: o.store[q].Dir? && q < p)
  {
    var q := Parent(p);
    assert q == p[..|p| - 1];
    forall k | 0 <= k < |q|
      ensures q[..k] in s ==> s[q[..k]].Dir?
    {
      assert q[..k] == p[..k];
    }
    MakeDirsClear(s, q, hops);
    var t := MakeDirs(s, q, hops).store;
    assert forall r | r in t && r !in s :: r < p;
    forall k | 0 <= k < |p|
      ensures p[..k] in t ==> t[p[..k]].Dir?
    {}
  }

  lemma FilesGrown(s: Store, t: Store)
    requires forall q | q in s :: q in t && t[q] == s[q]
    requires forall q | q in t && q !in s :: t[q].Dir?
    ensures Files(t) == Files(s)
  {}

  lemma FilesPut(s: Store, p: Path, node: Node)
    requires !IsDirAt(s, p) && !node.Dir?
    ensures Files(s[p := node]) == Files(s)[p := node]
  {}

  lemma InstallClear(s: Store, p: Path, node: Node, hops: nat)
    requires WellFormed(s) && Clear(s, p) && !IsDirAt(s, p) && !node.Dir?
    ensures var o := Install(s, p, Some(node), hops);
      && o.ok && WellFormed(o.store) && Touches(s, o.store, p)
      && p in o.store && o.store[p] == node
      && Files(o.store) == Files(s)[p := node]
  {
    ParentsClear(s, p, hops);
    InstallPuts(s, p, node, hops);
    PutBelowNewDirs(s, MakeDirs(s, Parent(p), hops).store, p, node);
  }

  lemma PutBelowNewDirs(s: Store, t: Store, p: Path, node: Node)
    requires WellFormed(t) && p != [] && UP !in p && IsDirAt(t, Parent(p)) && !IsDirAt(s, p) && !node.Dir?
    requires forall q | q in s :: q in t && t[q] == s[q]
    requires forall q | q in t && q !in s :: t[q].Dir? && q < p
    ensures WellFormed(t[p := node]) && Touches(s, t[p := node], p) && Files(t[p := node]) == Files(s)[p := node]
  {
    assert Last(p) in p;
    FilesGrown(s, t);
    FilesPut(t, p, node);
    PutWellFormed(t, p, node);
  }

  lemma InstallPuts(s: Store, p: Path, node: Node, hops: nat)
    requires var o := MakeDirs(s, Parent(p), hops);
      o.ok && WellFormed(o.store) && Clear(o.store, p) && IsDirAt(o.store, Parent(p)) && !IsDirAt(o.store, p)
    ensures Install(s, p, Some(node), hops) == Outcome(MakeDirs(s, Parent(p), hops).store[p := node], true)
  {
    var t := MakeDirs(s, Parent(p), hops).store;
    ClearLookups(t, p, hops);
    if node.Link? && p in t {
      RelinkClear(t, p, node, hops);
    }
  }

  // Replacing what is at `p` by a link, in two steps.
  lemma RelinkClear(t: Store, p: Path, node: Node, hops: nat)
    requires WellFormed(t) && Clear(t, p) && p in t && !IsDirAt(t, p)
    ensures var u := Unlink(t, p, hops);
      u.ok && Symlink(u.store, p, node, hops) == Outcome(t[p := node], true)
  {
    UnlinkClear(t, p, hops);
    ClearLookups(t, p, hops);
    var u := Unlink(t, p, hops).store;
    ClearKept(t, u, p, p);
    ClearLookups(u, p, hops);
    assert Parent(p) != p;
    assert u[p := node] == t[p := node];
  }

  lemma PutWellFormed(s: Store, p: Path, node: Node)
    requires WellFormed(s) && p != [] && Last(p) != UP && IsDirAt(s, Parent(p)) && !IsDirAt(s, p)
    ensures WellFormed(s[p := node])
  {
    var t := s[p := node];
    forall q | q in t && q != []
      ensures Last(q) != UP && Parent(q) in t && t[Parent(q)].Dir?
    {
      if q != p {
        assert IsDirAt(s, Parent(q));
      }
    }
  }

  lemma DropWellFormed(s: Store, p: Path)
    requires WellFormed(s) && p != [] && forall q | q in s :: !(p < q)
    ensures WellFormed(s - {p})
  {
    var t := s - {p};
    forall q | q in t && q != []
      ensures Last(q) != UP && Parent(q) in t && t[Parent(q)].Dir?
    {
      assert q[..|q| - 1] == Parent(q);
      assert Parent(q) in s && Parent(q) < q;
    }
  }

  lemma NothingBelow(s: Store, p: Path)
    requires WellFormed(s) && p in s && !s[p].Dir?
    ensures forall q | q in s :: !(p < q)
  {
    forall q | q in s
      ensures !(p < q)
    {
      if p < q {
        assert q[..|p|] == p;
        PrefixesAreDirs(s, q, |p|);
      }
    }
  }

  lemma UnlinkClear(s: Store, p: Path, hops: nat)
    requires WellFormed(s) && Clear(s, p) && p in s && !s[p].Dir?
    ensures var o := Unlink(s, p, hops);
      && o.ok && WellFormed(o.store) && Touches(s, o.store, p) && p !in o.store
      && Files(o.store) == Files(s) - {p}
  {
    ClearLookups(s, p, hops);
    NothingBelow(s, p);
    DropWellFormed(s, p);
  }

  lemma TouchesTwice(s: Store, t: Store, u: Store, p: Path)
    requires Touches(s, t, p) && Touches(t, u, p)
    ensures Touches(s, u, p)
  {}

  // A change at `p` leaves every name clear that does not run through `p`.
  lemma ClearKept(s: Store, t: Store, p: Path, q: Path)
    requires Touches(s, t, p) && Clear(s, q) && !(p < q)
    ensures Clear(t, q)
  {
    forall k | 0 <= k < |q|
      ensures q[..k] in t ==> t[q[..k]].Dir?
    {
      assert q[..k] < q;
    }
  }
}
