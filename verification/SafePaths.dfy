// The containment checks that guard every managed name and every backup name.
module SafePaths {
  import opened Paths
  import opened FileStore
  import opened Volumes

  // `Path.resolve(strict=False)`: as `Walk`, but what is missing is appended.
  function Resolve(s: Store, cur: Path, rest: Path, hops: nat): Lookup
    decreases hops, |rest|
  {
    if rest == [] then Found(cur)
    else if rest[0] == UP then Resolve(s, Parent(cur), rest[1..], hops)
    else
      var next := cur + [rest[0]];
      if IsLinkAt(s, next) then
        if hops == 0 then Loop
        else Resolve(s, LinkBase(s, next), s[next].parts + rest[1..], hops - 1)
      else Resolve(s, next, rest[1..], hops)
  }

  // `safe_target` lets `p` pass.  A name whose links form a loop does not.
  predicate SafeTarget(s: Store, p: Path, root: Path, hops: nat) {
    var r := Resolve(s, [], root, hops);
    var q := if IsSymlink(s, p, hops) || p == [] then Resolve(s, [], p, hops)
             else match Resolve(s, [], Parent(p), hops)
               case Found(d) => Found(d + [Last(p)])
               case other => other;
    r.Found? && q.Found? && Within(q.at, r.at)
  }

  // What exists resolves to where the walk ends.
  lemma {:induction false} ResolveIsWalk(s: Store, cur: Path, rest: Path, hops: nat)
    requires Walk(s, cur, rest, hops).Found?
    ensures Resolve(s, cur, rest, hops) == Walk(s, cur, rest, hops)
    decreases hops, |rest|
  {
    if rest != [] {
      if rest[0] == UP {
        ResolveIsWalk(s, Parent(cur), rest[1..], hops);
      } else {
        var next := cur + [rest[0]];
        if s[next].Link? {
          ResolveIsWalk(s, LinkBase(s, next), s[next].parts + rest[1..], hops - 1);
        } else {
          ResolveIsWalk(s, next, rest[1..], hops);
        }
      }
    }
  }

  // What is missing is appended, name by name.
  lemma {:induction false} ResolveMissing(s: Store, cur: Path, rest: Path, hops: nat)
    requires WellFormed(s) && Plain(rest) && cur !in s
    ensures Resolve(s, cur, rest, hops) == Found(cur + rest)
    decreases |rest|
  {
    if rest == [] {
      assert cur + rest == cur;
    } else {
      var next := cur + [rest[0]];
      ParentOfChild(cur, rest[0]);
      assert next !in s;
      ResolveMissing(s, next, rest[1..], hops);
      assert next + rest[1..] == cur + rest;
    }
  }

  lemma {:induction false} ResolveThen(s: Store, cur: Path, a: Path, rest: Path, hops: nat)
    requires Walk(s, cur, a, hops).Found?
    ensures Resolve(s, cur, a + rest, hops) == Resolve(s, Walk(s, cur, a, hops).at, rest, hops - Cost(s, cur, a, hops))
    decreases hops, |a|
  {
    if a == [] {
      assert a + rest == rest;
    } else {
      assert (a + rest)[0] == a[0] && (a + rest)[1..] == a[1..] + rest;
      if a[0] == UP {
        ResolveThen(s, Parent(cur), a[1..], rest, hops);
      } else {
        var next := cur + [a[0]];
        if s[next].Link? {
          var text := s[next].parts;
          assert text + (a[1..] + rest) == (text + a[1..]) + rest;
          ResolveThen(s, LinkBase(s, next), text + a[1..], rest, hops - 1);
        } else {
          ResolveThen(s, next, a[1..], rest, hops);
        }
      }
    }
  }

  /* ---- What `safe_target` lets pass ---- */

  // The place that the name `p` stands for: where a link leads, or where the
  // last component lives.
  function PlaceOf(s: Store, p: Path, hops: nat): Lookup {
    if IsSymlink(s, p, hops) then Walk(s, [], p, hops) else Locate(s, p, hops)
  }

  // `safe_target` lets a name pass exactly if its place lies below the place of
  // the root, whatever links the two run through.
  lemma SafeTargetExactly(s: Store, p: Path, root: Path, hops: nat)
    requires p != [] && Last(p) != UP && PlaceOf(s, p, hops).Found? && Walk(s, [], root, hops).Found?
    ensures SafeTarget(s, p, root, hops) <==> Within(PlaceOf(s, p, hops).at, Walk(s, [], root, hops).at)
  {
    ResolveIsWalk(s, [], root, hops);
    if IsSymlink(s, p, hops) {
      ResolveIsWalk(s, [], p, hops);
    } else {
      ResolveIsWalk(s, [], Parent(p), hops);
    }
  }

  // Where both lead somewhere, the place of `p` lies below that of the root.
  ghost predicate LiesWithin(s: Store, p: Path, root: Path, hops: nat) {
    p != [] && Last(p) != UP && PlaceOf(s, p, hops).Found? && Walk(s, [], root, hops).Found? ==>
      Within(PlaceOf(s, p, hops).at, Walk(s, [], root, hops).at)
  }

  lemma SafeLiesWithin(s: Store, p: Path, root: Path, hops: nat)
    requires SafeTarget(s, p, root, hops)
    ensures LiesWithin(s, p, root, hops)
  {
    if p != [] && Last(p) != UP && PlaceOf(s, p, hops).Found? && Walk(s, [], root, hops).Found? {
      SafeTargetExactly(s, p, root, hops);
    }
  }

  // A name in a directory that is missing is taken for what it says, from the
  // last directory on the way that is there.
  lemma SafeMissingExactly(s: Store, d: Path, n: Name, rest: Path, root: Path, hops: nat)
    requires WellFormed(s) && Walk(s, [], d, hops).Found? && Walk(s, [], root, hops).Found?
    requires n != UP && Plain(rest) && rest != [] && Walk(s, [], d, hops).at + [n] !in s
    ensures SafeTarget(s, d + [n] + rest, root, hops) <==>
      Within(Walk(s, [], d, hops).at + [n] + rest, Walk(s, [], root, hops).at)
  {
    var at, left, p := Walk(s, [], d, hops).at, hops - Cost(s, [], d, hops), d + [n] + rest;
    ResolveIsWalk(s, [], root, hops);
    ParentOfJoin(d + [n], rest);
    var front := Parent(rest);
    assert Parent(p) == d + ([n] + front);
    assert Plain(front) && Last(rest) != UP;
    ResolveThen(s, [], d, [n] + front, hops);
    assert ([n] + front)[1..] == front;
    ResolveMissing(s, at + [n], front, left);
    JoinParentLast(rest);
    assert at + [n] + front + [Last(rest)] == at + [n] + rest;
    NoLinkBelowMissing(s, d, n, rest, hops);
  }

  lemma NoLinkBelowMissing(s: Store, d: Path, n: Name, rest: Path, hops: nat)
    requires WellFormed(s) && Walk(s, [], d, hops).Found? && n != UP && rest != [] && Last(rest) != UP
    requires Walk(s, [], d, hops).at + [n] !in s
    ensures !IsSymlink(s, d + [n] + rest, hops)
  {
    var p, front := d + [n] + rest, Parent(rest);
    ParentOfJoin(d + [n], rest);
    if Walk(s, [], d + [n] + front, hops).Found? {
      WalkPrefix(s, [], d + [n], front, hops);
      WalkThen(s, [], d, [n], hops, hops - Cost(s, [], d, hops));
    }
  }

  lemma {:induction false} ResolveClear(s: Store, p: Path, j: nat, k: nat, hops: nat)
    requires Clear(s, p) && j <= k < |p|
    ensures Resolve(s, p[..j], p[j..k], hops) == Found(p[..k])
    decreases k - j
  {
    var rest := p[j..k];
    if j < k {
      assert rest[0] == p[j] && rest[1..] == p[j + 1..k] && p[..j] + [p[j]] == p[..j + 1];
      ResolveClear(s, p, j + 1, k, hops);
    } else {
      assert rest == [];
    }
  }

  // A name that runs through no link, and is none, is safe under every prefix.
  lemma ClearIsSafe(s: Store, p: Path, root: Path, hops: nat)
    requires WellFormed(s) && Clear(s, p) && !IsLinkAt(s, p) && root < p
    ensures SafeTarget(s, p, root, hops)
  {
    ClearLookups(s, p, hops);
    ResolvePrefix(s, p, root, hops);
    ResolvePrefix(s, p, Parent(p), hops);
    JoinParentLast(p);
  }

  lemma ResolvePrefix(s: Store, p: Path, q: Path, hops: nat)
    requires Clear(s, p) && q < p
    ensures Resolve(s, [], q, hops) == Found(q)
  {
    assert p[..0] == [] && p[0..|q|] == q && p[..|q|] == q;
    ResolveClear(s, p, 0, |q|, hops);
  }

  // A whole clear name: itself, or what the link at its end resolves to.
  function ResolveAt(s: Store, p: Path, hops: nat): Lookup {
    if !IsLinkAt(s, p) then Found(p)
    else if hops == 0 then Loop
    else Resolve(s, LinkBase(s, p), s[p].parts, hops - 1)
  }

  lemma {:induction false} ResolveRest(s: Store, p: Path, j: nat, hops: nat)
    requires Clear(s, p) && j < |p|
    ensures Resolve(s, p[..j], p[j..], hops) == ResolveAt(s, p, hops)
    decreases |p| - j
  {
    var rest := p[j..];
    assert rest[0] == p[j] && rest[1..] == p[j + 1..] && p[..j] + [p[j]] == p[..j + 1];
    if j + 1 < |p| {
      ResolveRest(s, p, j + 1, hops);
    } else {
      assert p[..j + 1] == p && rest[1..] == [];
      if IsLinkAt(s, p) {
        assert s[p].parts + [] == s[p].parts;
      }
    }
  }

  lemma ResolveName(s: Store, p: Path, hops: nat)
    requires Clear(s, p)
    ensures Resolve(s, [], p, hops) == ResolveAt(s, p, hops)
  {
    assert p[..0] == [] && p[0..] == p;
    ResolveRest(s, p, 0, hops);
  }

  /* ---- Links alone decide ---- */

  ghost predicate SameLinks(s: Store, t: Store) {
    forall q :: (IsLinkAt(s, q) <==> IsLinkAt(t, q)) && (IsLinkAt(s, q) ==> s[q] == t[q])
  }

  lemma {:induction false} ResolveByLinks(s: Store, t: Store, cur: Path, rest: Path, hops: nat)
    requires SameLinks(s, t)
    ensures Resolve(s, cur, rest, hops) == Resolve(t, cur, rest, hops)
    decreases hops, |rest|
  {
    if rest != [] {
      if rest[0] == UP {
        ResolveByLinks(s, t, Parent(cur), rest[1..], hops);
      } else {
        var next := cur + [rest[0]];
        assert IsLinkAt(s, next) <==> IsLinkAt(t, next);
        if !IsLinkAt(s, next) {
          ResolveByLinks(s, t, next, rest[1..], hops);
        } else if hops > 0 {
          ResolveByLinks(s, t, LinkBase(s, next), s[next].parts + rest[1..], hops - 1);
        }
      }
    }
  }

  // `safe_target` at a name that runs through no link.
  predicate SafeName(s: Store, p: Path, root: Path, hops: nat) {
    var r := Resolve(s, [], root, hops);
    var q := if IsLinkAt(s, p) || p == [] then Resolve(s, [], p, hops)
             else match Resolve(s, [], Parent(p), hops)
               case Found(d) => Found(d + [Last(p)])
               case other => other;
    r.Found? && q.Found? && Within(q.at, r.at)
  }

  lemma SafeNameByLinks(s: Store, t: Store, p: Path, root: Path, hops: nat)
    requires SameLinks(s, t)
    ensures SafeName(s, p, root, hops) <==> SafeName(t, p, root, hops)
  {
    ResolveByLinks(s, t, [], root, hops);
    ResolveByLinks(s, t, [], p, hops);
    ResolveByLinks(s, t, [], Parent(p), hops);
    assert IsLinkAt(s, p) <==> IsLinkAt(t, p);
  }

  lemma SafeNameIsTarget(s: Store, p: Path, root: Path, hops: nat)
    requires WellFormed(s) && Clear(s, p)
    ensures SafeTarget(s, p, root, hops) <==> SafeName(s, p, root, hops)
  {
    ClearLookups(s, p, hops);
  }

  lemma ClearNameIsSafe(s: Store, p: Path, root: Path, hops: nat)
    requires Clear(s, p) && !IsLinkAt(s, p) && root < p
    ensures SafeName(s, p, root, hops)
  {
    ResolvePrefix(s, p, root, hops);
    ResolvePrefix(s, p, Parent(p), hops);
    JoinParentLast(p);
  }

  /* ---- Backup names ---- */

  // No prefix of `path` with a length from above `lo` up to `hi` is a link.
  ghost predicate NoLinks(s: Store, path: Path, lo: int, hi: int, hops: nat) {
    forall k: nat | lo < k <= hi && k <= |path| :: !IsSymlink(s, path[..k], hops)
  }

  // `safe_backup_path` lets `path` pass: no link from the top down to it.
  ghost predicate SafeBackup(s: Store, path: Path, root: Path, hops: nat) {
    Within(path, root) && NoLinks(s, path, 0, |path|, hops)
  }

  // `safe_backup_path`: the root, the directories above it, and the names
  // from `path` up to the root.
  method CheckBackupPath(b: Volume, path: Path, root: Path) returns (ok: bool)
    requires WellFormed(b.nodes)
    ensures ok <==> SafeBackup(b.nodes, path, root, b.hops)
  {
    if !Within(path, root) {
      return false;
    }
    PrefixLinks(b.nodes, path, root, b.hops);
    if IsSymlink(b.nodes, root, b.hops) {
      return false;
    }
    ok := NoLinkAbove(b, root);
    if ok {
      ok := NoLinkDownTo(b, path, root);
    }
  }

  lemma PrefixLinks(s: Store, path: Path, root: Path, hops: nat)
    requires WellFormed(s) && root <= path
    ensures NoLinks(s, path, 0, |path|, hops) <==>
      !IsSymlink(s, root, hops) && NoLinks(s, root, 0, |root| - 1, hops) && NoLinks(s, path, |root|, |path|, hops)
  {
    assert path[..|root|] == root;
    assert forall k | 0 < k <= |root| :: root[..k] == path[..k];
  }

  method NoLinkAbove(b: Volume, root: Path) returns (ok: bool)
    ensures ok <==> NoLinks(b.nodes, root, 0, |root| - 1, b.hops)
  {
    var ancestor := Parent(root);
    while ancestor != Parent(ancestor)
      invariant ancestor <= root
      invariant NoLinks(b.nodes, root, |ancestor|, |root| - 1, b.hops)
      decreases |ancestor|
    {
      assert ancestor == root[..|ancestor|];
      if IsSymlink(b.nodes, ancestor, b.hops) {
        return false;
      }
      ancestor := Parent(ancestor);
    }
    return true;
  }

  method NoLinkDownTo(b: Volume, path: Path, root: Path) returns (ok: bool)
    requires root <= path
    ensures ok <==> NoLinks(b.nodes, path, |root|, |path|, b.hops)
  {
    var current := path;
    while current != root
      invariant root <= current <= path
      invariant NoLinks(b.nodes, path, |current|, |path|, b.hops)
      decreases |current|
    {
      assert current == path[..|current|];
      if IsSymlink(b.nodes, current, b.hops) {
        return false;
      }
      current := Parent(current);
    }
    return true;
  }
}
