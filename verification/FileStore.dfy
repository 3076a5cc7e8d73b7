// A file tree with symbolic links, and pathname resolution as in section 4.13
// of POSIX.1-2017 (XBD): one component after the other, each link replaced by
// its text.  `hops` is the number of links one lookup may follow before it
// fails with ELOOP.
module FileStore {
  import opened Paths

  type Content = string

  datatype Node =
    | File(content: Content, mode: nat)
    | Dir
    | Link(absolute: bool, parts: Path)
    | Special

  // Keys are physical names: no key runs through a link or contains "..".
  type Store = map<Path, Node>

  ghost predicate WellFormed(s: Store) {
    && [] in s && s[[]].Dir?
    && forall p {:trigger Last(p)} {:trigger Parent(p)} | p in s && p != [] ::
         Last(p) != UP && Parent(p) in s && s[Parent(p)].Dir?
  }

  // Everything but the directories.
  function Files(s: Store): (f: Store) {
    map p | p in s && !s[p].Dir? :: s[p]
  }

  predicate IsDirAt(s: Store, p: Path) {
    p in s && s[p].Dir?
  }

  predicate IsLinkAt(s: Store, p: Path) {
    p in s && s[p].Link?
  }

  /* ---- Resolution ---- */

  datatype Lookup = Found(at: Path) | Missing | Loop

  function LinkBase(s: Store, link: Path): Path
    requires IsLinkAt(s, link)
  {
    if s[link].absolute then [] else Parent(link)
  }

  // Follow `rest` from the directory `cur`.
  function Walk(s: Store, cur: Path, rest: Path, hops: nat): Lookup
    decreases hops, |rest|
  {
    if rest == [] then Found(cur)
    else if !IsDirAt(s, cur) then Missing
    else if rest[0] == UP then Walk(s, Parent(cur), rest[1..], hops)
    else
      var next := cur + [rest[0]];
      if next !in s then Missing
      else if s[next].Link? then
        if hops == 0 then Loop
        else Walk(s, LinkBase(s, next), s[next].parts + rest[1..], hops - 1)
      else Walk(s, next, rest[1..], hops)
  }

  // The number of links that `Walk` follows.
  function Cost(s: Store, cur: Path, rest: Path, hops: nat): (c: nat)
    ensures c <= hops
    decreases hops, |rest|
  {
    if rest == [] || !IsDirAt(s, cur) then 0
    else if rest[0] == UP then Cost(s, Parent(cur), rest[1..], hops)
    else
      var next := cur + [rest[0]];
      if next !in s then 0
      else if s[next].Link? then
        if hops == 0 then 0
        else 1 + Cost(s, LinkBase(s, next), s[next].parts + rest[1..], hops - 1)
      else Cost(s, next, rest[1..], hops)
  }

  // The walk, one component at a time.
  lemma WalkCons(s: Store, cur: Path, n: Name, rest: Path, hops: nat)
    requires IsDirAt(s, cur)
    ensures n == UP ==> Walk(s, cur, [n] + rest, hops) == Walk(s, Parent(cur), rest, hops)
    ensures n == UP ==> Cost(s, cur, [n] + rest, hops) == Cost(s, Parent(cur), rest, hops)
    ensures n != UP && cur + [n] !in s ==> Walk(s, cur, [n] + rest, hops) == Missing
    ensures n != UP && IsLinkAt(s, cur + [n]) && hops == 0 ==> Walk(s, cur, [n] + rest, hops) == Loop
    ensures n != UP && IsLinkAt(s, cur + [n]) && hops > 0 ==>
      Walk(s, cur, [n] + rest, hops) == Walk(s, LinkBase(s, cur + [n]), s[cur + [n]].parts + rest, hops - 1)
    ensures n != UP && IsLinkAt(s, cur + [n]) && hops > 0 ==> Cost(s, cur, [n] + rest, hops) > 0
    ensures n != UP && cur + [n] in s && !s[cur + [n]].Link? ==>
      Walk(s, cur, [n] + rest, hops) == Walk(s, cur + [n], rest, hops)
    ensures n != UP && cur + [n] in s && !s[cur + [n]].Link? ==>
      Cost(s, cur, [n] + rest, hops) == Cost(s, cur + [n], rest, hops)
  {
    var all := [n] + rest;
    assert all[0] == n && all[1..] == rest;
  }

  // A successful walk composes: what follows it starts where it ended, with
  // the budget the walk left over.
  lemma {:induction false} WalkThen(s: Store, cur: Path, a: Path, b: Path, hops: nat, extra: nat)
    requires Walk(s, cur, a, hops).Found?
    ensures Walk(s, cur, a + b, extra + Cost(s, cur, a, hops)) == Walk(s, Walk(s, cur, a, hops).at, b, extra)
    decreases hops, |a|
  {
    if a == [] {
      assert a + b == b;
    } else {
      assert (a + b)[0] == a[0] && (a + b)[1..] == a[1..] + b;
      if a[0] == UP {
        WalkThen(s, Parent(cur), a[1..], b, hops, extra);
      } else {
        var next := cur + [a[0]];
        if s[next].Link? {
          var base, text := LinkBase(s, next), s[next].parts;
          assert text + (a[1..] + b) == (text + a[1..]) + b;
          WalkThen(s, base, text + a[1..], b, hops - 1, extra);
        } else {
          WalkThen(s, next, a[1..], b, hops, extra);
        }
      }
    }
  }

  lemma {:induction false} CostThen(s: Store, cur: Path, a: Path, b: Path, hops: nat, extra: nat)
    requires Walk(s, cur, a, hops).Found?
    ensures Cost(s, cur, a + b, extra + Cost(s, cur, a, hops)) ==
      Cost(s, cur, a, hops) + Cost(s, Walk(s, cur, a, hops).at, b, extra)
    decreases hops, |a|
  {
    if a == [] {
      assert a + b == b;
    } else {
      assert (a + b)[0] == a[0] && (a + b)[1..] == a[1..] + b;
      if a[0] == UP {
        CostThen(s, Parent(cur), a[1..], b, hops, extra);
      } else {
        var next := cur + [a[0]];
        if s[next].Link? {
          var base, text := LinkBase(s, next), s[next].parts;
          assert text + (a[1..] + b) == (text + a[1..]) + b;
          CostThen(s, base, text + a[1..], b, hops - 1, extra);
        } else {
          CostThen(s, next, a[1..], b, hops, extra);
        }
      }
    }
  }

  // A larger budget never changes an answer other than ELOOP.
  lemma {:induction false} WalkMore(s: Store, cur: Path, rest: Path, hops: nat, more: nat)
    requires hops <= more && Walk(s, cur, rest, hops) != Loop
    ensures Walk(s, cur, rest, more) == Walk(s, cur, rest, hops)
    ensures Cost(s, cur, rest, more) == Cost(s, cur, rest, hops)
    decreases hops, |rest|
  {
    if rest != [] && IsDirAt(s, cur) {
      if rest[0] == UP {
        WalkMore(s, Parent(cur), rest[1..], hops, more);
      } else {
        var next := cur + [rest[0]];
        if next in s {
          if s[next].Link? {
            WalkMore(s, LinkBase(s, next), s[next].parts + rest[1..], hops - 1, more - 1);
          } else {
            WalkMore(s, next, rest[1..], hops, more);
          }
        }
      }
    }
  }

  // A walk ends at a physical name that is not a link.
  lemma {:induction false} WalkEnds(s: Store, cur: Path, rest: Path, hops: nat)
    requires WellFormed(s) && cur in s && !s[cur].Link?
    ensures var l := Walk(s, cur, rest, hops); l.Found? ==> l.at in s && !s[l.at].Link?
    decreases hops, |rest|
  {
    if rest != [] && IsDirAt(s, cur) {
      if rest[0] == UP {
        WalkEnds(s, Parent(cur), rest[1..], hops);
      } else {
        var next := cur + [rest[0]];
        if next in s {
          if s[next].Link? {
            if hops > 0 {
              ParentOfChild(cur, rest[0]);
              WalkEnds(s, LinkBase(s, next), s[next].parts + rest[1..], hops - 1);
            }
          } else {
            WalkEnds(s, next, rest[1..], hops);
          }
        }
      }
    }
  }

  // A walk that succeeds has succeeded on each prefix.
  lemma {:induction false} WalkPrefix(s: Store, cur: Path, a: Path, b: Path, hops: nat)
    requires Walk(s, cur, a + b, hops).Found?
    ensures Walk(s, cur, a, hops).Found?
    decreases hops, |a|
  {
    if a != [] {
      assert (a + b)[0] == a[0] && (a + b)[1..] == a[1..] + b;
      if a[0] == UP {
        WalkPrefix(s, Parent(cur), a[1..], b, hops);
      } else {
        var next := cur + [a[0]];
        if s[next].Link? {
          var base, text := LinkBase(s, next), s[next].parts;
          assert text + (a[1..] + b) == (text + a[1..]) + b;
          WalkPrefix(s, base, text + a[1..], b, hops - 1);
        } else {
          WalkPrefix(s, next, a[1..], b, hops);
        }
      }
    }
  }

  /* ---- The questions pathlib asks ---- */

  // Where the last component of `p` lives: all but the last is followed.
  function Locate(s: Store, p: Path, hops: nat): Lookup {
    if p == [] || Last(p) == UP then Walk(s, [], p, hops)
    else
      var d := Walk(s, [], Parent(p), hops);
      if !d.Found? then d
      else if !IsDirAt(s, d.at) then Missing
      else Found(d.at + [Last(p)])
  }

  predicate IsSymlink(s: Store, p: Path, hops: nat) {
    var l := Locate(s, p, hops);
    l.Found? && IsLinkAt(s, l.at)
  }

  predicate Exists(s: Store, p: Path, hops: nat) {
    var l := Walk(s, [], p, hops);
    l.Found? && l.at in s
  }

  predicate IsDir(s: Store, p: Path, hops: nat) {
    var l := Walk(s, [], p, hops);
    l.Found? && IsDirAt(s, l.at)
  }

  predicate IsFile(s: Store, p: Path, hops: nat) {
    var l := Walk(s, [], p, hops);
    l.Found? && l.at in s && s[l.at].File?
  }

  // `p.exists() or p.is_symlink()`
  predicate Present(s: Store, p: Path, hops: nat) {
    Exists(s, p, hops) || IsSymlink(s, p, hops)
  }

  /* ---- Names that run through no link ---- */

  // Every proper prefix of `p` is a directory or not there yet.
  ghost predicate Clear(s: Store, p: Path) {
    && p != [] && Plain(p)
    && forall k | 0 <= k < |p| :: p[..k] in s ==> s[p[..k]].Dir?
  }

  lemma {:induction false} PrefixesAreDirs(s: Store, p: Path, k: nat)
    requires WellFormed(s) && p in s && k < |p|
    ensures p[..k] in s && s[p[..k]].Dir?
    decreases |p|
  {
    if k < |p| - 1 {
      PrefixesAreDirs(s, Parent(p), k);
      assert Parent(p)[..k] == p[..k];
    } else {
      assert Parent(p) == p[..k];
    }
  }

  lemma {:induction false} KeysArePlain(s: Store, p: Path)
    requires WellFormed(s) && p in s
    ensures Plain(p)
    decreases |p|
  {
    if p != [] {
      KeysArePlain(s, Parent(p));
    }
  }

  lemma KeysAreClear(s: Store, p: Path)
    requires WellFormed(s) && p in s && p != []
    ensures Clear(s, p)
  {
    KeysArePlain(s, p);
    forall k | 0 <= k < |p|
      ensures p[..k] in s ==> s[p[..k]].Dir?
    {
      PrefixesAreDirs(s, p, k);
    }
  }

  // What follows a physical name starts there, at no cost.
  lemma {:induction false} PhysicalThen(s: Store, p: Path, rest: Path, hops: nat)
    requires WellFormed(s) && p in s && !s[p].Link?
    ensures Walk(s, [], p + rest, hops) == Walk(s, p, rest, hops)
    ensures Cost(s, [], p + rest, hops) == Cost(s, p, rest, hops)
    decreases |p|
  {
    if p == [] {
      assert p + rest == rest;
    } else {
      var q, n := Parent(p), Last(p);
      JoinParentLast(p);
      assert p + rest == q + ([n] + rest);
      PhysicalThen(s, q, [n] + rest, hops);
      WalkCons(s, q, n, rest, hops);
    }
  }

  lemma PhysicalWalk(s: Store, p: Path, hops: nat)
    requires WellFormed(s) && p in s && !s[p].Link?
    ensures Walk(s, [], p, hops) == Found(p) && Cost(s, [], p, hops) == 0
  {
    PhysicalThen(s, p, [], hops);
    assert p + [] == p;
  }

  // One component below a physical directory.
  lemma WalkBelow(s: Store, q: Path, n: Name, hops: nat)
    requires WellFormed(s) && IsDirAt(s, q) && n != UP
    ensures q + [n] !in s ==> Walk(s, [], q + [n], hops) == Missing
    ensures q + [n] in s && !s[q + [n]].Link? ==> Walk(s, [], q + [n], hops) == Found(q + [n])
    ensures IsLinkAt(s, q + [n]) && hops == 0 ==> Walk(s, [], q + [n], hops) == Loop
    ensures IsLinkAt(s, q + [n]) && hops > 0 ==>
      Walk(s, [], q + [n], hops) == Walk(s, LinkBase(s, q + [n]), s[q + [n]].parts, hops - 1)
    ensures IsLinkAt(s, q + [n]) && hops > 0 ==> Cost(s, [], q + [n], hops) > 0
  {
    PhysicalThen(s, q, [n], hops);
    WalkCons(s, q, n, [], hops);
    assert [n] + [] == [n];
    if IsLinkAt(s, q + [n]) {
      assert s[q + [n]].parts + [] == s[q + [n]].parts;
    }
  }

  // `p`, or a directory above it, is not there, and no prefix is a link.
  lemma {:induction false} AbsentThen(s: Store, p: Path, rest: Path, hops: nat)
    requires WellFormed(s) && p !in s && Plain(p)
    requires forall k | 0 <= k < |p| :: p[..k] in s ==> s[p[..k]].Dir?
    ensures Walk(s, [], p + rest, hops) == Missing
    decreases |p|
  {
    var q, n := Parent(p), Last(p);
    JoinParentLast(p);
    assert p + rest == q + ([n] + rest) && q == p[..|p| - 1] && n in p;
    if q in s {
      PhysicalThen(s, q, [n] + rest, hops);
      WalkCons(s, q, n, rest, hops);
    } else {
      assert forall k | 0 <= k < |q| :: q[..k] == p[..k];
      AbsentThen(s, q, [n] + rest, hops);
    }
  }

  lemma ClearLookups(s: Store, p: Path, hops: nat)
    requires WellFormed(s) && Clear(s, p)
    ensures Locate(s, p, hops) == if Parent(p) in s then Found(p) else Missing
    ensures IsSymlink(s, p, hops) <==> IsLinkAt(s, p)
    ensures Present(s, p, hops) <==> p in s
    ensures p in s && !s[p].Link? ==> Walk(s, [], p, hops) == Found(p)
    ensures p in s ==> Parent(p) in s && s[Parent(p)].Dir?
  {
    var q := Parent(p);
    JoinParentLast(p);
    assert q == p[..|p| - 1] && Last(p) in p;
    if q in s {
      PhysicalWalk(s, q, hops);
      WalkBelow(s, q, Last(p), hops);
    } else {
      assert forall k | 0 <= k < |q| :: q[..k] == p[..k];
      AbsentThen(s, q, [], hops);
      AbsentThen(s, q, [Last(p)], hops);
      assert q + [] == q;
    }
  }

  // The last step of a walk.
  lemma WalkLast(s: Store, p: Path, hops: nat)
    requires p != [] && Walk(s, [], Parent(p), hops).Found?
    ensures var d, left := Walk(s, [], Parent(p), hops).at, hops - Cost(s, [], Parent(p), hops);
      && Walk(s, [], p, hops) == Walk(s, d, [Last(p)], left)
      && Cost(s, [], p, hops) == Cost(s, [], Parent(p), hops) + Cost(s, d, [Last(p)], left)
  {
    var left := hops - Cost(s, [], Parent(p), hops);
    JoinParentLast(p);
    WalkThen(s, [], Parent(p), [Last(p)], hops, left);
    CostThen(s, [], Parent(p), [Last(p)], hops, left);
  }

  lemma LastStep(s: Store, p: Path, hops: nat)
    requires p != [] && Walk(s, [], p, hops).Found? && Last(p) != UP
    ensures var d := Walk(s, [], Parent(p), hops);
      && d.Found? && IsDirAt(s, d.at)
      && (!IsLinkAt(s, d.at + [Last(p)]) ==> Walk(s, [], p, hops) == Found(d.at + [Last(p)]))
  {
    JoinParentLast(p);
    WalkPrefix(s, [], Parent(p), [Last(p)], hops);
    WalkLast(s, p, hops);
    assert [Last(p)][1..] == [];
  }

  // A name that resolves and is no link is found where its last component is.
  lemma LocateIsWalk(s: Store, p: Path, hops: nat)
    requires Walk(s, [], p, hops).Found? && !IsSymlink(s, p, hops)
    ensures Locate(s, p, hops) == Walk(s, [], p, hops)
  {
    if p != [] && Last(p) != UP {
      LastStep(s, p, hops);
    }
  }
}
