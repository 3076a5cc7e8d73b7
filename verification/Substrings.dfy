// Searching and replacing in the text of a path: what such tests say of its
// components.
module Substrings {
  import opened Paths
  import opened PathText

  // `pattern in text`
  predicate Occurs(text: string, pattern: string) {
    exists i | 0 <= i <= |text| :: pattern <= text[i..]
  }

  // `text.replace(old, new, 1)`
  function ReplaceFirst(text: string, was: string, now: string): string
    requires was != ""
  {
    if was <= text then now + text[|was|..]
    else if text == "" then ""
    else [text[0]] + ReplaceFirst(text[1..], was, now)
  }

  // `text.replace(old, new)`
  function ReplaceAll(text: string, was: string, now: string): string
    requires was != ""
  {
    if was <= text then now + ReplaceAll(text[|was|..], was, now)
    else if text == "" then ""
    else [text[0]] + ReplaceAll(text[1..], was, now)
  }

  /* ---- Components and slashes ---- */

  // Texts agree up to a slash exactly if the names before it agree.
  lemma FirstSlash(a: string, x: string, b: string, y: string)
    requires SLASH !in a && SLASH !in b
    ensures a + [SLASH] + x <= b + [SLASH] + y <==> a == b && x <= y
    ensures !(a + [SLASH] + x <= b)
  {
    var s, t := a + [SLASH] + x, b + [SLASH] + y;
    forall i | 0 <= i < |a|
      ensures a[i] != SLASH
    {
      assert a[i] in a;
    }
    forall i | 0 <= i < |b|
      ensures b[i] != SLASH
    {
      assert b[i] in b;
    }
    assert s[|a|] == SLASH && t[|b|] == SLASH;
    if s <= t {
      assert t[|a|] == SLASH && s[..|a| + 1] == t[..|a| + 1];
      assert |a| >= |b|;
      assert |a| == |b|;
      assert a == s[..|a|] == t[..|a|] == b;
      assert x == s[|a| + 1..] && y == t[|b| + 1..];
    }
  }

  lemma JoinedCons(n: Name, rest: Path)
    requires rest != []
    ensures Joined([n] + rest) == n + [SLASH] + Joined(rest)
  {
    assert ([n] + rest)[1..] == rest;
  }

  // The text starts with whole components exactly if the path does.
  lemma {:induction false} StartsExactly(p: Path, front: Path)
    requires AreNames(p) && AreNames(front) && front != []
    ensures Joined(front) + [SLASH] <= Joined(p) <==> front < p
  {
    var f := front[0];
    assert IsName(f);
    if p == [] {
      assert Joined(p) == "";
    } else {
      assert IsName(p[0]);
      var more, rest := front[1..], p[1..];
      assert front == [f] + more && p == [p[0]] + rest;
      if more != [] { JoinedCons(f, more); }
      if rest != [] { JoinedCons(p[0], rest); }
      var x := if more == [] then "" else Joined(more) + [SLASH];
      assert Joined(front) + [SLASH] == f + [SLASH] + x;
      FirstSlash(f, x, p[0], if rest == [] then "" else Joined(rest));
      if more != [] && rest != [] { StartsExactly(rest, more); }
    }
  }

  lemma OccursStep(c: char, x: string, pattern: string)
    requires pattern != ""
    ensures Occurs([c] + x, pattern) <==> pattern <= [c] + x || Occurs(x, pattern)
  {
    var text := [c] + x;
    assert text[0..] == text;
    forall i: nat | i <= |x|
      ensures text[i + 1..] == x[i..]
    {}
    if Occurs(x, pattern) {
      var i :| 0 <= i <= |x| && pattern <= x[i..];
      assert pattern <= text[i + 1..];
    }
    if Occurs(text, pattern) {
      var i :| 0 <= i <= |text| && pattern <= text[i..];
      if i > 0 {
        assert pattern <= x[i - 1..];
      }
    }
  }

  // A pattern that starts with a slash is found behind the names before it.
  lemma {:induction false} OccursBehind(a: string, x: string, pattern: string)
    requires SLASH !in a && pattern != "" && pattern[0] == SLASH
    ensures Occurs(a + x, pattern) <==> Occurs(x, pattern)
  {
    if a == "" {
      assert a + x == x;
    } else {
      assert a + x == [a[0]] + (a[1..] + x);
      OccursStep(a[0], a[1..] + x, pattern);
      assert a[0] in a;
      OccursBehind(a[1..], x, pattern);
    }
  }

  // Components `mid` follow one another in `p` from place `lo` on, with some
  // component behind them.
  ghost predicate HasInside(p: Path, mid: Path, lo: nat) {
    exists i: nat :: InsideAt(p, mid, lo, i)
  }

  predicate InsideAt(p: Path, mid: Path, lo: nat, i: nat) {
    lo <= i && i + |mid| < |p| && p[i..i + |mid|] == mid
  }

  lemma InsideStep(p: Path, mid: Path)
    requires p != []
    ensures HasInside(p, mid, 0) <==> mid < p || HasInside(p[1..], mid, 0)
    ensures HasInside(p, mid, 1) <==> HasInside(p[1..], mid, 0)
  {
    var rest := p[1..];
    forall i: nat
      ensures InsideAt(p, mid, 1, i + 1) <==> InsideAt(rest, mid, 0, i)
      ensures InsideAt(p, mid, 0, i + 1) <==> InsideAt(rest, mid, 0, i)
    {
      if i + |mid| < |rest| {
        assert rest[i..i + |mid|] == p[i + 1..i + 1 + |mid|];
      }
    }
    if i: nat :| InsideAt(p, mid, 0, i) {
      if i > 0 {
        assert InsideAt(rest, mid, 0, i - 1);
      }
    }
    if i: nat :| InsideAt(p, mid, 1, i) {
      assert InsideAt(rest, mid, 0, i - 1);
    }
    if i: nat :| InsideAt(rest, mid, 0, i) {
      assert InsideAt(p, mid, 0, i + 1) && InsideAt(p, mid, 1, i + 1);
    }
    if mid < p {
      assert InsideAt(p, mid, 0, 0);
    }
  }

  // "/a/b/" occurs in the text of an absolute path exactly if a and b follow
  // one another in it, not at its end.
  lemma {:induction false} InsideAbsolute(p: Path, mid: Path)
    requires AreNames(p) && AreNames(mid) && mid != []
    ensures Occurs([SLASH] + Joined(p), [SLASH] + Joined(mid) + [SLASH]) <==> HasInside(p, mid, 0)
    decreases |p|, 1
  {
    var pattern := [SLASH] + Joined(mid) + [SLASH];
    OccursStep(SLASH, Joined(p), pattern);
    StartsExactly(p, mid);
    assert pattern == [SLASH] + (Joined(mid) + [SLASH]);
    StartsBehind(SLASH, Joined(mid) + [SLASH], Joined(p));
    if p == [] {
      assert !Occurs("", pattern);
    } else {
      InsideStep(p, mid);
      InsideRelative(p, mid);
    }
  }

  lemma StartsBehind(c: char, x: string, y: string)
    ensures [c] + x <= [c] + y <==> x <= y
  {
    assert ([c] + x)[1..] == x && ([c] + y)[1..] == y;
  }

  // In the text of a relative path, a component must come first.
  lemma {:induction false} InsideRelative(p: Path, mid: Path)
    requires AreNames(p) && AreNames(mid) && mid != [] && p != []
    ensures Occurs(Joined(p), [SLASH] + Joined(mid) + [SLASH]) <==> HasInside(p, mid, 1)
    decreases |p|, 0
  {
    var pattern, rest := [SLASH] + Joined(mid) + [SLASH], p[1..];
    assert IsName(p[0]);
    InsideStep(p, mid);
    if rest == [] {
      OccursBehind(p[0], "", pattern);
      assert p[0] + "" == p[0] && Joined(p) == p[0] && !Occurs("", pattern);
    } else {
      assert p == [p[0]] + rest;
      JoinedCons(p[0], rest);
      assert Joined(p) == p[0] + ([SLASH] + Joined(rest));
      OccursBehind(p[0], [SLASH] + Joined(rest), pattern);
      InsideAbsolute(rest, mid);
    }
  }

  /* ---- Replacing one component by another ---- */

  // The text "tail/mid/", where `tail` may be the end of a component.
  function Spot(tail: Name, mid: Name): string {
    tail + [SLASH] + (mid + [SLASH])
  }

  // The path has `mid` behind a component that ends with `tail`, and more.
  predicate MeetsSpot(p: Path, tail: Name, mid: Name) {
    |p| > 2 && EndsWith(p[0], tail) && p[1] == mid
  }

  function RenameFirst(p: Path, tail: Name, mid: Name, now: Name): Path {
    if p == [] then []
    else if MeetsSpot(p, tail, mid) then [p[0], now] + p[2..]
    else [p[0]] + RenameFirst(p[1..], tail, mid, now)
  }

  function RenameAll(p: Path, tail: Name, mid: Name, now: Name): Path {
    if p == [] then []
    else if MeetsSpot(p, tail, mid) then [p[0], now] + RenameAll(p[2..], tail, mid, now)
    else [p[0]] + RenameAll(p[1..], tail, mid, now)
  }

  // At the end of the name `a`, in front of the components `rest`.
  lemma SpotBefore(a: string, rest: Path, tail: Name, mid: Name)
    requires SLASH !in a && AreNames(rest) && IsName(tail) && IsName(mid)
    ensures Spot(tail, mid) <= a + [SLASH] + Joined(rest) <==> a == tail && [mid] < rest
    ensures !(Spot(tail, mid) <= a)
  {
    FirstSlash(tail, mid + [SLASH], a, Joined(rest));
    assert Joined([mid]) == mid;
    StartsExactly(rest, [mid]);
  }

  lemma ReplaceStep(c: char, x: string, was: string, now: string)
    requires was != "" && !(was <= [c] + x)
    ensures ReplaceFirst([c] + x, was, now) == [c] + ReplaceFirst(x, was, now)
    ensures ReplaceAll([c] + x, was, now) == [c] + ReplaceAll(x, was, now)
  {
    var text := [c] + x;
    assert text[0] == c && text[1..] == x;
  }

  lemma ReplaceAtStart(was: string, x: string, now: string)
    requires was != ""
    ensures ReplaceFirst(was + x, was, now) == now + x
    ensures ReplaceAll(was + x, was, now) == now + ReplaceAll(x, was, now)
  {
    assert (was + x)[|was|..] == x;
  }

  // The search passes over a text where the pattern starts nowhere.
  lemma {:induction false} PassOver(a: string, x: string, was: string, now: string)
    requires was != "" && forall k | 0 <= k < |a| :: !(was <= a[k..] + x)
    ensures ReplaceFirst(a + x, was, now) == a + ReplaceFirst(x, was, now)
    ensures ReplaceAll(a + x, was, now) == a + ReplaceAll(x, was, now)
  {
    if a == "" {
      assert a + x == x;
    } else {
      var b := a[1..];
      forall k | 0 <= k < |b|
        ensures !(was <= b[k..] + x)
      {
        assert b[k..] == a[k + 1..];
      }
      PassOver(b, x, was, now);
      assert a[0..] == a && a + x == [a[0]] + (b + x);
      ReplaceStep(a[0], b + x, was, now);
    }
  }

  // It passes over a name and the slash behind it ...
  lemma ReplacePast(a: string, rest: Path, tail: Name, mid: Name, now: Name)
    requires SLASH !in a && AreNames(rest) && IsName(tail) && IsName(mid)
    requires !(EndsWith(a, tail) && [mid] < rest)
    ensures ReplaceFirst(a + [SLASH] + Joined(rest), Spot(tail, mid), Spot(tail, now)) ==
      a + [SLASH] + ReplaceFirst(Joined(rest), Spot(tail, mid), Spot(tail, now))
    ensures ReplaceAll(a + [SLASH] + Joined(rest), Spot(tail, mid), Spot(tail, now)) ==
      a + [SLASH] + ReplaceAll(Joined(rest), Spot(tail, mid), Spot(tail, now))
  {
    var x := [SLASH] + Joined(rest);
    forall k | 0 <= k < |a|
      ensures !(Spot(tail, mid) <= a[k..] + x)
    {
      SpotInside(a, k, rest, tail, mid);
      EndsWithTail(a, k, tail);
    }
    SpotBehindSlash(Joined(rest), tail, mid);
    NoneInName(a, Joined(rest), Spot(tail, mid), Spot(tail, now));
  }

  lemma NoneInName(a: string, x: string, was: string, now: string)
    requires was != "" && !(was <= [SLASH] + x) && forall k | 0 <= k < |a| :: !(was <= a[k..] + ([SLASH] + x))
    ensures ReplaceFirst(a + [SLASH] + x, was, now) == a + [SLASH] + ReplaceFirst(x, was, now)
    ensures ReplaceAll(a + [SLASH] + x, was, now) == a + [SLASH] + ReplaceAll(x, was, now)
  {
    PassOver(a, [SLASH] + x, was, now);
    ReplaceStep(SLASH, x, was, now);
    Regroup(a, [SLASH], x);
    Regroup(a, [SLASH], ReplaceFirst(x, was, now));
    Regroup(a, [SLASH], ReplaceAll(x, was, now));
  }

  lemma Regroup(a: string, b: string, c: string)
    ensures a + b + c == a + (b + c)
  {}

  lemma SpotBehindSlash(x: string, tail: Name, mid: Name)
    requires IsName(tail)
    ensures !(Spot(tail, mid) <= [SLASH] + x)
  {
    assert Spot(tail, mid)[0] == tail[0] && tail[0] in tail;
  }

  // From place `k` of the name on.
  lemma SpotInside(a: string, k: nat, rest: Path, tail: Name, mid: Name)
    requires SLASH !in a && AreNames(rest) && IsName(tail) && IsName(mid) && k <= |a|
    ensures Spot(tail, mid) <= a[k..] + ([SLASH] + Joined(rest)) <==> a[k..] == tail && [mid] < rest
  {
    SpotBefore(a[k..], rest, tail, mid);
    assert a[k..] + ([SLASH] + Joined(rest)) == a[k..] + [SLASH] + Joined(rest);
  }

  lemma EndsWithTail(a: string, k: nat, tail: string)
    requires k <= |a|
    ensures a[k..] == tail ==> EndsWith(a, tail)
  {
    assert forall i | 0 <= i < |a| - k :: a[k..][i] == a[k + i];
  }

  // ... and replaces the first spot that it meets.
  lemma ReplaceHere(a: string, rest: Path, tail: Name, mid: Name, now: Name)
    requires SLASH !in a && AreNames(rest) && IsName(tail) && IsName(mid)
    requires EndsWith(a, tail) && [mid] < rest
    ensures ReplaceFirst(a + [SLASH] + Joined(rest), Spot(tail, mid), Spot(tail, now)) ==
      a + [SLASH] + now + [SLASH] + Joined(rest[1..])
    ensures ReplaceAll(a + [SLASH] + Joined(rest), Spot(tail, mid), Spot(tail, now)) ==
      a + [SLASH] + now + [SLASH] + ReplaceAll(Joined(rest[1..]), Spot(tail, mid), Spot(tail, now))
  {
    var front, more := a[..|a| - |tail|], Joined(rest[1..]);
    SplitAtTail(a, tail);
    SpotThen(tail, mid, rest);
    forall k | 0 <= k < |front|
      ensures !(Spot(tail, mid) <= front[k..] + (Spot(tail, mid) + more))
    {
      NoSpotInFront(a, front, k, rest, tail, mid);
    }
    FirstInName(front, more, Spot(tail, mid), Spot(tail, now));
    SpelledHere(a, front, tail, rest);
    SpotSpelled(front, tail, now, more);
    SpotSpelled(front, tail, now, ReplaceAll(more, Spot(tail, mid), Spot(tail, now)));
  }

  lemma FirstInName(front: string, more: string, was: string, now: string)
    requires was != "" && forall k | 0 <= k < |front| :: !(was <= front[k..] + (was + more))
    ensures ReplaceFirst(front + (was + more), was, now) == front + (now + more)
    ensures ReplaceAll(front + (was + more), was, now) == front + (now + ReplaceAll(more, was, now))
  {
    PassOver(front, was + more, was, now);
    ReplaceAtStart(was, more, now);
  }

  lemma SpelledHere(a: string, front: string, tail: Name, rest: Path)
    requires a == front + tail
    ensures a + [SLASH] + Joined(rest) == front + (tail + [SLASH] + Joined(rest))
  {}

  lemma SplitAtTail(a: string, tail: string)
    requires EndsWith(a, tail)
    ensures a == a[..|a| - |tail|] + tail
  {}

  lemma NoSpotInFront(a: string, front: string, k: nat, rest: Path, tail: Name, mid: Name)
    requires SLASH !in a && AreNames(rest) && IsName(tail) && IsName(mid) && [mid] < rest
    requires a == front + tail && k < |front|
    ensures !(Spot(tail, mid) <= front[k..] + (Spot(tail, mid) + Joined(rest[1..])))
  {
    SpotInside(a, k, rest, tail, mid);
    SpotThen(tail, mid, rest);
    assert a[k..] == front[k..] + tail;
    assert a[k..] + ([SLASH] + Joined(rest)) == front[k..] + (tail + [SLASH] + Joined(rest));
  }

  lemma SpotSpelled(front: string, tail: Name, now: Name, x: string)
    ensures front + (Spot(tail, now) + x) == front + tail + [SLASH] + now + [SLASH] + x
  {}

  lemma SpotThen(tail: Name, mid: Name, rest: Path)
    requires [mid] < rest
    ensures tail + [SLASH] + Joined(rest) == Spot(tail, mid) + Joined(rest[1..])
  {
    assert rest == [mid] + rest[1..];
    JoinedCons(mid, rest[1..]);
  }

  lemma {:induction false} ReplaceNothing(a: string, tail: Name, mid: Name, now: Name)
    requires SLASH !in a && IsName(tail) && IsName(mid)
    ensures ReplaceFirst(a, Spot(tail, mid), Spot(tail, now)) == a
    ensures ReplaceAll(a, Spot(tail, mid), Spot(tail, now)) == a
  {
    SpotBefore(a, [], tail, mid);
    if a != "" {
      ReplaceNothing(a[1..], tail, mid, now);
    }
  }

  // Renaming components is replacing in the text.
  lemma {:induction false} RenameFirstExactly(p: Path, tail: Name, mid: Name, now: Name)
    requires AreNames(p) && IsName(tail) && IsName(mid)
    ensures Joined(RenameFirst(p, tail, mid, now)) == ReplaceFirst(Joined(p), Spot(tail, mid), Spot(tail, now))
  {
    if p != [] {
      var rest := p[1..];
      assert IsName(p[0]) && p == [p[0]] + rest;
      if rest == [] {
        ReplaceNothing(p[0], tail, mid, now);
        assert RenameFirst(rest, tail, mid, now) == [];
      } else {
        JoinedCons(p[0], rest);
        if MeetsSpot(p, tail, mid) {
          ReplaceHere(p[0], rest, tail, mid, now);
          RenamedText(p[0], now, p[2..]);
        } else {
          ReplacePast(p[0], rest, tail, mid, now);
          RenameFirstExactly(rest, tail, mid, now);
          RenameFirstSize(rest, tail, mid, now);
          JoinedCons(p[0], RenameFirst(rest, tail, mid, now));
        }
      }
    }
  }

  lemma {:induction false} RenameFirstSize(p: Path, tail: Name, mid: Name, now: Name)
    ensures |RenameFirst(p, tail, mid, now)| == |p|
  {
    if p != [] && !MeetsSpot(p, tail, mid) {
      RenameFirstSize(p[1..], tail, mid, now);
    }
  }

  lemma RenamedText(n: Name, now: Name, rest: Path)
    requires rest != []
    ensures Joined([n, now] + rest) == n + [SLASH] + now + [SLASH] + Joined(rest)
  {
    assert [n, now] + rest == [n] + ([now] + rest);
    JoinedCons(n, [now] + rest);
    JoinedCons(now, rest);
  }

  lemma {:induction false} RenameAllExactly(p: Path, tail: Name, mid: Name, now: Name)
    requires AreNames(p) && IsName(tail) && IsName(mid)
    ensures Joined(RenameAll(p, tail, mid, now)) == ReplaceAll(Joined(p), Spot(tail, mid), Spot(tail, now))
  {
    if p != [] {
      var rest := p[1..];
      assert IsName(p[0]) && p == [p[0]] + rest;
      if rest == [] {
        ReplaceNothing(p[0], tail, mid, now);
        assert RenameAll(rest, tail, mid, now) == [];
      } else {
        JoinedCons(p[0], rest);
        if MeetsSpot(p, tail, mid) {
          ReplaceHere(p[0], rest, tail, mid, now);
          RenameAllExactly(p[2..], tail, mid, now);
          RenameAllSize(p[2..], tail, mid, now);
          RenamedText(p[0], now, RenameAll(p[2..], tail, mid, now));
        } else {
          ReplacePast(p[0], rest, tail, mid, now);
          RenameAllExactly(rest, tail, mid, now);
          RenameAllSize(rest, tail, mid, now);
          JoinedCons(p[0], RenameAll(rest, tail, mid, now));
        }
      }
    }
  }

  lemma {:induction false} RenameAllSize(p: Path, tail: Name, mid: Name, now: Name)
    ensures |RenameAll(p, tail, mid, now)| == |p|
  {
    if p != [] {
      RenameAllSize(if MeetsSpot(p, tail, mid) then p[2..] else p[1..], tail, mid, now);
    }
  }
}
