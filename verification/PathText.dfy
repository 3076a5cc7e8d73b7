// Path strings, and the normalising loop of the exact-path cleanup.
module PathText {
  import opened Paths

  const SLASH: char := '/'

  // The characters that `str.strip()` removes.
  predicate IsSpace(c: char) {
    || '\U{0009}' <= c <= '\U{000d}' || '\U{001c}' <= c <= '\U{0020}'
    || c == '\U{0085}' || c == '\U{00a0}' || c == '\U{1680}' || '\U{2000}' <= c <= '\U{200a}'
    || c == '\U{2028}' || c == '\U{2029}' || c == '\U{202f}' || c == '\U{205f}' || c == '\U{3000}'
  }

  function TrimLeft(s: string): string {
    if s != "" && IsSpace(s[0]) then TrimLeft(s[1..]) else s
  }

  function TrimRight(s: string): string {
    if s != "" && IsSpace(s[|s| - 1]) then TrimRight(s[..|s| - 1]) else s
  }

  // `s.strip()`
  function Strip(s: string): string {
    TrimRight(TrimLeft(s))
  }

  // `s.rstrip("/")`
  function TrimSlashes(s: string): string {
    if s != "" && s[|s| - 1] == SLASH then TrimSlashes(s[..|s| - 1]) else s
  }

  predicate DoubleAt(s: string, i: int) {
    0 <= i < |s| - 1 && s[i] == SLASH && s[i + 1] == SLASH
  }

  predicate HasDouble(s: string) {
    exists i | 0 <= i < |s| :: DoubleAt(s, i)
  }

  // `s.replace("//", "/")`: left to right, without overlap.
  function Halve(s: string): (t: string)
    ensures |t| <= |s|
    ensures s != "" ==> t != "" && t[0] == s[0]
  {
    if |s| < 2 then s
    else if s[0] == SLASH && s[1] == SLASH then [SLASH] + Halve(s[2..])
    else [s[0]] + Halve(s[1..])
  }

  /* ---- Meaning of a path string ---- */

  // The non-empty components between the slashes.
  function Parts(s: string): (ps: Path)
    ensures s != "" && s[0] != SLASH ==> ps != []
  {
    if s == "" then []
    else if s[0] == SLASH then Parts(s[1..])
    else if |s| == 1 || s[1] == SLASH then [[s[0]]] + Parts(s[1..])
    else
      var rest := Parts(s[1..]);
      [[s[0]] + rest[0]] + rest[1..]
  }

  function Joined(ps: Path): string {
    if ps == [] then ""
    else if |ps| == 1 then ps[0]
    else ps[0] + [SLASH] + Joined(ps[1..])
  }

  predicate IsAbsolute(s: string) {
    s != "" && s[0] == SLASH
  }

  // The one spelling without doubled or trailing slashes.
  function Spelled(absolute: bool, ps: Path): string {
    if ps == [] then [SLASH] else (if absolute then [SLASH] else "") + Joined(ps)
  }

  function Normal(s: string): string {
    Spelled(IsAbsolute(Strip(s)), Parts(Strip(s)))
  }

  /* ---- Trimming ---- */

  lemma {:induction false} TrimmedRight(s: string)
    ensures TrimRight(s) <= s
    ensures TrimRight(s) != "" ==> !IsSpace(TrimRight(s)[|TrimRight(s)| - 1])
    ensures s != "" && !IsSpace(s[0]) ==> TrimRight(s) != ""
  {
    if s != "" && IsSpace(s[|s| - 1]) {
      TrimmedRight(s[..|s| - 1]);
    }
  }

  lemma {:induction false} TrimmedLeft(s: string)
    ensures TrimLeft(s) != "" ==> !IsSpace(TrimLeft(s)[0])
  {
    if s != "" && IsSpace(s[0]) {
      TrimmedLeft(s[1..]);
    }
  }

  lemma {:induction false} TrimmedSlashes(s: string)
    ensures TrimSlashes(s) <= s && Parts(TrimSlashes(s)) == Parts(s)
    ensures TrimSlashes(s) != "" ==> TrimSlashes(s)[|TrimSlashes(s)| - 1] != SLASH
  {
    if s != "" && s[|s| - 1] == SLASH {
      var t := s[..|s| - 1];
      assert s == t + [SLASH];
      TrimmedSlashes(t);
      PartsThenEnd(t);
    }
  }

  /* ---- Components ---- */

  // A slash separates what is before it from what is after it.
  lemma {:induction false} PartsThenSlash(a: string, b: string)
    ensures Parts(a + [SLASH] + b) == Parts(a) + Parts(b)
  {
    var s := a + [SLASH] + b;
    if a == "" {
      assert s[1..] == b;
    } else {
      assert s[0] == a[0] && s[1..] == a[1..] + [SLASH] + b;
      PartsThenSlash(a[1..], b);
      if |a| > 1 {
        assert s[1] == a[1];
      }
    }
  }

  lemma {:induction false} HalveKeepsParts(s: string)
    ensures Parts(Halve(s)) == Parts(s)
  {
    if |s| >= 2 {
      if s[0] == SLASH && s[1] == SLASH {
        HalveKeepsParts(s[2..]);
        assert Halve(s)[1..] == Halve(s[2..]);
        assert s[1..][1..] == s[2..];
      } else {
        HalveKeepsParts(s[1..]);
        assert Halve(s)[1..] == Halve(s[1..]);
      }
    }
  }

  lemma {:induction false} HalveShortens(s: string)
    requires HasDouble(s)
    ensures |Halve(s)| < |s|
  {
    if !(s[0] == SLASH && s[1] == SLASH) {
      var i :| 0 <= i < |s| && DoubleAt(s, i);
      assert DoubleAt(s[1..], i - 1);
      HalveShortens(s[1..]);
    }
  }

  // A string without doubled slashes that does not end in one is spelled by
  // its components.
  lemma SpelledByParts(s: string)
    requires !HasDouble(s) && s != "" && s[|s| - 1] != SLASH
    ensures Parts(s) != [] && s == Spelled(IsAbsolute(s), Parts(s))
  {
    if s[0] == SLASH {
      SpelledAbsolute(s);
    } else {
      JoinedParts(s);
    }
  }

  lemma SpelledAbsolute(s: string)
    requires !HasDouble(s) && s != "" && s[|s| - 1] != SLASH && s[0] == SLASH
    ensures Parts(s) != [] && s == [SLASH] + Joined(Parts(s))
  {
    assert !DoubleAt(s, 0);
    Undoubled(s);
    JoinedParts(s[1..]);
    assert s == [SLASH] + s[1..];
  }

  lemma {:induction false} JoinedParts(s: string)
    requires !HasDouble(s) && s != "" && s[|s| - 1] != SLASH && s[0] != SLASH
    ensures Joined(Parts(s)) == s
  {
    if |s| == 1 {
      assert s[1..] == "" && [s[0]] == s;
    } else {
      var rest := s[1..];
      Undoubled(s);
      if s[1] == SLASH {
        assert !DoubleAt(s, 1);
        Undoubled(rest);
        JoinedParts(rest[1..]);
        assert Parts(rest) == Parts(rest[1..]);
        assert s == [s[0]] + [SLASH] + rest[1..];
        assert Parts(s)[1..] == Parts(rest);
      } else {
        JoinedParts(rest);
        JoinedPush(s[0], Parts(rest));
        assert s == [s[0]] + rest;
      }
    }
  }

  lemma JoinedPush(c: char, ps: Path)
    requires ps != []
    ensures Joined([[c] + ps[0]] + ps[1..]) == [c] + Joined(ps)
  {
    var qs := [[c] + ps[0]] + ps[1..];
    assert qs[1..] == ps[1..] && qs[0] == [c] + ps[0];
  }

  lemma Undoubled(s: string)
    requires !HasDouble(s) && s != ""
    ensures !HasDouble(s[1..])
  {
    forall i: int
      ensures !DoubleAt(s[1..], i)
    {
      assert DoubleAt(s[1..], i) ==> DoubleAt(s, i + 1);
    }
  }

  lemma Shorter(n: string, t: string)
    requires !HasDouble(n) && t <= n
    ensures !HasDouble(t)
  {
    forall i: int
      ensures !DoubleAt(t, i)
    {
      assert DoubleAt(t, i) ==> DoubleAt(n, i);
    }
  }

  /* ---- The loop ---- */

  // `_normalize`
  method Normalize(p: string) returns (r: string)
    ensures r == Normal(p)
    ensures !HasDouble(r)
  {
    r := Strip(p);
    ghost var q := r;
    while HasDouble(r)
      invariant Parts(r) == Parts(q) && |r| <= |q|
      invariant r != "" <==> q != ""
      invariant r != "" ==> r[0] == q[0]
      decreases |r|
    {
      HalveKeepsParts(r);
      HalveShortens(r);
      r := Halve(r);
    }
    ghost var t := r;
    TrimmedSlashes(t);
    r := TrimSlashes(r);
    Shorter(t, r);
    if r == "" {
      r := [SLASH];
    } else {
      SpelledByParts(r);
    }
  }

  /* ---- What normalising does ---- */

  predicate IsName(n: Name) {
    n != "" && SLASH !in n
  }

  ghost predicate AreNames(ps: Path) {
    forall n | n in ps :: IsName(n)
  }

  lemma {:induction false} PartsAreNames(s: string)
    ensures AreNames(Parts(s))
  {
    if s != "" {
      PartsAreNames(s[1..]);
      if s[0] != SLASH && |s| > 1 && s[1] != SLASH {
        var rest := Parts(s[1..]);
        assert IsName(rest[0]);
        assert forall n | n in rest[1..] :: n in rest;
      }
    }
  }

  lemma {:induction false} PartsOfName(n: Name)
    requires IsName(n)
    ensures Parts(n) == [n]
  {
    if |n| > 1 {
      assert n[1] in n && SLASH !in n[1..];
      PartsOfName(n[1..]);
      assert [n[0]] + n[1..] == n;
    } else {
      assert n[0] in n && n[1..] == "" && [n[0]] == n;
    }
  }

  lemma {:induction false} PartsOfJoined(ps: Path)
    requires AreNames(ps)
    ensures Parts(Joined(ps)) == ps
  {
    if ps != [] {
      assert IsName(ps[0]);
      PartsOfName(ps[0]);
      if |ps| > 1 {
        assert AreNames(ps[1..]);
        PartsOfJoined(ps[1..]);
        PartsThenSlash(ps[0], Joined(ps[1..]));
      }
    }
  }

  // Spelling and reading are inverse, and `_normalize` keeps the components
  // and the kind of the stripped input.
  lemma PartsOfSpelled(absolute: bool, ps: Path)
    requires AreNames(ps)
    ensures Parts(Spelled(absolute, ps)) == ps
    ensures ps != [] ==> (IsAbsolute(Spelled(absolute, ps)) <==> absolute)
  {
    PartsOfJoined(ps);
    if ps != [] {
      assert IsName(ps[0]) && ps[0][0] in ps[0];
      assert Joined(ps)[0] == ps[0][0];
      if absolute {
        assert Spelled(absolute, ps)[1..] == Joined(ps);
      } else {
        assert Spelled(absolute, ps) == Joined(ps);
      }
    }
  }

  lemma NormalKeepsParts(s: string)
    ensures Parts(Normal(s)) == Parts(Strip(s))
    ensures Parts(Strip(s)) != [] ==> (IsAbsolute(Normal(s)) <==> IsAbsolute(Strip(s)))
  {
    PartsAreNames(Strip(s));
    PartsOfSpelled(IsAbsolute(Strip(s)), Parts(Strip(s)));
  }

  // Absolute names spelled without a space at the end are left alone.
  lemma SpelledIsNormal(ps: Path)
    requires AreNames(ps) && ps != [] && !EndsInSpace(Spelled(true, ps))
    ensures Normal(Spelled(true, ps)) == Spelled(true, ps)
  {
    PartsOfSpelled(true, ps);
    assert Strip(Spelled(true, ps)) == Spelled(true, ps);
  }

  predicate EndsInSpace(s: string) {
    s != "" && IsSpace(s[|s| - 1])
  }

  // A second pass changes nothing exactly when the first left no space at the
  // end; otherwise it cuts the string short.
  lemma NormalTwice(s: string)
    ensures Normal(Normal(s)) <= Normal(s)
    ensures Normal(Normal(s)) == Normal(s) <==> !EndsInSpace(Normal(s))
  {
    NormalStarts(s);
    NormalIsTight(s);
    TightTwice(Normal(s));
  }

  // Such a string: "a /" becomes "a ", and then "a".
  lemma SpaceIsLeft()
    ensures Normal("a /") == "a " && Normal("a ") == "a"
  {
    var s: string := "a /";
    assert s[1..] == " /" && s[1..][1..] == "/" && s[1..][1..][1..] == "";
    assert TrimLeft(s) == s && TrimRight(s) == s;
    assert Parts("/") == [] && Parts(" /") == [" "];
    assert Parts(s) == [['a'] + " "] && ['a'] + " " == "a ";
    var t: string := "a ";
    assert t[..1] == "a" && TrimLeft(t) == t && TrimRight("a") == "a" && TrimRight(t) == "a";
    assert Parts("a") == ["a"];
  }

  lemma TightTwice(n: string)
    requires !HasDouble(n) && n != "" && !IsSpace(n[0])
    requires n != [SLASH] ==> n[|n| - 1] != SLASH
    ensures Normal(n) <= n
    ensures Normal(n) == n <==> !EndsInSpace(n)
  {
    var t := TrimRight(n);
    TrimsToPrefix(n);
    TightTrims(n, t);
    assert Normal(n) == WithoutLastSlash(t);
    assert t == n || |t| < |n|;
  }

  lemma TrimsToPrefix(n: string)
    requires n != "" && !IsSpace(n[0])
    ensures Strip(n) == TrimRight(n) && TrimRight(n) <= n && TrimRight(n) != ""
    ensures TrimRight(n) == n <==> !EndsInSpace(n)
  {
    TrimmedRight(n);
    assert TrimLeft(n) == n;
  }

  function WithoutLastSlash(t: string): string {
    if |t| >= 2 && t[|t| - 1] == SLASH then t[..|t| - 1] else t
  }

  // What is left of a normal string when its end is cut off is normal but for
  // one slash at the end.
  lemma TightTrims(n: string, t: string)
    requires !HasDouble(n) && t <= n && t != ""
    ensures Spelled(IsAbsolute(t), Parts(t)) == WithoutLastSlash(t)
  {
    Shorter(n, t);
    if t[|t| - 1] != SLASH {
      SpelledByParts(t);
    } else if |t| >= 2 {
      SlashAtEnd(t);
    } else {
      assert t[1..] == "";
    }
  }

  lemma SlashAtEnd(t: string)
    requires !HasDouble(t) && |t| >= 2 && t[|t| - 1] == SLASH
    ensures Spelled(IsAbsolute(t), Parts(t)) == t[..|t| - 1]
  {
    var u := t[..|t| - 1];
    NoSlashBefore(t);
    PartsThenEnd(u);
    SpelledByParts(u);
  }

  lemma NoSlashBefore(t: string)
    requires !HasDouble(t) && |t| >= 2 && t[|t| - 1] == SLASH
    ensures var u := t[..|t| - 1];
      t == u + [SLASH] && u != "" && u[|u| - 1] != SLASH && !HasDouble(u) && IsAbsolute(u) == IsAbsolute(t)
  {
    var u := t[..|t| - 1];
    assert !DoubleAt(t, |u| - 1);
    Shorter(t, u);
  }

  lemma PartsThenEnd(u: string)
    ensures Parts(u + [SLASH]) == Parts(u)
  {
    PartsThenSlash(u, "");
    assert u + [SLASH] + "" == u + [SLASH] && Parts(u) + [] == Parts(u);
  }

  lemma NormalStarts(s: string)
    ensures Normal(s) != "" && !IsSpace(Normal(s)[0])
  {
    var q := Strip(s);
    TrimmedLeft(s);
    TrimmedRight(TrimLeft(s));
    NormalKeepsParts(s);
    if Parts(q) != [] && !IsAbsolute(q) {
      FirstChar(q);
      assert Normal(s) == Joined(Parts(q));
    }
  }

  lemma FirstChar(q: string)
    requires q != "" && q[0] != SLASH
    ensures Parts(q)[0] != "" && Joined(Parts(q)) != "" && Joined(Parts(q))[0] == q[0]
  {}

  lemma NormalIsTight(s: string)
    ensures !HasDouble(Normal(s))
    ensures Normal(s) != [SLASH] ==> Normal(s)[|Normal(s)| - 1] != SLASH
  {
    var ps := Parts(Strip(s));
    PartsAreNames(Strip(s));
    if ps != [] {
      JoinedIsTight(ps);
      TightJoin("", Joined(ps));
      assert "" + [SLASH] + Joined(ps) == [SLASH] + Joined(ps);
      assert Normal(s) == Joined(ps) || Normal(s) == [SLASH] + Joined(ps);
    }
  }

  // One slash between two strings makes no doubled slash.
  lemma TightJoin(a: string, b: string)
    requires !HasDouble(a) && !HasDouble(b)
    requires a != "" ==> a[|a| - 1] != SLASH
    requires b != "" && b[0] != SLASH
    ensures !HasDouble(a + [SLASH] + b)
  {
    var s := a + [SLASH] + b;
    forall i: int
      ensures !DoubleAt(s, i)
    {
      if 0 <= i < |a| {
        assert s[i] == a[i] && !DoubleAt(a, i);
        assert i < |a| - 1 ==> s[i + 1] == a[i + 1];
      } else if i == |a| {
        assert s[i + 1] == b[0];
      } else if |a| < i < |s| - 1 {
        assert s[i] == b[i - |a| - 1] && s[i + 1] == b[i - |a|] && !DoubleAt(b, i - |a| - 1);
      }
    }
  }

  lemma {:induction false} JoinedIsTight(ps: Path)
    requires AreNames(ps) && ps != []
    ensures !HasDouble(Joined(ps)) && Joined(ps) != "" && Joined(ps)[0] != SLASH
    ensures Joined(ps)[|Joined(ps)| - 1] != SLASH
  {
    assert IsName(ps[0]);
    var n := ps[0];
    assert n[0] in n && n[|n| - 1] in n;
    forall i: int
      ensures !DoubleAt(n, i)
    {
      assert 0 <= i < |n| ==> n[i] in n;
    }
    if |ps| > 1 {
      assert AreNames(ps[1..]);
      JoinedIsTight(ps[1..]);
      TightJoin(n, Joined(ps[1..]));
    }
  }

  /* ---- What pathlib drops ---- */

  const DOT: Name := "."

  function NoDots(ps: Path): Path {
    if ps == [] then [] else (if ps[0] == DOT then [] else [ps[0]]) + NoDots(ps[1..])
  }

  lemma {:induction false} NoDotsJoin(a: Path, b: Path)
    ensures NoDots(a + b) == NoDots(a) + NoDots(b)
  {
    if a == [] {
      assert a + b == b;
    } else {
      assert (a + b)[0] == a[0] && (a + b)[1..] == a[1..] + b;
      NoDotsJoin(a[1..], b);
    }
  }

  lemma {:induction false} NoDotsKeeps(ps: Path)
    requires DOT !in ps
    ensures NoDots(ps) == ps
  {
    if ps != [] {
      NoDotsKeeps(ps[1..]);
    }
  }

  lemma {:induction false} NoDotsHas(ps: Path, n: Name)
    ensures n in NoDots(ps) <==> n in ps && n != DOT
  {
    if ps != [] {
      NoDotsHas(ps[1..], n);
    }
  }
}
