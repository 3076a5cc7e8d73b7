// How a backup directory gets its name, and which one counts as the latest:
// the greatest name in lexicographic order.
module BackupNames {

  /* ---- Lexicographic order ---- */

  // `a < b` on Python strings.
  predicate Below(a: string, b: string) {
    b != "" && (a == "" || a[0] < b[0] || (a[0] == b[0] && Below(a[1..], b[1..])))
  }

  lemma {:induction false} NeverBoth(a: string, b: string)
    ensures !(Below(a, b) && Below(b, a))
  {
    if a != "" && b != "" {
      NeverBoth(a[1..], b[1..]);
    }
  }

  // A common beginning does not matter.
  lemma {:induction false} BelowAfter(p: string, a: string, b: string)
    ensures Below(p + a, p + b) <==> Below(a, b)
  {
    if p == "" {
      assert p + a == a && p + b == b;
    } else {
      assert (p + a)[1..] == p[1..] + a && (p + b)[1..] == p[1..] + b;
      BelowAfter(p[1..], a, b);
    }
  }

  // What differs first decides, whatever follows.
  lemma {:induction false} BelowThen(a: string, b: string, x: string, y: string)
    requires |a| == |b| && Below(a, b)
    ensures Below(a + x, b + y)
  {
    assert (a + x)[0] == a[0] && (b + y)[0] == b[0];
    if a[0] == b[0] {
      assert (a + x)[1..] == a[1..] + x && (b + y)[1..] == b[1..] + y;
      BelowThen(a[1..], b[1..], x, y);
    }
  }

  /* ---- Decimal digits ---- */

  function Digit(d: nat): char
    requires d < 10
  {
    '0' + d as char
  }

  // `n` with `w` digits.
  function Pad(n: nat, w: nat): (s: string)
    ensures |s| == w
    decreases w
  {
    if w == 0 then "" else Pad(n / 10, w - 1) + [Digit(n % 10)]
  }

  function Power(w: nat): (p: nat)
    ensures p > 0
  {
    if w == 0 then 1 else 10 * Power(w - 1)
  }

  lemma {:induction false} PadOrdered(m: nat, n: nat, w: nat)
    requires m < n < Power(w)
    ensures Below(Pad(m, w), Pad(n, w))
    decreases w
  {
    var a, b := Pad(m / 10, w - 1), Pad(n / 10, w - 1);
    if m / 10 < n / 10 {
      PadOrdered(m / 10, n / 10, w - 1);
      BelowThen(a, b, [Digit(m % 10)], [Digit(n % 10)]);
    } else {
      BelowAfter(a, [Digit(m % 10)], [Digit(n % 10)]);
    }
  }

  // The digits of `n`, without leading zeros.
  function Width(n: nat): (w: nat)
    ensures w > 0 && n < Power(w)
    ensures n >= 10 ==> w > 1 && n >= Power(w - 1)
  {
    if n < 10 then 1 else 1 + Width(n / 10)
  }

  // `f"{suffix:02d}"`
  function SuffixText(n: nat): string {
    Pad(n, if n < 10 then 2 else Width(n))
  }

  // No digit is above '9'.
  lemma {:induction false} PadDigits(n: nat, w: nat)
    ensures forall i | 0 <= i < w :: '0' <= Pad(n, w)[i] <= '9'
    decreases w
  {
    if w > 0 {
      PadDigits(n / 10, w - 1);
    }
  }

  predicate AllNines(n: nat) {
    n % 10 == 9 && (n < 10 || AllNines(n / 10))
  }

  predicate IsNines(s: string) {
    forall i | 0 <= i < |s| :: s[i] == '9'
  }

  // The number written with `w` nines.
  function Nines(w: nat): nat {
    Power(w) - 1
  }

  lemma {:induction false} NinesText(w: nat)
    ensures IsNines(Pad(Nines(w), w))
  {
    if w > 0 {
      assert Nines(w) / 10 == Nines(w - 1) && Nines(w) % 10 == 9;
      NinesText(w - 1);
    }
  }

  lemma {:induction false} AllNinesText(n: nat)
    ensures AllNines(n) <==> IsNines(Pad(n, Width(n)))
  {
    var front, d := Pad(n / 10, Width(n) - 1), Digit(n % 10);
    var s := Pad(n, Width(n));
    assert s == front + [d] && front == s[..|s| - 1] && s[|s| - 1] == d;
    assert IsNines(s) <==> IsNines(front) && d == '9';
    if n >= 10 {
      AllNinesText(n / 10);
    }
  }

  // Where `b` starts with nines, nothing shorter lies above it.
  lemma {:induction false} NinesAbove(a: string, b: string)
    requires |a| < |b| && forall i | 0 <= i < |a| :: a[i] <= '9' && b[i] == '9'
    ensures Below(a, b)
  {
    if a != "" {
      assert a[0] <= '9' && b[0] == '9';
      NinesAbove(a[1..], b[1..]);
    }
  }

  // Where it does not, the nines do.
  lemma {:induction false} NinesBeat(a: string, b: string, i: nat)
    requires i < |b| <= |a| && a[i] < '9'
    requires forall k | 0 <= k < |b| :: a[k] <= '9' && b[k] == '9'
    ensures Below(a, b)
  {
    assert a[0] <= '9' && b[0] == '9';
    if i > 0 {
      NinesBeat(a[1..], b[1..], i - 1);
    }
  }

  lemma {:induction false} WidthGrows(m: nat, n: nat)
    requires m <= n
    ensures Width(m) <= Width(n)
  {
    if m >= 10 {
      WidthGrows(m / 10, n / 10);
    }
  }

  lemma NarrowerIsLess(m: nat, n: nat)
    requires Width(m) < Width(n)
    ensures m < n
  {
    if n <= m {
      WidthGrows(n, m);
    }
  }

  // The suffixes whose text lies above all smaller ones: up to 99, and those
  // whose digits before the last are all nines.
  predicate IsAboveSmaller(n: nat) {
    n <= 99 || AllNines(n / 10)
  }

  lemma SuffixAbove(m: nat, n: nat)
    requires 0 < m < n && IsAboveSmaller(n)
    ensures Below(SuffixText(m), SuffixText(n))
  {
    var s, t := SuffixText(m), SuffixText(n);
    WidthGrows(m, n);
    if n <= 99 {
      assert Power(2) == 10 * Power(1) == 100;
      SmallSuffix(m);
      SmallSuffix(n);
      PadOrdered(m, n, 2);
    } else if |s| == |t| {
      PadOrdered(m, n, |t|);
    } else {
      PadDigits(m, |s|);
      AllNinesText(n / 10);
      assert t == Pad(n / 10, Width(n / 10)) + [Digit(n % 10)];
      NinesAbove(s, t);
    }
  }

  lemma SmallSuffix(n: nat)
    requires n <= 99
    ensures SuffixText(n) == Pad(n, 2)
  {
    assert n >= 10 ==> Width(n / 10) == 1;
  }

  // Any other suffix lies below the nines that are one digit shorter.
  lemma SuffixBelow(n: nat)
    requires !IsAboveSmaller(n)
    ensures 0 < Nines(Width(n) - 1) < n && Below(SuffixText(n), SuffixText(Nines(Width(n) - 1)))
  {
    var w := Width(n) - 1;
    assert w == Width(n / 10) && n / 10 >= 10 && w >= 2;
    var a, b := SuffixText(n), SuffixText(Nines(w));
    NinesWidth(w);
    NarrowerIsLess(Nines(w), n);
    NinesText(w);
    NotAllNines(n, w);
  }

  lemma NotAllNines(n: nat, w: nat)
    requires !AllNines(n / 10) && w == Width(n / 10) && n >= 100 && w >= 2
    requires IsNines(Pad(Nines(w), w)) && SuffixText(Nines(w)) == Pad(Nines(w), w)
    ensures Below(SuffixText(n), SuffixText(Nines(w)))
  {
    var a, b := SuffixText(n), Pad(Nines(w), w);
    assert a == Pad(n / 10, w) + [Digit(n % 10)];
    PadDigits(n / 10, w);
    AllNinesText(n / 10);
    var i :| 0 <= i < w && Pad(n / 10, w)[i] != '9';
    NinesBeat(a, b, i);
  }

  lemma {:induction false} NinesWidth(w: nat)
    requires w >= 1
    ensures Width(Nines(w)) == w && Nines(w) >= 9 && (w >= 2 ==> Nines(w) >= 99)
  {
    if w >= 2 {
      assert Nines(w) / 10 == Nines(w - 1);
      NinesWidth(w - 1);
    } else {
      assert Nines(1) == 9;
    }
  }

  /* ---- Names ---- */

  // The clock in UTC, as the numbers its digits spell: 20260726 and 12739 for
  // 01:27:39 on the 26th of July 2026.
  datatype Moment = Moment(date: nat, time: nat)

  predicate IsMoment(m: Moment) {
    m.date < Power(8) && m.time < Power(6)
  }

  predicate Earlier(a: Moment, b: Moment) {
    a.date < b.date || (a.date == b.date && a.time < b.time)
  }

  // `strftime("%Y%m%dT%H%M%SZ")`
  function Stamp(m: Moment): (s: string)
    ensures |s| == 16
  {
    Fields(m.date, 8, m.time, 6)
  }

  function Fields(date: nat, w: nat, time: nat, v: nat): (s: string)
    ensures |s| == w + v + 2
  {
    Pad(date, w) + ("T" + (Pad(time, v) + "Z"))
  }

  function BackupName(m: Moment, suffix: nat): string {
    if suffix == 0 then Stamp(m) else Stamp(m) + ("-" + SuffixText(suffix))
  }

  lemma EarlierIsBelow(a: Moment, b: Moment, i: nat, j: nat)
    requires IsMoment(a) && IsMoment(b) && Earlier(a, b)
    ensures Below(BackupName(a, i), BackupName(b, j))
  {
    StampsOrdered(a, b);
    var x, y := BackupName(a, i)[16..], BackupName(b, j)[16..];
    assert BackupName(a, i) == Stamp(a) + x && BackupName(b, j) == Stamp(b) + y;
    BelowThen(Stamp(a), Stamp(b), x, y);
  }

  lemma StampsOrdered(a: Moment, b: Moment)
    requires IsMoment(a) && IsMoment(b) && Earlier(a, b)
    ensures Below(Stamp(a), Stamp(b))
  {
    FieldsOrdered(a, b, 8, 6);
  }

  lemma FieldsOrdered(a: Moment, b: Moment, w: nat, v: nat)
    requires Earlier(a, b) && b.date < Power(w) && b.time < Power(v)
    ensures Below(Fields(a.date, w, a.time, v), Fields(b.date, w, b.time, v))
  {
    var x, y := Pad(a.time, v) + "Z", Pad(b.time, v) + "Z";
    if a.date < b.date {
      PadOrdered(a.date, b.date, w);
      BelowThen(Pad(a.date, w), Pad(b.date, w), "T" + x, "T" + y);
    } else {
      PadOrdered(a.time, b.time, v);
      BelowThen(Pad(a.time, v), Pad(b.time, v), "Z", "Z");
      BelowAfter("T", x, y);
      BelowAfter(Pad(a.date, w), "T" + x, "T" + y);
    }
  }

  // Within one second the suffixes decide.
  lemma SameSecond(m: Moment, i: nat, j: nat)
    ensures 0 < i && 0 < j ==>
      (Below(BackupName(m, i), BackupName(m, j)) <==> Below(SuffixText(i), SuffixText(j)))
    ensures 0 == i < j ==> Below(BackupName(m, i), BackupName(m, j))
  {
    var a, b := "-" + SuffixText(i), "-" + SuffixText(j);
    BelowAfter("-", SuffixText(i), SuffixText(j));
    BelowAfter(Stamp(m), a, b);
    BelowAfter(Stamp(m), "", b);
    assert Stamp(m) + "" == Stamp(m);
  }

  lemma NamesDiffer(m: Moment, i: nat, j: nat)
    requires i < j
    ensures BackupName(m, i) != BackupName(m, j)
  {
    SuffixesDiffer(i, j);
    if i == 0 {
      assert |BackupName(m, i)| < |BackupName(m, j)|;
    } else {
      Cancel("-", SuffixText(i), SuffixText(j));
      Cancel(Stamp(m), "-" + SuffixText(i), "-" + SuffixText(j));
    }
  }

  lemma Cancel(s: string, a: string, b: string)
    requires a != b
    ensures s + a != s + b
  {
    assert (s + a)[|s|..] == a && (s + b)[|s|..] == b;
  }

  lemma SuffixesDiffer(i: nat, j: nat)
    requires i < j
    ensures SuffixText(i) != SuffixText(j)
  {
    var w := |SuffixText(j)|;
    if |SuffixText(i)| == w {
      if j < 10 {
        assert Power(2) == 10 * Power(1) == 100;
      }
      PadOrdered(i, j, w);
      NeverBoth(SuffixText(i), SuffixText(j));
    }
  }

  /* ---- The naming loop ---- */

  // The first free name of the second.
  predicate IsFirstFree(existing: set<string>, m: Moment, suffix: nat) {
    BackupName(m, suffix) !in existing && forall j | 0 <= j < suffix :: BackupName(m, j) in existing
  }

  method ChooseName(existing: set<string>, m: Moment) returns (name: string, suffix: nat)
    ensures IsFirstFree(existing, m, suffix) && name == BackupName(m, suffix)
  {
    name, suffix := Stamp(m), 0;
    ghost var left := existing;
    while name in existing
      invariant name == BackupName(m, suffix)
      invariant forall j | 0 <= j < suffix :: BackupName(m, j) in existing
      invariant forall j: nat | suffix <= j && BackupName(m, j) in existing :: BackupName(m, j) in left
      decreases |left|
    {
      forall j: nat | suffix < j
        ensures BackupName(m, j) != name
      {
        NamesDiffer(m, suffix, j);
      }
      left := left - {name};
      suffix := suffix + 1;
      name := Stamp(m) + ("-" + SuffixText(suffix));
    }
  }

  /* ---- The latest backup ---- */

  // Backups made one after the other in one directory that holds nothing
  // else, none deleted, by a clock that never goes back.
  ghost predicate IsHistory(moments: seq<Moment>, suffixes: seq<nat>)
    requires |moments| == |suffixes|
  {
    && (forall i | 0 <= i < |moments| :: IsMoment(moments[i]))
    && (forall i, j | 0 <= i < j < |moments| :: !Earlier(moments[j], moments[i]))
    && (forall i | 0 <= i < |moments| :: IsFirstFree(NamesUpTo(moments, suffixes, i), moments[i], suffixes[i]))
  }

  function NamesUpTo(moments: seq<Moment>, suffixes: seq<nat>, n: nat): set<string>
    requires n <= |moments| == |suffixes|
  {
    set i | 0 <= i < n :: BackupName(moments[i], suffixes[i])
  }

  // `max(names)`
  ghost predicate IsGreatest(names: set<string>, name: string) {
    name in names && forall other | other in names && other != name :: Below(other, name)
  }

  // The name that rollback picks is the newest backup exactly when the suffix
  // of the newest is at most 99 or has only nines before its last digit.
  lemma LatestIsNewestExactly(moments: seq<Moment>, suffixes: seq<nat>, last: nat)
    requires |moments| == |suffixes| == last + 1 && IsHistory(moments, suffixes)
    ensures IsGreatest(NamesUpTo(moments, suffixes, last + 1), BackupName(moments[last], suffixes[last])) <==>
      IsAboveSmaller(suffixes[last])
  {
    var names, name := NamesUpTo(moments, suffixes, last + 1), BackupName(moments[last], suffixes[last]);
    assert name in names;
    if IsAboveSmaller(suffixes[last]) {
      forall other | other in names && other != name
        ensures Below(other, name)
      {
        var i :| 0 <= i <= last && other == BackupName(moments[i], suffixes[i]);
        OlderIsBelow(moments, suffixes, last, i);
      }
    } else {
      var other := NewestIsBelow(moments, suffixes, last);
      NeverBoth(other, name);
      assert other in names;
    }
  }

  lemma NewestIsBelow(moments: seq<Moment>, suffixes: seq<nat>, last: nat) returns (other: string)
    requires |moments| == |suffixes| == last + 1 && IsHistory(moments, suffixes)
    requires !IsAboveSmaller(suffixes[last])
    ensures other in NamesUpTo(moments, suffixes, last) && Below(BackupName(moments[last], suffixes[last]), other)
  {
    var m, k := moments[last], suffixes[last];
    SuffixBelow(k);
    var j := Nines(Width(k) - 1);
    SameSecond(m, k, j);
    assert IsFirstFree(NamesUpTo(moments, suffixes, last), m, k);
    other := BackupName(m, j);
  }

  // Within one second the suffixes count up.
  lemma SuffixesCountUp(moments: seq<Moment>, suffixes: seq<nat>, last: nat, i: nat)
    requires |moments| == |suffixes| == last + 1 && IsHistory(moments, suffixes)
    requires i < last && moments[i] == moments[last]
    ensures suffixes[i] < suffixes[last]
  {
    var m := moments[last];
    assert IsFirstFree(NamesUpTo(moments, suffixes, last), m, suffixes[last]);
    assert IsFirstFree(NamesUpTo(moments, suffixes, i), m, suffixes[i]);
    assert BackupName(m, suffixes[i]) in NamesUpTo(moments, suffixes, last);
    assert NamesUpTo(moments, suffixes, i) <= NamesUpTo(moments, suffixes, last);
  }

  lemma OlderIsBelow(moments: seq<Moment>, suffixes: seq<nat>, last: nat, i: nat)
    requires |moments| == |suffixes| == last + 1 && IsHistory(moments, suffixes)
    requires i < last && IsAboveSmaller(suffixes[last])
    ensures Below(BackupName(moments[i], suffixes[i]), BackupName(moments[last], suffixes[last]))
  {
    if moments[i] == moments[last] {
      SuffixesCountUp(moments, suffixes, last, i);
      SameSecond(moments[i], suffixes[i], suffixes[last]);
      if suffixes[i] > 0 {
        SuffixAbove(suffixes[i], suffixes[last]);
      }
    } else {
      EarlierIsBelow(moments[i], moments[last], suffixes[i], suffixes[last]);
    }
  }

  // After 99 suffixes in one second, the hundredth is taken for an older one.
  lemma HundredIsTheFirst(n: nat)
    ensures !IsAboveSmaller(100) && (n < 100 ==> IsAboveSmaller(n))
    ensures Below(SuffixText(100), SuffixText(99))
  {
    assert Width(100) == 3 && Nines(2) == 99;
    SuffixBelow(100);
  }
}
