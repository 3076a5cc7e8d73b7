// When `_symlink_depth` answers "circular".  The names of its chain grow where
// link texts lead through other directories, so not every loop is seen.
module LinkLoops {
  import opened Paths
  import opened FileStore
  import opened LinkDepth

  // The chain meets, while it is still inside the root, a link it met before.
  ghost predicate LinkRevisited(s: Store, root: Path, p: Path, hops: nat) {
    exists i, j | 0 <= i < j :: MeetsAgain(s, root, p, hops, i, j)
  }

  ghost predicate MeetsAgain(s: Store, root: Path, p: Path, hops: nat, i: nat, j: nat) {
    && (forall k | 0 <= k <= j :: InRootLink(s, root, p, hops, k))
    && Locate(s, Chain(s, p, hops, i), hops) == Locate(s, Chain(s, p, hops, j), hops)
  }

  ghost predicate InRootLink(s: Store, root: Path, p: Path, hops: nat, k: nat) {
    var c := Chain(s, p, hops, k);
    (k > 0 ==> Within(c, root)) && IsSymlink(s, c, hops)
  }

  /* ---- Trails of links ---- */

  // The name `c` leads to the link `q`.
  predicate LeadsTo(s: Store, c: Path, q: Path, hops: nat) {
    IsLinkAt(s, q) && Locate(s, c, hops) == Found(q)
  }

  // The name that comes after it.
  function After(s: Store, c: Path, q: Path): Path
    requires IsLinkAt(s, q)
  {
    if s[q].absolute then s[q].parts else Parent(c) + s[q].parts
  }

  // Each name leads to its link, and the next name comes after it.
  ghost predicate IsTrail(s: Store, names: seq<Path>, links: seq<Path>, hops: nat) {
    |names| == |links| && forall k | 0 <= k < |names| :: TrailStep(s, names, links, hops, k)
  }

  predicate TrailStep(s: Store, names: seq<Path>, links: seq<Path>, hops: nat, k: nat)
    requires |names| == |links| && k < |names|
  {
    LeadsTo(s, names[k], links[k], hops) && (k + 1 < |names| ==> names[k + 1] == After(s, names[k], links[k]))
  }

  // A link's name, split at its last component.
  lemma LinkName(s: Store, c: Path, q: Path, hops: nat)
    requires WellFormed(s) && LeadsTo(s, c, q, hops)
    ensures c != [] && Last(c) != UP && q != [] && Last(q) == Last(c)
    ensures Walk(s, [], Parent(c), hops) == Found(Parent(q)) && IsDirAt(s, Parent(q)) && q == Parent(q) + [Last(c)]
  {
    WalkEnds(s, [], c, hops);
    JoinParentLast(c);
    ParentOfChild(Walk(s, [], Parent(c), hops).at, Last(c));
  }

  // Where the name after a relative link leads, walked from the link's own
  // directory.
  lemma NextFrom(s: Store, c: Path, q: Path, x: Path, hops: nat) returns (left: nat)
    requires WellFormed(s) && LeadsTo(s, c, q, hops) && !s[q].absolute && s[q].parts != []
    requires LeadsTo(s, After(s, c, q), x, hops)
    ensures Walk(s, Parent(q), Parent(s[q].parts), left) == Found(Parent(x)) && x == Parent(x) + [Last(s[q].parts)]
  {
    var text := s[q].parts;
    LinkName(s, c, q, hops);
    ParentOfJoin(Parent(c), text);
    LinkName(s, After(s, c, q), x, hops);
    left := hops - Cost(s, [], Parent(c), hops);
    WalkThen(s, [], Parent(c), Parent(text), hops, left);
  }

  // The next link depends on the link alone, not on the name that led to it.
  lemma NextLink(s: Store, c: Path, e: Path, q: Path, x: Path, y: Path, hops: nat)
    requires WellFormed(s) && LeadsTo(s, c, q, hops) && LeadsTo(s, e, q, hops) && s[q].parts != []
    requires LeadsTo(s, After(s, c, q), x, hops) && LeadsTo(s, After(s, e, q), y, hops)
    ensures x == y
  {
    if !s[q].absolute {
      var h := NextFrom(s, c, q, x, hops);
      var g := NextFrom(s, e, q, y, hops);
      var most := if h < g then g else h;
      WalkMore(s, Parent(q), Parent(s[q].parts), h, most);
      WalkMore(s, Parent(q), Parent(s[q].parts), g, most);
    }
  }

  predicate HasText(s: Store, q: Path) {
    IsLinkAt(s, q) && s[q].parts != []
  }

  predicate IsAbsoluteLink(s: Store, q: Path) {
    IsLinkAt(s, q) && s[q].absolute
  }

  // The text is one component.
  predicate IsSibling(s: Store, q: Path) {
    IsLinkAt(s, q) && |s[q].parts| == 1
  }

  lemma TwoSteps(s: Store, names: seq<Path>, links: seq<Path>, hops: nat, k: nat)
    requires IsTrail(s, names, links, hops) && k + 1 < |links|
    ensures LeadsTo(s, names[k], links[k], hops) && LeadsTo(s, After(s, names[k], links[k]), links[k + 1], hops)
  {
    assert TrailStep(s, names, links, hops, k) && TrailStep(s, names, links, hops, k + 1);
  }

  // From a link met again, the same links follow.
  lemma {:induction false} LinksRepeat(s: Store, names: seq<Path>, links: seq<Path>, hops: nat, i: nat, j: nat, t: nat)
    requires WellFormed(s) && IsTrail(s, names, links, hops) && i <= j && j + t < |links| && links[i] == links[j]
    requires forall k | i <= k < i + t :: HasText(s, links[k])
    ensures links[i + t] == links[j + t]
  {
    if t > 0 {
      LinksRepeat(s, names, links, hops, i, j, t - 1);
      var a, b := i + t - 1, j + t - 1;
      assert HasText(s, links[a]);
      TwoSteps(s, names, links, hops, a);
      TwoSteps(s, names, links, hops, b);
      NextLink(s, names[a], names[b], links[a], links[a + 1], links[b + 1], hops);
    }
  }

  /* ---- Two of the first links are the same ---- */

  lemma SubsetSize<T>(a: set<T>, b: set<T>)
    requires a <= b
    ensures |a| <= |b|
  {
    assert b == a + (b - a);
  }

  function Elements(links: seq<Path>): set<Path> {
    set q | q in links
  }

  lemma {:induction false} DistinctSize(links: seq<Path>)
    requires forall i, j | 0 <= i < j < |links| :: links[i] != links[j]
    ensures |Elements(links)| == |links|
  {
    if links != [] {
      var n := |links| - 1;
      var front := links[..n];
      DistinctSize(front);
      assert links == front + [links[n]];
      assert Elements(links) == Elements(front) + {links[n]};
    }
  }

  lemma SomeMetTwice(met: set<Path>, links: seq<Path>) returns (i: nat, j: nat)
    requires |links| > |met| && forall k | 0 <= k < |links| :: links[k] in met
    ensures i < j < |links| && links[i] == links[j]
  {
    if forall i, j | 0 <= i < j < |links| :: links[i] != links[j] {
      DistinctSize(links);
      SubsetSize(Elements(links), met);
      assert false;
    }
    i, j :| 0 <= i < j < |links| && links[i] == links[j];
  }

  /* ---- Loops that are seen ---- */

  // If all texts of a loop are one component, the names stay in one directory.
  lemma {:induction false} SiblingsStay(s: Store, names: seq<Path>, links: seq<Path>, hops: nat, i: nat, t: nat)
    requires WellFormed(s) && IsTrail(s, names, links, hops) && i + t < |links|
    requires forall k | i <= k < i + t :: IsSibling(s, links[k]) && !IsAbsoluteLink(s, links[k])
    ensures Parent(names[i + t]) == Parent(names[i])
  {
    if t > 0 {
      SiblingsStay(s, names, links, hops, i, t - 1);
      var k := i + t - 1;
      assert IsSibling(s, links[k]) && !IsAbsoluteLink(s, links[k]);
      assert TrailStep(s, names, links, hops, k);
      ParentOfChild(Parent(names[k]), s[links[k]].parts[0]);
      assert s[links[k]].parts == [s[links[k]].parts[0]];
    }
  }

  lemma SiblingLoopIsSeen(s: Store, names: seq<Path>, links: seq<Path>, hops: nat, i: nat, j: nat)
    requires WellFormed(s) && IsTrail(s, names, links, hops) && i < j < |links| && links[i] == links[j]
    requires forall k | i <= k < j :: IsSibling(s, links[k]) && !IsAbsoluteLink(s, links[k])
    ensures names[i] == names[j]
  {
    SiblingsStay(s, names, links, hops, i, j - i);
    LastOfName(s, names, links, hops, i);
    LastOfName(s, names, links, hops, j);
  }

  lemma LastOfName(s: Store, names: seq<Path>, links: seq<Path>, hops: nat, k: nat)
    requires WellFormed(s) && IsTrail(s, names, links, hops) && k < |names|
    ensures links[k] != [] && names[k] == Parent(names[k]) + [Last(links[k])]
  {
    assert TrailStep(s, names, links, hops, k);
    LinkName(s, names[k], links[k], hops);
    JoinParentLast(names[k]);
  }

  // The name after an absolute link is its text, in each round.
  lemma AbsoluteLoopIsSeen(s: Store, names: seq<Path>, links: seq<Path>, hops: nat, i: nat, j: nat, t: nat)
    requires WellFormed(s) && IsTrail(s, names, links, hops) && i <= t < j && t + (j - i) + 1 < |links|
    requires links[i] == links[j] && IsAbsoluteLink(s, links[t])
    requires forall k | i <= k < j :: HasText(s, links[k])
    ensures names[t + 1] == names[t + (j - i) + 1]
  {
    LinksRepeat(s, names, links, hops, i, j, t - i);
    var u := t + (j - i);
    assert u == j + (t - i) && links[u] == links[t];
    assert TrailStep(s, names, links, hops, t) && TrailStep(s, names, links, hops, u);
  }

  /* ---- Loops that are seen have such links ---- */

  // A name that resolves is followed by one that resolves at less cost.
  lemma ResolvingStep(s: Store, c: Path, q: Path, hops: nat)
    requires WellFormed(s) && LeadsTo(s, c, q, hops) && Walk(s, [], c, hops).Found?
    ensures Walk(s, [], After(s, c, q), hops).Found?
    ensures Cost(s, [], After(s, c, q), hops) < Cost(s, [], c, hops)
  {
    LinkName(s, c, q, hops);
    WalkLast(s, c, hops);
    var spent := Cost(s, [], Parent(c), hops);
    LinkStepCost(s, Parent(q), Last(c), hops - spent);
    if s[q].absolute {
      WalkMore(s, [], s[q].parts, hops - spent - 1, hops);
    } else {
      FromParent(s, c, q, hops, hops - spent);
    }
  }

  // The same text, walked from the link's directory and from the link's name.
  lemma FromParent(s: Store, c: Path, q: Path, hops: nat, left: nat)
    requires IsLinkAt(s, q) && Walk(s, [], Parent(c), hops) == Found(Parent(q))
    requires left == hops - Cost(s, [], Parent(c), hops) && left > 0
    requires Walk(s, Parent(q), s[q].parts, left - 1).Found?
    ensures Walk(s, [], Parent(c) + s[q].parts, hops).Found?
    ensures Cost(s, [], Parent(c) + s[q].parts, hops) ==
      Cost(s, [], Parent(c), hops) + Cost(s, Parent(q), s[q].parts, left - 1)
  {
    WalkMore(s, Parent(q), s[q].parts, left - 1, left);
    WalkThen(s, [], Parent(c), s[q].parts, hops, left);
    CostThen(s, [], Parent(c), s[q].parts, hops, left);
  }

  lemma LinkStepCost(s: Store, d: Path, n: Name, left: nat)
    requires IsDirAt(s, d) && n != UP && IsLinkAt(s, d + [n]) && Walk(s, d, [n], left).Found?
    ensures left > 0 && Walk(s, d, [n], left) == Walk(s, LinkBase(s, d + [n]), s[d + [n]].parts, left - 1)
    ensures Cost(s, d, [n], left) == 1 + Cost(s, LinkBase(s, d + [n]), s[d + [n]].parts, left - 1)
  {
    assert [n][1..] == [] && s[d + [n]].parts + [] == s[d + [n]].parts;
  }

  // So the trail from a name that resolves is short.
  lemma {:induction false} ResolvingTrailEnds(s: Store, names: seq<Path>, links: seq<Path>, hops: nat, k: nat)
    requires WellFormed(s) && IsTrail(s, names, links, hops) && k < |names| && Walk(s, [], names[k], hops).Found?
    ensures |names| - k <= Cost(s, [], names[k], hops)
    decreases |names| - k
  {
    assert TrailStep(s, names, links, hops, k);
    ResolvingStep(s, names[k], links[k], hops);
    if k + 1 < |names| {
      ResolvingTrailEnds(s, names, links, hops, k + 1);
    }
  }

  // On a long trail no text is empty.
  lemma LongTrailHasTexts(s: Store, names: seq<Path>, links: seq<Path>, hops: nat, k: nat)
    requires WellFormed(s) && IsTrail(s, names, links, hops) && k + 1 + hops < |names|
    ensures HasText(s, links[k])
  {
    assert TrailStep(s, names, links, hops, k);
    if s[links[k]].parts == [] {
      LinkName(s, names[k], links[k], hops);
      assert Parent(names[k]) + [] == Parent(names[k]);
      assert Walk(s, [], [], hops).Found?;
      ResolvingTrailEnds(s, names, links, hops, k + 1);
    }
  }

  // Relative texts never make names shorter.
  lemma NameGrows(s: Store, c: Path, q: Path, hops: nat)
    requires WellFormed(s) && LeadsTo(s, c, q, hops) && HasText(s, q) && !IsAbsoluteLink(s, q)
    ensures |After(s, c, q)| >= |c| && (|After(s, c, q)| == |c| ==> IsSibling(s, q))
  {
    LinkName(s, c, q, hops);
  }

  lemma TrailGrows(s: Store, names: seq<Path>, links: seq<Path>, hops: nat, k: nat)
    requires WellFormed(s) && IsTrail(s, names, links, hops) && k + 1 < |names|
    requires HasText(s, links[k]) && !IsAbsoluteLink(s, links[k])
    ensures |names[k + 1]| >= |names[k]| && (|names[k + 1]| == |names[k]| ==> IsSibling(s, links[k]))
  {
    assert TrailStep(s, names, links, hops, k);
    NameGrows(s, names[k], links[k], hops);
  }

  lemma {:induction false} NamesGrow(s: Store, names: seq<Path>, links: seq<Path>, hops: nat, a: nat, b: nat)
    requires WellFormed(s) && IsTrail(s, names, links, hops) && a < b < |names|
    requires forall k | a <= k < b :: HasText(s, links[k]) && !IsAbsoluteLink(s, links[k])
    ensures |names[a]| <= |names[b]|
    ensures |names[a]| == |names[b]| ==> IsSibling(s, links[a])
    decreases b - a
  {
    TrailGrows(s, names, links, hops, a);
    if a + 1 < b {
      NamesGrow(s, names, links, hops, a + 1, b);
    }
  }

  // Round after round, a loop meets its links.
  lemma {:induction false} Rounds(s: Store, names: seq<Path>, links: seq<Path>, hops: nat, i: nat, j: nat, k: nat)
      returns (t: nat)
    requires WellFormed(s) && IsTrail(s, names, links, hops) && i < j <= k < |links| && links[i] == links[j]
    requires forall l | 0 <= l <= k :: HasText(s, links[l])
    ensures i <= t < j && links[t] == links[k]
    decreases k
  {
    LinksRepeat(s, names, links, hops, i, j, k - j);
    var l := i + (k - j);
    assert links[l] == links[k];
    if l < j {
      t := l;
    } else {
      t := Rounds(s, names, links, hops, i, j, l);
    }
  }

  // The links of a loop come again and again.
  lemma LaterRound(s: Store, names: seq<Path>, links: seq<Path>, hops: nat, i: nat, j: nat, a: nat, t: nat)
      returns (k: nat)
    requires WellFormed(s) && IsTrail(s, names, links, hops) && i < j && i <= t < |links| && a + j < |links|
    requires links[i] == links[j]
    requires forall l | 0 <= l < |links| :: HasText(s, links[l])
    ensures a <= k < |links| && t <= k && links[k] == links[t] && (k <= a + j || k == t)
    decreases a - t
  {
    k := t;
    if t < a {
      LinksRepeat(s, names, links, hops, i, j, t - i);
      k := LaterRound(s, names, links, hops, i, j, a, j + (t - i));
    }
  }

  // If names repeat, a loop without absolute links has texts of one component.
  lemma RepeatedNamesAreSiblings(s: Store, names: seq<Path>, links: seq<Path>, hops: nat, i: nat, j: nat, a: nat,
                                 n: nat,
                                 t: nat)
    requires WellFormed(s) && IsTrail(s, names, links, hops) && i <= t < j && a < n && a + j + n < |links|
    requires links[i] == links[j]
    requires forall l | 0 <= l < |links| :: HasText(s, links[l])
    requires forall l | i <= l < j :: !IsAbsoluteLink(s, links[l])
    requires KeepRepeating(names, a, n)
    ensures IsSibling(s, links[t])
  {
    var k := LaterRound(s, names, links, hops, i, j, a, t);
    var e := k + (n - a);
    forall l | k <= l < e
      ensures !IsAbsoluteLink(s, links[l])
    {
      if l >= j {
        var u := Rounds(s, names, links, hops, i, j, l);
        assert !IsAbsoluteLink(s, links[u]);
      }
    }
    NamesGrow(s, names, links, hops, k, e);
  }

  /* ---- The trail of a chain ---- */

  // The link that the k-th name leads to.
  function LinkOf(s: Store, p: Path, hops: nat, k: nat): Path {
    var l := Locate(s, Chain(s, p, hops, k), hops);
    if l.Found? then l.at else []
  }

  ghost predicate LinksBefore(s: Store, root: Path, p: Path, hops: nat, n: nat) {
    forall k | 0 <= k < n :: InRootLink(s, root, p, hops, k)
  }

  ghost function NamesOf(s: Store, p: Path, hops: nat, n: nat): seq<Path> {
    seq(n, k requires 0 <= k < n => Chain(s, p, hops, k))
  }

  ghost function LinksAlong(s: Store, p: Path, hops: nat, n: nat): seq<Path> {
    seq(n, k requires 0 <= k < n => LinkOf(s, p, hops, k))
  }

  lemma ChainIsTrail(s: Store, root: Path, p: Path, hops: nat, n: nat)
    requires LinksBefore(s, root, p, hops, n)
    ensures IsTrail(s, NamesOf(s, p, hops, n), LinksAlong(s, p, hops, n), hops)
  {
    forall k | 0 <= k < n
      ensures TrailStep(s, NamesOf(s, p, hops, n), LinksAlong(s, p, hops, n), hops, k)
    {
      ChainStep(s, root, p, hops, n, k);
    }
  }

  lemma ChainStep(s: Store, root: Path, p: Path, hops: nat, n: nat, k: nat)
    requires k < n && InRootLink(s, root, p, hops, k)
    ensures TrailStep(s, NamesOf(s, p, hops, n), LinksAlong(s, p, hops, n), hops, k)
  {
    ChainNext(s, p, hops, k);
  }

  lemma ChainNext(s: Store, p: Path, hops: nat, k: nat)
    requires IsSymlink(s, Chain(s, p, hops, k), hops)
    ensures LeadsTo(s, Chain(s, p, hops, k), LinkOf(s, p, hops, k), hops)
    ensures Chain(s, p, hops, k + 1) == After(s, Chain(s, p, hops, k), LinkOf(s, p, hops, k))
  {}

  /* ---- The exact condition ---- */

  // The links that the chain meets while it is inside the root.
  ghost function LinksMet(s: Store, root: Path, p: Path, hops: nat): set<Path> {
    set q | q in s && s[q].Link? && IsMet(s, root, p, hops, q)
  }

  ghost predicate IsMet(s: Store, root: Path, p: Path, hops: nat, q: Path) {
    exists k: nat :: MeetsLink(s, root, p, hops, q, k)
  }

  ghost predicate MeetsLink(s: Store, root: Path, p: Path, hops: nat, q: Path, k: nat) {
    LinksBefore(s, root, p, hops, k + 1) && LinkOf(s, p, hops, k) == q
  }

  lemma LinkIsMet(s: Store, root: Path, p: Path, hops: nat, k: nat)
    requires LinksBefore(s, root, p, hops, k + 1)
    ensures LinkOf(s, p, hops, k) in LinksMet(s, root, p, hops)
  {
    assert InRootLink(s, root, p, hops, k);
    ChainNext(s, p, hops, k);
    assert MeetsLink(s, root, p, hops, LinkOf(s, p, hops, k), k);
  }

  ghost predicate AllIn(links: seq<Path>, met: set<Path>) {
    forall k | 0 <= k < |links| :: links[k] in met
  }

  lemma AllAreMet(s: Store, root: Path, p: Path, hops: nat, n: nat)
    requires LinksBefore(s, root, p, hops, n)
    ensures AllIn(LinksAlong(s, p, hops, n), LinksMet(s, root, p, hops))
  {
    forall k | 0 <= k < n
      ensures LinkOf(s, p, hops, k) in LinksMet(s, root, p, hops)
    {
      LinkIsMet(s, root, p, hops, k);
    }
  }

  // The chain stays on links in the root for as long as it takes to get round
  // every loop twice, and on a loop that it meets some text is absolute, or
  // all texts are one component.
  ghost predicate LoopIsSeen(s: Store, root: Path, p: Path, hops: nat) {
    IsSeenWithin(s, root, p, hops, |LinksMet(s, root, p, hops)|)
  }

  ghost predicate IsSeenWithin(s: Store, root: Path, p: Path, hops: nat, n: nat) {
    LinksBefore(s, root, p, hops, 2 * n + 1) && HasSeenLoop(s, LinksAlong(s, p, hops, 2 * n + 1), n)
  }

  ghost predicate HasSeenLoop(s: Store, links: seq<Path>, n: nat) {
    exists i, j | 0 <= i < j <= n && j < |links| :: IsSeenLoop(s, links, i, j)
  }

  ghost predicate IsSeenLoop(s: Store, links: seq<Path>, i: nat, j: nat)
    requires i < j < |links|
  {
    && links[i] == links[j] && (forall k | i <= k < j :: HasText(s, links[k]))
    && ((exists k | i <= k < j :: IsAbsoluteLink(s, links[k])) || (forall k | i <= k < j :: IsSibling(s, links[k])))
  }

  // On a seen loop a name comes twice.
  lemma SeenLoopRepeatsName(s: Store, names: seq<Path>, links: seq<Path>, hops: nat, i: nat, j: nat)
      returns (a: nat, b: nat)
    requires WellFormed(s) && IsTrail(s, names, links, hops) && i < j && 2 * j < |links| && IsSeenLoop(s, links, i, j)
    ensures a < b < |names| && names[a] == names[b]
  {
    if k :| i <= k < j && IsAbsoluteLink(s, links[k]) {
      AbsoluteLoopIsSeen(s, names, links, hops, i, j, k);
      a, b := k + 1, k + (j - i) + 1;
    } else {
      SiblingLoopIsSeen(s, names, links, hops, i, j);
      a, b := i, j;
    }
  }

  ghost predicate ShortNames(s: Store, p: Path, hops: nat, n: nat) {
    forall k: nat | k <= n :: IsShort(s, p, hops, k)
  }

  predicate IsShort(s: Store, p: Path, hops: nat, k: nat) {
    !TooLong(Chain(s, p, hops, k))
  }

  // The first name that comes again makes the count answer "circular".
  lemma RepeatIsCircular(s: Store, root: Path, p: Path, hops: nat, d: Depth, a: nat, b: nat)
    requires IsDepth(s, root, p, hops, d) && LinksBefore(s, root, p, hops, b + 1)
    requires a < b && Chain(s, p, hops, a) == Chain(s, p, hops, b)
    requires ShortNames(s, p, hops, b)
    ensures d.Circular?
  {
    assert Revisits(s, p, hops, b);
    var k := StopIndex(s, root, p, hops, d);
    assert k > b ==> Follows(s, root, p, hops, b);
    assert InRootLink(s, root, p, hops, k) && IsShort(s, p, hops, k);
  }

  /* ---- How long the names can get ---- */

  lemma {:induction false} BytesJoin(a: Path, b: Path)
    ensures NameBytes(a + b) == NameBytes(a) + NameBytes(b)
  {
    if b == [] {
      assert a + b == a;
    } else {
      ParentOfJoin(a, b);
      BytesJoin(a, Parent(b));
    }
  }

  // The next `n` names are short enough for the kernel: no text of a link that
  // the chain meets is longer than `bytes`.
  ghost predicate HasRoom(s: Store, root: Path, p: Path, hops: nat, n: nat, bytes: nat) {
    && TextsWithin(s, LinksMet(s, root, p, hops), bytes)
    && NameBytes(p) + n * bytes < PATH_MAX
  }

  ghost predicate TextsWithin(s: Store, links: set<Path>, bytes: nat) {
    forall q | q in links && q in s && s[q].Link? :: NameBytes(s[q].parts) <= bytes
  }

  // The k-th name is at most `bytes` longer than the one before.
  ghost predicate GrowsBy(names: nat -> Path, bytes: nat, k: nat)
    requires k > 0
  {
    NameBytes(names(k)) <= NameBytes(names(k - 1)) + bytes
  }

  lemma {:induction false} GrownBytes(names: nat -> Path, bytes: nat, n: nat)
    requires forall k | 0 < k <= n :: GrowsBy(names, bytes, k)
    ensures NameBytes(names(n)) <= NameBytes(names(0)) + n * bytes
  {
    if n > 0 {
      GrownBytes(names, bytes, n - 1);
      assert GrowsBy(names, bytes, n);
      OnceMore(n, bytes);
    }
  }

  lemma ChainBytes(s: Store, root: Path, p: Path, hops: nat, bytes: nat, n: nat)
    requires TextsWithin(s, LinksMet(s, root, p, hops), bytes) && LinksBefore(s, root, p, hops, n)
    ensures NameBytes(Chain(s, p, hops, n)) <= NameBytes(p) + n * bytes
  {
    var names := (k: nat) => Chain(s, p, hops, k);
    forall k | 0 < k <= n
      ensures GrowsBy(names, bytes, k)
    {
      StepBytes(s, root, p, hops, bytes, k - 1);
    }
    GrownBytes(names, bytes, n);
  }

  lemma StepBytes(s: Store, root: Path, p: Path, hops: nat, bytes: nat, k: nat)
    requires TextsWithin(s, LinksMet(s, root, p, hops), bytes) && LinksBefore(s, root, p, hops, k + 1)
    ensures NameBytes(Chain(s, p, hops, k + 1)) <= NameBytes(Chain(s, p, hops, k)) + bytes
  {
    var c, q := Chain(s, p, hops, k), LinkOf(s, p, hops, k);
    assert InRootLink(s, root, p, hops, k);
    LinkIsMet(s, root, p, hops, k);
    ChainNext(s, p, hops, k);
    BytesAfter(s, c, q, bytes);
  }

  lemma BytesAfter(s: Store, c: Path, q: Path, bytes: nat)
    requires IsLinkAt(s, q) && NameBytes(s[q].parts) <= bytes
    ensures NameBytes(After(s, c, q)) <= NameBytes(c) + bytes
  {
    BytesJoin(Parent(c), s[q].parts);
  }

  lemma OnceMore(k: nat, bytes: nat)
    requires k > 0
    ensures k * bytes == (k - 1) * bytes + bytes
  {}

  lemma AllStayShort(s: Store, root: Path, p: Path, hops: nat, bytes: nat, n: nat, b: nat)
    requires HasRoom(s, root, p, hops, n, bytes) && b <= n && LinksBefore(s, root, p, hops, b)
    ensures ShortNames(s, p, hops, b)
  {
    forall k: nat | k <= b
      ensures IsShort(s, p, hops, k)
    {
      ChainBytes(s, root, p, hops, bytes, k);
      TimesMore(k, n, bytes);
    }
  }

  lemma SeenIsCircular(s: Store, root: Path, p: Path, hops: nat, d: Depth, bytes: nat)
    requires WellFormed(s) && IsDepth(s, root, p, hops, d) && LoopIsSeen(s, root, p, hops)
    requires HasRoom(s, root, p, hops, 2 * |LinksMet(s, root, p, hops)|, bytes)
    ensures d.Circular?
  {
    SeenWithinIsCircular(s, root, p, hops, d, bytes, |LinksMet(s, root, p, hops)|);
  }

  lemma SeenWithinIsCircular(s: Store, root: Path, p: Path, hops: nat, d: Depth, bytes: nat, n: nat)
    requires WellFormed(s) && IsDepth(s, root, p, hops, d) && IsSeenWithin(s, root, p, hops, n)
    requires HasRoom(s, root, p, hops, 2 * n, bytes)
    ensures d.Circular?
  {
    var a, b := SeenRepeats(s, root, p, hops, n);
    RepeatedName(s, root, p, hops, d, bytes, 2 * n, a, b);
  }

  lemma SameName(s: Store, p: Path, hops: nat, n: nat, a: nat, b: nat)
    requires a < n && b < n && NamesOf(s, p, hops, n)[a] == NamesOf(s, p, hops, n)[b]
    ensures Chain(s, p, hops, a) == Chain(s, p, hops, b)
  {}

  lemma RepeatedName(s: Store, root: Path, p: Path, hops: nat, d: Depth, bytes: nat, n: nat, a: nat, b: nat)
    requires IsDepth(s, root, p, hops, d) && LinksBefore(s, root, p, hops, n + 1) && a < b <= n
    requires Chain(s, p, hops, a) == Chain(s, p, hops, b) && HasRoom(s, root, p, hops, n, bytes)
    ensures d.Circular?
  {
    AllStayShort(s, root, p, hops, bytes, n, b);
    RepeatIsCircular(s, root, p, hops, d, a, b);
  }

  lemma SeenRepeats(s: Store, root: Path, p: Path, hops: nat, n: nat) returns (a: nat, b: nat)
    requires WellFormed(s) && IsSeenWithin(s, root, p, hops, n)
    ensures a < b <= 2 * n && Chain(s, p, hops, a) == Chain(s, p, hops, b)
  {
    var m := 2 * n + 1;
    ChainIsTrail(s, root, p, hops, m);
    a, b := SeenRepeatsName(s, NamesOf(s, p, hops, m), LinksAlong(s, p, hops, m), hops, n);
    SameName(s, p, hops, m, a, b);
  }

  lemma SeenRepeatsName(s: Store, names: seq<Path>, links: seq<Path>, hops: nat, n: nat) returns (a: nat, b: nat)
    requires WellFormed(s) && IsTrail(s, names, links, hops) && |links| == 2 * n + 1 && HasSeenLoop(s, links, n)
    ensures a < b < |names| && names[a] == names[b]
  {
    var i, j :| 0 <= i < j <= n && j < |links| && IsSeenLoop(s, links, i, j);
    a, b := SeenLoopRepeatsName(s, names, links, hops, i, j);
  }

  lemma TimesMore(k: nat, n: nat, bytes: nat)
    requires k <= n
    ensures k * bytes <= n * bytes
  {}

  /* ---- A circular answer has a seen loop ---- */

  lemma {:induction false} ChainRepeats(s: Store, p: Path, hops: nat, a: nat, n: nat, t: nat)
    requires a <= n && Chain(s, p, hops, a) == Chain(s, p, hops, n)
    ensures Chain(s, p, hops, a + t) == Chain(s, p, hops, n + t)
  {
    if t > 0 {
      ChainRepeats(s, p, hops, a, n, t - 1);
    }
  }

  // `d` places after the l-th name it comes again.
  ghost predicate Returns(names: nat -> Path, d: nat, l: nat) {
    names(l + d) == names(l)
  }

  ghost predicate ReturnsFrom(names: nat -> Path, d: nat, a: nat) {
    forall l: nat | a <= l :: Returns(names, d, l)
  }

  // So every name is one of the first.
  lemma {:induction false} FoldedBack(names: nat -> Path, a: nat, n: nat, k: nat) returns (l: nat)
    requires a < n && ReturnsFrom(names, n - a, a)
    ensures l <= n && names(l) == names(k) && (k > 0 ==> l > 0)
  {
    if k <= n {
      l := k;
    } else {
      l := FoldedBack(names, a, n, k - (n - a));
      assert Returns(names, n - a, k - (n - a));
    }
  }

  lemma ChainFoldedBack(s: Store, p: Path, hops: nat, a: nat, n: nat, k: nat) returns (l: nat)
    requires a < n && Chain(s, p, hops, a) == Chain(s, p, hops, n)
    ensures l <= n && Chain(s, p, hops, l) == Chain(s, p, hops, k) && (k > 0 ==> l > 0)
  {
    var names, d := (k: nat) => Chain(s, p, hops, k), n - a;
    forall l: nat | a <= l
      ensures Returns(names, d, l)
    {
      ChainReturns(s, p, hops, a, n, l);
    }
    l := FoldedBack(names, a, n, k);
  }

  lemma RepeatsForever(s: Store, root: Path, p: Path, hops: nat, a: nat, n: nat, k: nat)
    requires a < n && Chain(s, p, hops, a) == Chain(s, p, hops, n) && LinksBefore(s, root, p, hops, n + 1)
    ensures InRootLink(s, root, p, hops, k)
  {
    if k > 0 {
      var l := ChainFoldedBack(s, p, hops, a, n, k);
      SameInRoot(s, root, p, hops, k, l);
    }
  }

  lemma SameInRoot(s: Store, root: Path, p: Path, hops: nat, k: nat, l: nat)
    requires k > 0 && l > 0 && Chain(s, p, hops, l) == Chain(s, p, hops, k) && InRootLink(s, root, p, hops, l)
    ensures InRootLink(s, root, p, hops, k)
  {}

  lemma CircularRepeats(s: Store, root: Path, p: Path, hops: nat, d: Depth) returns (a: nat, n: nat)
    requires IsDepth(s, root, p, hops, d) && d.Circular?
    ensures a < n && Chain(s, p, hops, a) == Chain(s, p, hops, n) && LinksBefore(s, root, p, hops, n + 1)
  {
    n := d.n - 1;
    a :| 0 <= a < n && Chain(s, p, hops, a) == Chain(s, p, hops, n);
    FollowedAreLinks(s, root, p, hops, n);
  }

  lemma FollowedAreLinks(s: Store, root: Path, p: Path, hops: nat, n: nat)
    requires Reaches(s, root, p, hops, n) && IsSymlink(s, Chain(s, p, hops, n), hops)
    ensures LinksBefore(s, root, p, hops, n + 1)
  {
    forall k | 0 <= k < n + 1
      ensures InRootLink(s, root, p, hops, k)
    {
      assert k < n ==> Follows(s, root, p, hops, k);
    }
  }

  // All texts that a chain without end meets.
  lemma EndlessTexts(s: Store, root: Path, p: Path, hops: nat, size: nat, k: nat)
    requires WellFormed(s) && LinksBefore(s, root, p, hops, size + hops + 1) && k < size
    ensures HasText(s, LinkOf(s, p, hops, k))
  {
    var n := size + hops + 1;
    ChainIsTrail(s, root, p, hops, n);
    LongTrailHasTexts(s, NamesOf(s, p, hops, n), LinksAlong(s, p, hops, n), hops, k);
  }

  ghost predicate HaveTexts(s: Store, links: seq<Path>) {
    forall k | 0 <= k < |links| :: HasText(s, links[k])
  }

  lemma EndlessTrail(s: Store, root: Path, p: Path, hops: nat, size: nat)
    requires WellFormed(s) && LinksBefore(s, root, p, hops, size + hops + 1)
    ensures IsTrail(s, NamesOf(s, p, hops, size), LinksAlong(s, p, hops, size), hops)
    ensures HaveTexts(s, LinksAlong(s, p, hops, size))
  {
    ChainIsTrail(s, root, p, hops, size);
    forall k | 0 <= k < size
      ensures HasText(s, LinksAlong(s, p, hops, size)[k])
    {
      EndlessTexts(s, root, p, hops, size, k);
    }
  }

  lemma FirstLinksMeet(met: set<Path>, links: seq<Path>) returns (i: nat, j: nat)
    requires |links| > |met| && AllIn(links, met)
    ensures i < j <= |met| && links[i] == links[j]
  {
    i, j := SomeMetTwice(met, links[..|met| + 1]);
  }

  lemma CircularIsSeen(s: Store, root: Path, p: Path, hops: nat, d: Depth)
    requires WellFormed(s) && IsDepth(s, root, p, hops, d) && d.Circular?
    ensures LoopIsSeen(s, root, p, hops)
  {
    var a, n := CircularRepeats(s, root, p, hops, d);
    var met := LinksMet(s, root, p, hops);
    var size := a + n + 2 * |met| + 1;
    LinksForever(s, root, p, hops, a, n, size + hops + 1);
    AllAreMet(s, root, p, hops, size);
    RepeatedChainIsSeen(s, root, p, hops, a, n, size, met);
  }

  lemma LinksForever(s: Store, root: Path, p: Path, hops: nat, a: nat, n: nat, size: nat)
    requires a < n && Chain(s, p, hops, a) == Chain(s, p, hops, n) && LinksBefore(s, root, p, hops, n + 1)
    ensures LinksBefore(s, root, p, hops, size)
  {
    forall k | 0 <= k < size
      ensures InRootLink(s, root, p, hops, k)
    {
      RepeatsForever(s, root, p, hops, a, n, k);
    }
  }

  lemma RepeatedChainIsSeen(s: Store, root: Path, p: Path, hops: nat, a: nat, n: nat, size: nat, met: set<Path>)
    requires WellFormed(s) && size == a + n + 2 * |met| + 1 && AllIn(LinksAlong(s, p, hops, size), met)
    requires a < n && Chain(s, p, hops, a) == Chain(s, p, hops, n) && LinksBefore(s, root, p, hops, size + hops + 1)
    ensures IsSeenWithin(s, root, p, hops, |met|)
  {
    var names, links := LongTrail(s, root, p, hops, a, n, size);
    var front := LinksAlong(s, p, hops, 2 * |met| + 1);
    SameFront(s, p, hops, |front|, size);
    FrontHasSeenLoop(s, names, links, front, met, hops, a, n);
  }

  lemma LongTrail(s: Store, root: Path, p: Path, hops: nat, a: nat, n: nat, size: nat)
      returns (names: seq<Path>, links: seq<Path>)
    requires WellFormed(s) && LinksBefore(s, root, p, hops, size + hops + 1)
    requires a < n && Chain(s, p, hops, a) == Chain(s, p, hops, n)
    ensures IsTrail(s, names, links, hops) && KeepRepeating(names, a, n) && HaveTexts(s, links)
    ensures links == LinksAlong(s, p, hops, size)
  {
    names, links := NamesOf(s, p, hops, size), LinksAlong(s, p, hops, size);
    EndlessTrail(s, root, p, hops, size);
    NamesRepeat(s, p, hops, a, n, size);
  }

  lemma SameFront(s: Store, p: Path, hops: nat, m: nat, n: nat)
    requires m <= n
    ensures LinksAlong(s, p, hops, m) <= LinksAlong(s, p, hops, n)
  {}

  // Names that come back keep coming.
  ghost predicate KeepRepeating(names: seq<Path>, a: nat, n: nat) {
    a < n && forall l, m | a <= l && m == l + (n - a) && m < |names| :: names[l] == names[m]
  }

  lemma NamesRepeat(s: Store, p: Path, hops: nat, a: nat, n: nat, size: nat)
    requires a < n && Chain(s, p, hops, a) == Chain(s, p, hops, n)
    ensures KeepRepeating(NamesOf(s, p, hops, size), a, n)
  {
    forall l, m | a <= l && m == l + (n - a) && m < size
      ensures NamesOf(s, p, hops, size)[l] == NamesOf(s, p, hops, size)[m]
    {
      ChainReturns(s, p, hops, a, n, l);
      NamesAgree(s, p, hops, size, l, m);
    }
  }

  lemma ChainReturns(s: Store, p: Path, hops: nat, a: nat, n: nat, l: nat)
    requires a < n && Chain(s, p, hops, a) == Chain(s, p, hops, n) && a <= l
    ensures Chain(s, p, hops, l + (n - a)) == Chain(s, p, hops, l)
  {
    ChainRepeats(s, p, hops, a, n, l - a);
    assert n + (l - a) == l + (n - a) && a + (l - a) == l;
  }

  lemma NamesAgree(s: Store, p: Path, hops: nat, size: nat, l: nat, m: nat)
    requires l < size && m < size && Chain(s, p, hops, l) == Chain(s, p, hops, m)
    ensures NamesOf(s, p, hops, size)[l] == NamesOf(s, p, hops, size)[m]
  {}

  lemma SeenOnTrail(s: Store, names: seq<Path>, links: seq<Path>, met: set<Path>, hops: nat, a: nat, n: nat)
      returns (i: nat, j: nat)
    requires WellFormed(s) && IsTrail(s, names, links, hops) && a < n && a + n + 2 * |met| < |links|
    requires HaveTexts(s, links) && AllIn(links, met)
    requires KeepRepeating(names, a, n)
    ensures i < j <= |met| && j < |links| && IsSeenLoop(s, links, i, j)
  {
    i, j := FirstLinksMeet(met, links);
    RepeatedIsSeen(s, names, links, hops, i, j, a, n);
  }

  lemma FrontHasSeenLoop(s: Store, names: seq<Path>, links: seq<Path>, front: seq<Path>, met: set<Path>, hops: nat,
                         a: nat, n: nat)
    requires WellFormed(s) && IsTrail(s, names, links, hops) && a < n && a + n + 2 * |met| < |links|
    requires HaveTexts(s, links) && AllIn(links, met)
    requires KeepRepeating(names, a, n) && front <= links && |front| > |met|
    ensures HasSeenLoop(s, front, |met|)
  {
    var i, j := SeenOnTrail(s, names, links, met, hops, a, n);
    SeenInFront(s, links, front, i, j);
  }

  lemma RepeatedIsSeen(s: Store, names: seq<Path>, links: seq<Path>, hops: nat, i: nat, j: nat, a: nat, n: nat)
    requires WellFormed(s) && IsTrail(s, names, links, hops) && i < j && a < n && a + j + n < |links|
    requires links[i] == links[j]
    requires forall l | 0 <= l < |links| :: HasText(s, links[l])
    requires KeepRepeating(names, a, n)
    ensures IsSeenLoop(s, links, i, j)
  {
    if forall l | i <= l < j :: !IsAbsoluteLink(s, links[l]) {
      forall t | i <= t < j
        ensures IsSibling(s, links[t])
      {
        RepeatedNamesAreSiblings(s, names, links, hops, i, j, a, n, t);
      }
    }
  }

  lemma SeenInFront(s: Store, links: seq<Path>, front: seq<Path>, i: nat, j: nat)
    requires i < j < |front| && front <= links && IsSeenLoop(s, links, i, j)
    ensures IsSeenLoop(s, front, i, j)
  {
    assert forall k | i <= k < j :: front[k] == links[k];
  }

  // The count answers "circular" exactly for the loops that are seen, if the
  // links on the chain leave room.
  lemma CircularExactly(s: Store, root: Path, p: Path, hops: nat, d: Depth, bytes: nat)
    requires WellFormed(s) && IsDepth(s, root, p, hops, d)
    requires HasRoom(s, root, p, hops, 2 * |LinksMet(s, root, p, hops)|, bytes)
    ensures d.Circular? <==> LoopIsSeen(s, root, p, hops)
  {
    if d.Circular? {
      CircularIsSeen(s, root, p, hops, d);
    }
    if LoopIsSeen(s, root, p, hops) {
      SeenIsCircular(s, root, p, hops, d, bytes);
    }
  }

  // On every other loop that keeps to links in the root, the names grow until
  // one is too long.
  lemma UnseenIsTooLong(s: Store, root: Path, p: Path, hops: nat, d: Depth)
    requires WellFormed(s) && IsDepth(s, root, p, hops, d) && !LoopIsSeen(s, root, p, hops)
    requires forall k: nat :: InRootLink(s, root, p, hops, k)
    ensures d.NameTooLong?
  {
    if d.Circular? {
      CircularIsSeen(s, root, p, hops, d);
    }
    forall n: nat
      ensures !IsDepth(s, root, p, hops, Hops(n))
    {
      assert InRootLink(s, root, p, hops, n);
    }
  }

  // Each link names a place without "..", reached through no other link.
  ghost predicate CanonicalLinks(s: Store) {
    forall q | q in s && s[q].Link? :: Clear(s, LinkBase(s, q) + s[q].parts)
  }

  lemma {:induction false} CanonicalChain(s: Store, p: Path, hops: nat, k: nat)
    requires WellFormed(s) && CanonicalLinks(s) && Clear(s, p)
    ensures Clear(s, Chain(s, p, hops, k))
    ensures IsSymlink(s, Chain(s, p, hops, k), hops) ==>
      Locate(s, Chain(s, p, hops, k), hops) == Found(Chain(s, p, hops, k))
  {
    if k > 0 {
      CanonicalChain(s, p, hops, k - 1);
      CanonicalNext(s, Chain(s, p, hops, k - 1), hops);
    }
    ClearLookups(s, Chain(s, p, hops, k), hops);
  }

  lemma CanonicalNext(s: Store, c: Path, hops: nat)
    requires WellFormed(s) && CanonicalLinks(s) && Clear(s, c)
    ensures IsSymlink(s, c, hops) ==> Clear(s, NextName(s, c, hops))
  {
    ClearLookups(s, c, hops);
    if IsSymlink(s, c, hops) {
      assert NextName(s, c, hops) == LinkBase(s, c) + s[c].parts;
    }
  }

  // With canonical links of ordinary length the count answers "circular"
  // exactly for link loops.
  lemma CanonicalLoopsAreSeen(s: Store, root: Path, p: Path, hops: nat, d: Depth)
    requires WellFormed(s) && CanonicalLinks(s) && Clear(s, p) && IsDepth(s, root, p, hops, d)
    requires forall q | q in s && s[q].Link? :: !TooLong(q)
    ensures d.Circular? <==> LinkRevisited(s, root, p, hops)
  {
    if d.Circular? {
      var i, n := CircularRepeats(s, root, p, hops, d);
      assert forall k | 0 <= k <= n :: InRootLink(s, root, p, hops, k);
      assert MeetsAgain(s, root, p, hops, i, n);
    } else {
      forall i: nat, j: nat | i < j
        ensures !MeetsAgain(s, root, p, hops, i, j)
      {
        OthersMeetNothing(s, root, p, hops, d, i, j);
      }
    }
  }

  lemma OthersMeetNothing(s: Store, root: Path, p: Path, hops: nat, d: Depth, i: nat, j: nat)
    requires WellFormed(s) && CanonicalLinks(s) && Clear(s, p) && i < j
    requires IsDepth(s, root, p, hops, d) && !d.Circular? && forall q | q in s && s[q].Link? :: !TooLong(q)
    ensures !MeetsAgain(s, root, p, hops, i, j)
  {
    var n := StopIndex(s, root, p, hops, d);
    CanonicalChain(s, p, hops, n);
    if n <= j {
      assert !InRootLink(s, root, p, hops, n);
    } else {
      CanonicalChain(s, p, hops, i);
      CanonicalChain(s, p, hops, j);
      assert Follows(s, root, p, hops, i) && Follows(s, root, p, hops, j);
    }
  }

  // /a/l -> ../a/l is a loop of one link.
  ghost const SELF_LOOP: Store := map[[] := Dir, ["a"] := Dir, ["a", "l"] := Link(false, [UP, "a", "l"])]

  // What matters about it.
  ghost predicate IsSelfLoop(s: Store) {
    && IsDirAt(s, []) && IsDirAt(s, ["a"])
    && IsLinkAt(s, ["a"] + ["l"]) && s[["a"] + ["l"]] == Link(false, [UP, "a", "l"])
  }

  lemma SelfLoopIsThere()
    ensures WellFormed(SELF_LOOP) && IsSelfLoop(SELF_LOOP)
  {
    assert ["a"] + ["l"] == ["a", "l"] && Parent(["a", "l"]) == ["a"] && Parent(["a"]) == [];
  }

  ghost function Turns(k: nat): Path {
    if k == 0 then [] else Turns(k - 1) + [UP, "a"]
  }

  lemma {:induction false} WalkTurns(s: Store, k: nat, hops: nat)
    requires IsSelfLoop(s)
    ensures Walk(s, [], ["a"] + Turns(k), hops) == Found(["a"])
    ensures Cost(s, [], ["a"] + Turns(k), hops) == 0
    ensures |Turns(k)| == 2 * k
  {
    assert ["a"][1..] == [] && [UP, "a"][1..] == ["a"] && Parent(["a"]) == [] && [] + ["a"] == ["a"];
    if k == 0 {
      assert ["a"] + Turns(0) == ["a"];
    } else {
      WalkTurns(s, k - 1, hops);
      var a := ["a"] + Turns(k - 1);
      assert a + [UP, "a"] == ["a"] + Turns(k);
      WalkThen(s, [], a, [UP, "a"], hops, hops);
      CostThen(s, [], a, [UP, "a"], hops, hops);
      assert Walk(s, [], ["a"], hops) == Found(["a"]);
    }
  }

  lemma SpiralLocate(s: Store, k: nat, hops: nat)
    requires IsSelfLoop(s)
    ensures Locate(s, ["a"] + Turns(k) + ["l"], hops) == Found(["a"] + ["l"])
  {
    WalkTurns(s, k, hops);
    ParentOfChild(["a"] + Turns(k), "l");
  }

  lemma SpiralNext(s: Store, k: nat, hops: nat)
    requires IsSelfLoop(s)
    ensures var c := ["a"] + Turns(k) + ["l"];
      IsSymlink(s, c, hops) && NextName(s, c, hops) == ["a"] + Turns(k + 1) + ["l"]
  {
    var b := ["a"] + Turns(k);
    SpiralLocate(s, k, hops);
    ParentOfChild(b, "l");
    assert b + [UP, "a", "l"] == ["a"] + Turns(k + 1) + ["l"];
  }

  lemma {:induction false} SpiralChain(s: Store, k: nat, hops: nat)
    requires IsSelfLoop(s)
    ensures Chain(s, ["a", "l"], hops, k) == ["a"] + Turns(k) + ["l"]
  {
    if k == 0 {
      assert ["a"] + Turns(0) + ["l"] == ["a", "l"];
    } else {
      SpiralChain(s, k - 1, hops);
      SpiralNext(s, k - 1, hops);
      NextInChain(s, ["a", "l"], hops, k - 1, ["a"] + Turns(k - 1) + ["l"]);
    }
  }

  lemma NextInChain(s: Store, p: Path, hops: nat, k: nat, c: Path)
    requires Chain(s, p, hops, k) == c && IsSymlink(s, c, hops)
    ensures Chain(s, p, hops, k + 1) == NextName(s, c, hops)
  {}

  // On that loop no revisit is ever seen: each name is longer than the last,
  // and the count ends with ENAMETOOLONG instead of "circular".
  lemma LoopThroughDotDotIsMissed(hops: nat, d: Depth)
    requires IsDepth(SELF_LOOP, [], ["a", "l"], hops, d)
    ensures LinkRevisited(SELF_LOOP, [], ["a", "l"], hops)
    ensures d == NameTooLong
  {
    SelfLoopIsThere();
    SelfLoopNeverEnds(SELF_LOOP, hops);
    SelfLoopNeverRepeats(SELF_LOOP, hops);
    NotSeenUnlessRepeated(SELF_LOOP, [], ["a", "l"], hops);
    UnseenIsTooLong(SELF_LOOP, [], ["a", "l"], hops, d);
  }

  lemma SelfLoopNeverEnds(s: Store, hops: nat)
    requires IsSelfLoop(s)
    ensures forall k: nat :: InRootLink(s, [], ["a", "l"], hops, k)
    ensures LinkRevisited(s, [], ["a", "l"], hops)
  {
    forall k: nat
      ensures InRootLink(s, [], ["a", "l"], hops, k)
      ensures Locate(s, Chain(s, ["a", "l"], hops, k), hops) == Found(["a"] + ["l"])
    {
      SpiralChain(s, k, hops);
      SpiralLocate(s, k, hops);
      assert IsSymlink(s, Chain(s, ["a", "l"], hops, k), hops);
    }
    assert MeetsAgain(s, [], ["a", "l"], hops, 0, 1);
  }

  ghost predicate NeverRepeats(s: Store, p: Path, hops: nat) {
    forall a: nat, b: nat | a < b :: NamesDiffer(s, p, hops, a, b)
  }

  ghost predicate NamesDiffer(s: Store, p: Path, hops: nat, a: nat, b: nat) {
    Chain(s, p, hops, a) != Chain(s, p, hops, b)
  }

  lemma SeenChainRepeats(s: Store, root: Path, p: Path, hops: nat) returns (a: nat, b: nat)
    requires WellFormed(s) && LoopIsSeen(s, root, p, hops)
    ensures a < b && !NamesDiffer(s, p, hops, a, b)
  {
    var n := |LinksMet(s, root, p, hops)|;
    a, b := SeenRepeats(s, root, p, hops, n);
  }

  lemma NotSeenUnlessRepeated(s: Store, root: Path, p: Path, hops: nat)
    requires WellFormed(s) && NeverRepeats(s, p, hops)
    ensures !LoopIsSeen(s, root, p, hops)
  {
    if LoopIsSeen(s, root, p, hops) {
      var a, b := SeenChainRepeats(s, root, p, hops);
    }
  }

  lemma SpiralGrows(s: Store, k: nat, hops: nat)
    requires IsSelfLoop(s)
    ensures |Chain(s, ["a", "l"], hops, k)| == 2 * k + 2
  {
    SpiralChain(s, k, hops);
    WalkTurns(s, k, hops);
  }

  lemma SelfLoopNeverRepeats(s: Store, hops: nat)
    requires IsSelfLoop(s)
    ensures NeverRepeats(s, ["a", "l"], hops)
  {
    forall a: nat, b: nat | a < b
      ensures NamesDiffer(s, ["a", "l"], hops, a, b)
    {
      SpiralGrows(s, a, hops);
      SpiralGrows(s, b, hops);
    }
  }
}
