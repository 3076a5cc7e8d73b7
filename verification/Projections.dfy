// Declared symlink projections: many per-profile plugin directories that are
// aliases of the one physical plugin directory.
module Projections {
  import opened Paths
  import opened FileStore
  import opened Volumes
  import opened LinkDepth

  datatype Projection = Projection(profile: string, logical: Path, target: Path)

  type Contract = seq<Projection>

  const TARGET: Path := ["plugins", "aota-tools"]

  function LogicalOf(runtimeProfile: string): Path {
    ["profiles", runtimeProfile] + TARGET
  }

  // What `load_projection_contract` accepts.
  predicate WellFormedItem(p: Projection) {
    && p.target == TARGET
    && |p.logical| == 4 && p.logical[1] != UP && p.logical == LogicalOf(p.logical[1])
  }

  lemma ItemIsPlain(p: Projection)
    requires WellFormedItem(p)
    ensures p.logical != [] && p.target != [] && Plain(p.logical) && Plain(p.target)
  {
    assert p.logical == ["profiles", p.logical[1], "plugins", "aota-tools"];
  }

  ghost predicate WellFormedContract(c: Contract) {
    && (forall i | 0 <= i < |c| :: WellFormedItem(c[i]))
    && (forall i, j | 0 <= i < j < |c| :: c[i].logical != c[j].logical)
  }

  /* ---- One projection ---- */

  // The alias is legal: it and its target are physical names under a physical
  // root, the link resolves to the target, and it does so in a single hop.
  ghost predicate Holds(s: Store, root: Path, p: Projection, hops: nat) {
    var logical, expected := root + p.logical, root + p.target;
    && IsDirAt(s, root)
    && IsLinkAt(s, logical)
    && IsDirAt(s, expected)
    && Walk(s, [], logical, hops) == Found(expected)
    && OneHop(s, root, logical, hops)
  }

  ghost predicate OneHop(s: Store, root: Path, logical: Path, hops: nat)
  {
    && !TooLong(logical) && IsSymlink(s, logical, hops)
    && var next := NextName(s, logical, hops);
      !Within(next, root) || (!TooLong(next) && !IsSymlink(s, next, hops))
  }

  lemma OneHopIsDepthOne(s: Store, root: Path, logical: Path, hops: nat)
    requires IsSymlink(s, logical, hops)
    ensures IsDepth(s, root, logical, hops, Hops(1)) <==> OneHop(s, root, logical, hops)
  {
    assert Chain(s, logical, hops, 0) == logical;
    assert Chain(s, logical, hops, 1) == NextName(s, logical, hops);
    assert !Revisits(s, logical, hops, 0);
    assert Follows(s, root, logical, hops, 0) <==> !TooLong(logical);
  }

  // `_parent_chain_has_symlink`
  method ParentChainHasSymlink(v: Volume, path: Path, root: Path) returns (r: bool)
    ensures r <==> !LinkFreeBelow(v.nodes, Parent(path), root, v.hops)
  {
    var current := Parent(path);
    ghost var start := current;
    while true
      invariant current <= start
      invariant forall k | |current| < k <= |start| :: !IsSymlink(v.nodes, start[..k], v.hops)
      invariant root <= start ==> root <= current
      decreases |current|
    {
      assert current == start[..|current|];
      if current == root {
        return false;
      }
      if IsSymlink(v.nodes, current, v.hops) {
        return true;
      }
      if !Within(current, root) {
        return true;
      }
      current := Parent(current);
    }
  }

  // `p` lies under `root`, and no name from below `root` to `p` is a link.
  ghost predicate LinkFreeBelow(s: Store, p: Path, root: Path, hops: nat) {
    root <= p && forall k | |root| < k <= |p| :: !IsSymlink(s, p[..k], hops)
  }

  // One component below a physical name.
  lemma StepDown(s: Store, q: Path, n: Name, hops: nat)
    requires WellFormed(s) && q in s && !s[q].Link? && n != UP
    ensures Locate(s, q + [n], hops) == if IsDirAt(s, q) then Found(q + [n]) else Missing
    ensures IsSymlink(s, q + [n], hops) <==> IsLinkAt(s, q + [n])
    ensures Exists(s, q + [n], hops) ==> q + [n] in s && IsDirAt(s, q)
    ensures q + [n] in s && !s[q + [n]].Link? ==> Walk(s, [], q + [n], hops) == Found(q + [n])
  {
    ParentOfChild(q, n);
    PhysicalWalk(s, q, hops);
    if IsDirAt(s, q) {
      WalkBelow(s, q, n, hops);
    } else {
      PhysicalThen(s, q, [n], hops);
    }
  }

  // Under a physical ancestor, a name that resolves and runs through no link
  // is physical itself.
  lemma {:induction false} LinkFreeIsPhysical(s: Store, p: Path, root: Path, hops: nat)
    requires WellFormed(s) && Plain(p) && root in s && !s[root].Link?
    requires Exists(s, p, hops) && LinkFreeBelow(s, p, root, hops)
    ensures p in s && !s[p].Link?
    decreases |p|
  {
    if |root| == |p| {
      assert p == root;
    } else {
      var q := Parent(p);
      JoinParentLast(p);
      ExistsAbove(s, q, [Last(p)], hops);
      forall k | |root| < k <= |q|
        ensures !IsSymlink(s, q[..k], hops)
      {
        assert q[..k] == p[..k];
      }
      LinkFreeIsPhysical(s, q, root, hops);
      StepDown(s, q, Last(p), hops);
      assert p[..|p|] == p;
    }
  }

  lemma ExistsAbove(s: Store, p: Path, rest: Path, hops: nat)
    requires WellFormed(s) && Walk(s, [], p + rest, hops).Found?
    ensures Exists(s, p, hops)
  {
    WalkPrefix(s, [], p, rest, hops);
    WalkEnds(s, [], p, hops);
  }

  lemma PhysicalIsLinkFree(s: Store, p: Path, root: Path, hops: nat)
    requires WellFormed(s) && p in s && !s[p].Link? && root <= p
    ensures LinkFreeBelow(s, p, root, hops)
  {
    forall k | |root| < k <= |p|
      ensures !IsSymlink(s, p[..k], hops)
    {
      if k < |p| { PrefixesAreDirs(s, p, k); } else { assert p[..k] == p; }
      KeysAreClear(s, p[..k]);
      ClearLookups(s, p[..k], hops);
    }
  }

  datatype Verdict =
    | Valid
    | RuntimeRootIsSymlink
    | LogicalPathIsNotSymlink
    | LogicalParentContainsSymlink
    | NameTooLongRaised
    | CircularSymlink
    | SymlinkChain
    | DanglingOrCircular
    | TargetIsNotDirectory
    | TargetOutsideRuntimeRoot
    | TargetMismatch
    | TargetRootIsSymlink
    | TargetParentContainsSymlink

  // What a legal alias makes of each question the validator asks.
  lemma HoldsAnswers(s: Store, root: Path, p: Projection, hops: nat)
    requires WellFormed(s) && p.logical != [] && p.target != []
    requires Holds(s, root, p, hops)
    ensures !IsSymlink(s, root, hops) && IsSymlink(s, root + p.logical, hops)
    ensures Walk(s, [], root, hops) == Found(root)
    ensures LinkFreeBelow(s, Parent(root + p.logical), root, hops)
    ensures IsDepth(s, root, root + p.logical, hops, Hops(1))
    ensures IsDir(s, root + p.target, hops) && Walk(s, [], root + p.target, hops) == Found(root + p.target)
    ensures !IsSymlink(s, root + p.target, hops)
    ensures LinkFreeBelow(s, Parent(root + p.target), root, hops)
  {
    RealAnswers(s, root, hops);
    NameAnswers(s, root, root + p.logical, hops);
    NameAnswers(s, root, root + p.target, hops);
    RealAnswers(s, root + p.target, hops);
    OneHopIsDepthOne(s, root, root + p.logical, hops);
  }

  lemma RealAnswers(s: Store, p: Path, hops: nat)
    requires WellFormed(s) && IsDirAt(s, p)
    ensures !IsSymlink(s, p, hops) && Walk(s, [], p, hops) == Found(p)
  {
    PhysicalWalk(s, p, hops);
    if p != [] {
      KeysAreClear(s, p);
      ClearLookups(s, p, hops);
    }
  }

  lemma NameAnswers(s: Store, root: Path, p: Path, hops: nat)
    requires WellFormed(s) && p in s && root < p
    ensures IsSymlink(s, p, hops) <==> IsLinkAt(s, p)
    ensures LinkFreeBelow(s, Parent(p), root, hops)
  {
    KeysAreClear(s, p);
    ClearLookups(s, p, hops);
    PhysicalIsLinkFree(s, Parent(p), root, hops);
  }

  // The converse: the answers that let the validator say "valid".
  lemma AnswersHold(s: Store, root: Path, p: Projection, hops: nat, realRoot: Path)
    requires WellFormed(s) && Plain(root)
    requires p.logical != [] && p.target != [] && Plain(p.logical) && Plain(p.target)
    requires Walk(s, [], root, hops) == Found(realRoot)
    requires IsSymlink(s, root + p.logical, hops)
    requires LinkFreeBelow(s, Parent(root + p.logical), realRoot, hops)
    requires OneHop(s, root, root + p.logical, hops)
    requires Exists(s, root + p.target, hops) && !IsSymlink(s, root + p.target, hops)
    requires LinkFreeBelow(s, Parent(root + p.target), realRoot, hops)
    requires IsDir(s, root + p.logical, hops)
    requires Walk(s, [], root + p.target, hops) == Walk(s, [], root + p.logical, hops)
    ensures Holds(s, root, p, hops)
  {
    WalkEnds(s, [], root, hops);
    WalkEnds(s, [], root + p.logical, hops);
    PhysicalParent(s, root + p.logical, realRoot, hops);
    RealRootIsRoot(s, root, Parent(root + p.logical), realRoot, hops);
    PhysicalParent(s, root + p.target, realRoot, hops);
  }

  // If a name below `root` is physical, so is `root`.
  lemma RealRootIsRoot(s: Store, root: Path, below: Path, realRoot: Path, hops: nat)
    requires WellFormed(s) && root <= below && IsDirAt(s, below)
    requires Walk(s, [], root, hops) == Found(realRoot)
    ensures realRoot == root && IsDirAt(s, root)
  {
    if |root| < |below| {
      PrefixesAreDirs(s, below, |root|);
      assert root == below[..|root|];
    } else {
      assert root == below;
    }
    PhysicalWalk(s, root, hops);
  }

  // Below a chain without links, a name that is there is where it says it is.
  lemma PhysicalParent(s: Store, p: Path, root: Path, hops: nat)
    requires WellFormed(s) && Plain(p) && p != [] && root in s && !s[root].Link?
    requires LinkFreeBelow(s, Parent(p), root, hops)
    requires IsSymlink(s, p, hops) || Exists(s, p, hops)
    ensures p in s && IsDirAt(s, Parent(p))
    ensures !IsSymlink(s, p, hops) ==> Walk(s, [], p, hops) == Found(p)
    ensures IsSymlink(s, p, hops) <==> IsLinkAt(s, p)
  {
    var q := Parent(p);
    JoinParentLast(p);
    if Exists(s, p, hops) {
      ExistsAbove(s, q, [Last(p)], hops);
    } else {
      WalkEnds(s, [], q, hops);
    }
    LinkFreeIsPhysical(s, q, root, hops);
    StepDown(s, q, Last(p), hops);
  }

  // The answer, told from the store: which question is the first to fail.
  ghost predicate IsVerdict(s: Store, root: Path, p: Projection, hops: nat, r: Verdict) {
    var logical := root + p.logical;
    if IsSymlink(s, root, hops) then r == RuntimeRootIsSymlink
    else if !IsSymlink(s, logical, hops) then r == LogicalPathIsNotSymlink
    else if logical !in s then r == LogicalParentContainsSymlink
    else IsLinkVerdict(s, root, logical, root + p.target, hops, r)
  }

  ghost predicate IsLinkVerdict(s: Store, root: Path, logical: Path, expected: Path, hops: nat, r: Verdict) {
    if !IsDepth(s, root, logical, hops, Hops(1)) then IsLongChain(s, root, logical, hops, r)
    else match Walk(s, [], logical, hops)
      case Found(at) => IsTargetVerdict(s, root, at, expected, hops, r)
      case _ => r == DanglingOrCircular
  }

  // The chain of links is no single hop.
  ghost predicate IsLongChain(s: Store, root: Path, logical: Path, hops: nat, r: Verdict) {
    match r
    case NameTooLongRaised => IsDepth(s, root, logical, hops, NameTooLong)
    case CircularSymlink => exists m :: IsDepth(s, root, logical, hops, Circular(m))
    case SymlinkChain => exists n :: n > 1 && IsDepth(s, root, logical, hops, Hops(n))
    case _ => false
  }

  // The alias leads to `at`.
  ghost predicate IsTargetVerdict(s: Store, root: Path, at: Path, expected: Path, hops: nat, r: Verdict) {
    if !IsDirAt(s, at) then r == TargetIsNotDirectory
    else if !(root <= at) then r == TargetOutsideRuntimeRoot
    else if Walk(s, [], expected, hops) != Found(at) then r == TargetMismatch
    else if IsSymlink(s, expected, hops) then r == TargetRootIsSymlink
    else if expected !in s then r == TargetParentContainsSymlink
    else r == Valid
  }

  // There is only one.
  lemma VerdictUnique(s: Store, root: Path, p: Projection, hops: nat, q: Verdict, r: Verdict)
    requires IsVerdict(s, root, p, hops, q) && IsVerdict(s, root, p, hops, r)
    ensures q == r
  {
    var logical, expected := root + p.logical, root + p.target;
    if IsLinkVerdict(s, root, logical, expected, hops, q) && IsLinkVerdict(s, root, logical, expected, hops, r) {
      LinkVerdictUnique(s, root, logical, expected, hops, q, r);
    }
  }

  lemma LinkVerdictUnique(s: Store, root: Path, logical: Path, expected: Path, hops: nat, q: Verdict, r: Verdict)
    requires IsLinkVerdict(s, root, logical, expected, hops, q) && IsLinkVerdict(s, root, logical, expected, hops, r)
    ensures q == r
  {
    if !IsDepth(s, root, logical, hops, Hops(1)) {
      LongChainUnique(s, root, logical, hops, q, r);
    } else if Walk(s, [], logical, hops).Found? {
      TargetVerdictUnique(s, root, Walk(s, [], logical, hops).at, expected, hops, q, r);
    }
  }

  lemma TargetVerdictUnique(s: Store, root: Path, at: Path, expected: Path, hops: nat, q: Verdict, r: Verdict)
    requires IsTargetVerdict(s, root, at, expected, hops, q) && IsTargetVerdict(s, root, at, expected, hops, r)
    ensures q == r
  {}

  lemma LongChainUnique(s: Store, root: Path, logical: Path, hops: nat, q: Verdict, r: Verdict)
    requires IsLongChain(s, root, logical, hops, q) && IsLongChain(s, root, logical, hops, r)
    ensures q == r
  {
    var d, e := DepthOf(s, root, logical, hops, q), DepthOf(s, root, logical, hops, r);
    DepthUnique(s, root, logical, hops, d, e);
    OneOfThree(q, r, d);
  }

  lemma OneOfThree(q: Verdict, r: Verdict, d: Depth)
    requires q in {NameTooLongRaised, CircularSymlink, SymlinkChain}
    requires r in {NameTooLongRaised, CircularSymlink, SymlinkChain}
    requires (q.NameTooLongRaised? <==> d.NameTooLong?) && (r.NameTooLongRaised? <==> d.NameTooLong?)
    requires (q.CircularSymlink? <==> d.Circular?) && (r.CircularSymlink? <==> d.Circular?)
    ensures q == r
  {}

  ghost function DepthOf(s: Store, root: Path, logical: Path, hops: nat, r: Verdict): (d: Depth)
    requires IsLongChain(s, root, logical, hops, r)
    ensures IsDepth(s, root, logical, hops, d)
    ensures r.NameTooLongRaised? <==> d.NameTooLong?
    ensures r.CircularSymlink? <==> d.Circular?
  {
    match r
    case NameTooLongRaised => NameTooLong
    case CircularSymlink => var m :| IsDepth(s, root, logical, hops, Circular(m)); Circular(m)
    case SymlinkChain => var n :| n > 1 && IsDepth(s, root, logical, hops, Hops(n)); Hops(n)
  }

  // A link below a chain without links is physical, and the other way round.
  lemma ParentChainExactly(s: Store, root: Path, p: Path, realRoot: Path, hops: nat)
    requires WellFormed(s) && Plain(p) && root < p && Walk(s, [], root, hops) == Found(realRoot)
    requires IsSymlink(s, p, hops) || Exists(s, p, hops)
    ensures LinkFreeBelow(s, Parent(p), realRoot, hops) <==> p in s
    ensures p in s ==> realRoot == root && IsDirAt(s, root)
  {
    assert root <= Parent(p);
    if LinkFreeBelow(s, Parent(p), realRoot, hops) {
      WalkEnds(s, [], root, hops);
      PhysicalParent(s, p, realRoot, hops);
    }
    if p in s {
      assert IsDirAt(s, Parent(p));
      RealRootIsRoot(s, root, Parent(p), realRoot, hops);
      PhysicalIsLinkFree(s, Parent(p), root, hops);
    }
  }

  // `validate_projection`
  method ValidateProjection(v: Volume, root: Path, p: Projection) returns (r: Verdict)
    requires WellFormed(v.nodes) && Plain(root)
    requires p.logical != [] && p.target != [] && Plain(p.logical) && Plain(p.target)
    ensures r.Valid? <==> Holds(v.nodes, root, p, v.hops)
    ensures r.RuntimeRootIsSymlink? <==> IsSymlink(v.nodes, root, v.hops)
    ensures r.LogicalPathIsNotSymlink? <==>
      !IsSymlink(v.nodes, root, v.hops) && !IsSymlink(v.nodes, root + p.logical, v.hops)
    ensures r.CircularSymlink? ==> exists m :: IsDepth(v.nodes, root, root + p.logical, v.hops, Circular(m))
    ensures r.SymlinkChain? ==> exists n :: n > 1 && IsDepth(v.nodes, root, root + p.logical, v.hops, Hops(n))
    ensures IsVerdict(v.nodes, root, p, v.hops, r)
  {
    ghost var s, hops := v.nodes, v.hops;
    var logical, expected := root + p.logical, root + p.target;
    if Holds(s, root, p, hops) {
      HoldsAnswers(s, root, p, hops);
    }
    if IsSymlink(v.nodes, root, v.hops) {
      return RuntimeRootIsSymlink;
    }
    if !IsSymlink(v.nodes, logical, v.hops) {
      return LogicalPathIsNotSymlink;
    }
    assert root + Parent(logical)[|root|..] == Parent(logical);
    WalkPrefix(s, [], root, Parent(logical)[|root|..], hops);
    var realRoot := Walk(v.nodes, [], root, v.hops).at;
    ParentChainExactly(s, root, logical, realRoot, hops);
    var linked := ParentChainHasSymlink(v, logical, realRoot);
    if linked {
      return LogicalParentContainsSymlink;
    }
    var d := SymlinkDepth(v, logical, root);
    OneHopIsDepthOne(s, root, logical, hops);
    if OneHop(s, root, logical, hops) {
      DepthUnique(s, root, logical, hops, d, Hops(1));
    }
    match d {
      case NameTooLong => return NameTooLongRaised;
      case Circular(_) => return CircularSymlink;
      case Hops(n) =>
        if n != 1 {
          return SymlinkChain;
        }
    }
    var l := Walk(v.nodes, [], logical, v.hops);
    if !l.Found? {
      return DanglingOrCircular;
    }
    if !IsDirAt(v.nodes, l.at) {
      return TargetIsNotDirectory;
    }
    if !Within(l.at, realRoot) {
      return TargetOutsideRuntimeRoot;
    }
    if Walk(v.nodes, [], expected, v.hops) != l {
      return TargetMismatch;
    }
    if IsSymlink(v.nodes, expected, v.hops) {
      return TargetRootIsSymlink;
    }
    ParentChainExactly(s, root, expected, realRoot, hops);
    linked := ParentChainHasSymlink(v, expected, realRoot);
    if linked {
      return TargetParentContainsSymlink;
    }
    AnswersHold(s, root, p, hops, realRoot);
    return Valid;
  }

  /* ---- What a legal alias means ---- */

  // Any name below the alias resolves as the same name below the target does,
  // errors included; the alias costs a fixed number of extra hops.
  lemma AliasResolvesAsTarget(s: Store, root: Path, p: Projection, hops: nat, rest: Path, budget: nat)
    requires WellFormed(s) && Holds(s, root, p, hops)
    ensures 0 < Cost(s, [], root + p.logical, hops)
    ensures Walk(s, [], root + p.logical + rest, budget + Cost(s, [], root + p.logical, hops)) ==
            Walk(s, [], root + p.target + rest, budget)
  {
    LinkResolves(s, root + p.logical, root + p.target, hops, rest, budget);
    LinkCosts(s, root + p.logical, hops);
  }

  lemma LinkResolves(s: Store, link: Path, target: Path, hops: nat, rest: Path, budget: nat)
    requires WellFormed(s) && IsDirAt(s, target)
    requires Walk(s, [], link, hops) == Found(target)
    ensures Walk(s, [], link + rest, budget + Cost(s, [], link, hops)) == Walk(s, [], target + rest, budget)
  {
    PhysicalThen(s, target, rest, budget);
    WalkThen(s, [], link, rest, hops, budget);
  }

  lemma LinkCosts(s: Store, link: Path, hops: nat)
    requires WellFormed(s) && IsLinkAt(s, link) && Walk(s, [], link, hops).Found?
    ensures Cost(s, [], link, hops) > 0
  {
    JoinParentLast(link);
    WalkBelow(s, Parent(link), Last(link), hops);
  }

  // The lookup of a link starts over with its text.
  lemma LinkStep(s: Store, link: Path, hops: nat)
    requires WellFormed(s) && IsLinkAt(s, link)
    ensures Walk(s, [], link, hops) ==
      if hops == 0 then Loop else Walk(s, LinkBase(s, link), s[link].parts, hops - 1)
  {
    JoinParentLast(link);
    WalkBelow(s, Parent(link), Last(link), hops);
  }

  ghost predicate ResolvesTo(s: Store, p: Path, q: Path) {
    exists budget :: Walk(s, [], p, budget) == Found(q)
  }

  // Below the alias and below its target, the same names reach the same nodes.
  lemma AliasReachesSameNode(s: Store, root: Path, p: Projection, hops: nat, rest: Path, q: Path)
    requires WellFormed(s) && Holds(s, root, p, hops)
    ensures ResolvesTo(s, root + p.logical + rest, q) <==> ResolvesTo(s, root + p.target + rest, q)
  {
    var link, target := root + p.logical, root + p.target;
    if ResolvesTo(s, target + rest, q) {
      var budget: nat :| Walk(s, [], target + rest, budget) == Found(q);
      LinkResolves(s, link, target, hops, rest, budget);
    }
    if ResolvesTo(s, link + rest, q) {
      var budget: nat :| Walk(s, [], link + rest, budget) == Found(q);
      LinkReaches(s, link, target, hops, rest, budget);
    }
  }

  lemma LinkReaches(s: Store, link: Path, target: Path, hops: nat, rest: Path, budget: nat)
    requires WellFormed(s) && IsDirAt(s, target)
    requires Walk(s, [], link, hops) == Found(target) && Walk(s, [], link + rest, budget).Found?
    ensures ResolvesTo(s, target + rest, Walk(s, [], link + rest, budget).at)
  {
    WalkPrefix(s, [], link, rest, budget);
    if budget <= hops { WalkMore(s, [], link, budget, hops); } else { WalkMore(s, [], link, hops, budget); }
    LinkResolves(s, link, target, budget, rest, budget - Cost(s, [], link, budget));
  }

  // The plainest legal alias: an absolute link straight to the target.
  lemma StraightLinkHolds(s: Store, root: Path, p: Projection, hops: nat)
    requires WellFormed(s) && IsDirAt(s, root) && IsDirAt(s, root + p.target) && hops > 0
    requires IsLinkAt(s, root + p.logical) && s[root + p.logical] == Link(true, root + p.target)
    requires root + p.target != [] && !TooLong(root + p.logical) && !TooLong(root + p.target)
    ensures Holds(s, root, p, hops)
  {
    var logical, expected := root + p.logical, root + p.target;
    KeysAreClear(s, logical);
    ClearLookups(s, logical, hops);
    KeysAreClear(s, expected);
    ClearLookups(s, expected, hops);
    JoinParentLast(logical);
    KeysArePlain(s, logical);
    assert Last(logical) in logical;
    WalkBelow(s, Parent(logical), Last(logical), hops);
    PhysicalWalk(s, expected, hops - 1);
  }

  /* ---- The whole contract ---- */

  function ChildNames(s: Store, d: Path): set<Name> {
    set q | q in s && q != [] && Parent(q) == d :: Last(q)
  }

  ghost predicate Declared(c: Contract, logical: Path) {
    exists i | 0 <= i < |c| :: c[i].logical == logical
  }

  // No profile carries a plugin link that the contract does not declare.
  ghost predicate NoneUndeclared(s: Store, root: Path, c: Contract, hops: nat) {
    var profiles := root + ["profiles"];
    IsDir(s, profiles, hops) && !IsSymlink(s, profiles, hops) ==>
      forall n | n in ChildNames(s, Walk(s, [], profiles, hops).at) ::
        IsSymlink(s, root + LogicalOf(n), hops) ==> Declared(c, LogicalOf(n))
  }

  ghost predicate ContractHolds(s: Store, root: Path, c: Contract, hops: nat) {
    AllHold(s, root, c, |c|, hops) && NoneUndeclared(s, root, c, hops)
  }

  ghost predicate AllHold(s: Store, root: Path, c: Contract, n: nat, hops: nat)
    requires n <= |c|
  {
    forall i | 0 <= i < n :: Holds(s, root, c[i], hops)
  }

  lemma AllHoldStep(s: Store, root: Path, c: Contract, n: nat, hops: nat)
    requires n < |c|
    ensures AllHold(s, root, c, n + 1, hops) <==> AllHold(s, root, c, n, hops) && Holds(s, root, c[n], hops)
  {}

  // `validate_contract_runtime`
  method ValidateContract(v: Volume, root: Path, c: Contract) returns (ok: bool)
    requires WellFormed(v.nodes) && Plain(root) && WellFormedContract(c)
    ensures ok <==> ContractHolds(v.nodes, root, c, v.hops)
  {
    var allValid := true;
    for i := 0 to |c|
      invariant allValid <==> AllHold(v.nodes, root, c, i, v.hops)
    {
      AllHoldStep(v.nodes, root, c, i, v.hops);
      ItemIsPlain(c[i]);
      var r := ValidateProjection(v, root, c[i]);
      allValid := allValid && r.Valid?;
    }
    if !allValid {
      return false;
    }
    ok := FindNoUndeclared(v, root, c);
  }

  method FindNoUndeclared(v: Volume, root: Path, c: Contract) returns (ok: bool)
    ensures ok <==> NoneUndeclared(v.nodes, root, c, v.hops)
  {
    var declared := set i | 0 <= i < |c| :: c[i].logical;
    var profiles := root + ["profiles"];
    if IsDir(v.nodes, profiles, v.hops) && !IsSymlink(v.nodes, profiles, v.hops) {
      var all := ChildNames(v.nodes, Walk(v.nodes, [], profiles, v.hops).at);
      var names := all;
      while names != {}
        invariant names <= all
        invariant forall n | n in all && n !in names ::
          IsSymlink(v.nodes, root + LogicalOf(n), v.hops) ==> Declared(c, LogicalOf(n))
        decreases names
      {
        var n :| n in names;
        assert LogicalOf(n) in declared <==> Declared(c, LogicalOf(n));
        if IsSymlink(v.nodes, root + LogicalOf(n), v.hops) && LogicalOf(n) !in declared {
          return false;
        }
        names := names - {n};
      }
    }
    return true;
  }

  /* ---- Stores that grow ---- */

  // Everything outside the directories that may be pruned.
  ghost function Spared(s: Store): Store {
    map q | q in s && !UnderOrchestration(q) :: s[q]
  }

  lemma SparedWellFormed(s: Store)
    requires WellFormed(s)
    ensures WellFormed(Spared(s))
  {
    forall q | q in Spared(s) && q != []
      ensures Parent(q) in Spared(s)
    {
      assert forall i | 0 <= i < |q| - 1 :: Parent(q)[i] == q[i];
    }
  }

  // `t` still has the directories and links of `u`.
  ghost predicate Grows(u: Store, t: Store) {
    forall q | q in u && (u[q].Dir? || u[q].Link?) :: q in t && t[q] == u[q]
  }

  lemma {:induction false} WalkGrows(u: Store, t: Store, cur: Path, rest: Path, hops: nat)
    requires Grows(u, t) && Walk(u, cur, rest, hops).Found? && IsDirAt(u, Walk(u, cur, rest, hops).at)
    ensures Walk(t, cur, rest, hops) == Walk(u, cur, rest, hops)
    decreases hops, |rest|
  {
    if rest != [] {
      if rest[0] == UP {
        WalkGrows(u, t, Parent(cur), rest[1..], hops);
      } else {
        var next := cur + [rest[0]];
        if u[next].Link? {
          WalkGrows(u, t, LinkBase(u, next), u[next].parts + rest[1..], hops - 1);
        } else {
          WalkGrows(u, t, next, rest[1..], hops);
        }
      }
    }
  }

  lemma HoldsGrows(u: Store, t: Store, root: Path, p: Projection, hops: nat)
    requires WellFormed(u) && WellFormed(t) && Grows(u, t)
    requires p.logical != [] && Holds(u, root, p, hops)
    ensures Holds(t, root, p, hops)
  {
    var logical, expected := root + p.logical, root + p.target;
    WalkGrows(u, t, [], logical, hops);
    KeysAreClear(u, logical);
    KeysAreClear(t, logical);
    ClearLookups(u, logical, hops);
    ClearLookups(t, logical, hops);
    var next := NextName(u, logical, hops);
    assert next == NextName(t, logical, hops);
    if Within(next, root) {
      NextResolves(u, logical, hops);
      NotALinkGrows(u, t, next, hops);
    }
  }

  // The name a link gives resolves to what the link resolves to.
  lemma NextResolves(s: Store, logical: Path, hops: nat)
    requires WellFormed(s) && IsLinkAt(s, logical) && Locate(s, logical, hops) == Found(logical)
    requires Walk(s, [], logical, hops).Found?
    ensures Walk(s, [], NextName(s, logical, hops), hops) == Walk(s, [], logical, hops)
  {
    LinkStep(s, logical, hops);
    var base, parts := LinkBase(s, logical), s[logical].parts;
    assert NextName(s, logical, hops) == base + parts;
    PhysicalThen(s, base, parts, hops);
    WalkMore(s, base, parts, hops - 1, hops);
  }

  lemma NotALinkGrows(u: Store, t: Store, next: Path, hops: nat)
    requires WellFormed(u) && WellFormed(t) && Grows(u, t)
    requires IsDir(u, next, hops) && !IsSymlink(u, next, hops)
    ensures !IsSymlink(t, next, hops)
  {
    LocateIsWalk(u, next, hops);
    if next == [] || Last(next) == UP {
      WalkGrows(u, t, [], next, hops);
    } else {
      WalkGrows(u, t, [], Parent(next), hops);
    }
  }

  /* ---- Which undeclared links a run can uncover ---- */

  // The directories above some names.
  function Above(names: set<Path>): set<Path> {
    set d, k | d in names && 0 <= k < |d| :: d[..k]
  }

  // The store with all directories above the names in `made`.
  function Grown(s: Store, made: set<Path>): Store {
    map q | q in s.Keys + Above(made) :: if q in s then s[q] else Dir
  }

  // Every name in `made` can be made below directories.
  ghost predicate CanGrow(s: Store, made: set<Path>) {
    forall d | d in made :: Clear(s, d)
  }

  lemma GrownWellFormed(s: Store, made: set<Path>)
    requires WellFormed(s) && CanGrow(s, made)
    ensures WellFormed(Grown(s, made)) && Grows(s, Grown(s, made))
  {
    forall q | q in Grown(s, made) && q != []
      ensures Last(q) != UP && Parent(q) in Grown(s, made) && Grown(s, made)[Parent(q)].Dir?
    {
      if q !in s {
        var d, k :| d in made && 0 <= k < |d| && d[..k] == q;
        assert Clear(s, d) && d[k - 1] in d;
        assert Parent(q) == d[..k - 1] && Parent(q) in Above(made);
      }
    }
  }

  // Fewer directories and links show fewer undeclared links.
  lemma UndeclaredGrow(t: Store, g: Store, root: Path, c: Contract, hops: nat)
    requires WellFormed(t) && WellFormed(g) && Grows(t, g) && IsDirAt(t, root)
    requires NoneUndeclared(g, root, c, hops)
    ensures NoneUndeclared(t, root, c, hops)
  {
    var profiles := root + ["profiles"];
    StepDown(t, root, "profiles", hops);
    StepDown(g, root, "profiles", hops);
    if IsDir(t, profiles, hops) && !IsSymlink(t, profiles, hops) {
      forall n | n in ChildNames(t, profiles) && IsSymlink(t, root + LogicalOf(n), hops)
        ensures Declared(c, LogicalOf(n))
      {
        PluginLinkGrows(t, g, root, n, hops);
      }
    }
  }

  lemma PluginLinkGrows(t: Store, g: Store, root: Path, n: Name, hops: nat)
    requires WellFormed(t) && Grows(t, g) && IsDirAt(t, root + ["profiles"])
    requires n in ChildNames(t, root + ["profiles"]) && IsSymlink(t, root + LogicalOf(n), hops)
    ensures IsSymlink(g, root + LogicalOf(n), hops) && n in ChildNames(g, root + ["profiles"])
  {
    var profiles, q := root + ["profiles"], root + ["profiles", n];
    var plugins, logical := root + ["profiles", n, "plugins"], root + LogicalOf(n);
    assert logical == plugins + ["aota-tools"] && plugins == profiles + [n, "plugins"] && q == profiles + [n];
    ParentOfChild(plugins, "aota-tools");
    WalkGrows(t, g, [], plugins, hops);
    var child :| child in t && child != [] && Parent(child) == profiles && Last(child) == n;
    JoinParentLast(child);
    PhysicalThen(t, profiles, [n, "plugins"], hops);
    WalkCons(t, profiles, n, ["plugins"], hops);
    assert [n] + ["plugins"] == [n, "plugins"];
    assert t[q].Dir? || t[q].Link?;
    ParentOfChild(profiles, n);
  }

  /* ---- What keeps the contract ---- */

  // The declared aliases hold and do not rely on what may be pruned.
  ghost predicate AliasesStable(s: Store, root: Path, c: Contract, hops: nat) {
    && WellFormed(s) && IsDirAt(s, root) && !UnderOrchestration(root) && Plain(root) && WellFormedContract(c)
    && forall i | 0 <= i < |c| :: Holds(Spared(s), root, c[i], hops)
  }

  // Keeping the links and the spared directories keeps the aliases, so the
  // contract holds exactly if there is no undeclared link.
  lemma AliasesKept(s: Store, t: Store, root: Path, c: Contract, hops: nat)
    requires AliasesStable(s, root, c, hops) && WellFormed(t) && Grows(Spared(s), t)
    ensures IsDirAt(t, root) && forall i | 0 <= i < |c| :: Holds(t, root, c[i], hops)
    ensures ContractHolds(t, root, c, hops) <==> NoneUndeclared(t, root, c, hops)
  {
    SparedWellFormed(s);
    forall i | 0 <= i < |c|
      ensures Holds(t, root, c[i], hops)
    {
      HoldsGrows(Spared(s), t, root, c[i], hops);
    }
    assert IsDirAt(t, root) by {
      assert Spared(s)[root] == s[root];
    }
  }

  lemma AliasesStayStable(s: Store, t: Store, root: Path, c: Contract, hops: nat)
    requires AliasesStable(s, root, c, hops) && WellFormed(t) && Grows(Spared(s), t)
    ensures AliasesStable(t, root, c, hops)
  {
    AliasesKept(s, t, root, c, hops);
    SparedWellFormed(s);
    SparedWellFormed(t);
    forall i | 0 <= i < |c|
      ensures Holds(Spared(t), root, c[i], hops)
    {
      assert Grows(Spared(s), Spared(t));
      HoldsGrows(Spared(s), Spared(t), root, c[i], hops);
    }
  }

  // The start of a run that makes directories only above the names in `made`,
  // such that the contract holds throughout.
  ghost predicate ContractStable(s: Store, root: Path, c: Contract, made: set<Path>, hops: nat) {
    AliasesStable(s, root, c, hops) && CanGrow(s, made) && NoneUndeclared(Grown(s, made), root, c, hops)
  }

  // No run that keeps the links and the spared directories, and makes no other
  // link or directory, can break the contract.
  lemma ContractKept(s: Store, t: Store, root: Path, c: Contract, made: set<Path>, hops: nat)
    requires ContractStable(s, root, c, made, hops)
    requires WellFormed(t) && Grows(Spared(s), t) && Grows(t, Grown(s, made))
    ensures ContractHolds(t, root, c, hops)
  {
    AliasesKept(s, t, root, c, hops);
    GrownWellFormed(s, made);
    UndeclaredGrow(t, Grown(s, made), root, c, hops);
  }

  // A store that has grown within its bounds is the start of such a run, too.
  lemma StableWhenGrown(s: Store, t: Store, root: Path, c: Contract, made: set<Path>, more: set<Path>, hops: nat)
    requires ContractStable(s, root, c, made, hops) && WellFormed(t) && CanGrow(t, more)
    requires Grows(Spared(s), t) && Grows(Grown(t, more), Grown(s, made))
    ensures ContractStable(t, root, c, more, hops)
  {
    GrownWellFormed(s, made);
    GrownWellFormed(t, more);
    AliasesStayStable(s, t, root, c, hops);
    UndeclaredGrow(Grown(t, more), Grown(s, made), root, c, hops);
  }

  lemma GrownTwice(s: Store, t: Store, made: set<Path>)
    requires CanGrow(s, made) && Grows(t, Grown(s, made))
    ensures Grows(Grown(t, made), Grown(s, made))
  {
    forall q | IsDirAt(Grown(t, made), q) && q !in t
      ensures IsDirAt(Grown(s, made), q)
    {
      var d, k :| d in made && 0 <= k < |d| && d[..k] == q;
      assert Clear(s, d);
    }
  }

  // The condition on undeclared links is exact: once all the directories are
  // made and none is gone, the contract holds exactly when it held for them.
  lemma ContractHoldsExactly(s: Store, t: Store, root: Path, c: Contract, made: set<Path>, hops: nat)
    requires AliasesStable(s, root, c, hops) && CanGrow(s, made)
    requires WellFormed(t) && Grows(Grown(s, made), t) && Grows(t, Grown(s, made))
    ensures ContractHolds(t, root, c, hops) <==> NoneUndeclared(Grown(s, made), root, c, hops)
  {
    GrownWellFormed(s, made);
    assert Grows(Spared(s), t);
    AliasesKept(s, t, root, c, hops);
    if NoneUndeclared(Grown(s, made), root, c, hops) {
      UndeclaredGrow(t, Grown(s, made), root, c, hops);
    }
    if NoneUndeclared(t, root, c, hops) {
      UndeclaredGrow(Grown(s, made), t, root, c, hops);
    }
  }

  // What shows up with fewer directories shows up with more.
  lemma FewerUncover(s: Store, root: Path, c: Contract, few: set<Path>, many: set<Path>, hops: nat)
    requires WellFormed(s) && IsDirAt(s, root) && CanGrow(s, many) && few <= many
    requires NoneUndeclared(Grown(s, many), root, c, hops)
    ensures NoneUndeclared(Grown(s, few), root, c, hops)
  {
    GrownWellFormed(s, few);
    GrownWellFormed(s, many);
    assert Grows(Grown(s, few), Grown(s, many));
    UndeclaredGrow(Grown(s, few), Grown(s, many), root, c, hops);
  }
}
