// `skill_tree_errors`: the comparison of a skill's source tree with its
// deployed copy.
module SkillParity {
  import opened Paths
  import opened FileStore
  import opened Options
  import opened Volumes
  import opened SafePaths
  import opened SkillTrees

  datatype SkillError =
    | SourceRoot
    | Parity(relative: Path)
    | UndeclaredExtra(relative: Path)
    | SymlinkEscape(relative: Path)

  // The arguments: the source, the deployed copy, the runtime around it.
  datatype Roots = Roots(source: Path, target: Path, runtime: Path)

  /* ---- A tree in a store ---- */

  // Where the name `p` resolves to, seen from `root`.
  function LeadOf(s: Store, p: Path, root: Path, hops: nat): Lead {
    match Resolve(s, [], p, hops)
    case Found(at) => if Within(at, root) then Inside else Outside
    case _ => Nowhere
  }

  // The node at `q` is what the tree says.
  ghost predicate ShownAs(s: Store, base: Path, q: Path, t: Option<Tree>, hops: nat) {
    && (q in s <==> t.Some?)
    && (q in s ==>
          && (s[q].File? <==> t.value.Regular?) && (s[q].File? ==> t.value.content == s[q].content)
          && (s[q].Dir? <==> t.value.Folder?)
          && (s[q].Link? <==> t.value.Linked?) && (s[q].Link? ==> t.value.lead == LeadOf(s, q, base, hops)))
  }

  // What was read of a directory: the tree below it, and its `rglob` listing.
  datatype Scan = Scan(tree: Forest, listing: seq<Leaf>)

  ghost predicate IsScan(s: Store, base: Path, c: Scan, hops: nat) {
    && ProperForest(c.tree) && Lists(c.listing, c.tree)
    && forall p | p != [] :: ShownAs(s, base, base + p, At(Folder(c.tree), p), hops)
  }

  function RealOf(s: Store, root: Path, hops: nat): Path {
    var l := Walk(s, [], root, hops);
    if l.Found? then l.at else []
  }

  // A canonical file of the directory at `base`.
  predicate Canonical(s: Store, base: Path, p: Path, includeEscapes: bool, hops: nat) {
    && p != [] && base + p in s && !IsExcluded(p)
    && (s[base + p].File? || (s[base + p].Link? && (LeadOf(s, base + p, base, hops).Inside? || includeEscapes)))
  }

  predicate InTree(s: Store, root: Path, p: Path, includeEscapes: bool, hops: nat) {
    IsDir(s, root, hops) && Canonical(s, RealOf(s, root, hops), p, includeEscapes, hops)
  }

  // A link below the directory that leads nowhere and is not excluded.
  predicate BrokenAt(s: Store, root: Path, p: Path, hops: nat) {
    var q := RealOf(s, root, hops) + p;
    && IsDir(s, root, hops) && p != [] && IsLinkAt(s, q) && !IsExcluded(p)
    && LeadOf(s, q, RealOf(s, root, hops), hops).Nowhere?
  }

  ghost predicate Broken(s: Store, root: Path, hops: nat) {
    exists p :: BrokenAt(s, root, p, hops)
  }

  // The scan tells what is canonical and what is broken.
  lemma ScanTells(s: Store, root: Path, c: Scan, p: Path, includeEscapes: bool, hops: nat)
    requires WellFormed(s) && IsDir(s, root, hops) && IsScan(s, RealOf(s, root, hops), c, hops)
    ensures Enumerated(c.tree, p, includeEscapes) <==> InTree(s, root, p, includeEscapes, hops)
    ensures p != [] && At(Folder(c.tree), p).Some? ==>
      (Breaks(Leaf(p, At(Folder(c.tree), p).value)) <==> BrokenAt(s, root, p, hops))
    ensures BrokenAt(s, root, p, hops) ==> At(Folder(c.tree), p).Some?
  {
    if p != [] {
      var base := RealOf(s, root, hops);
      assert ShownAs(s, base, base + p, At(Folder(c.tree), p), hops);
      if base + p in s {
        KeysArePlain(s, base + p);
        assert forall n | n in p :: n in base + p;
      }
    }
  }

  // `expand_skill_tree` of a directory.
  method Expand(v: Volume, root: Path, c: Scan, includeEscapes: bool) returns (names: Option<set<Path>>)
    requires WellFormed(v.nodes) && IsDir(v.nodes, root, v.hops)
    requires IsScan(v.nodes, RealOf(v.nodes, root, v.hops), c, v.hops)
    ensures names.None? <==> Broken(v.nodes, root, v.hops)
    ensures names.Some? ==> forall p :: p in names.value <==> InTree(v.nodes, root, p, includeEscapes, v.hops)
  {
    var files := ExpandSkillTree(c.tree, c.listing, includeEscapes);
    forall p
      ensures Enumerated(c.tree, p, includeEscapes) <==> InTree(v.nodes, root, p, includeEscapes, v.hops)
      ensures p != [] && At(Folder(c.tree), p).Some? ==>
        (Breaks(Leaf(p, At(Folder(c.tree), p).value)) <==> BrokenAt(v.nodes, root, p, v.hops))
      ensures BrokenAt(v.nodes, root, p, v.hops) ==> At(Folder(c.tree), p).Some?
    {
      ScanTells(v.nodes, root, c, p, includeEscapes, v.hops);
    }
    names := if files.Some? then Some(files.value.Keys) else None;
  }

  /* ---- The comparison ---- */

  // `path_escapes`; nothing if a resolution raises.
  function Escapes(s: Store, p: Path, root: Path, hops: nat): Option<bool> {
    var q, r := Resolve(s, [], p, hops), Resolve(s, [], root, hops);
    if q.Found? && r.Found? then Some(!Within(q.at, r.at)) else None
  }

  function ContentOf(s: Store, p: Path, hops: nat): Content
    requires IsFile(s, p, hops)
  {
    s[Walk(s, [], p, hops).at].content
  }

  // The source and the copy of the file `p` differ; nothing if asking raises.
  function Differs(s: Store, r: Roots, p: Path, hops: nat): Option<bool> {
    var source, target := RealOf(s, r.source, hops) + p, r.target + p;
    if !IsFile(s, target, hops) then Some(true)
    else match Escapes(s, target, r.runtime, hops)
      case None => None
      case Some(true) => Some(true)
      case Some(false) =>
        if !IsFile(s, source, hops) then None
        else Some(ContentOf(s, source, hops) != ContentOf(s, target, hops))
  }

  predicate IsExtra(s: Store, r: Roots, p: Path, hops: nat) {
    InTree(s, r.target, p, true, hops) && !InTree(s, r.source, p, false, hops)
  }

  // The extra file `p` leads out of the runtime; nothing if asking raises.
  function Strays(s: Store, r: Roots, p: Path, hops: nat): Option<bool> {
    Escapes(s, RealOf(s, r.target, hops) + p, r.runtime, hops)
  }

  // The walk ends at a regular file of this content.
  predicate LeadsToFile(s: Store, p: Path, content: Content, hops: nat) {
    var l := Walk(s, [], p, hops);
    l.Found? && l.at in s && s[l.at].File? && s[l.at].content == content
  }

  // The copy of the source file `p` leads to a file in the runtime that has the
  // content of the source.
  ghost predicate IsCopied(s: Store, r: Roots, p: Path, hops: nat) {
    && (exists content ::
          LeadsToFile(s, RealOf(s, r.source, hops) + p, content, hops) && LeadsToFile(s, r.target + p, content, hops))
    && Within(Walk(s, [], r.target + p, hops).at, RealOf(s, r.runtime, hops))
  }

  // An extra file is on the list as one that leads out of the runtime, or as one
  // that was not declared, never as both.
  ghost predicate ExtraReported(s: Store, r: Roots, p: Path, errors: seq<SkillError>, hops: nat) {
    var place := Walk(s, [], RealOf(s, r.target, hops) + p, hops);
    && (SymlinkEscape(p) in errors <==> UndeclaredExtra(p) !in errors)
    && (place.Found? ==> (SymlinkEscape(p) in errors <==> !Within(place.at, RealOf(s, r.runtime, hops))))
  }

  // If asking does not raise, source and copy differ exactly if the file is not
  // copied; links may stand in the way of both.
  lemma DiffersExactly(s: Store, r: Roots, p: Path, hops: nat)
    requires Walk(s, [], r.runtime, hops).Found? && Differs(s, r, p, hops).Some?
    ensures Differs(s, r, p, hops) == Some(!IsCopied(s, r, p, hops))
  {
    var source, target := RealOf(s, r.source, hops) + p, r.target + p;
    ResolveIsWalk(s, [], r.runtime, hops);
    if IsFile(s, target, hops) {
      ResolveIsWalk(s, [], target, hops);
      if IsFile(s, source, hops) && ContentOf(s, source, hops) == ContentOf(s, target, hops) {
        assert LeadsToFile(s, source, ContentOf(s, source, hops), hops);
        assert LeadsToFile(s, target, ContentOf(s, source, hops), hops);
      }
    }
  }

  // An extra file whose name leads somewhere strays exactly if that place lies
  // outside the runtime.
  lemma StraysExactly(s: Store, r: Roots, p: Path, hops: nat)
    requires Walk(s, [], r.runtime, hops).Found? && Walk(s, [], RealOf(s, r.target, hops) + p, hops).Found?
    ensures Strays(s, r, p, hops) ==
      Some(!Within(Walk(s, [], RealOf(s, r.target, hops) + p, hops).at, RealOf(s, r.runtime, hops)))
  {
    ResolveIsWalk(s, [], r.runtime, hops);
    ResolveIsWalk(s, [], RealOf(s, r.target, hops) + p, hops);
  }

  // A link that leads somewhere leads inside exactly if that place lies below
  // the root.
  lemma LeadExactly(s: Store, p: Path, root: Path, hops: nat)
    requires Walk(s, [], p, hops).Found?
    ensures LeadOf(s, p, root, hops) == if root <= Walk(s, [], p, hops).at then Inside else Outside
  {
    ResolveIsWalk(s, [], p, hops);
  }

  ghost predicate Reported(s: Store, r: Roots, e: SkillError, hops: nat) {
    if !IsDir(s, r.source, hops) then e.SourceRoot?
    else match e
      case SourceRoot => false
      case Parity(p) => InTree(s, r.source, p, false, hops) && Differs(s, r, p, hops) == Some(true)
      case UndeclaredExtra(p) => IsExtra(s, r, p, hops) && Strays(s, r, p, hops) == Some(false)
      case SymlinkEscape(p) => IsExtra(s, r, p, hops) && Strays(s, r, p, hops) == Some(true)
  }

  predicate AskRaises(s: Store, r: Roots, p: Path, hops: nat) {
    || (InTree(s, r.source, p, false, hops) && Differs(s, r, p, hops).None?)
    || (IsExtra(s, r, p, hops) && Strays(s, r, p, hops).None?)
  }

  ghost predicate Raises(s: Store, r: Roots, hops: nat) {
    && IsDir(s, r.source, hops)
    && (Broken(s, r.source, hops) || Broken(s, r.target, hops) || exists p :: AskRaises(s, r, p, hops))
  }

  // The loop over the source files, the loop over the extra files.
  ghost predicate Compared(s: Store, r: Roots, names: set<Path>, errors: seq<SkillError>, hops: nat) {
    && (forall p | p in names :: Differs(s, r, p, hops).Some?)
    && forall e :: e in errors <==> e.Parity? && e.relative in names && Differs(s, r, e.relative, hops) == Some(true)
  }

  ghost predicate Searched(s: Store, r: Roots, names: set<Path>, errors: seq<SkillError>, hops: nat) {
    && (forall p | p in names :: Strays(s, r, p, hops).Some?)
    && forall e :: e in errors <==> StrayReport(s, r, names, e, hops)
  }

  predicate StrayReport(s: Store, r: Roots, names: set<Path>, e: SkillError, hops: nat) {
    || (e.UndeclaredExtra? && e.relative in names && Strays(s, r, e.relative, hops) == Some(false))
    || (e.SymlinkEscape? && e.relative in names && Strays(s, r, e.relative, hops) == Some(true))
  }

  ghost predicate AllIn(s: Store, root: Path, includeEscapes: bool, names: set<Path>, hops: nat) {
    forall p :: p in names <==> InTree(s, root, p, includeEscapes, hops)
  }

  // `skill_tree_errors`; nothing if it raises.
  method SkillTreeErrors(v: Volume, r: Roots, source: Scan, target: Scan) returns (errors: Option<seq<SkillError>>)
    requires WellFormed(v.nodes)
    requires IsDir(v.nodes, r.source, v.hops) ==> IsScan(v.nodes, RealOf(v.nodes, r.source, v.hops), source, v.hops)
    requires IsDir(v.nodes, r.target, v.hops) ==> IsScan(v.nodes, RealOf(v.nodes, r.target, v.hops), target, v.hops)
    ensures errors.None? <==> Raises(v.nodes, r, v.hops)
    ensures errors.Some? ==> forall e :: e in errors.value <==> Reported(v.nodes, r, e, v.hops)
    ensures LinkFreeTrees(v.nodes, r, v.hops) ==> (errors == Some([]) <==> SameTrees(v.nodes, r, v.hops))
    ensures errors.Some? && IsDir(v.nodes, r.source, v.hops) && Walk(v.nodes, [], r.runtime, v.hops).Found? ==>
      && (forall p | InTree(v.nodes, r.source, p, false, v.hops) ::
            Parity(p) in errors.value <==> !IsCopied(v.nodes, r, p, v.hops))
      && (forall p | IsExtra(v.nodes, r, p, v.hops) :: ExtraReported(v.nodes, r, p, errors.value, v.hops))
  {
    if LinkFreeTrees(v.nodes, r, v.hops) {
      NoErrorsExactly(v.nodes, r, v.hops);
    }
    if !IsDir(v.nodes, r.source, v.hops) {
      return Some([SourceRoot]);
    }
    var sources := Expand(v, r.source, source, false);
    if sources.None? {
      return None;
    }
    var targets: Option<set<Path>> := Some({});
    if IsDir(v.nodes, r.target, v.hops) {
      targets := Expand(v, r.target, target, true);
    }
    if targets.None? {
      return None;
    }
    errors := CompareTrees(v, r, sources.value, targets.value);
    if errors.Some? {
      EmptyReport(v.nodes, r, errors.value, v.hops);
      if Walk(v.nodes, [], r.runtime, v.hops).Found? {
        ReportExactly(v.nodes, r, errors.value, v.hops);
      }
    }
  }

  lemma ReportExactly(s: Store, r: Roots, errors: seq<SkillError>, hops: nat)
    requires !Raises(s, r, hops) && IsDir(s, r.source, hops) && Walk(s, [], r.runtime, hops).Found?
    requires forall e :: e in errors <==> Reported(s, r, e, hops)
    ensures forall p | InTree(s, r.source, p, false, hops) :: Parity(p) in errors <==> !IsCopied(s, r, p, hops)
    ensures forall p | IsExtra(s, r, p, hops) :: ExtraReported(s, r, p, errors, hops)
  {
    forall p | IsExtra(s, r, p, hops)
      ensures ExtraReported(s, r, p, errors, hops)
    {
      assert !AskRaises(s, r, p, hops);
      if Walk(s, [], RealOf(s, r.target, hops) + p, hops).Found? {
        StraysExactly(s, r, p, hops);
      }
      assert SymlinkEscape(p) in errors <==> Reported(s, r, SymlinkEscape(p), hops);
      assert UndeclaredExtra(p) in errors <==> Reported(s, r, UndeclaredExtra(p), hops);
    }
    forall p | InTree(s, r.source, p, false, hops)
      ensures Parity(p) in errors <==> !IsCopied(s, r, p, hops)
    {
      assert !AskRaises(s, r, p, hops);
      DiffersExactly(s, r, p, hops);
      assert Parity(p) in errors <==> Reported(s, r, Parity(p), hops);
    }
  }

  lemma EmptyReport(s: Store, r: Roots, errors: seq<SkillError>, hops: nat)
    requires forall e :: e in errors <==> Reported(s, r, e, hops)
    ensures errors == [] <==> forall e :: !Reported(s, r, e, hops)
  {
    if errors != [] {
      assert errors[0] in errors;
    }
  }

  method CompareTrees(v: Volume, r: Roots, sources: set<Path>,
                      targets: set<Path>) returns (errors: Option<seq<SkillError>>)
    requires IsDir(v.nodes, r.source, v.hops)
    requires !Broken(v.nodes, r.source, v.hops) && !Broken(v.nodes, r.target, v.hops)
    requires AllIn(v.nodes, r.source, false, sources, v.hops) && AllIn(v.nodes, r.target, true, targets, v.hops)
    ensures errors.None? <==> Raises(v.nodes, r, v.hops)
    ensures errors.Some? ==> forall e :: e in errors.value <==> Reported(v.nodes, r, e, v.hops)
  {
    var differing := CompareFiles(v, r, sources);
    if differing.None? {
      ghost var p :| p in sources && Differs(v.nodes, r, p, v.hops).None?;
      assert AskRaises(v.nodes, r, p, v.hops);
      return None;
    }
    var extras := ReportExtras(v, r, targets - sources);
    if extras.None? {
      ghost var p :| p in targets - sources && Strays(v.nodes, r, p, v.hops).None?;
      assert AskRaises(v.nodes, r, p, v.hops);
      return None;
    }
    errors := Some(differing.value + extras.value);
    AllReported(v.nodes, r, sources, targets, differing.value, extras.value, v.hops);
  }

  lemma AllReported(s: Store, r: Roots, sources: set<Path>, targets: set<Path>, differing: seq<SkillError>,
                    extras: seq<SkillError>, hops: nat)
    requires IsDir(s, r.source, hops) && !Broken(s, r.source, hops) && !Broken(s, r.target, hops)
    requires AllIn(s, r.source, false, sources, hops) && AllIn(s, r.target, true, targets, hops)
    requires Compared(s, r, sources, differing, hops) && Searched(s, r, targets - sources, extras, hops)
    ensures !Raises(s, r, hops)
    ensures forall e :: e in differing + extras <==> Reported(s, r, e, hops)
  {
    forall p
      ensures !AskRaises(s, r, p, hops)
    {
      assert p in sources <==> InTree(s, r.source, p, false, hops);
      assert p in targets <==> InTree(s, r.target, p, true, hops);
    }
    forall e
      ensures e in differing + extras <==> Reported(s, r, e, hops)
    {
      assert e in differing + extras <==> e in differing || e in extras;
      if !e.SourceRoot? {
        assert e.relative in sources <==> InTree(s, r.source, e.relative, false, hops);
        assert e.relative in targets <==> InTree(s, r.target, e.relative, true, hops);
      }
    }
  }

  method CompareFiles(v: Volume, r: Roots, names: set<Path>) returns (errors: Option<seq<SkillError>>)
    ensures errors.None? <==> exists p :: p in names && Differs(v.nodes, r, p, v.hops).None?
    ensures errors.Some? ==> Compared(v.nodes, r, names, errors.value, v.hops)
  {
    var left, found: seq<SkillError> := names, [];
    while left != {}
      invariant left <= names && Compared(v.nodes, r, names - left, found, v.hops)
      decreases left
    {
      var p :| p in left;
      var differs := Differs(v.nodes, r, p, v.hops);
      if differs.None? {
        return None;
      }
      if differs.value {
        found := found + [Parity(p)];
      }
      left := left - {p};
    }
    assert names - left == names;
    errors := Some(found);
  }

  method ReportExtras(v: Volume, r: Roots, names: set<Path>) returns (errors: Option<seq<SkillError>>)
    ensures errors.None? <==> exists p :: p in names && Strays(v.nodes, r, p, v.hops).None?
    ensures errors.Some? ==> Searched(v.nodes, r, names, errors.value, v.hops)
  {
    var left, found: seq<SkillError> := names, [];
    while left != {}
      invariant left <= names && Searched(v.nodes, r, names - left, found, v.hops)
      decreases left
    {
      var p :| p in left;
      var strays := Strays(v.nodes, r, p, v.hops);
      if strays.None? {
        return None;
      }
      found := found + [if strays.value then SymlinkEscape(p) else UndeclaredExtra(p)];
      left := left - {p};
    }
    assert names - left == names;
    errors := Some(found);
  }

  /* ---- The check is tree equality ---- */

  // No link below either root, and the copy lies in the runtime.
  ghost predicate LinkFreeTrees(s: Store, r: Roots, hops: nat) {
    && IsDir(s, r.source, hops) && LinkFree(s, r.source, hops) && LinkFree(s, r.target, hops)
    && Resolve(s, [], r.runtime, hops).Found?
    && (IsDir(s, r.target, hops) ==> Within(RealOf(s, r.target, hops), Resolve(s, [], r.runtime, hops).at))
  }

  ghost predicate LinkFree(s: Store, root: Path, hops: nat) {
    IsDir(s, root, hops) ==> forall q | q in s && RealOf(s, root, hops) < q :: !s[q].Link?
  }

  // The content of the canonical file `p`, if there is one.
  function CanonicalAt(s: Store, root: Path, p: Path, hops: nat): Option<Content> {
    var q := RealOf(s, root, hops) + p;
    if InTree(s, root, p, true, hops) && s[q].File? then Some(s[q].content) else None
  }

  ghost predicate SameTrees(s: Store, r: Roots, hops: nat) {
    forall p :: CanonicalAt(s, r.source, p, hops) == CanonicalAt(s, r.target, p, hops)
  }

  // A name below a directory without links is there exactly if a lookup through
  // the directory's own name finds it.
  lemma LookupBelow(s: Store, root: Path, p: Path, hops: nat)
    requires WellFormed(s) && LinkFree(s, root, hops) && p != [] && UP !in p
    ensures IsFile(s, root + p, hops) <==>
      IsDir(s, root, hops) && RealOf(s, root, hops) + p in s && s[RealOf(s, root, hops) + p].File?
    ensures IsFile(s, root + p, hops) ==> Walk(s, [], root + p, hops) == Found(RealOf(s, root, hops) + p)
  {
    var l := Walk(s, [], root, hops);
    if !l.Found? {
      if IsFile(s, root + p, hops) {
        WalkPrefix(s, [], root, p, hops);
      }
    } else {
      var left := hops - Cost(s, [], root, hops);
      WalkThen(s, [], root, p, hops, left);
      WalkEnds(s, [], root, hops);
      if IsDirAt(s, l.at) {
        BelowDir(s, l.at, p, left);
      }
    }
  }

  lemma BelowDir(s: Store, base: Path, p: Path, hops: nat)
    requires WellFormed(s) && IsDirAt(s, base) && UP !in p
    requires forall q | q in s && base < q :: !s[q].Link?
    ensures Walk(s, base, p, hops) == Found(base + p) <==> base + p in s
    ensures base + p !in s ==> !Walk(s, base, p, hops).Found?
  {
    WalkStraight(s, base, p, hops);
    WalkEnds(s, base, p, hops);
    if base + p in s {
      assert base + p == base || base < base + p;
      PhysicalThen(s, base, p, hops);
      PhysicalWalk(s, base + p, hops);
    }
  }

  lemma {:induction false} WalkStraight(s: Store, base: Path, p: Path, hops: nat)
    requires UP !in p && forall q | q in s && base < q :: !s[q].Link?
    ensures Walk(s, base, p, hops).Found? ==> Walk(s, base, p, hops).at == base + p
    decreases |p|
  {
    if p == [] {
      assert base + p == base;
    } else {
      var next := base + [p[0]];
      assert next + p[1..] == base + p && base < next;
      WalkStraight(s, next, p[1..], hops);
    }
  }

  // Without links the check is tree equality: it reports nothing exactly if
  // both trees hold the same canonical files with the same content.
  lemma NoErrorsExactly(s: Store, r: Roots, hops: nat)
    requires WellFormed(s) && LinkFreeTrees(s, r, hops)
    ensures !Raises(s, r, hops)
    ensures (forall e :: !Reported(s, r, e, hops)) <==> SameTrees(s, r, hops)
  {
    forall p
      ensures !AskRaises(s, r, p, hops) && !BrokenAt(s, r.source, p, hops) && !BrokenAt(s, r.target, p, hops)
      ensures CanonicalAt(s, r.source, p, hops) == CanonicalAt(s, r.target, p, hops) <==> NothingAt(s, r, p, hops)
    {
      FilesAgreeExactly(s, r, p, hops);
    }
    if SameTrees(s, r, hops) {
      forall e
        ensures !Reported(s, r, e, hops)
      {
        if !e.SourceRoot? {
          assert NothingAt(s, r, e.relative, hops);
        }
      }
    }
    if forall e :: !Reported(s, r, e, hops) {
      forall p
        ensures CanonicalAt(s, r.source, p, hops) == CanonicalAt(s, r.target, p, hops)
      {
        assert !Reported(s, r, Parity(p), hops);
        assert !Reported(s, r, UndeclaredExtra(p), hops);
        assert !Reported(s, r, SymlinkEscape(p), hops);
      }
    }
  }

  // Nothing is reported about `p`.
  ghost predicate NothingAt(s: Store, r: Roots, p: Path, hops: nat) {
    !Reported(s, r, Parity(p), hops) && !Reported(s, r, UndeclaredExtra(p), hops)
    && !Reported(s, r, SymlinkEscape(p), hops)
  }

  lemma FilesAgreeExactly(s: Store, r: Roots, p: Path, hops: nat)
    requires WellFormed(s) && LinkFreeTrees(s, r, hops)
    ensures !AskRaises(s, r, p, hops) && !BrokenAt(s, r.source, p, hops) && !BrokenAt(s, r.target, p, hops)
    ensures CanonicalAt(s, r.source, p, hops) == CanonicalAt(s, r.target, p, hops) <==> NothingAt(s, r, p, hops)
  {
    NoLinkInTree(s, r.source, p, hops);
    NoLinkInTree(s, r.target, p, hops);
    if InTree(s, r.source, p, true, hops) {
      SourceFileExactly(s, r, p, hops);
    } else if InTree(s, r.target, p, true, hops) {
      ExtraStaysInside(s, r, p, hops);
    }
  }

  lemma NoLinkInTree(s: Store, root: Path, p: Path, hops: nat)
    requires LinkFree(s, root, hops)
    ensures !BrokenAt(s, root, p, hops)
    ensures InTree(s, root, p, true, hops) <==> InTree(s, root, p, false, hops)
    ensures InTree(s, root, p, true, hops) ==> s[RealOf(s, root, hops) + p].File?
  {
    var base := RealOf(s, root, hops);
    assert p != [] ==> base < base + p;
  }

  lemma SourceFileExactly(s: Store, r: Roots, p: Path, hops: nat)
    requires WellFormed(s) && LinkFreeTrees(s, r, hops) && InTree(s, r.source, p, true, hops)
    requires InTree(s, r.source, p, false, hops) && s[RealOf(s, r.source, hops) + p].File?
    ensures Differs(s, r, p, hops) ==
      Some(CanonicalAt(s, r.target, p, hops) != CanonicalAt(s, r.source, p, hops))
  {
    var source, target := RealOf(s, r.source, hops) + p, r.target + p;
    KeysArePlain(s, source);
    assert forall n | n in p :: n in source;
    LookupBelow(s, r.target, p, hops);
    PhysicalWalk(s, source, hops);
    if IsFile(s, target, hops) {
      ResolveIsWalk(s, [], target, hops);
    }
  }

  lemma ExtraStaysInside(s: Store, r: Roots, p: Path, hops: nat)
    requires WellFormed(s) && LinkFreeTrees(s, r, hops) && InTree(s, r.target, p, true, hops)
    requires s[RealOf(s, r.target, hops) + p].File?
    ensures Strays(s, r, p, hops) == Some(false)
  {
    var q := RealOf(s, r.target, hops) + p;
    PhysicalWalk(s, q, hops);
    ResolveIsWalk(s, [], q, hops);
  }

  /* ---- An empty report, with links ---- */

  ghost predicate NothingReported(s: Store, r: Roots, hops: nat) {
    !Raises(s, r, hops) && forall e :: !Reported(s, r, e, hops)
  }

  // The copy's own directory holds a regular file named `p`.
  predicate HoldsFile(s: Store, root: Path, p: Path, hops: nat) {
    var q := RealOf(s, root, hops) + p;
    IsDir(s, root, hops) && q in s && s[q].File?
  }

  // The source file `p` is a regular file exactly if the copy has one of that
  // name, not reached through a link.
  predicate SameKind(s: Store, r: Roots, p: Path, hops: nat) {
    InTree(s, r.source, p, false, hops) ==> (HoldsFile(s, r.source, p, hops) <==> HoldsFile(s, r.target, p, hops))
  }

  // An empty report means equal trees exactly if no link of one tree stands
  // where the other has a regular file.
  lemma SameTreesExactly(s: Store, r: Roots, hops: nat)
    requires WellFormed(s) && NothingReported(s, r, hops)
    ensures SameTrees(s, r, hops) <==> forall p :: SameKind(s, r, p, hops)
  {
    forall p
      ensures CanonicalAt(s, r.source, p, hops) == CanonicalAt(s, r.target, p, hops) <==> SameKind(s, r, p, hops)
    {
      SameFileExactly(s, r, p, hops);
    }
  }

  lemma SameFileExactly(s: Store, r: Roots, p: Path, hops: nat)
    requires WellFormed(s) && NothingReported(s, r, hops)
    ensures CanonicalAt(s, r.source, p, hops) == CanonicalAt(s, r.target, p, hops) <==> SameKind(s, r, p, hops)
  {
    assert !Reported(s, r, SourceRoot, hops) && !AskRaises(s, r, p, hops);
    assert !Reported(s, r, Parity(p), hops);
    assert !Reported(s, r, UndeclaredExtra(p), hops);
    assert !Reported(s, r, SymlinkEscape(p), hops);
    if InTree(s, r.source, p, false, hops) {
      assert Differs(s, r, p, hops) == Some(false);
      FileInTree(s, r.source, p, hops);
      FileInTree(s, r.target, p, hops);
    }
  }

  // A regular file that the directory itself holds is found by its name.
  lemma FileInTree(s: Store, root: Path, p: Path, hops: nat)
    requires WellFormed(s) && p != []
    ensures HoldsFile(s, root, p, hops) ==>
      var q := RealOf(s, root, hops) + p;
      Walk(s, [], q, hops) == Found(q) && Walk(s, [], root + p, hops) == Found(q)
  {
    if HoldsFile(s, root, p, hops) {
      var l, left := Walk(s, [], root, hops).at, hops - Cost(s, [], root, hops);
      PhysicalWalk(s, l + p, hops);
      WalkThen(s, [], root, p, hops, left);
      WalkEnds(s, [], root, hops);
      PhysicalWalk(s, l + p, left);
      PhysicalThen(s, l, p, left);
    }
  }
}
