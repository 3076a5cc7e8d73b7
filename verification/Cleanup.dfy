// Exact-path cleanup of a controlled run: the manifest's paths are made
// unique, checked, and the accepted ones deleted with all they hold.
module Cleanup {
  import opened Paths
  import opened FileStore
  import opened FileOps
  import opened Options
  import opened Volumes
  import opened SafePaths
  import opened PathText

  /* ---- Checking one path ---- */

  // `Path(text)`, seen from the working directory.
  function Named(text: string, cwd: Path): Path {
    (if IsAbsolute(text) then [] else cwd) + NoDots(Parts(text))
  }

  const GLOB_CHARS: set<char> := {'*', '?', '[', ']'}
  const STRUCTURAL_DIRS: set<Name> := {"pending", "acknowledged", "task-spec"}
  const SHALLOW_CATEGORIES: set<Name> := {"tmp", "test-runs"}

  // The regular expression `_\d{8}T` matches at `i`.
  predicate DateAt(n: Name, i: nat) {
    i + 10 <= |n| && n[i] == '_' && n[i + 9] == 'T' && forall k | i < k < i + 9 :: '0' <= n[k] <= '9'
  }

  predicate HasDate(n: Name) {
    exists i | 0 <= i < |n| :: DateAt(n, i)
  }

  datatype Reason =
    | OutsideRoot | GlobCharacters | RootDirectory | CategoryOnly | NotSpecific | Structural
    | DatePrefix | Traversal | Unresolvable | IsLink

  // What the text of a path already tells.
  function Shape(norm: string, root: string): Option<Reason> {
    if norm != root && !(root + [SLASH] <= norm) then Some(OutsideRoot)
    else if exists c | c in norm :: c in GLOB_CHARS then Some(GlobCharacters)
    else if norm == [SLASH] || norm == root || norm == root + [SLASH] then Some(RootDirectory)
    else Depth(Parts(norm[|root|..]))
  }

  function Depth(parts: Path): Option<Reason> {
    if parts == [] then Some(RootDirectory)
    else if |parts| == 1 then Some(CategoryOnly)
    else if parts[0] !in SHALLOW_CATEGORIES && |parts| < 3 then Some(NotSpecific)
    else if parts[0] !in SHALLOW_CATEGORIES && Last(parts) in STRUCTURAL_DIRS then Some(Structural)
    else if HasDate(Last(parts)) then Some(DatePrefix)
    else None
  }

  // The text has a date: an underscore, eight digits and a T.
  ghost predicate IsDated(n: Name) {
    exists a, digits, b :: IsDateIn(n, a, digits, b)
  }

  ghost predicate IsDateIn(n: Name, a: string, digits: string, b: string) {
    n == a + "_" + digits + "T" + b && |digits| == 8 && forall c | c in digits :: '0' <= c <= '9'
  }

  lemma DateExactly(n: Name)
    ensures HasDate(n) <==> IsDated(n)
  {
    if i :| 0 <= i < |n| && DateAt(n, i) {
      var a, digits, b := n[..i], n[i + 1..i + 9], n[i + 10..];
      assert n == a + "_" + digits + "T" + b;
      assert forall k | 0 <= k < 8 :: digits[k] == n[i + 1 + k];
      assert IsDateIn(n, a, digits, b);
    }
    if a, digits, b :| IsDateIn(n, a, digits, b) {
      forall k | |a| < k < |a| + 9
        ensures '0' <= n[k] <= '9'
      {
        assert n[k] == digits[k - |a| - 1] && digits[k - |a| - 1] in digits;
      }
      assert DateAt(n, |a|);
    }
  }

  // Components below the runtime root that name one artifact: a run below tmp
  // or test-runs, elsewhere something at the third level that is no grouping
  // directory; no group of a date.
  ghost predicate IsArtifact(parts: Path) {
    && parts != [] && !IsDated(Last(parts))
    && if parts[0] == "tmp" || parts[0] == "test-runs" then |parts| >= 2
       else |parts| >= 3 && Last(parts) != "pending" && Last(parts) != "acknowledged" && Last(parts) != "task-spec"
  }

  // The text lies below the root, has no wildcard and names an artifact.
  ghost predicate IsArtifactText(text: string, root: string) {
    && root + [SLASH] <= text && IsArtifact(Parts(text[|root|..]))
    && forall c | c in text :: c != '*' && c != '?' && c != '[' && c != ']'
  }

  // The text passes exactly then.
  lemma ShapeExactly(norm: string, root: string)
    ensures Shape(norm, root).None? <==> IsArtifactText(norm, root)
  {
    if root + [SLASH] <= norm {
      var parts := Parts(norm[|root|..]);
      if parts != [] {
        DateExactly(Last(parts));
      }
      if norm == root + [SLASH] || norm == [SLASH] {
        assert norm[|root|..] == [SLASH] && Parts([SLASH]) == [];
      }
    }
  }

  // The reason tells how the components fall short.
  lemma ReasonExactly(parts: Path)
    requires !IsArtifact(parts)
    ensures Depth(parts) == Some(
      if parts == [] then RootDirectory
      else if |parts| == 1 then CategoryOnly
      else if parts[0] == "tmp" || parts[0] == "test-runs" then DatePrefix
      else if |parts| == 2 then NotSpecific
      else if Last(parts) in {"pending", "acknowledged", "task-spec"} then Structural
      else DatePrefix)
  {
    if parts != [] {
      DateExactly(Last(parts));
    }
  }

  // Where both names lead somewhere, the path is contained exactly if its place
  // lies below that of the root.
  lemma ContainmentExactly(s: Store, p: Path, root: Path, hops: nat)
    requires Walk(s, [], p, hops).Found? && Walk(s, [], root, hops).Found?
    ensures Containment(s, p, root, hops) ==
      if Walk(s, [], root, hops).at <= Walk(s, [], p, hops).at then None else Some(Traversal)
  {
    ResolveIsWalk(s, [], p, hops);
    ResolveIsWalk(s, [], root, hops);
  }

  function Containment(s: Store, p: Path, root: Path, hops: nat): Option<Reason> {
    var at, top := Resolve(s, [], p, hops), Resolve(s, [], root, hops);
    if !at.Found? || !top.Found? then Some(Unresolvable)
    else if !Within(at.at, top.at) then Some(Traversal)
    else None
  }

  // `_validate_path`: None for a path that passes.
  function Verdict(s: Store, text: string, runtimeRoot: string, cwd: Path, hops: nat): Option<Reason> {
    var norm, root := Normal(text), TrimSlashes(runtimeRoot);
    if Shape(norm, root).Some? then Shape(norm, root)
    else Containment(s, Named(norm, cwd), Named(root, cwd), hops)
  }

  predicate LeadsSomewhere(s: Store, text: string, cwd: Path, hops: nat) {
    Exists(s, Named(text, cwd), hops) && IsSymlink(s, Named(text, cwd), hops)
  }

  // A path that is neither rejected by `_validate_path` nor a link that leads
  // somewhere.
  predicate Accepted(s: Store, text: string, runtimeRoot: string, cwd: Path, hops: nat) {
    && Verdict(s, text, runtimeRoot, cwd, hops).None?
    && !LeadsSomewhere(s, text, cwd, hops)
  }

  /* ---- Deleting ---- */

  // `shutil.rmtree`: everything below goes first; the file system root, and a
  // name that ends in "..", cannot be removed themselves.
  function RemoveTree(s: Store, p: Path, hops: nat): Outcome {
    var l := Walk(s, [], p, hops);
    if !l.Found? then Outcome(s, false)
    else
      var keepsTop := p == [] || Last(p) == UP || l.at == [];
      Outcome(map q | q in s && !(if keepsTop then l.at < q else l.at <= q) :: s[q], !keepsTop)
  }

  datatype Fate = Deleted | WasMissing | WasLink | Failed

  function AfterDelete(s: Store, p: Path, hops: nat): Outcome {
    if !Exists(s, p, hops) || IsSymlink(s, p, hops) then Outcome(s, true)
    else if IsDir(s, p, hops) then RemoveTree(s, p, hops)
    else Unlink(s, p, hops)
  }

  function FateOf(s: Store, p: Path, hops: nat): Fate {
    if !Exists(s, p, hops) then WasMissing
    else if IsSymlink(s, p, hops) then WasLink
    else if AfterDelete(s, p, hops).ok then Deleted
    else Failed
  }

  function Run(s: Store, ps: seq<Path>, hops: nat): Store {
    if ps == [] then s else Run(AfterDelete(s, ps[0], hops).store, ps[1..], hops)
  }

  function Tally(s: Store, ps: seq<Path>, fate: Fate, hops: nat): nat {
    if ps == [] then 0
    else (if FateOf(s, ps[0], hops) == fate then 1 else 0) + Tally(AfterDelete(s, ps[0], hops).store, ps[1..], fate,
        hops)
  }

  /* ---- What deleting leaves ---- */

  predicate Covered(q: Path, ps: seq<Path>) {
    exists p | p in ps :: p <= q
  }

  // Everything that has no name of `ps` as a prefix.
  function Pruned(s: Store, ps: seq<Path>): Store {
    map q | q in s && !Covered(q, ps) :: s[q]
  }

  // No prefix of `p` is a link, `p` included.
  ghost predicate Direct(s: Store, p: Path) {
    && p != [] && Plain(p)
    && forall k | 0 <= k <= |p| :: !IsLinkAt(s, p[..k])
  }

  ghost predicate AllDirect(s: Store, ps: seq<Path>) {
    forall p | p in ps :: Direct(s, p)
  }

  lemma {:induction false} AbsentDirect(s: Store, p: Path, hops: nat)
    requires WellFormed(s) && Direct(s, p) && p !in s
    ensures !Walk(s, [], p, hops).Found?
    decreases |p|
  {
    var q, n := Parent(p), Last(p);
    JoinParentLast(p);
    assert q == p[..|p| - 1] && n in p;
    if q in s {
      assert !IsLinkAt(s, q);
      PhysicalThen(s, q, [n], hops);
      if IsDirAt(s, q) {
        WalkCons(s, q, n, [], hops);
        assert [n] + [] == [n];
      }
    } else {
      assert q != [] && Plain(q);
      forall k | 0 <= k <= |q|
        ensures !IsLinkAt(s, q[..k])
      {
        assert q[..k] == p[..k];
      }
      AbsentDirect(s, q, hops);
      if Walk(s, [], q + [n], hops).Found? {
        WalkPrefix(s, [], q, [n], hops);
      }
    }
  }

  lemma DirectLookups(s: Store, p: Path, hops: nat)
    requires WellFormed(s) && Direct(s, p)
    ensures Exists(s, p, hops) <==> p in s
    ensures p in s ==>
      Walk(s, [], p, hops) == Found(p) && Locate(s, p, hops) == Found(p) && !IsSymlink(s, p, hops) && Last(p) != UP
  {
    if p in s {
      assert p[..|p|] == p;
      assert !s[p].Link?;
      KeysAreClear(s, p);
      ClearLookups(s, p, hops);
      assert Last(p) in p;
    } else {
      AbsentDirect(s, p, hops);
    }
  }

  // A link is refused if it leads somewhere; one that leads nowhere passes, is
  // counted as already missing, and stays.
  lemma LinksExactly(s: Store, text: string, cwd: Path, hops: nat)
    requires WellFormed(s) && Clear(s, Named(text, cwd))
    ensures LeadsSomewhere(s, text, cwd, hops) <==>
      IsLinkAt(s, Named(text, cwd)) && Exists(s, Named(text, cwd), hops)
    ensures IsLinkAt(s, Named(text, cwd)) && !LeadsSomewhere(s, text, cwd, hops) ==>
      FateOf(s, Named(text, cwd), hops) == WasMissing && AfterDelete(s, Named(text, cwd), hops).store == s
  {
    ClearLookups(s, Named(text, cwd), hops);
  }

  // One deletion removes a name and all below it, and nothing else.
  lemma DeleteDirect(s: Store, p: Path, hops: nat)
    requires WellFormed(s) && Direct(s, p)
    ensures AfterDelete(s, p, hops).store == Pruned(s, [p])
    ensures FateOf(s, p, hops) == if p in s then Deleted else WasMissing
  {
    DirectLookups(s, p, hops);
    forall q
      ensures Covered(q, [p]) <==> p <= q
    {
      assert p in [p];
    }
    forall q | q in s && p <= q
      ensures p in s && (q == p || s[p].Dir?)
    {
      if p < q {
        PrefixesAreDirs(s, q, |p|);
        assert q[..|p|] == p;
      } else {
        assert q == p;
      }
    }
    assert AfterDelete(s, p, hops).store == Pruned(s, [p]);
  }

  lemma PrunedIsWellFormed(s: Store, ps: seq<Path>)
    requires WellFormed(s) && [] !in ps
    ensures WellFormed(Pruned(s, ps))
  {
    forall q | q in s && q != [] && Covered(Parent(q), ps)
      ensures Covered(q, ps)
    {
      var p :| p in ps && p <= Parent(q);
      assert p <= q;
    }
  }

  lemma PrunedTwice(s: Store, p: Path, ps: seq<Path>)
    ensures Pruned(Pruned(s, [p]), ps) == Pruned(s, [p] + ps)
  {
    forall q
      ensures Covered(q, [p] + ps) <==> Covered(q, [p]) || Covered(q, ps)
    {
      if p <= q {
        assert p in [p] && p in [p] + ps;
      }
      if Covered(q, ps) {
        var r :| r in ps && r <= q;
        assert r in [p] + ps;
      }
    }
  }

  // The tree after a run over names that meet no link: exactly the nodes that
  // no accepted name covers.  What is not deleted was already gone.
  lemma {:induction false} RunPrunes(s: Store, ps: seq<Path>, hops: nat)
    requires WellFormed(s) && AllDirect(s, ps)
    ensures Run(s, ps, hops) == Pruned(s, ps)
    ensures Tally(s, ps, Deleted, hops) + Tally(s, ps, WasMissing, hops) == |ps|
    ensures Tally(s, ps, WasLink, hops) == 0 && Tally(s, ps, Failed, hops) == 0
  {
    if ps != [] {
      var p, rest := ps[0], ps[1..];
      var t := AfterDelete(s, p, hops).store;
      assert Direct(s, p);
      DeleteDirect(s, p, hops);
      PrunedIsWellFormed(s, [p]);
      forall q | q in rest
        ensures Direct(t, q)
      {
        assert Direct(s, q);
      }
      RunPrunes(t, rest, hops);
      PrunedTwice(s, p, rest);
      assert [p] + rest == ps;
    } else {
      assert Pruned(s, ps) == s;
    }
  }

  // The order in which the names are deleted does not matter.
  lemma OrderDoesNotMatter(s: Store, ps: seq<Path>, qs: seq<Path>, hops: nat)
    requires WellFormed(s) && AllDirect(s, ps)
    requires forall p :: p in ps <==> p in qs
    ensures Run(s, ps, hops) == Run(s, qs, hops)
  {
    RunPrunes(s, ps, hops);
    RunPrunes(s, qs, hops);
    assert forall q :: Covered(q, ps) <==> Covered(q, qs);
  }

  // Afterwards none of the names exists.
  lemma NothingLeft(s: Store, ps: seq<Path>, p: Path, hops: nat)
    requires WellFormed(s) && AllDirect(s, ps) && p in ps
    ensures !Exists(Run(s, ps, hops), p, hops)
  {
    RunPrunes(s, ps, hops);
    assert [] !in ps by {
      assert forall q | q in ps :: Direct(s, q);
    }
    PrunedIsWellFormed(s, ps);
    var t := Pruned(s, ps);
    assert Direct(s, p) && Direct(t, p);
    assert p <= p && Covered(p, ps);
    DirectLookups(t, p, hops);
  }

  /* ---- Which directories survive ---- */

  // Two components below `root` besides ".": what the check means to demand.
  predicate IsSpecific(text: string, root: string, cwd: Path) {
    |Named(text, cwd)| >= |Named(root, cwd)| + 2
  }

  lemma {:induction false} PartsGrow(a: string, b: string)
    ensures |Parts(a)| <= |Parts(a + b)|
  {
    if a != "" {
      assert (a + b)[0] == a[0] && (a + b)[1..] == a[1..] + b;
      PartsGrow(a[1..], b);
      if |a| > 1 {
        assert (a + b)[1] == a[1];
      }
    }
  }

  lemma ShapePasses(norm: string, root: string)
    requires Shape(norm, root).None?
    ensures root + [SLASH] <= norm && |Parts(norm[|root|..])| >= 2
  {}

  // What a name below `root` adds to it.
  lemma NamedBelow(root: string, tail: string, cwd: Path)
    requires root != ""
    ensures Named(root + [SLASH] + tail, cwd) == Named(root, cwd) + NoDots(Parts(tail))
  {
    PartsThenSlash(root, tail);
    NoDotsJoin(Parts(root), Parts(tail));
    assert IsAbsolute(root + [SLASH] + tail) == IsAbsolute(root);
  }

  lemma PartsBelow(root: string, text: string)
    requires root + [SLASH] <= text
    ensures Parts(text[|root|..]) == Parts(text[|root| + 1..]) && text == root + [SLASH] + text[|root| + 1..]
  {
    assert text[|root|..][1..] == text[|root| + 1..];
  }

  // An accepted manifest path names something below the runtime root; two
  // components below it unless some of its components are ".".
  lemma AcceptedIsBelowRoot(s: Store, raw: string, runtimeRoot: string, cwd: Path, hops: nat)
    requires TrimSlashes(runtimeRoot) != ""
    requires Verdict(s, Normal(raw), runtimeRoot, cwd, hops).None?
    ensures var text, root := Normal(raw), TrimSlashes(runtimeRoot);
      && root <= text && Named(root, cwd) <= Named(text, cwd)
      && (DOT !in Parts(text[|root|..]) ==> IsSpecific(text, root, cwd))
  {
    NormalTwice(raw);
    ShapePasses(Normal(Normal(raw)), TrimSlashes(runtimeRoot));
    ShapedIsBelow(Normal(raw), Normal(Normal(raw)), TrimSlashes(runtimeRoot), cwd);
  }

  lemma ShapedIsBelow(text: string, norm: string, root: string, cwd: Path)
    requires root != "" && norm <= text && root + [SLASH] <= norm && |Parts(norm[|root|..])| >= 2
    ensures root <= text && Named(root, cwd) <= Named(text, cwd)
    ensures DOT !in Parts(text[|root|..]) ==> IsSpecific(text, root, cwd)
  {
    var tail, checked := text[|root| + 1..], norm[|root| + 1..];
    PartsBelow(root, text);
    PartsBelow(root, norm);
    assert tail == checked + text[|norm|..];
    NamedBelow(root, tail, cwd);
    PartsGrow(checked, text[|norm|..]);
    if DOT !in Parts(tail) {
      NoDotsKeeps(Parts(tail));
    }
  }

  function Targets(texts: seq<string>, cwd: Path): seq<Path> {
    seq(|texts|, i requires 0 <= i < |texts| => Named(texts[i], cwd))
  }

  // A manifest's accepted paths, as `_normalize` spells them.
  ghost predicate AllAccepted(s: Store, texts: seq<string>, runtimeRoot: string, cwd: Path, hops: nat) {
    forall i | 0 <= i < |texts| ::
      Verdict(s, texts[i], runtimeRoot, cwd, hops).None? && exists raw :: texts[i] == Normal(raw)
  }

  // The runtime root and every directory right below it, if there.
  predicate IsCategory(q: Path, root: Path) {
    root <= q && |q| <= |root| + 1
  }

  ghost predicate CategoriesKept(s: Store, t: Store, root: Path) {
    forall q | q in s && IsCategory(q, root) :: q in t
  }

  // Every path that is there to delete is specific.
  ghost predicate PresentAreSpecific(s: Store, texts: seq<string>, root: string, cwd: Path) {
    forall text | text in texts && Named(text, cwd) in s :: IsSpecific(text, root, cwd)
  }

  lemma AcceptedAreBelow(s: Store, texts: seq<string>, runtimeRoot: string, cwd: Path, hops: nat, i: nat)
    requires TrimSlashes(runtimeRoot) != "" && i < |texts|
    requires AllAccepted(s, texts, runtimeRoot, cwd, hops)
    ensures Named(TrimSlashes(runtimeRoot), cwd) <= Named(texts[i], cwd) && Named(texts[i], cwd) == Targets(texts,
        cwd)[i]
  {
    var raw :| texts[i] == Normal(raw);
    AcceptedIsBelowRoot(s, raw, runtimeRoot, cwd, hops);
  }

  // A run keeps the runtime root and its categories exactly when every path
  // that is there to delete is specific.
  lemma CategoriesKeptExactly(s: Store, texts: seq<string>, runtimeRoot: string, cwd: Path, hops: nat)
    requires WellFormed(s) && TrimSlashes(runtimeRoot) != ""
    requires AllAccepted(s, texts, runtimeRoot, cwd, hops) && AllDirect(s, Targets(texts, cwd))
    ensures var root := TrimSlashes(runtimeRoot);
      (CategoriesKept(s, Run(s, Targets(texts, cwd), hops), Named(root, cwd)) <==>
      PresentAreSpecific(s, texts, root, cwd))
  {
    var root, ps := TrimSlashes(runtimeRoot), Targets(texts, cwd);
    var top := Named(root, cwd);
    RunPrunes(s, ps, hops);
    if CategoriesKept(s, Pruned(s, ps), top) {
      forall text | text in texts && Named(text, cwd) in s
        ensures IsSpecific(text, root, cwd)
      {
        var i :| 0 <= i < |texts| && texts[i] == text;
        AcceptedAreBelow(s, texts, runtimeRoot, cwd, hops, i);
        assert ps[i] in ps && Covered(ps[i], ps);
        assert !IsCategory(ps[i], top);
      }
    }
    if PresentAreSpecific(s, texts, root, cwd) {
      forall q | q in s && IsCategory(q, top)
        ensures !Covered(q, ps)
      {
        CategoryUncovered(s, texts, runtimeRoot, cwd, hops, q);
      }
    }
  }

  lemma CategoryUncovered(s: Store, texts: seq<string>, runtimeRoot: string, cwd: Path, hops: nat, q: Path)
    requires WellFormed(s) && TrimSlashes(runtimeRoot) != ""
    requires AllAccepted(s, texts, runtimeRoot, cwd, hops)
    requires PresentAreSpecific(s, texts, TrimSlashes(runtimeRoot), cwd)
    requires q in s && IsCategory(q, Named(TrimSlashes(runtimeRoot), cwd))
    ensures !Covered(q, Targets(texts, cwd))
  {
    forall i | 0 <= i < |texts|
      ensures !(Targets(texts, cwd)[i] <= q)
    {
      AcceptedAreBelow(s, texts, runtimeRoot, cwd, hops, i);
      var p := Named(texts[i], cwd);
      assert texts[i] in texts;
      if p <= q {
        AncestorsExist(s, q, p);
      }
    }
  }

  lemma AncestorsExist(s: Store, q: Path, p: Path)
    requires WellFormed(s) && q in s && p <= q
    ensures p in s
  {
    if p < q {
      PrefixesAreDirs(s, q, |p|);
      assert q[..|p|] == p;
    } else {
      assert p == q;
    }
  }

  // Below a root "/r", the path "/r/tmp/." has two components, passes, and
  // names the category directory itself.
  lemma DotNamesTheCategory(r: Name, root: string, text: string, cwd: Path, hops: nat)
    requires IsName(r) && r != DOT && r != UP && forall c | c in r :: c !in GLOB_CHARS
    requires root == [SLASH] + r && text == root + [SLASH] + ("tmp" + [SLASH] + DOT)
    ensures var s: Store := map[[] := Dir, [r] := Dir, [r, "tmp"] := Dir];
      && Accepted(s, text, root, cwd, hops)
      && !CategoriesKept(s, Run(s, Targets([text], cwd), hops), Named(root, cwd))
  {
    var s: Store := map[[] := Dir, [r] := Dir, [r, "tmp"] := Dir];
    var p := [r, "tmp"];
    DotNamed(r, root, text, cwd);
    DotTree(s, r);
    DotText(r, root, text);
    DotShape(text, root);
    DirectPasses(s, text, root, cwd, [r, "tmp", "x"], hops);
    DirectLookups(s, p, hops);
    assert Targets([text], cwd) == [p];
    DotDeletes(s, p, hops);
  }

  // A path that runs through no link is contained.
  lemma DirectPasses(s: Store, norm: string, root: string, cwd: Path, q: Path, hops: nat)
    requires Normal(norm) == norm && TrimSlashes(root) == root && Shape(norm, root).None?
    requires Clear(s, q) && Named(root, cwd) <= Named(norm, cwd) < q
    ensures Verdict(s, norm, root, cwd, hops).None?
  {
    ResolvePrefix(s, q, Named(norm, cwd), hops);
    ResolvePrefix(s, q, Named(root, cwd), hops);
  }

  lemma DotDeletes(s: Store, p: Path, hops: nat)
    requires WellFormed(s) && Direct(s, p) && p in s && |p| == 2
    ensures !CategoriesKept(s, Run(s, [p], hops), p[..1])
  {
    RunPrunes(s, [p], hops);
    assert p in [p] && Covered(p, [p]) && IsCategory(p, p[..1]);
  }

  lemma DotTree(s: Store, r: Name)
    requires r != UP && s == map[[] := Dir, [r] := Dir, [r, "tmp"] := Dir]
    ensures WellFormed(s) && Direct(s, [r, "tmp"]) && Clear(s, [r, "tmp", "x"])
  {
    var p, q := [r, "tmp"], [r, "tmp", "x"];
    assert Parent(p) == [r] && Parent([r]) == [];
    assert q[..0] == [] && q[..1] == [r] && q[..2] == p;
    assert p[..0] == [] && p[..1] == [r] && p[..2] == p;
  }

  lemma DotShape(norm: string, root: string)
    requires root + [SLASH] < norm && norm != [SLASH] && (forall c | c in norm :: c !in GLOB_CHARS)
    requires Parts(norm[|root|..]) == ["tmp", DOT]
    ensures Shape(norm, root) == None
  {
    assert !HasDate(DOT);
  }

  lemma DotText(r: Name, root: string, text: string)
    requires root == [SLASH] + r && text == root + [SLASH] + ("tmp" + [SLASH] + DOT)
    requires forall c | c in r :: c !in GLOB_CHARS
    ensures root + [SLASH] < text && text != [SLASH] && (forall c | c in text :: c !in GLOB_CHARS)
  {
    forall c | c in text
      ensures c !in GLOB_CHARS
    {
      assert c in r || c in [SLASH] || c in "tmp" || c in DOT;
    }
  }

  lemma DotNamed(r: Name, root: string, text: string, cwd: Path)
    requires IsName(r) && r != DOT && r != UP
    requires root == [SLASH] + r && text == root + [SLASH] + ("tmp" + [SLASH] + DOT)
    ensures Normal(text) == text && TrimSlashes(root) == root && Parts(text[|root|..]) == ["tmp", DOT]
    ensures Named(text, cwd) == [r, "tmp"] && Named(root, cwd) == [r]
  {
    var names, rest := [r, "tmp", DOT], ["tmp", DOT];
    DotSpelled(r, root, text);
    SpelledIsNormal(names);
    PartsOfSpelled(true, [r]);
    PartsOfJoined(rest);
    PartsBelow(root, text);
    NamedBelow(root, Joined(rest), cwd);
    assert NoDots(rest) == ["tmp"] by {
      assert NoDots([DOT]) == [];
    }
  }

  lemma DotSpelled(r: Name, root: string, text: string)
    requires IsName(r) && root == [SLASH] + r && text == root + [SLASH] + ("tmp" + [SLASH] + DOT)
    ensures root == Spelled(true, [r]) && text == Spelled(true, [r, "tmp", DOT])
        && text == root + [SLASH] + Joined(["tmp", DOT])
    ensures AreNames([r, "tmp", DOT]) && TrimSlashes(root) == root
    ensures !EndsInSpace(text)
  {
    var names, rest := [r, "tmp", DOT], ["tmp", DOT];
    assert names[1..] == rest && rest[1..] == [DOT];
    assert IsName("tmp") && IsName(DOT);
    assert Joined(rest) == "tmp" + [SLASH] + DOT;
    assert Joined(names) == r + [SLASH] + Joined(rest);
    assert root[|root| - 1] == r[|r| - 1] && r[|r| - 1] in r;
  }

  /* ---- The loops of `main` ---- */

  ghost predicate NoneTwice(texts: seq<string>) {
    forall i, j | 0 <= i < |texts| && 0 <= j < |texts| && texts[i] == texts[j] :: i == j
  }

  ghost predicate IsNormalOfSome(text: string, raws: seq<string>) {
    exists raw | raw in raws :: text == Normal(raw)
  }

  // Each path once, as `_normalize` spells it.
  method Unique(raws: seq<string>) returns (texts: seq<string>)
    ensures NoneTwice(texts)
    ensures forall raw | raw in raws :: Normal(raw) in texts
    ensures forall text | text in texts :: IsNormalOfSome(text, raws)
  {
    texts := [];
    var seen: set<string> := {};
    for i := 0 to |raws|
      invariant NoneTwice(texts)
      invariant forall text :: text in seen <==> text in texts
      invariant forall j | 0 <= j < i :: Normal(raws[j]) in texts
      invariant forall text | text in texts :: IsNormalOfSome(text, raws)
    {
      var norm := Normalize(raws[i]);
      if norm !in seen {
        seen := seen + {norm};
        texts := texts + [norm];
      }
    }
  }

  // The paths of a list that `_validate_path` lets pass, in its order.
  function WellNamed(s: Store, texts: seq<string>, runtimeRoot: string, cwd: Path, hops: nat): seq<string> {
    if texts == [] then []
    else
      var front, text := texts[..|texts| - 1], texts[|texts| - 1];
      WellNamed(s, front, runtimeRoot, cwd, hops) +
      if Verdict(s, text, runtimeRoot, cwd, hops).None? then [text] else []
  }

  // Those that are no link, or a link to nothing.
  function WithoutLinks(s: Store, texts: seq<string>, cwd: Path, hops: nat): (kept: seq<string>)
    ensures |kept| <= |texts|
  {
    if texts == [] then []
    else
      var front, text := texts[..|texts| - 1], texts[|texts| - 1];
      WithoutLinks(s, front, cwd, hops) + if LeadsSomewhere(s, text, cwd, hops) then [] else [text]
  }

  // The others, with the reason.
  function IllNamed(s: Store, texts: seq<string>, runtimeRoot: string, cwd: Path, hops: nat): seq<(string, Reason)> {
    if texts == [] then []
    else
      var front, text := texts[..|texts| - 1], texts[|texts| - 1];
      var verdict := Verdict(s, text, runtimeRoot, cwd, hops);
      IllNamed(s, front, runtimeRoot, cwd, hops) + if verdict.Some? then [(text, verdict.value)] else []
  }

  lemma {:induction false} IllNamedHas(s: Store, texts: seq<string>, runtimeRoot: string, cwd: Path, hops: nat,
      text: string, reason: Reason)
    ensures (text, reason) in IllNamed(s, texts, runtimeRoot, cwd, hops) <==>
      text in texts && Verdict(s, text, runtimeRoot, cwd, hops) == Some(reason)
  {
    if texts != [] {
      var front, last := texts[..|texts| - 1], texts[|texts| - 1];
      IllNamedHas(s, front, runtimeRoot, cwd, hops, text, reason);
      var verdict := Verdict(s, last, runtimeRoot, cwd, hops);
      LastRejection(IllNamed(s, front, runtimeRoot, cwd, hops), last, verdict, text, reason);
      InFrontOrLast(texts, text);
    }
  }

  lemma LastRejection(rest: seq<(string, Reason)>, last: string, verdict: Option<Reason>, text: string, reason: Reason)
    ensures (text, reason) in rest + (if verdict.Some? then [(last, verdict.value)] else []) <==>
      (text, reason) in rest || (text == last && verdict == Some(reason))
  {}

  // The links that lead somewhere.
  function LinksOf(s: Store, texts: seq<string>, cwd: Path, hops: nat): seq<string> {
    if texts == [] then []
    else
      var front, text := texts[..|texts| - 1], texts[|texts| - 1];
      LinksOf(s, front, cwd, hops) + if LeadsSomewhere(s, text, cwd, hops) then [text] else []
  }

  lemma InFrontOrLast(texts: seq<string>, text: string)
    requires texts != []
    ensures text in texts <==> text in texts[..|texts| - 1] || text == texts[|texts| - 1]
  {
    assert texts == texts[..|texts| - 1] + [texts[|texts| - 1]];
  }

  lemma {:induction false} LinksOfHas(s: Store, texts: seq<string>, cwd: Path, hops: nat, text: string)
    ensures text in LinksOf(s, texts, cwd, hops) <==> text in texts && LeadsSomewhere(s, text, cwd, hops)
  {
    if texts != [] {
      LinksOfHas(s, texts[..|texts| - 1], cwd, hops, text);
      assert texts == texts[..|texts| - 1] + [texts[|texts| - 1]];
    }
  }

  function Kept(s: Store, texts: seq<string>, runtimeRoot: string, cwd: Path, hops: nat): seq<string> {
    WithoutLinks(s, WellNamed(s, texts, runtimeRoot, cwd, hops), cwd, hops)
  }

  lemma {:induction false} WellNamedHas(s: Store, texts: seq<string>, runtimeRoot: string, cwd: Path, hops: nat,
      text: string)
    ensures text in WellNamed(s, texts, runtimeRoot, cwd, hops) <==>
      text in texts && Verdict(s, text, runtimeRoot, cwd, hops).None?
  {
    if texts != [] {
      WellNamedHas(s, texts[..|texts| - 1], runtimeRoot, cwd, hops, text);
      assert texts == texts[..|texts| - 1] + [texts[|texts| - 1]];
    }
  }

  lemma {:induction false} WithoutLinksHas(s: Store, texts: seq<string>, cwd: Path, hops: nat, text: string)
    ensures text in WithoutLinks(s, texts, cwd, hops) <==> text in texts && !LeadsSomewhere(s, text, cwd, hops)
  {
    if texts != [] {
      WithoutLinksHas(s, texts[..|texts| - 1], cwd, hops, text);
      assert texts == texts[..|texts| - 1] + [texts[|texts| - 1]];
    }
  }

  lemma KeptHas(s: Store, texts: seq<string>, runtimeRoot: string, cwd: Path, hops: nat, text: string)
    ensures text in Kept(s, texts, runtimeRoot, cwd, hops) <==> text in texts && Accepted(s, text, runtimeRoot, cwd,
        hops)
  {
    WellNamedHas(s, texts, runtimeRoot, cwd, hops, text);
    WithoutLinksHas(s, WellNamed(s, texts, runtimeRoot, cwd, hops), cwd, hops, text);
  }

  method CheckNames(v: Volume, texts: seq<string>, runtimeRoot: string, cwd: Path)
    returns (valid: seq<string>, rejected: seq<(string, Reason)>)
    ensures valid == WellNamed(v.nodes, texts, runtimeRoot, cwd, v.hops)
    ensures rejected == IllNamed(v.nodes, texts, runtimeRoot, cwd, v.hops)
    ensures |valid| + |rejected| == |texts|
  {
    valid, rejected := [], [];
    for i := 0 to |texts|
      invariant valid == WellNamed(v.nodes, texts[..i], runtimeRoot, cwd, v.hops)
      invariant rejected == IllNamed(v.nodes, texts[..i], runtimeRoot, cwd, v.hops)
      invariant |valid| + |rejected| == i
    {
      assert texts[..i + 1][..i] == texts[..i];
      var verdict := Verdict(v.nodes, texts[i], runtimeRoot, cwd, v.hops);
      if verdict.None? {
        valid := valid + [texts[i]];
      } else {
        rejected := rejected + [(texts[i], verdict.value)];
      }
    }
    assert texts[..|texts|] == texts;
  }

  lemma NextLink(s: Store, texts: seq<string>, i: nat, cwd: Path, hops: nat)
    requires i < |texts|
    ensures LinksOf(s, texts[..i + 1], cwd, hops) ==
      LinksOf(s, texts[..i], cwd, hops) + if LeadsSomewhere(s, texts[i], cwd, hops) then [texts[i]] else []
    ensures WithoutLinks(s, texts[..i + 1], cwd, hops) ==
      WithoutLinks(s, texts[..i], cwd, hops) + if LeadsSomewhere(s, texts[i], cwd, hops) then [] else [texts[i]]
  {
    assert texts[..i + 1][..i] == texts[..i];
  }

  method CheckLinks(v: Volume, texts: seq<string>, cwd: Path) returns (valid: seq<string>, links: seq<string>)
    ensures valid == WithoutLinks(v.nodes, texts, cwd, v.hops)
    ensures links == LinksOf(v.nodes, texts, cwd, v.hops)
    ensures forall text :: text in links <==> text in texts && LeadsSomewhere(v.nodes, text, cwd, v.hops)
    ensures |valid| + |links| == |texts|
  {
    valid, links := [], [];
    for i := 0 to |texts|
      invariant valid == WithoutLinks(v.nodes, texts[..i], cwd, v.hops)
      invariant links == LinksOf(v.nodes, texts[..i], cwd, v.hops)
      invariant |valid| + |links| == i
    {
      NextLink(v.nodes, texts, i, cwd, v.hops);
      if LeadsSomewhere(v.nodes, texts[i], cwd, v.hops) {
        links := links + [texts[i]];
      } else {
        valid := valid + [texts[i]];
      }
    }
    assert texts[..|texts|] == texts;
    forall text
      ensures text in links <==> text in texts && LeadsSomewhere(v.nodes, text, cwd, v.hops)
    {
      LinksOfHas(v.nodes, texts, cwd, v.hops, text);
    }
  }

  method DeletePath(v: Volume, p: Path) returns (fate: Fate)
    modifies v`nodes
    ensures v.nodes == AfterDelete(old(v.nodes), p, v.hops).store
    ensures fate == FateOf(old(v.nodes), p, v.hops)
  {
    if !Exists(v.nodes, p, v.hops) {
      return WasMissing;
    }
    if IsSymlink(v.nodes, p, v.hops) {
      return WasLink;
    }
    var ok;
    if IsDir(v.nodes, p, v.hops) {
      var o := RemoveTree(v.nodes, p, v.hops);
      v.nodes, ok := o.store, o.ok;
    } else {
      ok := v.Remove(p);
    }
    return if ok then Deleted else Failed;
  }

  // The deletion loop.
  method DeleteAll(v: Volume, ps: seq<Path>) returns (deleted: nat, missing: nat, links: nat)
    modifies v`nodes
    ensures v.nodes == Run(old(v.nodes), ps, v.hops)
    ensures deleted == Tally(old(v.nodes), ps, Deleted, v.hops)
    ensures missing == Tally(old(v.nodes), ps, WasMissing, v.hops)
    ensures links == Tally(old(v.nodes), ps, WasLink, v.hops)
  {
    deleted, missing, links := 0, 0, 0;
    ghost var s := v.nodes;
    for i := 0 to |ps|
      invariant Run(v.nodes, ps[i..], v.hops) == Run(s, ps, v.hops)
      invariant deleted + Tally(v.nodes, ps[i..], Deleted, v.hops) == Tally(s, ps, Deleted, v.hops)
      invariant missing + Tally(v.nodes, ps[i..], WasMissing, v.hops) == Tally(s, ps, WasMissing, v.hops)
      invariant links + Tally(v.nodes, ps[i..], WasLink, v.hops) == Tally(s, ps, WasLink, v.hops)
    {
      assert ps[i..][0] == ps[i] && ps[i..][1..] == ps[i + 1..];
      var fate := DeletePath(v, ps[i]);
      match fate {
        case Deleted => deleted := deleted + 1;
        case WasMissing => missing := missing + 1;
        case WasLink => links := links + 1;
        case Failed =>
      }
    }
  }

  // Whether a path is still there after the run.
  method AnyLeft(v: Volume, ps: seq<Path>) returns (left: bool)
    ensures left <==> exists p | p in ps :: Exists(v.nodes, p, v.hops)
  {
    left := false;
    for i := 0 to |ps|
      invariant left <==> exists j | 0 <= j < i :: Exists(v.nodes, ps[j], v.hops)
    {
      if Exists(v.nodes, ps[i], v.hops) {
        left := true;
      }
    }
  }

  datatype Report = Report(total: nat, deleted: nat, alreadyMissing: nat, rejected: nat, links: nat, success: bool)

  // `main`, without its printed lines.
  method CleanUp(v: Volume, manifest: seq<string>, runtimeRoot: string, cwd: Path)
      returns (report: Report, valid: seq<string>)
    requires WellFormed(v.nodes)
    modifies v`nodes
    ensures var s, targets := old(v.nodes), Targets(valid, cwd);
      && AllAccepted(s, valid, runtimeRoot, cwd, v.hops)
      && (forall raw | raw in manifest :: Normal(raw) in valid <==> Accepted(s, Normal(raw), runtimeRoot, cwd, v.hops))
      && (forall text | text in valid :: StaysInside(s, text, runtimeRoot, cwd, v.hops))
      && v.nodes == Run(s, targets, v.hops)
      && report.total == |valid| + report.rejected == |set raw | raw in manifest :: Normal(raw)|
      && report.deleted == Tally(s, targets, Deleted, v.hops)
      && report.alreadyMissing == Tally(s, targets, WasMissing, v.hops)
      && (report.success <==> forall p | p in targets :: !Exists(v.nodes, p, v.hops))
      && (AllDirect(s, targets) ==>
        v.nodes == Pruned(s, targets) && report.success && report.deleted + report.alreadyMissing == |valid|)
  {
    ghost var s := v.nodes;
    var texts := Unique(manifest);
    var wellNamed, rejected := CheckNames(v, texts, runtimeRoot, cwd);
    var checked;
    valid, checked := CheckLinks(v, wellNamed, cwd);
    var targets := Targets(valid, cwd);
    ValidAreAccepted(s, manifest, texts, runtimeRoot, cwd, v.hops);
    AsManyAsDistinct(manifest, texts);
    AcceptedStayInside(s, valid, runtimeRoot, cwd, v.hops);
    var deleted, missing, links := DeleteAll(v, targets);
    var left := AnyLeft(v, targets);
    report := Report(|texts|, deleted, missing, |rejected| + |checked|, |checked| + links, !left);
    if AllDirect(s, targets) {
      RunPrunes(s, targets, v.hops);
      forall p | p in targets
        ensures !Exists(v.nodes, p, v.hops)
      {
        NothingLeft(s, targets, p, v.hops);
      }
    }
  }

  // The path names an artifact below the runtime root, by its text and by the
  // place it leads to.
  ghost predicate StaysInside(s: Store, text: string, runtimeRoot: string, cwd: Path, hops: nat) {
    var norm, root := Normal(text), TrimSlashes(runtimeRoot);
    var place, top := Walk(s, [], Named(norm, cwd), hops), Walk(s, [], Named(root, cwd), hops);
    && IsArtifactText(norm, root)
    && (place.Found? && top.Found? ==> top.at <= place.at)
  }

  lemma AcceptedStayInside(s: Store, texts: seq<string>, runtimeRoot: string, cwd: Path, hops: nat)
    requires AllAccepted(s, texts, runtimeRoot, cwd, hops)
    ensures forall text | text in texts :: StaysInside(s, text, runtimeRoot, cwd, hops)
  {
    forall text | text in texts
      ensures StaysInside(s, text, runtimeRoot, cwd, hops)
    {
      var norm, root := Normal(text), TrimSlashes(runtimeRoot);
      ShapeExactly(norm, root);
      if Walk(s, [], Named(norm, cwd), hops).Found? && Walk(s, [], Named(root, cwd), hops).Found? {
        ContainmentExactly(s, Named(norm, cwd), Named(root, cwd), hops);
      }
    }
  }

  lemma AsManyAsDistinct(raws: seq<string>, texts: seq<string>)
    requires NoneTwice(texts)
    requires forall raw | raw in raws :: Normal(raw) in texts
    requires forall text | text in texts :: IsNormalOfSome(text, raws)
    ensures |texts| == |set raw | raw in raws :: Normal(raw)|
  {
    SizeOfDistinct(texts);
    forall text
      ensures text in (set raw | raw in raws :: Normal(raw)) <==> text in texts
    {
      if text in texts {
        assert IsNormalOfSome(text, raws);
      }
    }
    assert (set raw | raw in raws :: Normal(raw)) == set text | text in texts;
  }

  lemma {:induction false} SizeOfDistinct(texts: seq<string>)
    requires NoneTwice(texts)
    ensures |set text | text in texts| == |texts|
  {
    if texts != [] {
      var rest, last := texts[..|texts| - 1], texts[|texts| - 1];
      SizeOfDistinct(rest);
      assert (set text | text in texts) == (set text | text in rest) + {last};
    }
  }

  lemma ValidAreAccepted(s: Store, raws: seq<string>, texts: seq<string>, runtimeRoot: string, cwd: Path, hops: nat)
    requires forall raw | raw in raws :: Normal(raw) in texts
    requires forall text | text in texts :: IsNormalOfSome(text, raws)
    ensures var valid := Kept(s, texts, runtimeRoot, cwd, hops);
      && AllAccepted(s, valid, runtimeRoot, cwd, hops)
      && forall raw | raw in raws :: Normal(raw) in valid <==> Accepted(s, Normal(raw), runtimeRoot, cwd, hops)
  {
    var valid := Kept(s, texts, runtimeRoot, cwd, hops);
    forall i | 0 <= i < |valid|
      ensures Verdict(s, valid[i], runtimeRoot, cwd, hops).None? && exists raw :: valid[i] == Normal(raw)
    {
      KeptHas(s, texts, runtimeRoot, cwd, hops, valid[i]);
      assert IsNormalOfSome(valid[i], raws);
    }
    forall raw | raw in raws
      ensures Normal(raw) in valid <==> Accepted(s, Normal(raw), runtimeRoot, cwd, hops)
    {
      KeptHas(s, texts, runtimeRoot, cwd, hops, Normal(raw));
    }
  }
}
