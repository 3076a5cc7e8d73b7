// Two enumerators of a directory tree that share one exclusion rule, and the
// tree comparison built on one of them.
module SkillTrees {
  import opened Paths
  import opened Options

  // Where a link resolves to, seen from the root that the tree is read from.
  datatype Lead = Inside | Outside | Nowhere

  // A directory tree as it is read, links not followed.
  datatype Tree =
    | Regular(content: string, inode: nat)
    | Linked(lead: Lead)
    | Special(known: bool)
    | Folder(children: Forest)

  datatype Forest = Nil | Cons(name: Name, tree: Tree, rest: Forest)

  function Names(f: Forest): set<Name> {
    match f
    case Nil => {}
    case Cons(n, _, rest) => {n} + Names(rest)
  }

  // Names are distinct within a directory, and ".." is none of them.
  predicate ProperTree(t: Tree) {
    t.Folder? ==> ProperForest(t.children)
  }

  predicate ProperForest(f: Forest) {
    match f
    case Nil => true
    case Cons(n, t, rest) => n !in Names(rest) && n != UP && ProperTree(t) && ProperForest(rest)
  }

  /* ---- The exclusion rule, written twice ---- */

  const EXCLUDE_DIRS: set<string> :=
    {"__pycache__", ".git", ".cache", "node_modules", ".mypy_cache", ".ruff_cache", ".pytest_cache"}
  const EXCLUDE_SUFFIXES: set<string> := {".pyc", ".pyo", ".pyd"}
  const EXCLUDE_NAMES: set<string> := {".DS_Store", "Thumbs.db"}

  // `PurePath.suffix`: from the last dot, unless that is the first or the
  // last character.
  function LastDot(s: string): int {
    if s == "" then -1
    else if s[|s| - 1] == '.' then |s| - 1
    else LastDot(s[..|s| - 1])
  }

  function Suffix(s: string): string {
    var i := LastDot(s);
    if 0 < i < |s| - 1 then s[i..] else ""
  }

  predicate EditorBackup(name: Name) {
    || EndsWith(name, "~") || EndsWith(name, ".bak") || EndsWith(name, ".swp") || EndsWith(name, ".tmp")
    || ".#" <= name || ("#" <= name && EndsWith(name, "#"))
  }

  // `_is_excluded_canonical`
  predicate IsExcluded(rel: Path)
    requires rel != []
  {
    if exists p | p in rel :: p in EXCLUDE_DIRS then true
    else if Last(rel) in EXCLUDE_NAMES then true
    else if Suffix(Last(rel)) in EXCLUDE_SUFFIXES then true
    else EditorBackup(Last(rel))
  }

  // What the rule excludes, as patterns on the name: a cache directory on the
  // way, a litter name, compiled Python with a stem, an editor's backup.
  ghost predicate IsLitter(rel: Path)
    requires rel != []
  {
    var name := Last(rel);
    || (exists p | p in rel :: p in EXCLUDE_DIRS) || name == ".DS_Store" || name == "Thumbs.db"
    || IsCompiled(name) || EndsIn(name, {"~", ".bak", ".swp", ".tmp"})
    || (exists a :: name == ".#" + a) || name == "#" || (exists a :: name == "#" + a + "#")
  }

  ghost predicate IsCompiled(name: Name) {
    exists stem, tail | tail in {".pyc", ".pyo", ".pyd"} :: stem != "" && name == stem + tail
  }

  ghost predicate EndsIn(name: Name, tails: set<string>) {
    exists a, tail | tail in tails :: name == a + tail
  }

  // The suffix is what follows the last dot, with it, if there is a stem before
  // it and something behind it.
  lemma {:induction false} SuffixOf(stem: string, ext: string)
    requires stem != "" && ext != "" && '.' !in ext
    ensures Suffix(stem + ['.'] + ext) == ['.'] + ext
  {
    LastDotOf(stem, ext);
    assert (stem + ['.'] + ext)[|stem|..] == ['.'] + ext;
  }

  lemma {:induction false} LastDotOf(stem: string, ext: string)
    requires '.' !in ext
    ensures LastDot(stem + ['.'] + ext) == |stem|
  {
    var s := stem + ['.'] + ext;
    if ext == "" {
      assert s[|s| - 1] == '.';
    } else {
      assert s[|s| - 1] == ext[|ext| - 1] && ext[|ext| - 1] in ext;
      assert s[..|s| - 1] == stem + ['.'] + ext[..|ext| - 1];
      LastDotOf(stem, ext[..|ext| - 1]);
    }
  }

  lemma {:induction false} LastDotIsLast(s: string)
    ensures var i := LastDot(s);
      && -1 <= i < |s| && (i >= 0 ==> s[i] == '.') && forall j | i < j < |s| :: s[j] != '.'
  {
    if s != "" && s[|s| - 1] != '.' {
      LastDotIsLast(s[..|s| - 1]);
    }
  }

  lemma CompiledExactly(name: Name)
    ensures Suffix(name) in EXCLUDE_SUFFIXES <==> IsCompiled(name)
  {
    if Suffix(name) in EXCLUDE_SUFFIXES {
      var i := LastDot(name);
      assert Suffix(name) != "";
      assert name == name[..i] + Suffix(name) && name[..i] != "";
    }
    if IsCompiled(name) {
      var stem, tail :| tail in {".pyc", ".pyo", ".pyd"} && stem != "" && name == stem + tail;
      assert tail == ['.'] + tail[1..] && name == stem + ['.'] + tail[1..];
      SuffixOf(stem, tail[1..]);
    }
  }

  lemma BackupExactly(name: Name)
    ensures EditorBackup(name) <==>
      || EndsIn(name, {"~", ".bak", ".swp", ".tmp"})
      || (exists a :: name == ".#" + a) || name == "#" || (exists a :: name == "#" + a + "#")
  {
    var tails := {"~", ".bak", ".swp", ".tmp"};
    forall tail | tail in tails
      ensures EndsWith(name, tail) <==> exists a :: name == a + tail
    {
      EndsWithExactly(name, tail);
    }
    assert EndsIn(name, tails) <==>
      EndsWith(name, "~") || EndsWith(name, ".bak") || EndsWith(name, ".swp") || EndsWith(name, ".tmp");
    assert ".#" <= name ==> name == ".#" + name[2..];
    HashesExactly(name);
  }

  lemma HashesExactly(name: Name)
    ensures "#" <= name && EndsWith(name, "#") <==> name == "#" || exists a :: name == "#" + a + "#"
  {
    if "#" <= name && EndsWith(name, "#") && |name| > 1 {
      assert name == "#" + name[1..|name| - 1] + "#";
    }
    EndsWithExactly(name, "#");
  }

  lemma ExcludedExactly(rel: Path)
    requires rel != []
    ensures IsExcluded(rel) <==> IsLitter(rel)
  {
    CompiledExactly(Last(rel));
    BackupExactly(Last(rel));
  }

  datatype Exclusion = Exclusion(relative: Path, reason: string, fileClass: string)

  // `exclusion_for`
  function ExclusionFor(rel: Path): Option<Exclusion>
    requires rel != []
  {
    var name := Last(rel);
    if exists p | p in rel :: p in EXCLUDE_DIRS then
      Some(Exclusion(rel,
        if "__pycache__" in rel then "runtime_generated_python_cache" else "canonical_runtime_exclusion",
        if name in EXCLUDE_DIRS then "directory_cache" else "runtime_cache_file"))
    else if name in EXCLUDE_NAMES || EditorBackup(name) then
      Some(Exclusion(rel, "canonical_runtime_exclusion", "temporary_file"))
    else if Suffix(name) in EXCLUDE_SUFFIXES then
      Some(Exclusion(rel, "runtime_generated_python_cache", "runtime_cache_file"))
    else None
  }

  // Compiled Python that nothing but its name excludes.
  ghost predicate OnlyCompiled(rel: Path)
    requires rel != []
  {
    var name := Last(rel);
    && IsCompiled(name) && (forall p | p in rel :: p !in EXCLUDE_DIRS)
    && name !in EXCLUDE_NAMES && !EndsIn(name, {"~", ".bak", ".swp", ".tmp"}) && !(".#" <= name)
    && !("#" <= name && EndsWith(name, "#"))
  }

  // What an exclusion says: Python's cache, or anything else.
  lemma ReasonExactly(rel: Path)
    requires rel != [] && IsLitter(rel)
    ensures ExclusionFor(rel).Some?
    ensures var e := ExclusionFor(rel).value;
      && e.relative == rel
      && e.reason == (if "__pycache__" in rel || OnlyCompiled(rel) then "runtime_generated_python_cache"
                      else "canonical_runtime_exclusion")
      && (e.fileClass == "directory_cache" <==> Last(rel) in EXCLUDE_DIRS)
      && (e.fileClass == "temporary_file" <==> (forall p | p in rel :: p !in EXCLUDE_DIRS) && !OnlyCompiled(rel))
  {
    ExcludedExactly(rel);
    CompiledExactly(Last(rel));
    BackupExactly(Last(rel));
    assert Last(rel) in rel;
    HashesExactly(Last(rel));
    if EndsIn(Last(rel), {"~", ".bak", ".swp", ".tmp"}) {
      assert EditorBackup(Last(rel));
    }
  }

  lemma SameRule(rel: Path)
    requires rel != []
    ensures ExclusionFor(rel).Some? <==> IsExcluded(rel)
  {}

  /* ---- What a tree holds ---- */

  // The node at a relative name, links not followed.
  function At(t: Tree, rel: Path): Option<Tree>
    decreases t
  {
    if rel == [] then Some(t)
    else match t
      case Folder(f) => AtIn(f, rel)
      case _ => None
  }

  function AtIn(f: Forest, rel: Path): Option<Tree>
    requires rel != []
    decreases f
  {
    match f
    case Nil => None
    case Cons(n, t, rest) => if n == rel[0] then At(t, rel[1..]) else AtIn(rest, rel)
  }

  datatype Leaf = Leaf(path: Path, tree: Tree)

  // Every node that is no directory, under its name below `at`.
  function Leaves(t: Tree, at: Path): seq<Leaf> {
    match t
    case Folder(f) => LeavesIn(f, at)
    case _ => [Leaf(at, t)]
  }

  function LeavesIn(f: Forest, at: Path): seq<Leaf> {
    match f
    case Nil => []
    case Cons(n, t, rest) => Leaves(t, at + [n]) + LeavesIn(rest, at)
  }

  // The leaves are the nodes that `At` finds, each listed once.
  lemma {:induction false} LeavesAreNodes(t: Tree, at: Path, l: Leaf)
    requires ProperTree(t)
    ensures l in Leaves(t, at) <==>
      at <= l.path && At(t, l.path[|at|..]) == Some(l.tree) && !l.tree.Folder?
    decreases t
  {
    match t
    case Folder(f) =>
      LeavesInAreNodes(f, at, l);
      if at <= l.path && l.path[|at|..] == [] { assert l.path == at; }
    case _ =>
      if at <= l.path {
        if l.path[|at|..] == [] { assert l.path == at; }
      }
  }

  lemma {:induction false} LeavesInAreNodes(f: Forest, at: Path, l: Leaf)
    requires ProperForest(f)
    ensures l in LeavesIn(f, at) <==>
      at < l.path && AtIn(f, l.path[|at|..]) == Some(l.tree) && !l.tree.Folder?
    decreases f
  {
    match f
    case Nil =>
    case Cons(n, t, rest) =>
      LeavesAreNodes(t, at + [n], l);
      LeavesInAreNodes(rest, at, l);
      if at < l.path {
        var r := l.path[|at|..];
        assert at + [n] <= l.path ==> l.path[|at|] == (at + [n])[|at|];
        if r[0] == n {
          assert at + [n] <= l.path && l.path[|at + [n]|..] == r[1..];
          AtInNames(rest, r);
        }
      }
  }

  lemma {:induction false} AtInNames(f: Forest, rel: Path)
    requires rel != []
    ensures AtIn(f, rel).Some? ==> rel[0] in Names(f)
    decreases f
  {
    match f
    case Nil =>
    case Cons(n, t, rest) => AtInNames(rest, rel);
  }

  ghost predicate NoPathTwice(ls: seq<Leaf>) {
    forall i, j | 0 <= i < |ls| && 0 <= j < |ls| && ls[i].path == ls[j].path :: i == j
  }

  lemma {:induction false} LeavesOnce(t: Tree, at: Path)
    requires ProperTree(t)
    ensures NoPathTwice(Leaves(t, at))
    decreases t
  {
    if t.Folder? {
      LeavesInOnce(t.children, at);
    }
  }

  lemma {:induction false} LeavesInOnce(f: Forest, at: Path)
    requires ProperForest(f)
    ensures NoPathTwice(LeavesIn(f, at))
    decreases f
  {
    if f.Cons? {
      LeavesOnce(f.tree, at + [f.name]);
      LeavesInOnce(f.rest, at);
      var a, b := Leaves(f.tree, at + [f.name]), LeavesIn(f.rest, at);
      forall i, j | 0 <= i < |a| && 0 <= j < |b|
        ensures a[i].path != b[j].path
      {
        ForestsApart(f, at, a[i], b[j]);
      }
    }
  }

  lemma ForestsApart(f: Forest, at: Path, x: Leaf, y: Leaf)
    requires f.Cons? && ProperForest(f) && x in Leaves(f.tree, at + [f.name]) && y in LeavesIn(f.rest, at)
    ensures x.path != y.path
  {
    LeavesAreNodes(f.tree, at + [f.name], x);
    LeavesInAreNodes(f.rest, at, y);
    AtInNames(f.rest, y.path[|at|..]);
    assert x.path[|at|] == f.name;
    assert y.path[|at|..][0] == y.path[|at|];
  }

  /* ---- walk_entries ---- */

  // A leaf that the walk keeps: a regular file or a link, and not excluded.
  predicate IsKept(l: Leaf)
    requires l.path != []
  {
    !IsExcluded(l.path) && (l.tree.Regular? || l.tree.Linked?)
  }

  function PathIf(l: Leaf, kept: bool): seq<Path>
    requires l.path != []
  {
    if IsKept(l) == kept then [l.path] else []
  }

  function PathsWhere(ls: seq<Leaf>, kept: bool): seq<Path>
    requires forall i | 0 <= i < |ls| :: ls[i].path != []
  {
    if ls == [] then [] else PathIf(ls[0], kept) + PathsWhere(ls[1..], kept)
  }

  function ExclusionPaths(es: seq<Exclusion>): seq<Path> {
    seq(|es|, i requires 0 <= i < |es| => es[i].relative)
  }

  lemma {:induction false} PathsWhereJoin(a: seq<Leaf>, b: seq<Leaf>, kept: bool)
    requires forall i | 0 <= i < |a| :: a[i].path != []
    requires forall i | 0 <= i < |b| :: b[i].path != []
    ensures PathsWhere(a + b, kept) == PathsWhere(a, kept) + PathsWhere(b, kept)
  {
    if a == [] {
      assert a + b == b;
    } else {
      assert (a + b)[0] == a[0] && (a + b)[1..] == a[1..] + b;
      PathsWhereJoin(a[1..], b, kept);
      Reassociate(PathIf(a[0], kept), PathsWhere(a[1..], kept), PathsWhere(b, kept));
    }
  }

  // What the walk notes about a leaf that it does not keep.
  function Why(l: Leaf): (e: Exclusion)
    requires l.path != []
    ensures e.relative == l.path
  {
    if ExclusionFor(l.path).Some? then ExclusionFor(l.path).value
    else Exclusion(l.path,
      if l.tree == Special(true) then "ephemeral_or_special_file" else "unsupported_file_type", "special_file")
  }

  function Notes(ls: seq<Leaf>): seq<Exclusion>
    requires forall i | 0 <= i < |ls| :: ls[i].path != []
  {
    if ls == [] then [] else Note(ls[0]) + Notes(ls[1..])
  }

  function Note(l: Leaf): seq<Exclusion>
    requires l.path != []
  {
    if IsKept(l) then [] else [Why(l)]
  }

  lemma {:induction false} NotesJoin(a: seq<Leaf>, b: seq<Leaf>)
    requires forall i | 0 <= i < |a| :: a[i].path != []
    requires forall i | 0 <= i < |b| :: b[i].path != []
    ensures Notes(a + b) == Notes(a) + Notes(b)
  {
    if a == [] {
      assert a + b == b;
    } else {
      assert (a + b)[0] == a[0] && (a + b)[1..] == a[1..] + b;
      NotesJoin(a[1..], b);
      Reassociate(Note(a[0]), Notes(a[1..]), Notes(b));
    }
  }

  lemma ExclusionPathsJoin(a: seq<Exclusion>, b: seq<Exclusion>)
    ensures ExclusionPaths(a + b) == ExclusionPaths(a) + ExclusionPaths(b)
  {}

  lemma NoteNames(l: Leaf)
    requires l.path != []
    ensures ExclusionPaths(Note(l)) == PathIf(l, false)
  {
    if !IsKept(l) {
      var e := Why(l);
      assert ExclusionPaths([e]) == [e.relative];
    }
  }

  // The notes name the leaves that are not kept, in order.
  lemma {:induction false} NotesNameExcluded(ls: seq<Leaf>)
    requires forall i | 0 <= i < |ls| :: ls[i].path != []
    ensures ExclusionPaths(Notes(ls)) == PathsWhere(ls, false)
  {
    if ls != [] {
      NoteNames(ls[0]);
      NotesNameExcluded(ls[1..]);
      ExclusionPathsJoin(Note(ls[0]), Notes(ls[1..]));
    }
  }

  lemma {:induction false} LeavesNamed(t: Tree, at: Path)
    requires at != [] || t.Folder?
    ensures forall i | 0 <= i < |Leaves(t, at)| :: Leaves(t, at)[i].path != []
    decreases t
  {
    if t.Folder? { LeavesInNamed(t.children, at); }
  }

  lemma {:induction false} LeavesInNamed(f: Forest, at: Path)
    ensures forall i | 0 <= i < |LeavesIn(f, at)| :: LeavesIn(f, at)[i].path != []
    decreases f
  {
    if f.Cons? {
      LeavesNamed(f.tree, at + [f.name]);
      LeavesInNamed(f.rest, at);
    }
  }

  // The paths of a forest's leaves, kept or excluded.
  ghost function Listed(f: Forest, at: Path, kept: bool): seq<Path> {
    LeavesInNamed(f, at);
    PathsWhere(LeavesIn(f, at), kept)
  }

  // The notes on those that are not kept.
  ghost function Noted(f: Forest, at: Path): seq<Exclusion> {
    LeavesInNamed(f, at);
    Notes(LeavesIn(f, at))
  }

  lemma NotedAreListed(f: Forest, at: Path)
    ensures ExclusionPaths(Noted(f, at)) == Listed(f, at, false)
  {
    LeavesInNamed(f, at);
    NotesNameExcluded(LeavesIn(f, at));
  }

  // The part that one entry contributes.
  ghost function ListedOne(n: Name, t: Tree, at: Path): seq<Path> {
    if t.Folder? then Listed(t.children, at + [n], true)
    else PathIf(Leaf(at + [n], t), true)
  }

  ghost function NotedOne(n: Name, t: Tree, at: Path): seq<Exclusion> {
    if t.Folder? then Noted(t.children, at + [n])
    else Note(Leaf(at + [n], t))
  }

  lemma ListedCons(n: Name, t: Tree, rest: Forest, at: Path)
    ensures Listed(Cons(n, t, rest), at, true) == ListedOne(n, t, at) + Listed(rest, at, true)
    ensures Noted(Cons(n, t, rest), at) == NotedOne(n, t, at) + Noted(rest, at)
  {
    LeavesNamed(t, at + [n]);
    LeavesInNamed(rest, at);
    var l := Leaf(at + [n], t);
    PathsWhereJoin(Leaves(t, at + [n]), LeavesIn(rest, at), true);
    NotesJoin(Leaves(t, at + [n]), LeavesIn(rest, at));
    if !t.Folder? {
      assert PathsWhere([l], true) == PathIf(l, true);
      assert Notes([l]) == Note(l);
    }
  }

  class Walker {
    var files: seq<Path>
    var exclusions: seq<Exclusion>

    constructor ()
      ensures files == [] && exclusions == []
    {
      files, exclusions := [], [];
    }

    // `visit`, on a directory that can be read.
    method Visit(f: Forest, at: Path)
      modifies this
      ensures files == old(files) + Listed(f, at, true)
      ensures exclusions == old(exclusions) + Noted(f, at)
      decreases f
    {
      var entries := f;
      ghost var files0, exclusions0 := files, exclusions;
      while entries.Cons?
        invariant entries == f || entries < f
        invariant files + Listed(entries, at, true) == files0 + Listed(f, at, true)
        invariant exclusions + Noted(entries, at) == exclusions0 + Noted(f, at)
        decreases entries
      {
        ListedCons(entries.name, entries.tree, entries.rest, at);
        ghost var before, noted := files, exclusions;
        VisitEntry(entries.name, entries.tree, at);
        Reassociate(before, ListedOne(entries.name, entries.tree, at), Listed(entries.rest, at, true));
        Reassociate(noted, NotedOne(entries.name, entries.tree, at), Noted(entries.rest, at));
        entries := entries.rest;
      }
      assert files + [] == files && exclusions + [] == exclusions;
    }

    method VisitEntry(n: Name, t: Tree, at: Path)
      modifies this
      ensures files == old(files) + ListedOne(n, t, at)
      ensures exclusions == old(exclusions) + NotedOne(n, t, at)
      decreases t
    {
      var path := at + [n];
      SameRule(path);
      var classified := ExclusionFor(path);
      if classified.Some? {
        if t.Folder? {
          Visit(t.children, path);
        } else {
          exclusions := exclusions + [classified.value];
        }
      } else {
        match t {
          case Folder(children) => Visit(children, path);
          case Linked(_) => files := files + [path];
          case Regular(_, _) => files := files + [path];
          case Special(known) =>
            exclusions := exclusions + [Exclusion(path,
              if known then "ephemeral_or_special_file" else "unsupported_file_type", "special_file")];
        }
      }
    }
  }

  lemma Reassociate<T>(a: seq<T>, b: seq<T>, c: seq<T>)
    ensures (a + b) + c == a + (b + c)
  {}

  // `walk_entries`: a missing root and a root that is a file give nothing, a
  // root that is a link is kept as such.
  method WalkEntries(root: Option<Tree>) returns (w: Walker)
    ensures fresh(w)
    ensures w.files ==
      match root { case Some(Folder(f)) => Listed(f, [], true) case Some(Linked(_)) => [[]] case _ => [] }
    ensures w.exclusions == match root { case Some(Folder(f)) => Noted(f, []) case _ => [] }
  {
    w := new Walker();
    match root {
      case None =>
      case Some(t) =>
        match t {
          case Folder(children) => w.Visit(children, []);
          case Linked(_) => w.files := w.files + [[]];
          case _ =>
        }
    }
  }

  /* ---- Partition ---- */

  ghost predicate Has(ls: seq<Leaf>, kept: bool, p: Path)
    requires forall i | 0 <= i < |ls| :: ls[i].path != []
  {
    exists i | 0 <= i < |ls| :: ls[i].path == p && IsKept(ls[i]) == kept
  }

  lemma {:induction false} PathsWhereHas(ls: seq<Leaf>, kept: bool, p: Path)
    requires forall i | 0 <= i < |ls| :: ls[i].path != []
    ensures p in PathsWhere(ls, kept) <==> Has(ls, kept, p)
  {
    if ls != [] {
      PathsWhereHas(ls[1..], kept, p);
      if Has(ls[1..], kept, p) {
        var i :| 0 <= i < |ls[1..]| && ls[1..][i].path == p && IsKept(ls[1..][i]) == kept;
        assert ls[i + 1].path == p && IsKept(ls[i + 1]) == kept;
      }
      if Has(ls, kept, p) {
        var i :| 0 <= i < |ls| && ls[i].path == p && IsKept(ls[i]) == kept;
        assert i > 0 ==> ls[1..][i - 1] == ls[i];
      }
    }
  }

  ghost predicate NoneTwice(ps: seq<Path>) {
    forall i, j | 0 <= i < |ps| && 0 <= j < |ps| && ps[i] == ps[j] :: i == j
  }

  lemma {:induction false} PathsWhereOnce(ls: seq<Leaf>, kept: bool)
    requires forall i | 0 <= i < |ls| :: ls[i].path != []
    requires NoPathTwice(ls)
    ensures NoneTwice(PathsWhere(ls, kept))
  {
    if ls != [] {
      var rest := ls[1..];
      assert forall i | 0 <= i < |rest| :: rest[i] == ls[i + 1];
      PathsWhereOnce(rest, kept);
      PathsWhereHas(rest, kept, ls[0].path);
    }
  }

  // The walk puts every node that is no directory into exactly one of its two
  // lists, once, also below excluded directories.
  lemma WalkPartitions(f: Forest, p: Path)
    requires ProperForest(f) && p != []
    ensures NoneTwice(Listed(f, [], true)) && NoneTwice(Listed(f, [], false))
    ensures p in Listed(f, [], true) <==>
      !IsExcluded(p) && At(Folder(f), p).Some? && (At(Folder(f), p).value.Regular? || At(Folder(f), p).value.Linked?)
    ensures p in Listed(f, [], false) <==>
      At(Folder(f), p).Some? && !At(Folder(f), p).value.Folder? && p !in Listed(f, [], true)
    ensures ExclusionPaths(Noted(f, [])) == Listed(f, [], false)
  {
    NotedAreListed(f, []);
    LeavesInNamed(f, []);
    var ls := LeavesIn(f, []);
    LeavesInOnce(f, []);
    PathsWhereOnce(ls, true);
    PathsWhereOnce(ls, false);
    PathsWhereHas(ls, true, p);
    PathsWhereHas(ls, false, p);
    forall l: Leaf
      ensures l in ls <==> [] < l.path && AtIn(f, l.path) == Some(l.tree) && !l.tree.Folder?
    {
      LeavesInAreNodes(f, [], l);
      assert l.path[0..] == l.path;
    }
    var n := At(Folder(f), p);
    if n.Some? && !n.value.Folder? {
      assert Leaf(p, n.value) in ls;
    }
  }

  /* ---- expand_skill_tree ---- */

  // `rglob("*")` lists every node below the root, in some order.
  ghost predicate Lists(listing: seq<Leaf>, f: Forest) {
    forall l: Leaf :: l in listing <==> l.path != [] && At(Folder(f), l.path) == Some(l.tree)
  }

  // From the first `n` listed nodes, the enumerated ones were collected.
  ghost predicate Collected(f: Forest, listing: seq<Leaf>, n: nat, includeEscapes: bool, result: map<Path, Tree>)
    requires n <= |listing|
  {
    && (forall p | p in result :: Enumerated(f, p, includeEscapes) && At(Folder(f), p) == Some(result[p]))
    && (forall j | 0 <= j < n && Enumerated(f, listing[j].path, includeEscapes) :: listing[j].path in result)
  }

  // What the filter asks of a listed node.
  lemma EnumeratedLeaf(f: Forest, l: Leaf, includeEscapes: bool)
    requires ProperForest(f) && l.path != [] && At(Folder(f), l.path) == Some(l.tree)
    ensures Enumerated(f, l.path, includeEscapes) <==>
      UP !in l.path && !IsExcluded(l.path)
      && (l.tree.Regular? || (l.tree.Linked? && (l.tree.lead.Inside? || includeEscapes)))
  {
    NoDotDot(f, l.path);
  }

  lemma CollectNext(f: Forest, listing: seq<Leaf>, i: nat, includeEscapes: bool, result: map<Path, Tree>)
    requires i < |listing| && At(Folder(f), listing[i].path) == Some(listing[i].tree)
    requires Collected(f, listing, i, includeEscapes, result)
    ensures Collected(f, listing, i + 1, includeEscapes,
      if Enumerated(f, listing[i].path, includeEscapes) then result[listing[i].path := listing[i].tree] else result)
  {}

  lemma AllCollected(f: Forest, listing: seq<Leaf>, includeEscapes: bool, result: map<Path, Tree>, p: Path)
    requires Lists(listing, f) && Collected(f, listing, |listing|, includeEscapes, result)
    ensures p in result <==> Enumerated(f, p, includeEscapes)
  {
    if Enumerated(f, p, includeEscapes) {
      assert Leaf(p, At(Folder(f), p).value) in listing;
    }
  }

  // Resolving a listed link that is not excluded raises.
  predicate Breaks(l: Leaf)
    requires l.path != []
  {
    l.tree.Linked? && l.tree.lead.Nowhere? && UP !in l.path && !IsExcluded(l.path)
  }

  ghost predicate HasBroken(f: Forest) {
    exists p | p != [] && At(Folder(f), p).Some? :: Breaks(Leaf(p, At(Folder(f), p).value))
  }

  // `expand_skill_tree`, on a root that is a directory; it raises on a link
  // that leads nowhere.
  method ExpandSkillTree(f: Forest, listing: seq<Leaf>, includeEscapes: bool) returns (result: Option<map<Path, Tree>>)
    requires ProperForest(f) && Lists(listing, f)
    ensures result.None? <==> HasBroken(f)
    ensures result.Some? ==> forall p :: p in result.value <==> Enumerated(f, p, includeEscapes)
    ensures result.Some? ==> forall p | p in result.value :: At(Folder(f), p) == Some(result.value[p])
  {
    var found: map<Path, Tree> := map[];
    for i := 0 to |listing|
      invariant Collected(f, listing, i, includeEscapes, found)
      invariant forall j | 0 <= j < i :: listing[j].path != [] && !Breaks(listing[j])
    {
      var l := listing[i];
      assert l in listing;
      EnumeratedLeaf(f, l, includeEscapes);
      CollectNext(f, listing, i, includeEscapes, found);
      if l.tree.Folder? {
        continue;
      }
      if !l.tree.Regular? && !l.tree.Linked? {
        continue;
      }
      if UP in l.path {
        continue;
      }
      if IsExcluded(l.path) {
        continue;
      }
      if l.tree.Linked? {
        if l.tree.lead.Nowhere? {
          assert Breaks(l);
          return None;
        }
        if l.tree.lead.Outside? && !includeEscapes {
          continue;
        }
      }
      found := found[l.path := l.tree];
    }
    NoneBroken(f, listing);
    forall p
      ensures p in found <==> Enumerated(f, p, includeEscapes)
    {
      AllCollected(f, listing, includeEscapes, found, p);
    }
    result := Some(found);
  }

  lemma NoneBroken(f: Forest, listing: seq<Leaf>)
    requires Lists(listing, f) && forall j | 0 <= j < |listing| :: listing[j].path != [] && !Breaks(listing[j])
    ensures !HasBroken(f)
  {
    forall p | p != [] && At(Folder(f), p).Some?
      ensures !Breaks(Leaf(p, At(Folder(f), p).value))
    {
      assert Leaf(p, At(Folder(f), p).value) in listing;
    }
  }

  // The canonical files: regular files and links that are not excluded, and
  // do not lead outside unless that is asked for.
  ghost predicate Enumerated(f: Forest, p: Path, includeEscapes: bool) {
    var n := At(Folder(f), p);
    && p != [] && n.Some? && !IsExcluded(p)
    && (n.value.Regular? || (n.value.Linked? && (n.value.lead.Inside? || includeEscapes)))
  }

  lemma {:induction false} NoDotDot(f: Forest, p: Path)
    requires ProperForest(f) && p != [] && AtIn(f, p).Some?
    ensures UP !in p
    decreases f
  {
    if f.name == p[0] {
      if |p| > 1 {
        assert f.tree.Folder?;
        NoDotDot(f.tree.children, p[1..]);
      }
      assert p == [p[0]] + p[1..];
    } else {
      NoDotDot(f.rest, p);
    }
  }

  // The recursive walk and the flat filter find the same files.
  lemma EnumeratorsAgree(f: Forest, p: Path)
    requires ProperForest(f) && p != []
    ensures p in Listed(f, [], true) <==> Enumerated(f, p, true)
  {
    WalkPartitions(f, p);
  }
}
