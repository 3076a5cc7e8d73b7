// Absolute names as sequences of components.  The empty sequence is the file
// system root.  Components are never "" or ".", because pathlib drops them;
// ".." is kept, because pathlib keeps it too.
module Paths {
  type Name = string
  type Path = seq<Name>

  const UP: Name := ".."

  function Parent(p: Path): Path {
    if p == [] then [] else p[..|p| - 1]
  }

  function Last(p: Path): Name
    requires p != []
  {
    p[|p| - 1]
  }

  // `path.relative_to(root)` succeeds.
  predicate Within(p: Path, root: Path) {
    root <= p
  }

  predicate Plain(p: Path) {
    UP !in p
  }

  predicate EndsWith(s: string, tail: string) {
    |tail| <= |s| && forall i | 0 <= i < |tail| :: s[|s| - |tail| + i] == tail[i]
  }

  lemma EndsWithExactly(s: string, tail: string)
    ensures EndsWith(s, tail) <==> exists a :: s == a + tail
  {
    if EndsWith(s, tail) {
      assert s == s[..|s| - |tail|] + tail;
    }
  }

  // Neither name lies on or below the other.
  predicate Apart(p: Path, q: Path) {
    !(p <= q) && !(q <= p)
  }

  lemma JoinParentLast(p: Path)
    requires p != []
    ensures Parent(p) + [Last(p)] == p
  {}

  lemma ParentOfChild(p: Path, n: Name)
    ensures Parent(p + [n]) == p && Last(p + [n]) == n
  {
    assert (p + [n])[..|p|] == p;
  }

  lemma ParentOfJoin(a: Path, rest: Path)
    requires rest != []
    ensures a + rest != [] && Parent(a + rest) == a + Parent(rest) && Last(a + rest) == Last(rest)
  {}

  // ".../skills/orchestration/...": the directories the deployer prunes.
  predicate UnderOrchestration(p: Path) {
    exists i | 0 <= i < |p| - 1 :: p[i] == "skills" && p[i + 1] == "orchestration"
  }
}
