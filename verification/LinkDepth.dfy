// `_symlink_depth`: counting link hops on names that are joined, never
// normalised.
module LinkDepth {
  import opened Paths
  import opened FileStore
  import opened Volumes

  const PATH_MAX: nat := 4096

  // Bytes of the name as a string, one separator per component.
  function NameBytes(p: Path): (n: nat)
    ensures n >= |p|
  {
    if p == [] then 0 else NameBytes(Parent(p)) + 1 + |Last(p)|
  }

  // lstat(2) answers ENAMETOOLONG, which `is_symlink` lets through.
  predicate TooLong(p: Path) {
    NameBytes(p) >= PATH_MAX
  }

  // The name a link gives, joined to the directory part of its own name.
  function NextName(s: Store, p: Path, hops: nat): Path
    requires IsSymlink(s, p, hops)
  {
    var link := s[Locate(s, p, hops).at];
    if link.absolute then link.parts else Parent(p) + link.parts
  }

  // The k-th name of the chain that starts at `p`.
  function Chain(s: Store, p: Path, hops: nat, k: nat): Path {
    if k == 0 then p
    else
      var c := Chain(s, p, hops, k - 1);
      if IsSymlink(s, c, hops) then NextName(s, c, hops) else c
  }

  datatype Depth = Hops(n: nat) | Circular(n: nat) | NameTooLong

  // The k-th name has been reached: nothing stopped the count before it.
  ghost predicate Reaches(s: Store, root: Path, p: Path, hops: nat, k: nat) {
    && (forall j | 0 <= j < k :: Follows(s, root, p, hops, j))
    && (k > 0 ==> Within(Chain(s, p, hops, k), root))
  }

  // The k-th name is a link inside the root that was not seen before.
  ghost predicate Follows(s: Store, root: Path, p: Path, hops: nat, k: nat) {
    var c := Chain(s, p, hops, k);
    && (k > 0 ==> Within(c, root))
    && !TooLong(c) && IsSymlink(s, c, hops)
    && !Revisits(s, p, hops, k)
  }

  ghost predicate Revisits(s: Store, p: Path, hops: nat, k: nat) {
    exists j | 0 <= j < k :: Chain(s, p, hops, j) == Chain(s, p, hops, k)
  }

  // What the count has to answer.
  ghost predicate IsDepth(s: Store, root: Path, p: Path, hops: nat, d: Depth) {
    match d
    case Hops(n) =>
      var c := Chain(s, p, hops, n);
      && (forall j | 0 <= j < n :: Follows(s, root, p, hops, j))
      && ((n > 0 && !Within(c, root)) || (!TooLong(c) && !IsSymlink(s, c, hops)))
    case Circular(m) =>
      && m > 0 && Reaches(s, root, p, hops, m - 1)
      && !TooLong(Chain(s, p, hops, m - 1))
      && IsSymlink(s, Chain(s, p, hops, m - 1), hops)
      && Revisits(s, p, hops, m - 1)
    case NameTooLong =>
      exists k: nat :: Reaches(s, root, p, hops, k) && TooLong(Chain(s, p, hops, k))
  }

  lemma DepthUnique(s: Store, root: Path, p: Path, hops: nat, d: Depth, e: Depth)
    requires IsDepth(s, root, p, hops, d) && IsDepth(s, root, p, hops, e)
    ensures d == e
  {
    var i := StopIndex(s, root, p, hops, d);
    var j := StopIndex(s, root, p, hops, e);
    assert i == j;
  }

  // Where the count stopped: the first name that is not followed.
  ghost function StopIndex(s: Store, root: Path, p: Path, hops: nat, d: Depth): (k: nat)
    requires IsDepth(s, root, p, hops, d)
    ensures !Follows(s, root, p, hops, k) && forall j | 0 <= j < k :: Follows(s, root, p, hops, j)
    ensures d.Hops? ==> k == d.n
    ensures d.Circular? ==> k == d.n - 1
    ensures d.NameTooLong? ==> Reaches(s, root, p, hops, k) && TooLong(Chain(s, p, hops, k))
  {
    match d
    case Hops(n) => n
    case Circular(m) => m - 1
    case NameTooLong => var k: nat :| Reaches(s, root, p, hops, k) && TooLong(Chain(s, p, hops, k)); k
  }

  /* ---- Termination: the names short enough for the kernel are finite ---- */

  ghost function Words(alphabet: set<Name>, n: nat): set<Path> {
    if n == 0 then {[]}
    else {[]} + set a, w | a in alphabet && w in Words(alphabet, n - 1) :: [a] + w
  }

  lemma {:induction false} IsWord(alphabet: set<Name>, n: nat, p: Path)
    requires |p| <= n && forall c | c in p :: c in alphabet
    ensures p in Words(alphabet, n)
  {
    if p != [] {
      IsWord(alphabet, n - 1, p[1..]);
      assert p == [p[0]] + p[1..];
    }
  }

  ghost function Alphabet(s: Store, p: Path): set<Name> {
    (set i | 0 <= i < |p| :: p[i]) + set q, i | q in s && s[q].Link? && 0 <= i < |s[q].parts| :: s[q].parts[i]
  }

  // Every name of the chain is spelled with the components of the first name
  // and of the link texts.
  lemma {:induction false} ChainSpelling(s: Store, p: Path, hops: nat, k: nat)
    ensures forall c | c in Chain(s, p, hops, k) :: c in Alphabet(s, p)
  {
    if k > 0 {
      ChainSpelling(s, p, hops, k - 1);
      var c := Chain(s, p, hops, k - 1);
      if IsSymlink(s, c, hops) {
        var at := Locate(s, c, hops).at;
        forall x | x in s[at].parts
          ensures x in Alphabet(s, p)
        {
          var i :| 0 <= i < |s[at].parts| && s[at].parts[i] == x;
        }
      }
    }
  }

  // The names met so far.
  ghost predicate HasSeen(s: Store, p: Path, hops: nat, k: nat, seen: set<Path>) {
    forall q :: q in seen <==> exists j | 0 <= j < k :: Chain(s, p, hops, j) == q
  }

  lemma SeenStep(s: Store, p: Path, hops: nat, k: nat, seen: set<Path>)
    requires HasSeen(s, p, hops, k, seen)
    ensures Revisits(s, p, hops, k) <==> Chain(s, p, hops, k) in seen
    ensures HasSeen(s, p, hops, k + 1, seen + {Chain(s, p, hops, k)})
  {}

  // What the count does with its k-th name.
  lemma CountStep(s: Store, root: Path, p: Path, hops: nat, k: nat)
    requires Reaches(s, root, p, hops, k)
    requires var c := Chain(s, p, hops, k); !TooLong(c) && IsSymlink(s, c, hops)
    ensures var next := NextName(s, Chain(s, p, hops, k), hops);
      && next == Chain(s, p, hops, k + 1)
      && (Revisits(s, p, hops, k) ==> IsDepth(s, root, p, hops, Circular(k + 1)))
      && (!Revisits(s, p, hops, k) && Within(next, root) ==> Reaches(s, root, p, hops, k + 1))
      && (!Revisits(s, p, hops, k) && !Within(next, root) ==> IsDepth(s, root, p, hops, Hops(k + 1)))
  {
    if !Revisits(s, p, hops, k) {
      OneMoreFollows(s, root, p, hops, k);
    }
  }

  lemma OneMoreFollows(s: Store, root: Path, p: Path, hops: nat, k: nat)
    requires Reaches(s, root, p, hops, k) && !TooLong(Chain(s, p, hops, k)) && !Revisits(s, p, hops, k)
    requires IsSymlink(s, Chain(s, p, hops, k), hops)
    ensures forall j | 0 <= j < k + 1 :: Follows(s, root, p, hops, j)
  {
    assert Follows(s, root, p, hops, k);
  }

  // The loop of `_symlink_depth`.  It stops on every store: the names seen are
  // distinct and short.
  method SymlinkDepth(v: Volume, path: Path, root: Path) returns (d: Depth)
    ensures IsDepth(v.nodes, root, path, v.hops, d)
  {
    var s, hops := v.nodes, v.hops;
    var current := path;
    var seen: set<Path> := {};
    var depth: nat := 0;
    ghost var names := Words(Alphabet(s, path), PATH_MAX);
    while true
      invariant current == Chain(s, path, hops, depth)
      invariant Reaches(s, root, path, hops, depth)
      invariant HasSeen(s, path, hops, depth, seen)
      invariant seen <= names
      decreases names - seen
    {
      if TooLong(current) {
        return NameTooLong;
      }
      if !IsSymlink(s, current, hops) {
        return Hops(depth);
      }
      SeenStep(s, path, hops, depth, seen);
      CountStep(s, root, path, hops, depth);
      if current in seen {
        return Circular(depth + 1);
      }
      ChainSpelling(s, path, hops, depth);
      IsWord(Alphabet(s, path), PATH_MAX, current);
      seen := seen + {current};
      depth := depth + 1;
      current := NextName(s, current, hops);
      if !Within(current, root) {
        return Hops(depth);
      }
    }
  }
}
