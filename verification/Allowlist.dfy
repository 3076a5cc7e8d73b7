// An allowlist of eleven files of task-main, and the entries that remove them.
module Allowlist {
  import opened Paths
  import opened FileStore
  import opened Options
  import opened Planner
  import opened Backup
  import opened Orphans

  const HOME: Path := ["r"]

  // Eleven distinct file names.
  function Letters(j: nat): Name {
    seq(j + 1, _ => 'f')
  }

  function OrphanPath(j: nat): Path {
    ["profiles", "task-main", "skills", "x", Letters(j)]
  }

  function Twin(j: nat): Path {
    ["profiles", "aota-task-main", "skills", "x", Letters(j)]
  }

  function ListedItem(j: nat): Item {
    Item(OrphanPath(j), None, "task-main", "x", Sha256("recorded"), None, ["gone"], false, false, false)
  }

  function Removal(j: nat): Entry {
    Entry(["orphan", Letters(j)], Remove, HOME + OrphanPath(j), HOME + OrphanPath(j), HOME, HOME, OrphanPath(j), true,
          Some("task-main"), true, None, None, None, None, None, None)
  }

  function Items(): seq<Item> {
    seq(AUTHORIZED_COUNT, j requires 0 <= j < AUTHORIZED_COUNT => ListedItem(j))
  }

  function Removals(): seq<Entry> {
    seq(AUTHORIZED_COUNT, j requires 0 <= j < AUTHORIZED_COUNT => Removal(j))
  }

  /* ---- Plans that end with these removals ---- */

  // From entry `k` on the listed files are removed, and nothing else is a
  // cleanup.
  ghost predicate EndsWithRemovals(plan: seq<Entry>, k: nat) {
    && |plan| == k + AUTHORIZED_COUNT
    && (forall i | 0 <= i < k :: !plan[i].orphan)
    && (forall i | k <= i < |plan| :: RemovesListed(plan[i], i - k))
  }

  predicate RemovesListed(e: Entry, j: nat) {
    && e.kind.Remove? && e.orphan && e.managed && e.relative == OrphanPath(j) && e.destination == HOME + OrphanPath(j)
    && e.root == HOME && e.id == ["orphan", Letters(j)]
  }

  function Between(lo: nat, n: nat): (r: set<int>)
    ensures |r| == n && forall i :: i in r <==> lo <= i < lo + n
  {
    if n == 0 then {} else Between(lo, n - 1) + {lo + n - 1}
  }

  lemma ElevenCleanups(plan: seq<Entry>, k: nat)
    requires EndsWithRemovals(plan, k)
    ensures CleanupIndexes(plan) == Between(k, AUTHORIZED_COUNT)
  {
    forall i
      ensures i in CleanupIndexes(plan) <==> i in Between(k, AUTHORIZED_COUNT)
    {
      if k <= i < |plan| {
        assert RemovesListed(plan[i], i - k);
      }
    }
  }

  lemma RelativesListed(plan: seq<Entry>, k: nat)
    requires EndsWithRemovals(plan, k)
    ensures CleanupRelatives(plan) == RelativesOf(Items())
  {
    var items := Items();
    forall p | p in CleanupRelatives(plan)
      ensures p in RelativesOf(items)
    {
      var i :| 0 <= i < |plan| && plan[i].orphan && plan[i].relative == p;
      assert RemovesListed(plan[i], i - k);
      assert items[i - k].relative == p;
    }
    forall p | p in RelativesOf(items)
      ensures p in CleanupRelatives(plan)
    {
      var j :| 0 <= j < |items| && items[j].relative == p;
      assert RemovesListed(plan[k + j], j);
    }
  }

  lemma AllowlistIsExact(plan: seq<Entry>, k: nat)
    requires EndsWithRemovals(plan, k)
    ensures ExactAllowlist(plan, Items())
  {
    ElevenCleanups(plan, k);
    RelativesListed(plan, k);
  }

  lemma OnlyRemovals()
    ensures EndsWithRemovals(Removals(), 0)
  {
    forall i | 0 <= i < AUTHORIZED_COUNT
      ensures RemovesListed(Removals()[i], i - 0)
    {
      assert Removals()[i] == Removal(i);
    }
  }

  /* ---- Files that are not there ---- */

  // The directories of task-main are missing, under both names.
  ghost predicate NoTaskMain(s: Store) {
    && WellFormed(s) && IsDirAt(s, HOME + ["profiles"])
    && HOME + ["profiles"] + ["task-main"] !in s && HOME + ["profiles"] + ["aota-task-main"] !in s
  }

  // What lies below a missing name is clear and missing.
  lemma BelowMissing(s: Store, d: Path, n: Name, rest: Path)
    requires WellFormed(s) && IsDirAt(s, d) && n != UP && Plain(rest) && d + [n] !in s
    ensures Clear(s, d + [n] + rest) && d + [n] + rest !in s
  {
    KeysArePlain(s, d);
    var p := d + [n] + rest;
    assert p[..|d| + 1] == d + [n] && p[..|d|] == d;
    forall k | 0 <= k < |p|
      ensures p[..k] in s ==> s[p[..k]].Dir?
    {
      if k <= |d| {
        assert p[..k] == d[..k];
        if k < |d| {
          PrefixesAreDirs(s, d, k);
        }
      } else {
        assert p[..k][..|d| + 1] == d + [n];
        NotBelowMissing(s, p[..k], |d| + 1);
      }
    }
    NotBelowMissing(s, p, |d| + 1);
  }

  lemma NotBelowMissing(s: Store, p: Path, k: nat)
    requires WellFormed(s) && k <= |p| && p[..k] !in s
    ensures p !in s
  {
    assert p[..|p|] == p;
    if k < |p| && p in s {
      PrefixesAreDirs(s, p, k);
    }
  }

  lemma ListedIsMissing(s: Store, j: nat)
    requires NoTaskMain(s)
    ensures Clear(s, HOME + OrphanPath(j)) && HOME + OrphanPath(j) !in s
    ensures Clear(s, HOME + Twin(j)) && HOME + Twin(j) !in s
  {
    var d, rest := HOME + ["profiles"], ["skills", "x", Letters(j)];
    assert Letters(j)[0] == 'f' && UP[0] == '.';
    assert HOME + OrphanPath(j) == d + ["task-main"] + rest && HOME + Twin(j) == d + ["aota-task-main"] + rest;
    BelowMissing(s, d, "task-main", rest);
    BelowMissing(s, d, "aota-task-main", rest);
  }

  lemma RenamedIsTwin(j: nat)
    ensures RenamedFirst(OrphanPath(j)) == Renamed(OrphanPath(j)) == Twin(j)
  {}

  lemma MissingItemHolds(s: Store, j: nat, packagePaths: set<Path>, assemblyPaths: set<Path>, hops: nat)
    requires NoTaskMain(s)
    ensures ItemHolds(s, HOME, ListedItem(j), packagePaths, assemblyPaths, hops)
  {
    RenamedIsTwin(j);
    ListedIsMissing(s, j);
    ClearLookups(s, HOME + OrphanPath(j), hops);
    ClearLookups(s, HOME + Twin(j), hops);
  }

  // Where nothing on the list is left, the evidence holds.
  lemma NothingListed(s: Store, plan: seq<Entry>, k: nat, hops: nat)
    requires NoTaskMain(s) && EndsWithRemovals(plan, k)
    ensures EvidenceHolds(s, HOME, plan, Items(), {}, hops)
  {
    AllowlistIsExact(plan, k);
    forall i | 0 <= i < |Items()|
      ensures ItemHolds(s, HOME, Items()[i], PackagePaths(plan), {}, hops)
    {
      MissingItemHolds(s, i, PackagePaths(plan), {}, hops);
    }
  }
}
