// `revalidate_orphan_evidence`: what must hold of each file on the persisted
// allowlist before it may be removed.
module Orphans {
  import opened Paths
  import opened FileStore
  import opened Options
  import opened PathText
  import opened Substrings
  import opened Volumes
  import opened Planner
  import opened SafePaths
  import opened Backup

  const AUTHORIZED_COUNT: nat := 11

  // `bound` is the recorded absolute path, if the runtime is the production
  // one; elsewhere that path is not looked at.
  datatype Item = Item(
    relative: Path, bound: Option<Path>, profile: string, skill: string, digest: Digest, captured: Option<Digest>,
    canonicalSource: Path, sourceDeclared: bool, packageDeclares: bool, assemblyDeclares: bool)

  // `profiles/task-main/...` is deployed as `profiles/aota-task-main/...`.
  predicate IsTaskMain(p: Path) {
    |p| > 2 && p[0] == "profiles" && p[1] == "task-main"
  }

  function Renamed(p: Path): Path {
    if IsTaskMain(p) then ["profiles", "aota-task-main"] + p[2..] else p
  }

  // The text replaced where it is met first, or wherever it is met; the first
  // component may be the end of a longer one.
  function RenamedFirst(p: Path): Path {
    RenameFirst(p, "profiles", "task-main", "aota-task-main")
  }

  function RenamedAll(p: Path): Path {
    RenameAll(p, "profiles", "task-main", "aota-task-main")
  }

  const TASK_MAIN_TEXT := "profiles/task-main/"
  const ALIAS_TEXT := "profiles/aota-task-main/"

  // What these renamings do to the texts of relative paths.
  lemma RenamingTexts(p: Path)
    requires AreNames(p)
    ensures Joined(RenamedFirst(p)) == ReplaceFirst(Joined(p), TASK_MAIN_TEXT, ALIAS_TEXT)
    ensures Joined(RenamedAll(p)) == ReplaceAll(Joined(p), TASK_MAIN_TEXT, ALIAS_TEXT)
    ensures Joined(Renamed(p)) ==
      if TASK_MAIN_TEXT <= Joined(p) then ReplaceFirst(Joined(p), TASK_MAIN_TEXT, ALIAS_TEXT) else Joined(p)
  {
    SpotTexts();
    RenameFirstExactly(p, "profiles", "task-main", "aota-task-main");
    RenameAllExactly(p, "profiles", "task-main", "aota-task-main");
    var front := ["profiles", "task-main"];
    assert IsName("profiles") && IsName("task-main");
    StartsExactly(p, front);
    assert Joined(front) + [SLASH] == TASK_MAIN_TEXT by {
      JoinedCons("profiles", ["task-main"]);
      assert front == ["profiles"] + ["task-main"];
    }
    assert front < p <==> IsTaskMain(p);
  }

  lemma SpotTexts()
    ensures Spot("profiles", "task-main") == TASK_MAIN_TEXT && Spot("profiles", "aota-task-main") == ALIAS_TEXT
    ensures IsName("profiles") && IsName("task-main")
  {}

  function RelativesOf(items: seq<Item>): set<Path> {
    set i | 0 <= i < |items| :: items[i].relative
  }

  function RenamedRelativesOf(items: seq<Item>): set<Path> {
    set i | 0 <= i < |items| :: Renamed(items[i].relative)
  }

  function CleanupRelatives(plan: seq<Entry>): set<Path> {
    set i | 0 <= i < |plan| && plan[i].orphan :: plan[i].relative
  }

  // Destinations of the package and the assembly, cleanup entries excluded.
  function PackagePaths(plan: seq<Entry>): set<Path> {
    set i | 0 <= i < |plan| && !plan[i].orphan && !plan[i].kind.SourceOnly? :: plan[i].destination
  }

  function CleanupIndexes(plan: seq<Entry>): set<int> {
    set i | 0 <= i < |plan| && plan[i].orphan :: i
  }

  predicate ExactAllowlist(plan: seq<Entry>, items: seq<Item>) {
    && |CleanupIndexes(plan)| == AUTHORIZED_COUNT
    && (CleanupRelatives(plan) == RelativesOf(items) || CleanupRelatives(plan) == RenamedRelativesOf(items))
  }

  // The item is checked at its renamed path.
  predicate ChecksAlias(s: Store, root: Path, item: Item, hops: nat) {
    var path, alt := root + item.relative, root + RenamedFirst(item.relative);
    && item.profile == "task-main"
    && (Present(s, alt, hops) || (!Exists(s, path, hops) && Exists(s, Parent(alt), hops)))
  }

  function CheckedPath(s: Store, root: Path, item: Item, hops: nat): Path {
    if ChecksAlias(s, root, item, hops) then root + RenamedFirst(item.relative) else root + item.relative
  }

  function AllowedRoot(s: Store, root: Path, item: Item, hops: nat): Path {
    var profile := if ChecksAlias(s, root, item, hops) then "aota-task-main" else item.profile;
    root + ["profiles", profile, "skills", item.skill]
  }

  // In the production runtime, a path that exists and is not checked at its
  // renamed place is the recorded absolute one.
  predicate BindingHolds(s: Store, root: Path, item: Item, hops: nat) {
    var path := root + item.relative;
    var alt := if item.profile == "task-main" then RenamedFirst(item.relative) else item.relative;
    !ChecksAlias(s, root, item, hops) && item.bound.Some?
    && (Exists(s, path, hops) || Exists(s, item.bound.value, hops))
    && item.bound.value != path && RenamedAll(item.bound.value) != path
    ==> !(Exists(s, root + alt, hops) && RenamedAll(item.bound.value) != root + alt)
  }

  predicate ItemHolds(s: Store, root: Path, item: Item, packagePaths: set<Path>, assemblyPaths: set<Path>, hops: nat) {
    BindingHolds(s, root, item, hops) && FileHolds(s, root, item, packagePaths, assemblyPaths, hops)
  }

  predicate FileHolds(s: Store, root: Path, item: Item, packagePaths: set<Path>, assemblyPaths: set<Path>, hops: nat) {
    var path, allowed := CheckedPath(s, root, item, hops), AllowedRoot(s, root, item, hops);
    Present(s, path, hops) ==>
      && !IsSymlink(s, path, hops) && IsFile(s, path, hops)
      && SafeTarget(s, path, allowed, hops)
      && Walk(s, [], allowed, hops).Found? && Within(Walk(s, [], path, hops).at, Walk(s, [], allowed, hops).at)
      && !Present(s, item.canonicalSource, hops) && !item.sourceDeclared
      && path !in packagePaths && !item.packageDeclares
      && path !in assemblyPaths && !item.assemblyDeclares
      && var digest := NodeDigest(s[Walk(s, [], path, hops).at]);
        digest == item.digest && digest == GetOr(item.captured, item.digest)
  }

  /* ---- What passing means, told from the store ---- */

  ghost predicate LiesBelow(s: Store, path: Path, dir: Path, hops: nat) {
    exists d :: Walk(s, [], dir, hops) == Found(d) && d <= path
  }

  // The file at `path` is the recorded one, in its skill, and nothing declares
  // it any more.
  ghost predicate MayGo(s: Store, item: Item, path: Path, skill: Path, declared: set<Path>, hops: nat) {
    && path in s && s[path].File? && Sha256(s[path].content) == item.digest
    && (item.captured.Some? ==> item.captured.value == item.digest)
    && LiesBelow(s, path, skill, hops)
    && (Clear(s, item.canonicalSource) ==> item.canonicalSource !in s)
    && !item.sourceDeclared && !item.packageDeclares && !item.assemblyDeclares && path !in declared
  }

  // The directory of the item's skill.
  function SkillOf(root: Path, item: Item, renamed: bool): Path {
    root + ["profiles"] + [if renamed then "aota-task-main" else item.profile] + ["skills"] + [item.skill]
  }

  // A checked name that runs through no link passes exactly if nothing is
  // there or the file may go.
  lemma FileHoldsExactly(s: Store, root: Path, item: Item, packagePaths: set<Path>, assemblyPaths: set<Path>, hops: nat)
    requires WellFormed(s) && Clear(s, CheckedPath(s, root, item, hops))
    ensures var path := CheckedPath(s, root, item, hops);
      var skill := SkillOf(root, item, ChecksAlias(s, root, item, hops));
      var free := path !in s || MayGo(s, item, path, skill, packagePaths + assemblyPaths, hops);
      && (FileHolds(s, root, item, packagePaths, assemblyPaths, hops) ==> free)
      && (Clear(s, item.canonicalSource) ==>
        (FileHolds(s, root, item, packagePaths, assemblyPaths, hops) <==> free))
  {
    var path, allowed := CheckedPath(s, root, item, hops), AllowedRoot(s, root, item, hops);
    ClearLookups(s, path, hops);
    assert allowed == SkillOf(root, item, ChecksAlias(s, root, item, hops));
    if Clear(s, item.canonicalSource) {
      ClearLookups(s, item.canonicalSource, hops);
    }
    if path in s && s[path].File? && Walk(s, [], allowed, hops).Found? {
      KeysArePlain(s, path);
      assert Last(path) in path;
      SafeTargetExactly(s, path, allowed, hops);
    }
  }

  // For a file of task-main the renamed place counts if it is taken, or if the
  // listed one is free and the renamed directory is there.
  lemma ChecksAliasExactly(s: Store, root: Path, item: Item, hops: nat)
    requires WellFormed(s) && Clear(s, root + item.relative) && !IsLinkAt(s, root + item.relative)
    requires Clear(s, root + RenamedFirst(item.relative))
    ensures var path, alt := root + item.relative, root + RenamedFirst(item.relative);
      ChecksAlias(s, root, item, hops) <==>
        item.profile == "task-main" && (alt in s || (path !in s && Parent(alt) in s))
  {
    var path, alt := root + item.relative, root + RenamedFirst(item.relative);
    ClearLookups(s, path, hops);
    ClearLookups(s, alt, hops);
    ParentExists(s, alt, hops);
  }

  lemma ParentExists(s: Store, p: Path, hops: nat)
    requires WellFormed(s) && Clear(s, p)
    ensures Exists(s, Parent(p), hops) <==> Parent(p) in s
  {
    var d := Parent(p);
    assert d == p[..|p| - 1];
    if d in s {
      PhysicalWalk(s, d, hops);
    } else {
      assert forall k | 0 <= k < |d| :: d[..k] == p[..k];
      ClearLookups(s, d, hops);
    }
  }

  // The recorded absolute path only matters outside task-main: where the file
  // is, it must be the file's own path, or become it when task-main is renamed.
  lemma BindingExactly(s: Store, root: Path, item: Item, hops: nat)
    ensures BindingHolds(s, root, item, hops) <==>
      (item.profile != "task-main" && item.bound.Some? && Exists(s, root + item.relative, hops) ==>
        item.bound.value == root + item.relative || RenamedAll(item.bound.value) == root + item.relative)
  {}

  // What the evidence says of one item.
  ghost predicate ItemVouched(s: Store, root: Path, item: Item, declared: set<Path>, hops: nat) {
    var path, renamed := CheckedPath(s, root, item, hops), ChecksAlias(s, root, item, hops);
    && (Clear(s, path) ==> path !in s || MayGo(s, item, path, SkillOf(root, item, renamed), declared, hops))
    && (item.profile != "task-main" && item.bound.Some? && Exists(s, root + item.relative, hops) ==>
          item.bound.value == root + item.relative || RenamedAll(item.bound.value) == root + item.relative)
  }

  ghost predicate ItemIsDirect(s: Store, root: Path, item: Item, hops: nat) {
    Clear(s, CheckedPath(s, root, item, hops)) && Clear(s, item.canonicalSource)
  }

  lemma ItemVouchedExactly(s: Store, root: Path, item: Item, packagePaths: set<Path>, assemblyPaths: set<Path>,
                           hops: nat)
    requires WellFormed(s)
    ensures ItemHolds(s, root, item, packagePaths, assemblyPaths, hops) ==>
      ItemVouched(s, root, item, packagePaths + assemblyPaths, hops)
    ensures ItemIsDirect(s, root, item, hops) ==>
      (ItemHolds(s, root, item, packagePaths, assemblyPaths, hops) <==>
        ItemVouched(s, root, item, packagePaths + assemblyPaths, hops))
  {
    BindingExactly(s, root, item, hops);
    if Clear(s, CheckedPath(s, root, item, hops)) {
      FileHoldsExactly(s, root, item, packagePaths, assemblyPaths, hops);
    }
  }

  // The plan removes eleven files, and they are those of the allowlist: each
  // under its own path, or each under its renamed one.
  ghost predicate Authorized(plan: seq<Entry>, items: seq<Item>) {
    && |set i | 0 <= i < |plan| && plan[i].orphan :: i| == 11
    && (CleansListed(plan, items, false) || CleansListed(plan, items, true))
  }

  ghost predicate CleansListed(plan: seq<Entry>, items: seq<Item>, renamed: bool) {
    forall p :: IsCleaned(plan, p) <==> IsListed(items, p, renamed)
  }

  ghost predicate IsCleaned(plan: seq<Entry>, p: Path) {
    exists i | 0 <= i < |plan| :: plan[i].orphan && plan[i].relative == p
  }

  ghost predicate IsListed(items: seq<Item>, p: Path, renamed: bool) {
    exists i | 0 <= i < |items| :: (if renamed then Renamed(items[i].relative) else items[i].relative) == p
  }

  lemma AuthorizedExactly(plan: seq<Entry>, items: seq<Item>)
    ensures ExactAllowlist(plan, items) <==> Authorized(plan, items)
  {
    assert CleanupIndexes(plan) == set i | 0 <= i < |plan| && plan[i].orphan :: i;
    forall p
      ensures p in CleanupRelatives(plan) <==> IsCleaned(plan, p)
      ensures p in RelativesOf(items) <==> IsListed(items, p, false)
      ensures p in RenamedRelativesOf(items) <==> IsListed(items, p, true)
    {}
    assert CleanupRelatives(plan) == RelativesOf(items) <==> CleansListed(plan, items, false);
    assert CleanupRelatives(plan) == RenamedRelativesOf(items) <==> CleansListed(plan, items, true);
  }

  ghost predicate EvidenceHolds(s: Store, root: Path, plan: seq<Entry>, items: seq<Item>, assemblyPaths: set<Path>,
                                hops: nat) {
    ExactAllowlist(plan, items) && ItemsHold(s, root, items, |items|, PackagePaths(plan), assemblyPaths, hops)
  }

  ghost predicate ItemsHold(s: Store, root: Path, items: seq<Item>, n: nat, packagePaths: set<Path>,
                            assemblyPaths: set<Path>, hops: nat)
    requires n <= |items|
  {
    forall i | 0 <= i < n :: ItemHolds(s, root, items[i], packagePaths, assemblyPaths, hops)
  }

  lemma NextItem(s: Store, root: Path, items: seq<Item>, i: nat, packagePaths: set<Path>, assemblyPaths: set<Path>,
                 hops: nat, holds: bool)
    requires i < |items| && holds == ItemHolds(s, root, items[i], packagePaths, assemblyPaths, hops)
    ensures ItemsHold(s, root, items, i + 1, packagePaths, assemblyPaths, hops) <==>
      ItemsHold(s, root, items, i, packagePaths, assemblyPaths, hops) && holds
    ensures !holds ==> !ItemsHold(s, root, items, |items|, packagePaths, assemblyPaths, hops)
  {}

  // The package declares what some entry besides the cleanups copies or removes.
  lemma PackagePathsExactly(plan: seq<Entry>, p: Path)
    ensures p in PackagePaths(plan) <==>
      exists e | e in plan :: e.destination == p && !e.orphan && (e.kind.Copy? || e.kind.Remove?)
  {
    if e :| e in plan && e.destination == p && !e.orphan && (e.kind.Copy? || e.kind.Remove?) {
      var i :| 0 <= i < |plan| && plan[i] == e;
    }
  }

  // No copy and no assembly writes what is vouched for.
  ghost predicate AllVouched(s: Store, root: Path, plan: seq<Entry>, items: seq<Item>, assemblyPaths: set<Path>,
                             hops: nat) {
    forall k | 0 <= k < |items| :: ItemVouched(s, root, items[k], PackagePaths(plan) + assemblyPaths, hops)
  }

  lemma EvidenceExactly(s: Store, root: Path, plan: seq<Entry>, items: seq<Item>, assemblyPaths: set<Path>, hops: nat)
    ensures EvidenceHolds(s, root, plan, items, assemblyPaths, hops) ==> Authorized(plan, items)
    ensures EvidenceHolds(s, root, plan, items, assemblyPaths, hops) && WellFormed(s) ==>
      AllVouched(s, root, plan, items, assemblyPaths, hops)
    ensures WellFormed(s) && (forall k | 0 <= k < |items| :: ItemIsDirect(s, root, items[k], hops)) ==>
      (EvidenceHolds(s, root, plan, items, assemblyPaths, hops) <==>
        Authorized(plan, items) && AllVouched(s, root, plan, items, assemblyPaths, hops))
  {
    AuthorizedExactly(plan, items);
    if WellFormed(s) {
      forall k | 0 <= k < |items|
        ensures ItemHolds(s, root, items[k], PackagePaths(plan), assemblyPaths, hops) ==>
          ItemVouched(s, root, items[k], PackagePaths(plan) + assemblyPaths, hops)
        ensures ItemIsDirect(s, root, items[k], hops) ==>
          (ItemHolds(s, root, items[k], PackagePaths(plan), assemblyPaths, hops) <==>
            ItemVouched(s, root, items[k], PackagePaths(plan) + assemblyPaths, hops))
      {
        ItemVouchedExactly(s, root, items[k], PackagePaths(plan), assemblyPaths, hops);
      }
    }
  }

  method RevalidateEvidence(v: Volume, root: Path, plan: seq<Entry>, items: seq<Item>, assemblyPaths: set<Path>)
      returns (ok: bool)
    ensures ok <==> EvidenceHolds(v.nodes, root, plan, items, assemblyPaths, v.hops)
    ensures ok ==> Authorized(plan, items)
    ensures ok && WellFormed(v.nodes) ==> AllVouched(v.nodes, root, plan, items, assemblyPaths, v.hops)
    ensures WellFormed(v.nodes) && (forall k | 0 <= k < |items| :: ItemIsDirect(v.nodes, root, items[k], v.hops)) ==>
      (ok <==> Authorized(plan, items) && AllVouched(v.nodes, root, plan, items, assemblyPaths, v.hops))
  {
    EvidenceExactly(v.nodes, root, plan, items, assemblyPaths, v.hops);
    if !ExactAllowlist(plan, items) {
      return false;
    }
    var packagePaths := PackagePaths(plan);
    for i := 0 to |items|
      invariant ItemsHold(v.nodes, root, items, i, packagePaths, assemblyPaths, v.hops)
    {
      var holds := ItemHolds(v.nodes, root, items[i], packagePaths, assemblyPaths, v.hops);
      NextItem(v.nodes, root, items, i, packagePaths, assemblyPaths, v.hops, holds);
      if !holds {
        return false;
      }
    }
    return true;
  }

  /* ---- What the evidence says about a file that is removed ---- */

  // The file at `path`, if there is one, has the recorded hash, and no copy
  // entry writes it.
  ghost predicate Vouched(s: Store, plan: seq<Entry>, path: Path, digest: Digest) {
    path in s && !s[path].Dir? ==>
      s[path].File? && NodeDigest(s[path]) == digest && path !in PackagePaths(plan)
  }

  // The check vouches for the path it looks at.
  lemma CheckedIsVouched(s: Store, root: Path, plan: seq<Entry>, item: Item, assemblyPaths: set<Path>, hops: nat)
    requires WellFormed(s) && Clear(s, CheckedPath(s, root, item, hops))
    requires ItemHolds(s, root, item, PackagePaths(plan), assemblyPaths, hops)
    ensures Vouched(s, plan, CheckedPath(s, root, item, hops), item.digest)
    ensures item.profile != "task-main" ==> CheckedPath(s, root, item, hops) == root + item.relative
  {
    ClearLookups(s, CheckedPath(s, root, item, hops), hops);
  }

  /* ---- A file that the check does not vouch for ---- */

  // A file at the renamed path with the recorded hash is all that is asked.
  lemma AliasItemHolds(s: Store, root: Path, item: Item, p: Path, hops: nat)
    requires WellFormed(s) && p in s && s[p].File? && NodeDigest(s[p]) == item.digest
    requires item.profile == "task-main" && root + RenamedFirst(item.relative) == p
    requires root + ["profiles", "aota-task-main", "skills", item.skill] < p
    requires item.captured.None? && item.bound.None?
    requires !item.sourceDeclared && !item.packageDeclares && !item.assemblyDeclares
    requires |item.canonicalSource| == 1 && Plain(item.canonicalSource) && item.canonicalSource !in s
    ensures ItemHolds(s, root, item, {}, {}, hops)
  {
    SafeFile(s, p, root + ["profiles", "aota-task-main", "skills", item.skill], hops);
    assert Clear(s, item.canonicalSource);
    ClearLookups(s, item.canonicalSource, hops);
  }

  lemma SafeFile(s: Store, p: Path, root: Path, hops: nat)
    requires WellFormed(s) && p in s && s[p].File? && root < p
    ensures !IsSymlink(s, p, hops) && Present(s, p, hops) && Walk(s, [], p, hops) == Found(p)
    ensures SafeTarget(s, p, root, hops) && Walk(s, [], root, hops) == Found(root)
  {
    KeysAreClear(s, p);
    ClearLookups(s, p, hops);
    ClearIsSafe(s, p, root, hops);
    assert p[..|root|] == root;
    PrefixesAreDirs(s, p, |root|);
    PhysicalWalk(s, root, hops);
  }
}
