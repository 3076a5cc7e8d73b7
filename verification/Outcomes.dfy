// What a completed run guarantees: `verify_deployment` passes, a second run
// changes nothing, and only vouched-for files were removed as orphans.
module Outcomes {
  import opened Paths
  import opened FileStore
  import opened Volumes
  import opened Projections
  import opened Planner
  import opened Staging
  import opened Copying
  import opened Execution
  import opened Backup
  import opened Orphans
  import opened Rollback
  import opened Deploy
  import opened Transaction

  // With every source in place only the evidence, the assembly check and, if a
  // copy uncovers a link, the contract can fail: parity, aliases and absence
  // never do.
  lemma OnlyForeignChecksFail(s: Store, t: Store, w: Scope, es: seq<Entry>, plan: seq<Entry>, c: Contract, root: Path,
                              items: seq<Item>, assemblyPaths: set<Path>, assemblyPasses: bool, check: Check, hops: nat)
    requires Runnable(s, w, es, plan, c, root, hops)
    requires Expected(s, t, w, plan, c, root, items, assemblyPaths, assemblyPasses, check, hops)
    ensures if Uncovers(s, plan, root, c, hops) then check.ProjectionInvalid?
            else check.EvidenceDrift? || check.AssemblyCheck?
  {
    if check.AliasDisappeared? {
      AliasesCanBeRead(s, t, w, es, plan, c, root, hops);
    }
    AllPresent(s, plan);
  }

  lemma AllPresent(s: Store, plan: seq<Entry>)
    requires SourcesPresent(s, plan)
    ensures WritersPresent(s, plan, |plan|)
  {
    forall i | 0 <= i < |plan| && plan[i].Writes()
      ensures IsFileAt(s, plan[i].source)
    {}
  }

  /* ---- verify_deployment ---- */

  method VerifyDeployment(v: Volume, plan: seq<Entry>, c: Contract, root: Path) returns (ok: bool)
    requires WellFormed(v.nodes) && Plain(root) && WellFormedContract(c)
    ensures ok <==> (
      && ContractHolds(v.nodes, root, c, v.hops)
      && AllMatch(v.nodes, plan, |plan|, v.hops) && AllAbsent(v.nodes, plan, |plan|, v.hops))
    ensures ok ==> AllDeployed(v.nodes, plan)
    ensures PlanIsDirect(v.nodes, plan) ==>
      (ok <==> ContractHolds(v.nodes, root, c, v.hops) && AllDeployed(v.nodes, plan))
  {
    DeployedExactly(v.nodes, plan, v.hops);
    ok := ValidateContract(v, root, c);
    if !ok {
      return;
    }
    for i := 0 to |plan|
      invariant ok <==> AllMatch(v.nodes, plan, i, v.hops) && AllAbsent(v.nodes, plan, i, v.hops)
    {
      var e := plan[i];
      VerifyStep(v.nodes, plan, i, v.hops);
      if e.kind.Remove? {
        if Present(v.nodes, e.destination, v.hops) {
          ok := false;
        }
      } else if e.Writes() && !Matches(v.nodes, e, v.hops) {
        ok := false;
      }
    }
  }

  lemma VerifyStep(u: Store, plan: seq<Entry>, i: nat, hops: nat)
    requires i < |plan|
    ensures AllMatch(u, plan, i + 1, hops) <==>
      AllMatch(u, plan, i, hops) && (plan[i].Writes() ==> Matches(u, plan[i], hops))
    ensures AllAbsent(u, plan, i + 1, hops) <==>
      AllAbsent(u, plan, i, hops) && (plan[i].kind.Remove? ==> !Present(u, plan[i].destination, hops))
  {}

  // No destination is both copied and removed.
  ghost predicate CopiesKept(plan: seq<Entry>) {
    forall i, j | 0 <= i < |plan| && 0 <= j < |plan| && plan[i].Writes() && plan[j].kind.Remove? ::
      plan[i].destination != plan[j].destination
  }

  // After a completed run the verification passes exactly if nothing that was
  // copied was removed again.
  lemma CompletedRunVerifies(s: Store, t: Store, u: Store, w: Scope, plan: seq<Entry>, c: Contract, root: Path,
                             items: seq<Item>, assemblyPaths: set<Path>, hops: nat)
    requires Ready(s, w, plan, c, root, hops)
    requires Completed(s, t, u, w, plan, c, root, items, assemblyPaths, hops)
    ensures ContractHolds(u, root, c, hops) && AllAbsent(u, plan, |plan|, hops)
    ensures AllMatch(u, plan, |plan|, hops) <==> CopiesKept(plan)
  {
    assert !UncoversAt(s, plan, |plan|, root, c, hops);
    NothingUncovered(s, u, w, plan, c, root, hops);
    RemovedAreAbsent(s, t, u, w, plan, hops);
    forall i | 0 <= i < |plan| && plan[i].Writes()
      ensures Matches(u, plan[i], hops) <==> plan[i].destination !in RemovedNames(plan, |plan|)
    {
      CopyVerifies(s, u, w, plan, c, root, i, hops);
    }
  }

  lemma CopyVerifies(s: Store, u: Store, w: Scope, plan: seq<Entry>, c: Contract, root: Path, i: nat, hops: nat)
    requires Ready(s, w, plan, c, root, hops) && Stage(s, u, w) && Files(u) == DeployedFiles(Files(s), plan)
    requires WritersPresent(s, plan, |plan|) && i < |plan| && plan[i].Writes()
    ensures Matches(u, plan[i], hops) <==> plan[i].destination !in RemovedNames(plan, |plan|)
  {
    var q, d := plan[i].source, plan[i].destination;
    WriteMapAgrees(plan, |plan|, i);
    assert IsFileAt(s, q);
    SourceClear(s, u, w, q);
    FileHash(u, q, hops);
    ManagedClear(s, u, w, d);
    ClearLookups(u, d, hops);
    assert d in Files(u) <==> d !in RemovedNames(plan, |plan|);
    if d in u {
      assert Files(u)[d] == s[q];
      FileHash(u, d, hops);
    }
  }

  /* ---- A second run ---- */

  // The plan built anew: the same copies, and no removals but old ones.  What
  // is gone may no longer be listed for removal.
  ghost predicate Rebuilt(plan: seq<Entry>, anew: seq<Entry>) {
    && (forall e | e in anew :: e in plan)
    && (forall e | e in plan && !e.kind.Remove? :: e in anew)
  }

  ghost function Rescoped(w: Scope, anew: seq<Entry>): Scope {
    Scope(OriginalsOf(anew), w.made + RemovedNames(anew, |anew|), w.made, w.sources)
  }

  lemma RebuiltNames(plan: seq<Entry>, anew: seq<Entry>)
    requires Rebuilt(plan, anew)
    ensures WrittenNames(anew) == WrittenNames(plan) && OriginalsOf(anew) <= OriginalsOf(plan)
    ensures RemovedNames(anew, |anew|) <= RemovedNames(plan, |plan|)
    ensures WrittenNames(anew) + RemovedNames(anew, |anew|) <= OriginalsOf(anew)
  {
    forall d | d in WrittenNames(plan)
      ensures d in WrittenNames(anew)
    {
      var i :| 0 <= i < |plan| && plan[i].Writes() && plan[i].destination == d;
      assert plan[i] in anew;
    }
    forall i | 0 <= i < |anew|
      ensures anew[i] in plan
    {}
    forall d | d in WrittenNames(anew) + RemovedNames(anew, |anew|)
      ensures d in OriginalsOf(anew)
    {
      var i :| 0 <= i < |anew| && !anew[i].IsAlias() && !anew[i].kind.SourceOnly? && anew[i].destination == d;
      assert Original(anew[i]) == d;
    }
  }

  lemma RebuiltSources(plan: seq<Entry>, anew: seq<Entry>)
    requires Rebuilt(plan, anew) && SourcesAgree(plan)
    ensures SourcesAgree(anew) && WriteMap(anew, |anew|) == WriteMap(plan, |plan|)
  {
    DrawnAgree(anew, plan);
    RebuiltNames(plan, anew);
    WriteMapKeys(plan, |plan|);
    WriteMapKeys(anew, |anew|);
    WriteMapWithin(anew, plan);
  }

  // What was completed can be run again, under the plan built anew.
  lemma ReadyAgain(s: Store, u: Store, w: Scope, plan: seq<Entry>, anew: seq<Entry>, c: Contract, root: Path, hops: nat)
    requires Ready(s, w, plan, c, root, hops) && Stage(s, u, w) && Rebuilt(plan, anew)
    ensures Ready(u, Rescoped(w, anew), anew, c, root, hops)
  {
    StageIsQuiet(s, u, w);
    StageIsStable(s, u, w, root, c, hops);
    RebuiltNames(plan, anew);
    RebuiltSources(plan, anew);
    RemovalsTouched(w, plan);
    FewerQuiet(u, w, Rescoped(w, anew));
    forall i | 0 <= i < |anew|
      ensures EntryReady(Rescoped(w, anew), anew[i]) && (anew[i].kind.Copy? ==> anew[i].source in w.sources)
    {
      assert anew[i] in plan;
      var j :| 0 <= j < |plan| && plan[j] == anew[i];
      assert EntryReady(w, plan[j]);
    }
  }

  lemma RemovalsTouched(w: Scope, plan: seq<Entry>)
    requires forall i | 0 <= i < |plan| :: EntryReady(w, plan[i])
    ensures RemovedNames(plan, |plan|) <= w.touched
  {
    forall i | 0 <= i < |plan| && plan[i].kind.Remove?
      ensures plan[i].destination in w.touched
    {
      assert EntryReady(w, plan[i]);
    }
  }

  lemma FewerQuiet(u: Store, w: Scope, fewer: Scope)
    requires Quiet(u, w) && fewer.made <= fewer.touched <= fewer.managed
    requires fewer.managed <= w.managed && fewer.touched <= w.touched && fewer.sources <= w.sources
    ensures Quiet(u, fewer)
  {}

  // A second run, under the plan built anew and however it ends, changes no
  // file; only its rollback can cut modes down, exactly when there are some to
  // cut.  It never fails to roll back.
  lemma SecondRunChangesNothing(s: Store, t: Store, u: Store, t2: Store, u2: Store, w: Scope, plan: seq<Entry>,
                                anew: seq<Entry>, c: Contract, root: Path, items: seq<Item>, assemblyPaths: set<Path>,
                                again: seq<Item>, assemblyAgain: set<Path>, assemblyPasses: bool, calm: bool,
                                r: Result, hops: nat)
    requires Ready(s, w, plan, c, root, hops) && CopiesKept(plan) && Rebuilt(plan, anew) && RootRecorded(anew, root)
    requires Completed(s, t, u, w, plan, c, root, items, assemblyPaths, hops)
    requires Ends(u, t2, u2, Rescoped(w, anew), anew, c, root, again, assemblyAgain, assemblyPasses, calm, r, hops)
    ensures Ready(u, Rescoped(w, anew), anew, c, root, hops) && !r.RollbackFailed?
    ensures !r.RolledBack? ==> Files(u2) == Files(u)
    ensures r.RolledBack? ==> (Files(u2) == Files(u) <==> PermissionsOnly(u, OriginalsOf(anew)))
  {
    ReadyAgain(s, u, w, plan, anew, c, root, hops);
    NothingToUncover(s, t, u, w, plan, anew, c, root, items, assemblyPaths, hops);
    if r.Deployed? {
      SecondCopySame(s, w, plan, anew, c, root, hops);
    }
    if r.RolledBack? {
      ResetExactly(Files(u), u, OriginalsOf(anew));
    }
  }

  lemma NothingToUncover(s: Store, t: Store, u: Store, w: Scope, plan: seq<Entry>, anew: seq<Entry>, c: Contract,
                         root: Path, items: seq<Item>, assemblyPaths: set<Path>, hops: nat)
    requires Ready(s, w, plan, c, root, hops) && Rebuilt(plan, anew)
    requires Completed(s, t, u, w, plan, c, root, items, assemblyPaths, hops)
    ensures !Uncovers(u, anew, root, c, hops)
  {
    assert !UncoversAt(s, plan, |plan|, root, c, hops);
    StageIsStable(s, u, w, root, c, hops);
    RebuiltNames(plan, anew);
    ReadyAgain(s, u, w, plan, anew, c, root, hops);
    NoneBefore(u, Rescoped(w, anew), anew, |anew|, root, c, hops);
  }

  lemma SecondCopySame(s: Store, w: Scope, plan: seq<Entry>, anew: seq<Entry>, c: Contract, root: Path, hops: nat)
    requires Ready(s, w, plan, c, root, hops) && CopiesKept(plan) && WritersPresent(s, plan, |plan|)
    requires Rebuilt(plan, anew)
    ensures DeployedFiles(DeployedFiles(Files(s), plan), anew) == DeployedFiles(Files(s), plan)
  {
    forall i | 0 <= i < |plan| && plan[i].Writes()
      ensures plan[i].source in Files(s) && plan[i].source !in w.touched && plan[i].destination in w.touched
    {
      assert IsFileAt(s, plan[i].source) && plan[i].source in w.sources;
      assert plan[i].destination in WrittenNames(plan);
    }
    RemovalsTouched(w, plan);
    RebuiltNames(plan, anew);
    RebuiltSources(plan, anew);
    DeployedTwice(Files(s), plan, w.touched, RemovedNames(anew, |anew|));
  }

  lemma DeployedTwice(f: Store, plan: seq<Entry>, touched: set<Path>, fewer: set<Path>)
    requires SourcesAgree(plan) && CopiesKept(plan)
    requires forall i | 0 <= i < |plan| && plan[i].Writes() ::
      plan[i].source in f && plan[i].source !in touched && plan[i].destination in touched
    requires fewer <= RemovedNames(plan, |plan|) <= touched
    ensures Overlaid(DeployedFiles(f, plan), WriteMap(plan, |plan|)) - fewer == DeployedFiles(f, plan)
  {
    var m, gone := WriteMap(plan, |plan|), RemovedNames(plan, |plan|);
    forall d | d in m
      ensures m[d] in f && m[d] !in gone && m[d] !in m && d !in gone
    {
      WriteMapFrom(plan, |plan|, d);
      if m[d] in m { WriteMapFrom(plan, |plan|, m[d]); }
    }
    OverlayTwice(f, m, gone, fewer);
  }

  lemma OverlayTwice(f: Store, m: map<Path, Path>, gone: set<Path>, fewer: set<Path>)
    requires fewer <= gone && forall d | d in m :: m[d] in f && m[d] !in gone && m[d] !in m && d !in gone
    ensures Overlaid(Overlaid(f, m) - gone, m) - fewer == Overlaid(f, m) - gone
  {
    var g := Overlaid(f, m) - gone;
    assert forall d | d in m :: m[d] in g && g[m[d]] == f[m[d]] && d in g && g[d] == f[m[d]];
  }

  /* ---- Orphans ---- */

  // Every cleanup entry stands on the allowlist, under its own or its renamed
  // path.
  lemma CleanupIsListed(s: Store, plan: seq<Entry>, root: Path, items: seq<Item>, assemblyPaths: set<Path>, hops: nat,
                        i: nat)
    requires EvidenceHolds(s, root, plan, items, assemblyPaths, hops) && i < |plan| && plan[i].orphan
    ensures exists k | 0 <= k < |items| ::
      Lists(items, plan[i], k)
  {
    var rel := plan[i].relative;
    assert rel in CleanupRelatives(plan);
    if rel in RelativesOf(items) {
      var k :| 0 <= k < |items| && items[k].relative == rel;
      assert Lists(items, plan[i], k);
    } else {
      var k :| 0 <= k < |items| && Renamed(items[k].relative) == rel;
      assert Lists(items, plan[i], k);
    }
  }

  // Cleanup entries only remove, and name their file by its relative path.
  ghost predicate CleanupRemoves(plan: seq<Entry>, root: Path) {
    forall i | 0 <= i < |plan| && plan[i].orphan ::
      plan[i].kind.Remove? && plan[i].destination == root + plan[i].relative
  }

  // When the last evidence was taken, nothing spoke against removing the file:
  // it was the recorded one, in its skill, its source was gone and nothing
  // declared it.
  ghost predicate WasFree(t: Store, plan: seq<Entry>, root: Path, item: Item, d: Path, assemblyPaths: set<Path>,
                          hops: nat) {
    MayGo(t, item, d, SkillOf(root, item, ChecksAlias(t, root, item, hops)), PackagePaths(plan) + assemblyPaths, hops)
  }

  // A file removed as an orphan had its recorded hash when the run started,
  // was removed unchanged, and is written by no copy entry: for every item
  // whose own path was the one checked.
  lemma OrphanRemovedAsRecorded(s: Store, t: Store, u: Store, w: Scope, plan: seq<Entry>, c: Contract, root: Path,
                                items: seq<Item>, assemblyPaths: set<Path>, hops: nat, i: nat, k: nat)
    requires Ready(s, w, plan, c, root, hops) && CleanupRemoves(plan, root)
    requires Completed(s, t, u, w, plan, c, root, items, assemblyPaths, hops)
    requires i < |plan| && plan[i].orphan && k < |items|
    requires CheckedPath(t, root, items[k], hops) == plan[i].destination
    ensures var d := plan[i].destination;
      && d !in Files(u) && d !in WriteMap(plan, |plan|)
      && (d in Files(s) ==>
            s[d].File? && t[d] == s[d] && WasFree(t, plan, root, items[k], d, assemblyPaths, hops))
  {
    var d := plan[i].destination;
    assert EntryReady(w, plan[i]) && d in RemovedNames(plan, |plan|);
    ManagedClear(s, t, w, d);
    assert ItemHolds(t, root, items[k], PackagePaths(plan), assemblyPaths, hops);
    CheckedIsVouched(t, root, plan, items[k], assemblyPaths, hops);
    FileHoldsExactly(t, root, items[k], PackagePaths(plan), assemblyPaths, hops);
    WrittenIsPackage(s, t, w, plan, root, d);
    assert d in Files(s) ==> d in Overlaid(Files(s), WriteMap(plan, |plan|));
  }

  // What was copied is there, and belongs to the package.
  lemma WrittenIsPackage(s: Store, t: Store, w: Scope, plan: seq<Entry>, root: Path, d: Path)
    requires CleanupRemoves(plan, root) && CopiedTo(s, t, w, plan, |plan|) && WritersPresent(s, plan, |plan|)
    ensures d in WriteMap(plan, |plan|) ==> d in PackagePaths(plan) && d in Files(t)
  {
    if d in WriteMap(plan, |plan|) {
      WriteMapFrom(plan, |plan|, d);
      var j :| 0 <= j < |plan| && plan[j].Writes() && plan[j].destination == d
        && plan[j].source == WriteMap(plan, |plan|)[d];
      assert IsFileAt(s, plan[j].source);
      assert plan[j].destination in PackagePaths(plan);
      assert Files(t)[d] == Files(s)[plan[j].source];
    }
  }

  // An item's path starts with the profile and the skill it names.
  ghost predicate ItemNamed(item: Item) {
    ["profiles", item.profile, "skills", item.skill] < item.relative
  }

  ghost predicate EvidenceNamed(items: seq<Item>) {
    forall k | 0 <= k < |items| :: ItemNamed(items[k])
  }

  // Item `k` lists cleanup entry `e`, under its own or its renamed path.
  predicate Lists(items: seq<Item>, e: Entry, k: nat)
    requires k < |items|
  {
    e.relative == items[k].relative || e.relative == Renamed(items[k].relative)
  }

  // The evidence was checked at the path that `e` removes.
  ghost predicate CheckedAsRemoved(t: Store, root: Path, items: seq<Item>, e: Entry, hops: nat) {
    exists k | 0 <= k < |items| :: Lists(items, e, k) && CheckedPath(t, root, items[k], hops) == e.destination
  }

  // A path of task-main whose renamed twin is there once the copies are made.
  ghost predicate Shadowed(s: Store, plan: seq<Entry>, root: Path, e: Entry, hops: nat) {
    IsTaskMain(e.relative) && Present(AfterCopies(s, plan), root + Renamed(e.relative), hops)
  }

  // The file that a cleanup entry removes is the one whose evidence was checked
  // exactly when the entry is not shadowed.
  lemma CheckedAsRemovedExactly(s: Store, t: Store, u: Store, w: Scope, plan: seq<Entry>, c: Contract, root: Path,
                                items: seq<Item>, assemblyPaths: set<Path>, hops: nat, i: nat)
    requires Ready(s, w, plan, c, root, hops) && CleanupRemoves(plan, root) && EvidenceNamed(items)
    requires Completed(s, t, u, w, plan, c, root, items, assemblyPaths, hops)
    requires i < |plan| && plan[i].orphan && plan[i].destination in Files(s)
    ensures CheckedAsRemoved(t, root, items, plan[i], hops) <==> !Shadowed(s, plan, root, plan[i], hops)
  {
    var e := plan[i];
    CopiedStore(s, t, w, plan, |plan|);
    StillThere(s, t, w, plan, i, hops);
    CleanupIsListed(t, plan, root, items, assemblyPaths, hops, i);
    var k :| 0 <= k < |items| && Lists(items, e, k);
    forall l | 0 <= l < |items| && Lists(items, e, l)
      ensures CheckedPath(t, root, items[l], hops) == e.destination <==> !Shadowed(s, plan, root, e, hops)
    {
      assert ItemNamed(items[l]);
      CheckedPathExactly(t, root, items[l], e, hops);
    }
  }

  // The file is still there when the evidence is checked.
  lemma StillThere(s: Store, t: Store, w: Scope, plan: seq<Entry>, i: nat, hops: nat)
    requires Quiet(s, w) && CopiedTo(s, t, w, plan, |plan|)
    requires i < |plan| && plan[i].destination in w.managed && plan[i].destination in Files(s)
    ensures Exists(t, plan[i].destination, hops) && Present(t, plan[i].destination, hops)
  {
    var d := plan[i].destination;
    assert d in Files(t);
    ManagedClear(s, t, w, d);
    ClearLookups(t, d, hops);
  }

  lemma CheckedPathExactly(t: Store, root: Path, item: Item, e: Entry, hops: nat)
    requires ItemNamed(item) && e.destination == root + e.relative
    requires e.relative == item.relative || e.relative == Renamed(item.relative)
    requires Exists(t, e.destination, hops) && Present(t, e.destination, hops)
    ensures CheckedPath(t, root, item, hops) == e.destination <==>
      !(IsTaskMain(e.relative) && Present(t, root + Renamed(e.relative), hops))
  {
    assert IsTaskMain(item.relative) <==> item.profile == "task-main";
    if IsTaskMain(item.relative) {
      assert RenamedFirst(item.relative) == Renamed(item.relative);
      assert item.relative[1] != Renamed(item.relative)[1] && !IsTaskMain(Renamed(item.relative));
      assert (root + item.relative)[|root| + 1] == item.relative[1];
      assert (root + Renamed(item.relative))[|root| + 1] == Renamed(item.relative)[1];
    }
  }

  // Every file that a completed run removes as an orphan, and that is not
  // shadowed, had a recorded hash from the start to its removal and is written
  // by no copy entry.
  lemma OrphansRemovedAsRecorded(s: Store, t: Store, u: Store, w: Scope, plan: seq<Entry>, c: Contract, root: Path,
                                 items: seq<Item>, assemblyPaths: set<Path>, hops: nat, i: nat)
    requires Ready(s, w, plan, c, root, hops) && CleanupRemoves(plan, root) && EvidenceNamed(items)
    requires Completed(s, t, u, w, plan, c, root, items, assemblyPaths, hops)
    requires i < |plan| && plan[i].orphan && plan[i].destination in Files(s)
    requires !Shadowed(s, plan, root, plan[i], hops)
    ensures var d := plan[i].destination;
      && d !in Files(u) && d !in WriteMap(plan, |plan|) && s[d].File? && t[d] == s[d]
      && exists k | 0 <= k < |items| ::
           Lists(items, plan[i], k) && WasFree(t, plan, root, items[k], d, assemblyPaths, hops)
  {
    CheckedAsRemovedExactly(s, t, u, w, plan, c, root, items, assemblyPaths, hops, i);
    var k :| 0 <= k < |items| && Lists(items, plan[i], k)
      && CheckedPath(t, root, items[k], hops) == plan[i].destination;
    OrphanRemovedAsRecorded(s, t, u, w, plan, c, root, items, assemblyPaths, hops, i, k);
  }
}
