// The whole deployment: validate, back up, deploy, and undo on any failure.
module Transaction {
  import opened Paths
  import opened FileStore
  import opened FileOps
  import opened Options
  import opened Volumes
  import opened Projections
  import opened Planner
  import opened Staging
  import opened Copying
  import opened Dedup
  import opened Backup
  import opened Restore
  import opened Rollback
  import opened Orphans
  import opened Deploy

  /* ---- The manifest ---- */

  function FirstProjected(plan: seq<Entry>, n: nat): (o: Option<nat>)
    requires n <= |plan|
    ensures o.Some? ==> o.value < n && plan[o.value].verifyProjection == Some(true)
    ensures forall j | 0 <= j < if o.Some? then o.value else n :: plan[j].verifyProjection != Some(true)
  {
    if n == 0 then None
    else
      var before := FirstProjected(plan, n - 1);
      if before.Some? then before
      else if plan[n - 1].verifyProjection == Some(true) then Some(n - 1)
      else None
  }

  // `Path(...).parents[2]`
  function ThirdParent(p: Path): Path {
    Parent(Parent(Parent(p)))
  }

  // The physical target of the first projected entry.
  function FirstTarget(plan: seq<Entry>): Option<Path> {
    var o := FirstProjected(plan, |plan|);
    if o.Some? then Some(GetOr(plan[o.value].physicalTarget, [])) else None
  }

  function ManifestOf(plan: seq<Entry>, records: seq<Record>): Manifest {
    var first := FirstTarget(plan);
    Manifest(records, first.Some?, if first.Some? then Some(ThirdParent(first.value)) else None)
  }

  // The contract holds for the root that the manifest records, if it has one.
  ghost predicate RecordHolds(t: Store, plan: seq<Entry>, c: Contract, hops: nat) {
    var first := FirstTarget(plan);
    first.Some? ==> ContractHolds(t, ThirdParent(first.value), c, hops)
  }

  // The root that the manifest records is the runtime root.
  predicate RootRecorded(plan: seq<Entry>, root: Path) {
    var first := FirstTarget(plan);
    first.Some? ==> ThirdParent(first.value) == root
  }

  // That is so exactly when the first projected entry sits directly in the
  // plugin directory.
  lemma RootRecordedExactly(es: seq<Entry>, plan: seq<Entry>, c: Contract, root: Path)
    requires GoodPlan(es, plan, c, root) && WellFormedContract(c)
    requires forall i | 0 <= i < |es| && IsProjected(c, es[i]) :: es[i].relative != []
    ensures RootRecorded(plan, root) <==>
      (FirstProjected(plan, |plan|).Some? ==> |es[FirstProjected(plan, |plan|).value].relative| == 1)
  {
    var o := FirstProjected(plan, |plan|);
    if o.Some? {
      ProjectedTarget(es, plan, c, root, o.value);
      ThirdParentBelow(root, es[o.value].relative);
    }
  }

  lemma ProjectedTarget(es: seq<Entry>, plan: seq<Entry>, c: Contract, root: Path, i: nat)
    requires GoodPlan(es, plan, c, root) && WellFormedContract(c)
    requires i < |plan| && plan[i].verifyProjection == Some(true)
    ensures IsProjected(c, es[i]) && plan[i].physicalTarget == Some(root + TARGET + es[i].relative)
  {
    PlanEntry(es, plan, c, root, i);
    assert plan[i] == WithDefaults(Marked(es, Targets(es, c, root), i, |es|));
    assert IsProjected(c, es[i]);
    ProjectionForIsListed(c, es[i].profile);
    var k :| 0 <= k < |c| && c[k] == ProjectionFor(c, es[i].profile).value;
    assert WellFormedItem(c[k]);
  }

  lemma ThirdParentBelow(root: Path, rest: Path)
    requires rest != []
    ensures ThirdParent(root + TARGET + rest) == root <==> |rest| == 1
  {
    var p := root + TARGET + rest;
    assert ThirdParent(p) == p[..|p| - 3];
    if |rest| == 1 {
      assert p[..|p| - 3] == root;
    }
  }

  /* ---- The backup tells what was there ---- */

  ghost predicate Recorded(s: Store, plan: seq<Entry>, n: nat, r: Record, hops: nat)
    requires n <= |plan|
  {
    exists i | 0 <= i < n :: !plan[i].IsAlias() && RecordOf(s, plan[i], hops) == Some(r)
  }

  lemma RecordsComeFromEntries(s: Store, plan: seq<Entry>, n: nat, hops: nat, k: nat)
    requires n <= |plan| && k < |RecordsOf(s, plan, n, hops)|
    ensures Recorded(s, plan, n, RecordsOf(s, plan, n, hops)[k], hops)
  {
    var i := KeptFrom(Told(s, plan, hops), n, k);
    assert RecordOf(s, plan[i], hops) == Some(RecordsOf(s, plan, n, hops)[k]);
  }

  lemma {:induction false} KeptFrom(told: seq<Option<Record>>, n: nat, k: nat) returns (i: nat)
    requires n <= |told| && k < |Kept(told, n)|
    ensures i < n && told[i] == Some(Kept(told, n)[k])
  {
    if k < |Kept(told, n - 1)| {
      i := KeptFrom(told, n - 1, k);
    } else {
      i := n - 1;
    }
  }

  ghost predicate HasTarget(records: seq<Record>, p: Path) {
    exists k | 0 <= k < |records| :: records[k].target == p
  }

  lemma EntriesAreRecorded(s: Store, plan: seq<Entry>, n: nat, hops: nat, i: nat)
    requires i < n <= |plan| && !plan[i].IsAlias() && RecordOf(s, plan[i], hops).Some?
    ensures HasTarget(RecordsOf(s, plan, n, hops), Original(plan[i]))
  {
    var records, r := RecordsOf(s, plan, n, hops), RecordOf(s, plan[i], hops).value;
    KeptHas(Told(s, plan, hops), n, i);
    assert r in records;
    var k :| 0 <= k < |records| && records[k] == r;
    assert records[k].target == Original(plan[i]);
  }

  lemma TargetsAreOriginals(s: Store, plan: seq<Entry>, hops: nat)
    requires Recordable(s, plan, |plan|, hops)
    ensures var records := RecordsOf(s, plan, |plan|, hops);
      TargetsOf(records, |records|) == OriginalsOf(plan)
  {
    var records := RecordsOf(s, plan, |plan|, hops);
    forall p | p in TargetsOf(records, |records|)
      ensures p in OriginalsOf(plan)
    {
      var k :| 0 <= k < |records| && records[k].target == p;
      RecordsComeFromEntries(s, plan, |plan|, hops, k);
    }
    forall p | p in OriginalsOf(plan)
      ensures p in TargetsOf(records, |records|)
    {
      var i :| 0 <= i < |plan| && !plan[i].IsAlias() && Original(plan[i]) == p;
      EntriesAreRecorded(s, plan, |plan|, hops, i);
    }
  }

  // A record and its payload tell what was at a clear name.
  lemma RecordIsFaithful(s: Store, b: Store, dir: Path, e: Entry, r: Record, hops: nat)
    requires WellFormed(s) && WellFormed(b) && Clear(s, Original(e)) && (Original(e) in s ==> s[Original(e)].File?)
    requires RecordOf(s, e, hops) == Some(r) && Saved(s, b, dir, r, hops)
    ensures Faithful(s, b, dir, r)
  {
    ClearLookups(s, r.target, hops);
  }

  lemma RecordIsUndoable(s: Store, w: Scope, b: Store, dir: Path, plan: seq<Entry>, r: Record, c: Contract,
                         root: Path, hops: nat, i: nat)
    requires Ready(s, w, plan, c, root, hops) && WellFormed(b) && i < |plan| && !plan[i].IsAlias()
    requires RecordOf(s, plan[i], hops) == Some(r) && Saved(s, b, dir, r, hops)
    ensures ManagedFaithful(s, b, dir, r)
  {
    assert EntryReady(w, plan[i]) && Original(plan[i]) in w.managed;
    RecordIsFaithful(s, b, dir, plan[i], r, hops);
  }

  // A finished backup holds what rollback needs, at every stage of the run.
  lemma BackupIsUndoable(s: Store, t: Store, w: Scope, b: Store, dir: Path, plan: seq<Entry>, records: seq<Record>,
                         c: Contract, root: Path, hops: nat)
    requires Ready(s, w, plan, c, root, hops) && dir != [] && Stage(s, t, w)
    requires BackedUp(s, b, dir, plan, |plan|, records, hops)
    ensures Undoable(s, t, hops, b, dir, records) && TargetsOf(records, |records|) == w.managed
  {
    TargetsAreOriginals(s, plan, hops);
    RecordsAreUndoable(s, w, b, dir, plan, records, c, root, hops);
    TargetsAtStage(s, t, w, b, dir, records, hops);
  }

  lemma TargetsAtStage(s: Store, t: Store, w: Scope, b: Store, dir: Path, records: seq<Record>, hops: nat)
    requires Quiet(s, w) && Stage(s, t, w) && WellFormed(b) && IsDirAt(b, dir)
    requires AllFaithful(s, b, dir, records) && TargetsOf(records, |records|) == w.managed
    ensures Restorable(t, b, dir, records) && TargetsFree(t, hops, records)
    ensures forall i | 0 <= i < |records| :: !IsLinkAt(s, records[i].target)
  {
    forall i | 0 <= i < |records|
      ensures records[i].target in w.managed && Clear(t, records[i].target) && PayloadSound(b, dir, records[i])
      ensures !IsLinkAt(s, records[i].target) && TargetFree(t, hops, records, i)
    {
      assert records[i].target in TargetsOf(records, |records|) && ManagedFaithful(s, b, dir, records[i]);
      ManagedClear(s, t, w, records[i].target);
    }
  }

  // Wherever the run stops: if the recorded contract holds there, the rollback
  // cannot break it.
  lemma StoppedIsSafe(s: Store, t: Store, w: Scope, b: Store, dir: Path, plan: seq<Entry>, records: seq<Record>,
                      c: Contract, root: Path, hops: nat)
    requires Ready(s, w, plan, c, root, hops) && RootRecorded(plan, root) && Stopped(s, t, w, plan, c, root, hops)
    requires AllFaithful(s, b, dir, records) && TargetsOf(records, |records|) == w.managed
    requires RecordHolds(t, plan, c, hops)
    ensures ContractSafe(t, hops, ManifestOf(plan, records), c)
  {
    if FirstTarget(plan).Some? {
      if NoneUncovered(s, plan, |plan|, root, c, hops) {
        NothingUncovered(s, t, w, plan, c, root, hops);
        StageStableForTargets(s, t, w, b, dir, records, c, root, hops);
      } else {
        HalfwayIsSafe(s, t, w, b, dir, plan, records, c, root, hops);
      }
    }
  }

  // Among the copies no directory is gone, so none has to be made again.
  lemma HalfwayIsSafe(s: Store, t: Store, w: Scope, b: Store, dir: Path, plan: seq<Entry>, records: seq<Record>,
                      c: Contract, root: Path, hops: nat)
    requires Quiet(s, w) && AliasesStable(s, root, c, hops) && Halfway(s, t, w, plan) && ContractHolds(t, root, c, hops)
    requires AllFaithful(s, b, dir, records) && TargetsOf(records, |records|) == w.managed
    ensures ContractStable(Unlinked(t, w.managed), root, c, ExistedTargets(records), hops)
  {
    var n :| 0 <= n <= |plan| && HalfwayAt(s, t, w, plan, n);
    var made := ExistedTargets(records);
    assert Unlinked(t, w.managed) == t;
    TargetsWereThere(s, t, w, b, dir, records);
    AliasesStayStable(s, t, root, c, hops);
    NothingToMake(s, t, made);
  }

  lemma TargetsWereThere(s: Store, t: Store, w: Scope, b: Store, dir: Path, records: seq<Record>)
    requires Quiet(s, w) && Stage(s, t, w)
    requires AllFaithful(s, b, dir, records) && TargetsOf(records, |records|) == w.managed
    ensures forall d | d in ExistedTargets(records) :: d in s && d in w.managed && Clear(t, d)
  {
    forall d | d in ExistedTargets(records)
      ensures d in s && d in w.managed && Clear(t, d)
    {
      var i :| 0 <= i < |records| && records[i].existed && records[i].target == d;
      assert ManagedFaithful(s, b, dir, records[i]) && records[i].target in TargetsOf(records, |records|);
      ManagedClear(s, t, w, d);
    }
  }

  lemma NothingToMake(s: Store, t: Store, names: set<Path>)
    requires WellFormed(s) && Grows(s, t) && forall d | d in names :: d in s
    ensures Grown(t, names) == t
  {
    forall q | q in Above(names)
      ensures q in t
    {
      var d, k :| d in names && 0 <= k < |d| && d[..k] == q;
      PrefixesAreDirs(s, d, k);
    }
  }

  lemma StageStableForTargets(s: Store, t: Store, w: Scope, b: Store, dir: Path, records: seq<Record>, c: Contract,
                              root: Path, hops: nat)
    requires Quiet(s, w) && Stage(s, t, w) && ContractStable(s, root, c, w.made, hops)
    requires AllFaithful(s, b, dir, records) && TargetsOf(records, |records|) == w.managed
    ensures ContractStable(Unlinked(t, w.managed), root, c, ExistedTargets(records), hops)
  {
    var made := ExistedTargets(records);
    assert Unlinked(t, w.managed) == t;
    TargetsWereThere(s, t, w, b, dir, records);
    GrownBack(s, t, w, made);
    StableWhenGrown(s, t, root, c, w.made, made, hops);
  }

  // What is put back needs no directories that the run could not make.
  lemma GrownBack(s: Store, t: Store, w: Scope, names: set<Path>)
    requires Quiet(s, w) && Stage(s, t, w) && forall d | d in names :: d in s
    ensures Grows(Grown(t, names), Grown(s, w.made))
  {
    forall q | IsDirAt(Grown(t, names), q) && q !in t
      ensures IsDirAt(Grown(s, w.made), q)
    {
      var d, k :| d in names && 0 <= k < |d| && d[..k] == q;
      PrefixesAreDirs(s, d, k);
    }
  }

  lemma RecordsAreUndoable(s: Store, w: Scope, b: Store, dir: Path, plan: seq<Entry>, records: seq<Record>, c: Contract,
                           root: Path, hops: nat)
    requires Ready(s, w, plan, c, root, hops)
    requires BackedUp(s, b, dir, plan, |plan|, records, hops)
    ensures AllFaithful(s, b, dir, records)
  {
    forall k | 0 <= k < |records|
      ensures ManagedFaithful(s, b, dir, records[k])
    {
      RecordsComeFromEntries(s, plan, |plan|, hops, k);
      assert Saved(s, b, dir, records[k], hops);
      var i :| 0 <= i < |plan| && !plan[i].IsAlias() && RecordOf(s, plan[i], hops) == Some(records[k]);
      RecordIsUndoable(s, w, b, dir, plan, records[k], c, root, hops, i);
    }
  }

  /* ---- The transaction ---- */

  datatype Result = Refused | Deployed | RolledBack(cause: Step) | RollbackFailed(cause: Step)

  // How `deploy_package` ends: from `s`, in `u`.  `t` is the store between
  // copying and removing, or the one in which the run stopped.
  ghost predicate Ends(s: Store, t: Store, u: Store, w: Scope, plan: seq<Entry>, c: Contract, root: Path,
                       items: seq<Item>, assemblyPaths: set<Path>, assemblyPasses: bool, calm: bool, r: Result,
                       hops: nat) {
    match r
    case Refused => u == s && !MayStart(s, plan, c, root, items, assemblyPaths, hops)
    case Deployed =>
      && MayStart(s, plan, c, root, items, assemblyPaths, hops)
      && Completed(s, t, u, w, plan, c, root, items, assemblyPaths, hops)
      && AliasesReadable(t, plan, |plan|, hops) && assemblyPasses
    case RolledBack(cause) =>
      && MayStart(s, plan, c, root, items, assemblyPaths, hops)
      && IsCause(s, t, w, plan, c, root, items, assemblyPaths, assemblyPasses, calm, cause, hops)
      && Files(u) == Reset(Files(s), s, w.managed)
      && RecordHolds(t, plan, c, hops) && RecordHolds(u, plan, c, hops)
    case RollbackFailed(cause) =>
      && MayStart(s, plan, c, root, items, assemblyPaths, hops)
      && IsCause(s, t, w, plan, c, root, items, assemblyPaths, assemblyPasses, calm, cause, hops)
      && NotUndone(s, t, u, w, plan, c, root, hops)
  }

  // Why, and where, the run stopped.
  ghost predicate IsCause(s: Store, t: Store, w: Scope, plan: seq<Entry>, c: Contract, root: Path, items: seq<Item>,
                          assemblyPaths: set<Path>, assemblyPasses: bool, calm: bool, cause: Step, hops: nat) {
    && !cause.Passed? && (calm ==> cause.Failed?) && Stopped(s, t, w, plan, c, root, hops)
    && (cause.Failed? ==> Expected(s, t, w, plan, c, root, items, assemblyPaths, assemblyPasses, cause.check, hops))
  }

  // A rollback that raised: at its first look at the recorded contract, with
  // nothing undone, or at its last.  With the right root recorded it is the
  // first, among the copies, one of which has uncovered a link.
  ghost predicate NotUndone(s: Store, t: Store, u: Store, w: Scope, plan: seq<Entry>, c: Contract, root: Path,
                            hops: nat) {
    && FirstTarget(plan).Some?
    && (if RecordHolds(t, plan, c, hops)
        then Files(u) == Reset(Files(s), s, w.managed) && !RecordHolds(u, plan, c, hops)
        else u == t)
    && (RootRecorded(plan, root) ==>
          !RecordHolds(t, plan, c, hops) && Halfway(s, t, w, plan) && Uncovers(s, plan, root, c, hops))
  }

  // The contract and the evidence hold and the backup can be made.
  ghost predicate MayStart(s: Store, plan: seq<Entry>, c: Contract, root: Path, items: seq<Item>,
                           assemblyPaths: set<Path>, hops: nat) {
    && ContractHolds(s, root, c, hops)
    && EvidenceHolds(s, root, plan, items, assemblyPaths, hops) && Backable(s, plan, |plan|, hops)
  }

  // `deploy_package`.  `assemblyPasses` is the answer of the assembly check
  // that runs as a subprocess.  A run ends in one of the ways that the state it
  // started from explains.
  method DeployPackage(v: Volume, b: Volume, calm: bool, dir: Path, plan: seq<Entry>, c: Contract, root: Path,
                       items: seq<Item>, assemblyPaths: set<Path>, assemblyPasses: bool, ghost w: Scope)
      returns (r: Result, ghost t: Store)
    requires v != b && WellFormed(b.nodes) && IsEmptyDir(b.nodes, dir) && dir != [] && IdsApart(plan)
    requires WellFormed(v.nodes) && Plain(root) && WellFormedContract(c)
    requires FirstTarget(plan).Some? ==> Plain(FirstTarget(plan).value)
    requires ContractHolds(v.nodes, root, c, v.hops) ==> Ready(v.nodes, w, plan, c, root, v.hops)
    modifies v`nodes, b`nodes
    ensures Ends(old(v.nodes), t, v.nodes, w, plan, c, root, items, assemblyPaths, assemblyPasses, calm, r, v.hops)
    ensures r.RolledBack? ==> (Files(v.nodes) == Files(old(v.nodes)) <==> PermissionsOnly(old(v.nodes), w.managed))
  {
    ghost var s := v.nodes;
    t := s;
    var ok := ValidateContract(v, root, c);
    if !ok {
      return Refused, t;
    }
    ok := RevalidateEvidence(v, root, plan, items, assemblyPaths);
    if !ok {
      return Refused, t;
    }
    ok := ValidateContract(v, root, c);
    if !ok {
      return Refused, t;
    }
    var records, saved;
    ok, records, saved := BackupEntries(v, b, plan, dir);
    if !ok {
      return Refused, t;
    }
    var step;
    step, t := TryDeploy(v, calm, plan, c, root, items, assemblyPaths, assemblyPasses, s, w);
    if step.Passed? {
      return Deployed, t;
    }
    BackupIsUndoable(s, t, w, b.nodes, dir, plan, records, c, root, v.hops);
    ok := Undo(v, b, dir, plan, records, c, root, s, w);
    r := if ok then RolledBack(step) else RollbackFailed(step);
  }

  // The exception handler of `deploy_package`.
  method Undo(v: Volume, b: Volume, dir: Path, plan: seq<Entry>, records: seq<Record>, c: Contract, root: Path,
              ghost s: Store, ghost w: Scope)
      returns (ok: bool)
    requires v != b && Ready(s, w, plan, c, root, v.hops) && Stopped(s, v.nodes, w, plan, c, root, v.hops)
    requires Undoable(s, v.nodes, v.hops, b.nodes, dir, records) && TargetsOf(records, |records|) == w.managed
    requires FirstTarget(plan).Some? ==> Plain(FirstTarget(plan).value)
    modifies v`nodes
    ensures ok ==>
      && Files(v.nodes) == Reset(Files(s), s, w.managed)
      && RecordHolds(old(v.nodes), plan, c, v.hops) && RecordHolds(v.nodes, plan, c, v.hops)
      && (Files(v.nodes) == Files(s) <==> PermissionsOnly(s, w.managed))
    ensures !ok ==> NotUndone(s, old(v.nodes), v.nodes, w, plan, c, root, v.hops)
  {
    ghost var t := v.nodes;
    var m := ManifestOf(plan, records);
    ghost var n;
    ok, n := RollbackPackage(v, b, dir, m, c, s);
    Handled(s, t, v.nodes, w, b.nodes, dir, plan, records, c, root, ok, v.hops);
  }

  // What the rollback says, said of the deployment.
  lemma Handled(s: Store, t: Store, u: Store, w: Scope, b: Store, dir: Path, plan: seq<Entry>, records: seq<Record>,
                c: Contract, root: Path, ok: bool, hops: nat)
    requires Ready(s, w, plan, c, root, hops) && Stopped(s, t, w, plan, c, root, hops)
    requires AllFaithful(s, b, dir, records) && TargetsOf(records, |records|) == w.managed
    requires var m := ManifestOf(plan, records);
      if RecordedContract(t, hops, m, c)
      then
        && Files(u) == Reset(Files(t), s, w.managed) && (ok <==> RecordedContract(u, hops, m, c))
        && (ContractSafe(t, hops, m, c) ==> ok)
      else u == t && !ok
    ensures ok ==>
      && Files(u) == Reset(Files(s), s, w.managed) && RecordHolds(t, plan, c, hops) && RecordHolds(u, plan, c, hops)
      && (Files(u) == Files(s) <==> PermissionsOnly(s, w.managed))
    ensures !ok ==> NotUndone(s, t, u, w, plan, c, root, hops)
  {
    if RootRecorded(plan, root) {
      SafeOrUncovered(s, t, w, b, dir, plan, records, c, root, hops);
    }
    ResetFromStage(s, t, w);
  }

  // With the right root recorded, the rollback is safe, or a copy has uncovered
  // a link.
  lemma SafeOrUncovered(s: Store, t: Store, w: Scope, b: Store, dir: Path, plan: seq<Entry>, records: seq<Record>,
                        c: Contract, root: Path, hops: nat)
    requires Ready(s, w, plan, c, root, hops) && RootRecorded(plan, root) && Stopped(s, t, w, plan, c, root, hops)
    requires AllFaithful(s, b, dir, records) && TargetsOf(records, |records|) == w.managed
    ensures if RecordHolds(t, plan, c, hops) then ContractSafe(t, hops, ManifestOf(plan, records), c)
            else Halfway(s, t, w, plan) && Uncovers(s, plan, root, c, hops)
  {
    if RecordHolds(t, plan, c, hops) {
      StoppedIsSafe(s, t, w, b, dir, plan, records, c, root, hops);
    } else {
      StoppedUncovered(s, t, w, plan, c, root, hops);
    }
  }

  // Reset from a stage is reset from the start.
  lemma ResetFromStage(s: Store, t: Store, w: Scope)
    requires Quiet(s, w) && Stage(s, t, w)
    ensures Reset(Files(t), s, w.managed) == Reset(Files(s), s, w.managed)
    ensures Reset(Files(s), s, w.managed) == Files(s) <==> PermissionsOnly(s, w.managed)
  {
    FilesOutside(Files(t), Files(s), w.touched, w.managed);
    ResetSame(Files(t), Files(s), s, w.managed);
    ResetExactly(Files(s), s, w.managed);
  }

  // If the contract does not hold where the run stopped, a copy has uncovered a
  // link.
  lemma StoppedUncovered(s: Store, t: Store, w: Scope, plan: seq<Entry>, c: Contract, root: Path, hops: nat)
    requires Ready(s, w, plan, c, root, hops) && Stopped(s, t, w, plan, c, root, hops)
    requires !ContractHolds(t, root, c, hops)
    ensures Halfway(s, t, w, plan) && Uncovers(s, plan, root, c, hops)
  {
    if NoneUncovered(s, plan, |plan|, root, c, hops) {
      NothingUncovered(s, t, w, plan, c, root, hops);
    }
    var n :| 0 <= n <= |plan| && HalfwayAt(s, t, w, plan, n);
    LinkUncovered(s, t, w, plan, n, c, root, hops);
  }

  // When all-or-nothing fails: a calm run that may start is not undone exactly
  // if a copy that it gets to uncovers an undeclared link and the plan has a
  // projected entry.  Without one it is rolled back.
  lemma RollbackFailsExactly(s: Store, t: Store, u: Store, w: Scope, plan: seq<Entry>, c: Contract, root: Path,
                             items: seq<Item>, assemblyPaths: set<Path>, assemblyPasses: bool, r: Result, hops: nat)
    requires Ready(s, w, plan, c, root, hops) && RootRecorded(plan, root)
    requires MayStart(s, plan, c, root, items, assemblyPaths, hops)
    requires Ends(s, t, u, w, plan, c, root, items, assemblyPaths, assemblyPasses, true, r, hops)
    ensures r.RollbackFailed? <==> FirstTarget(plan).Some? && Uncovers(s, plan, root, c, hops)
    ensures r.RollbackFailed? ==> r.cause == Failed(ProjectionInvalid) && CopiesRemain(s, u, w, plan)
    ensures Uncovers(s, plan, root, c, hops) && FirstTarget(plan).None? ==> r == RolledBack(Failed(ProjectionInvalid))
  {
    if r.RollbackFailed? {
      SomethingCopied(s, t, w, plan, c, root, hops);
    }
  }

  // The store is the one at the start but for some copies, at least one.
  ghost predicate CopiesRemain(s: Store, u: Store, w: Scope, plan: seq<Entry>) {
    exists n | 0 <= n <= |plan| :: WrittenBy(plan, n) != {} && HalfwayAt(s, u, w, plan, n)
  }

  lemma SomethingCopied(s: Store, t: Store, w: Scope, plan: seq<Entry>, c: Contract, root: Path, hops: nat)
    requires Ready(s, w, plan, c, root, hops) && ContractHolds(s, root, c, hops)
    requires Halfway(s, t, w, plan) && !ContractHolds(t, root, c, hops)
    ensures CopiesRemain(s, t, w, plan)
  {
    var n :| 0 <= n <= |plan| && HalfwayAt(s, t, w, plan, n);
    CopiedSomething(s, t, w, plan, n, c, root, hops);
  }

  lemma CopiedSomething(s: Store, t: Store, w: Scope, plan: seq<Entry>, n: nat, c: Contract, root: Path, hops: nat)
    requires Ready(s, w, plan, c, root, hops) && ContractHolds(s, root, c, hops)
    requires n <= |plan| && HalfwayAt(s, t, w, plan, n) && !ContractHolds(t, root, c, hops)
    ensures WrittenBy(plan, n) != {}
  {
    RecheckExactly(s, t, w, plan, n, c, root, hops);
    if WrittenBy(plan, n) == {} {
      NothingWritten(s, plan, n, c, root, hops);
    }
  }

  lemma NothingWritten(s: Store, plan: seq<Entry>, n: nat, c: Contract, root: Path, hops: nat)
    requires n <= |plan| && WrittenBy(plan, n) == {} && NoneUndeclared(s, root, c, hops)
    ensures NoneUncovered(s, plan, n, root, c, hops)
  {
    assert Grown(s, {}) == s;
  }

  lemma FilesOutside(f: Store, g: Store, few: set<Path>, many: set<Path>)
    requires few <= many && f - few == g - few
    ensures f - many == g - many
  {
    assert f - many == (f - few) - many && g - many == (g - few) - many;
  }

  lemma ResetSame(f: Store, g: Store, s: Store, names: set<Path>)
    requires f - names == g - names
    ensures Reset(f, s, names) == Reset(g, s, names)
  {}
}
