// `verify_backup_parity` and `rollback_package`.
module Rollback {
  import opened Paths
  import opened FileStore
  import opened FileOps
  import opened Options
  import opened Volumes
  import opened Projections
  import opened SafePaths
  import opened Backup
  import opened Restore

  /* ---- All records ---- */

  // The files `f` after the first `n` records were restored.
  function Restored(f: Store, b: Store, dir: Path, records: seq<Record>, n: nat): Store
    requires n <= |records|
  {
    if n == 0 then f else RestoreOne(Restored(f, b, dir, records, n - 1), b, dir, records[n - 1])
  }

  function TargetsOf(records: seq<Record>, n: nat): set<Path>
    requires n <= |records|
  {
    set i | 0 <= i < n :: records[i].target
  }

  // The targets that are put back rather than emptied.
  function ExistedTargets(records: seq<Record>): set<Path> {
    set i | 0 <= i < |records| && records[i].existed :: records[i].target
  }

  ghost predicate TargetsApart(records: seq<Record>) {
    forall i, j | 0 <= i < |records| && 0 <= j < |records| :: !(records[i].target < records[j].target)
  }

  lemma NoTargetAbove(records: seq<Record>, i: nat)
    requires i < |records| && TargetsApart(records)
    ensures records[i].target !in Above(ExistedTargets(records))
  {
    forall d, k | d in ExistedTargets(records) && 0 <= k < |d|
      ensures d[..k] != records[i].target
    {
      assert d[..k] < d;
    }
  }

  ghost predicate Restorable(t: Store, b: Store, dir: Path, records: seq<Record>) {
    && WellFormed(t) && WellFormed(b) && IsDirAt(b, dir) && TargetsApart(records)
    && forall i | 0 <= i < |records| :: Clear(t, records[i].target) && PayloadSound(b, dir, records[i])
  }

  lemma RestorableKept(t: Store, u: Store, b: Store, dir: Path, records: seq<Record>, i: nat)
    requires Restorable(t, b, dir, records) && i < |records|
    requires WellFormed(u) && Touches(t, u, records[i].target)
    ensures Restorable(u, b, dir, records)
  {
    forall j | 0 <= j < |records|
      ensures Clear(u, records[j].target)
    {
      ClearKept(t, u, records[i].target, records[j].target);
    }
  }

  // From `t`, the first `n` records have been restored.
  ghost predicate RestoredTo(t: Store, u: Store, b: Store, dir: Path, records: seq<Record>, n: nat)
    requires n <= |records|
  {
    && Restorable(u, b, dir, records)
    && Files(u) == Restored(Files(t), b, dir, records, n)
    && DirsGrow(t, u, ExistedTargets(records))
  }

  // No directory is gone, and new ones lie above `names`.
  ghost predicate DirsGrow(t: Store, u: Store, names: set<Path>) {
    && (forall q | IsDirAt(t, q) :: IsDirAt(u, q))
    && (forall q | IsDirAt(u, q) :: IsDirAt(t, q) || q in Above(names))
  }

  lemma RestoreStep(s: Store, t: Store, u: Store, b: Store, dir: Path, records: seq<Record>, n: nat)
    requires n < |records| && RestoredTo(s, t, b, dir, records, n)
    requires PutBack(t, u, b, dir, records[n]) && !IsDirAt(t, records[n].target)
    ensures RestoredTo(s, u, b, dir, records, n + 1)
  {
    RestorableKept(t, u, b, dir, records, n);
    DirsGrowStep(s, t, u, ExistedTargets(records), records[n]);
  }

  lemma DirsGrowStep(s: Store, t: Store, u: Store, names: set<Path>, r: Record)
    requires DirsGrow(s, t, names) && (r.existed ==> r.target in names)
    requires Touches(t, u, r.target) && (r.target in u ==> u[r.target].File?) && !IsDirAt(t, r.target)
    requires !r.existed ==> u.Keys <= t.Keys
    ensures DirsGrow(s, u, names)
  {
    forall q | IsDirAt(u, q)
      ensures IsDirAt(s, q) || q in Above(names)
    {
      if q !in t {
        assert q < r.target && q == r.target[..|q|];
      }
    }
  }

  /* ---- When a record can be restored ---- */

  // Record `i` can be restored once the records before it have been.
  ghost predicate RestoresAt(t: Store, hops: nat, b: Store, backupHops: nat, dir: Path, records: seq<Record>, i: nat)
    requires i < |records|
  {
    var r := records[i];
    && r.managed && SafeName(t - TargetsOf(records, i), r.target, r.safeRoot, hops) && !IsDirAt(t, r.target)
    && PayloadUsable(b, backupHops, dir, r)
  }

  ghost predicate AllRestore(t: Store, hops: nat, b: Store, backupHops: nat, dir: Path, records: seq<Record>, n: nat)
    requires n <= |records|
  {
    forall i | 0 <= i < n :: RestoresAt(t, hops, b, backupHops, dir, records, i)
  }

  // Restoring takes the links at its targets away and leaves the others.
  lemma {:induction false} RestoredLinks(f: Store, b: Store, backupHops: nat, dir: Path, records: seq<Record>,
                                         n: nat, q: Path)
    requires n <= |records| && WellFormed(b) && IsDirAt(b, dir)
    requires forall i | 0 <= i < n :: PayloadSound(b, dir, records[i]) && PayloadUsable(b, backupHops, dir, records[i])
    ensures var g := Restored(f, b, dir, records, n);
      && (IsLinkAt(g, q) <==> IsLinkAt(f, q) && q !in TargetsOf(records, n))
      && (q !in TargetsOf(records, n) ==> (q in g <==> q in f) && (q in g ==> g[q] == f[q]))
  {
    if n > 0 {
      RestoredLinks(f, b, backupHops, dir, records, n - 1, q);
      OneRestoredLink(Restored(f, b, dir, records, n - 1), b, backupHops, dir, records[n - 1], q);
      assert TargetsOf(records, n) == TargetsOf(records, n - 1) + {records[n - 1].target};
    }
  }

  lemma OneRestoredLink(f: Store, b: Store, backupHops: nat, dir: Path, r: Record, q: Path)
    requires WellFormed(b) && IsDirAt(b, dir) && PayloadSound(b, dir, r) && PayloadUsable(b, backupHops, dir, r)
    ensures var g := RestoreOne(f, b, dir, r);
      && (IsLinkAt(g, q) <==> IsLinkAt(f, q) && q != r.target)
      && (q != r.target ==> (q in g <==> q in f) && (q in g ==> g[q] == f[q]))
  {
    SafePayloadIsFile(b, dir, r, backupHops);
  }

  lemma SameLinksAfter(t: Store, u: Store, hops: nat, b: Store, backupHops: nat, dir: Path, records: seq<Record>,
                       n: nat)
    requires n <= |records| && RestoredTo(t, u, b, dir, records, n)
    requires AllRestore(t, hops, b, backupHops, dir, records, n)
    ensures SameLinks(u, t - TargetsOf(records, n))
  {
    forall i | 0 <= i < n
      ensures PayloadSound(b, dir, records[i]) && PayloadUsable(b, backupHops, dir, records[i])
    {
      assert RestoresAt(t, hops, b, backupHops, dir, records, i);
    }
    forall q
      ensures IsLinkAt(u, q) <==> IsLinkAt(t - TargetsOf(records, n), q)
      ensures IsLinkAt(u, q) ==> u[q] == (t - TargetsOf(records, n))[q]
    {
      RestoredLinks(Files(t), b, backupHops, dir, records, n, q);
      assert IsLinkAt(u, q) <==> IsLinkAt(Files(u), q);
      assert IsLinkAt(t, q) <==> IsLinkAt(Files(t), q);
    }
  }

  // What the store before the rollback tells about a record is what the loop
  // finds when it gets there.
  lemma FoundInTheLoop(t: Store, u: Store, hops: nat, b: Store, backupHops: nat, dir: Path, records: seq<Record>,
                       n: nat)
    requires n < |records| && Restorable(t, b, dir, records) && RestoredTo(t, u, b, dir, records, n)
    requires AllRestore(t, hops, b, backupHops, dir, records, n)
    ensures records[n].managed && CanRestore(u, hops, b, backupHops, dir, records[n]) <==>
      RestoresAt(t, hops, b, backupHops, dir, records, n)
  {
    var r := records[n];
    SameLinksAfter(t, u, hops, b, backupHops, dir, records, n);
    SafeNameByLinks(u, t - TargetsOf(records, n), r.target, r.safeRoot, hops);
    SafeNameIsTarget(u, r.target, r.safeRoot, hops);
    NoTargetAbove(records, n);
  }

  // The loop of `rollback_package`: it stops at the first record that cannot be
  // restored, with the earlier ones restored and the later ones untouched.
  method RestoreRecords(v: Volume, b: Volume, dir: Path, records: seq<Record>) returns (n: nat)
    requires v != b && Restorable(v.nodes, b.nodes, dir, records)
    modifies v`nodes
    ensures n <= |records| && RestoredTo(old(v.nodes), v.nodes, b.nodes, dir, records, n)
    ensures AllRestore(old(v.nodes), v.hops, b.nodes, b.hops, dir, records, n)
    ensures n < |records| ==> !RestoresAt(old(v.nodes), v.hops, b.nodes, b.hops, dir, records, n)
  {
    n := 0;
    ghost var t := v.nodes;
    var going := true;
    while going && n < |records|
      invariant n <= |records| && RestoredTo(t, v.nodes, b.nodes, dir, records, n)
      invariant AllRestore(t, v.hops, b.nodes, b.hops, dir, records, n)
      invariant !going ==> n < |records| && !RestoresAt(t, v.hops, b.nodes, b.hops, dir, records, n)
      decreases |records| - n, going
    {
      going := RestoreRecord(v, b, dir, records, n, t);
      if going {
        n := n + 1;
      }
    }
  }

  method RestoreRecord(v: Volume, b: Volume, dir: Path, records: seq<Record>, n: nat, ghost t: Store) returns (ok: bool)
    requires v != b && n < |records| && Restorable(t, b.nodes, dir, records)
    requires RestoredTo(t, v.nodes, b.nodes, dir, records, n)
    requires AllRestore(t, v.hops, b.nodes, b.hops, dir, records, n)
    modifies v`nodes
    ensures ok <==> RestoresAt(t, v.hops, b.nodes, b.hops, dir, records, n)
    ensures ok ==> RestoredTo(t, v.nodes, b.nodes, dir, records, n + 1)
    ensures ok ==> AllRestore(t, v.hops, b.nodes, b.hops, dir, records, n + 1)
    ensures !ok ==> v.nodes == old(v.nodes)
  {
    FoundInTheLoop(t, v.nodes, v.hops, b.nodes, b.hops, dir, records, n);
    if !records[n].managed {
      return false;
    }
    ok := RestoreFile(v, b, dir, records[n]);
    if ok {
      RestoreStep(t, old(v.nodes), v.nodes, b.nodes, dir, records, n);
    }
  }

  /* ---- What the records mean ---- */

  // The record and its payload tell what was at the target in `s`.
  ghost predicate Faithful(s: Store, b: Store, dir: Path, r: Record) {
    && (r.existed <==> r.target in s) && (r.existed <==> !r.fileType.Absent?)
    && Clear(b, dir + r.payload) && (r.existed <==> dir + r.payload in b)
    && (r.existed ==>
          && (s[r.target].File? || s[r.target].Link?)
          && b[dir + r.payload] == s[r.target]
          && r.fileType == (if s[r.target].File? then Regular else Symlinked)
          && (s[r.target].File? ==> r.mode == Some(PermBits(s[r.target].mode)))
          && r.digest == Some(NodeDigest(s[r.target])))
  }

  ghost predicate ManagedFaithful(s: Store, b: Store, dir: Path, r: Record) {
    r.managed && r.safeRoot < r.target && Faithful(s, b, dir, r)
  }

  ghost predicate AllFaithful(s: Store, b: Store, dir: Path, records: seq<Record>) {
    forall i | 0 <= i < |records| :: ManagedFaithful(s, b, dir, records[i])
  }

  // The files `f` with the names in `names` put back as `s` has them, their
  // modes cut down to the permission bits.
  function Reset(f: Store, s: Store, names: set<Path>): Store {
    (f - names) + map p | p in names && p in s && s[p].File? :: s[p].(mode := PermBits(s[p].mode))
  }

  lemma {:induction false} RestoredIsReset(f: Store, s: Store, b: Store, dir: Path, records: seq<Record>, n: nat)
    requires n <= |records|
    requires forall i | 0 <= i < n :: Faithful(s, b, dir, records[i]) && !IsLinkAt(s, records[i].target)
    ensures Restored(f, b, dir, records, n) == Reset(f, s, TargetsOf(records, n))
  {
    if n == 0 {
      assert TargetsOf(records, 0) == {};
    } else {
      RestoredIsReset(f, s, b, dir, records, n - 1);
      var names, r := TargetsOf(records, n - 1), records[n - 1];
      assert TargetsOf(records, n) == names + {r.target};
      ResetOne(f, s, b, dir, names, r);
    }
  }

  lemma ResetOne(f: Store, s: Store, b: Store, dir: Path, names: set<Path>, r: Record)
    requires Faithful(s, b, dir, r) && !IsLinkAt(s, r.target)
    ensures RestoreOne(Reset(f, s, names), b, dir, r) == Reset(f, s, names + {r.target})
  {}

  lemma ResetTwice(f: Store, s: Store, some: set<Path>, all: set<Path>)
    requires some <= all
    ensures Reset(Reset(f, s, some), s, all) == Reset(f, s, all)
  {}

  // If `f` differs from the files of `s` at `names` only, the reset brings
  // the files of `s` back, up to mode bits that records do not hold.
  ghost predicate PermissionsOnly(s: Store, names: set<Path>) {
    forall p | p in names && p in s && s[p].File? :: s[p].mode < 512
  }

  lemma ResetExactly(f: Store, s: Store, names: set<Path>)
    requires f - names == Files(s) - names
    requires forall p | p in names && p in s :: s[p].File?
    ensures Reset(f, s, names) == Files(s) <==> PermissionsOnly(s, names)
    ensures forall p | p in Files(s) :: p in Reset(f, s, names)
    ensures forall p | p in Reset(f, s, names) :: (
      && p in Files(s) && (p !in names ==> Reset(f, s, names)[p] == s[p])
      && (p in names ==> Reset(f, s, names)[p].File? && Reset(f, s, names)[p].content == s[p].content))
  {
    var r := Reset(f, s, names);
    assert forall p :: p in f - names <==> p in Files(s) - names;
    assert forall p | p in f - names :: (f - names)[p] == (Files(s) - names)[p];
    if !PermissionsOnly(s, names) {
      var p :| p in names && p in s && s[p].File? && !(s[p].mode < 512);
      assert r[p] != Files(s)[p];
    }
  }

  /* ---- The parity check ---- */

  // The target has the type and the digest of its record.
  predicate ParityHolds(s: Store, r: Record, hops: nat) {
    if !r.existed then !Present(s, r.target, hops)
    else if IsSymlink(s, r.target, hops) then
      r.fileType.Symlinked? && Some(NodeDigest(s[Locate(s, r.target, hops).at])) == r.digest
    else
      IsFile(s, r.target, hops) && r.fileType.Regular?
      && Some(NodeDigest(s[Walk(s, [], r.target, hops).at])) == r.digest
  }

  // What is at the key of the target is what the record tells: nothing, a file
  // of the recorded hash, or a link of the recorded hash.
  ghost predicate AsRecorded(s: Store, r: Record) {
    if !r.existed then r.target !in s
    else r.target in s && match s[r.target]
      case File(content, _) => r.fileType == Regular && r.digest == Some(Sha256(content))
      case Link(_, _) => r.fileType == Symlinked && r.digest == Some(Sha256("symlink:" + LinkText(s[r.target])))
      case _ => false
  }

  ghost predicate AllAsRecorded(s: Store, records: seq<Record>) {
    forall i | 0 <= i < |records| :: AsRecorded(s, records[i])
  }

  ghost predicate TargetsClear(s: Store, records: seq<Record>) {
    forall i | 0 <= i < |records| :: Clear(s, records[i].target)
  }

  // At a name that runs through no link, the check passes exactly then.
  lemma ParityExactly(s: Store, r: Record, hops: nat)
    requires WellFormed(s) && Clear(s, r.target)
    ensures ParityHolds(s, r, hops) <==> AsRecorded(s, r)
  {
    ClearLookups(s, r.target, hops);
  }

  lemma AllParityExactly(s: Store, records: seq<Record>, hops: nat)
    requires WellFormed(s) && TargetsClear(s, records)
    ensures AllParity(s, records, hops) <==> AllAsRecorded(s, records)
  {
    forall i | 0 <= i < |records|
      ensures ParityHolds(s, records[i], hops) <==> AsRecorded(s, records[i])
    {
      ParityExactly(s, records[i], hops);
    }
  }

  ghost predicate AllParity(s: Store, records: seq<Record>, hops: nat) {
    forall i | 0 <= i < |records| :: ParityHolds(s, records[i], hops)
  }

  // `verify_backup_parity`
  method VerifyParity(v: Volume, records: seq<Record>) returns (ok: bool)
    ensures ok <==> AllParity(v.nodes, records, v.hops)
    ensures WellFormed(v.nodes) && TargetsClear(v.nodes, records) ==> (ok <==> AllAsRecorded(v.nodes, records))
  {
    if WellFormed(v.nodes) && TargetsClear(v.nodes, records) {
      AllParityExactly(v.nodes, records, v.hops);
    }
    for i := 0 to |records|
      invariant forall j | 0 <= j < i :: ParityHolds(v.nodes, records[j], v.hops)
    {
      if !ParityHolds(v.nodes, records[i], v.hops) {
        return false;
      }
    }
    return true;
  }

  /* ---- The whole rollback ---- */

  // No target is a directory, and a link at a target leads to a place that is
  // allowed when its turn comes.
  ghost predicate TargetsFree(t: Store, hops: nat, records: seq<Record>) {
    forall i | 0 <= i < |records| :: TargetFree(t, hops, records, i)
  }

  ghost predicate TargetFree(t: Store, hops: nat, records: seq<Record>, i: nat)
    requires i < |records|
  {
    var left, r := t - TargetsOf(records, i), records[i];
    !IsDirAt(t, r.target) && (IsLinkAt(left, r.target) ==> SafeName(left, r.target, r.safeRoot, hops))
  }

  // The store without the links at some names.
  function Unlinked(t: Store, names: set<Path>): Store {
    map q | q in t && !(q in names && t[q].Link?) :: t[q]
  }

  ghost predicate RecordedContract(s: Store, hops: nat, m: Manifest, c: Contract) {
    m.projectionContract ==> m.projectionRoot.Some? && ContractHolds(s, m.projectionRoot.value, c, hops)
  }

  // The recorded contract holds before the rollback, and no step of it can
  // break it.
  ghost predicate ContractSafe(t: Store, hops: nat, m: Manifest, c: Contract) {
    RecordedContract(t, hops, m, c) && (m.projectionContract ==>
      ContractStable(Unlinked(t, TargetsOf(m.records, |m.records|)), m.projectionRoot.value, c,
        ExistedTargets(m.records), hops))
  }

  // The records of a backup of the store `s`, and some later store `t`: every
  // record is managed and tells what `s` had at its target, a regular file or
  // nothing; the payload is there; in `t` no target is a directory.
  ghost predicate Undoable(s: Store, t: Store, hops: nat, b: Store, dir: Path, records: seq<Record>) {
    && Restorable(t, b, dir, records) && dir != []
    && AllFaithful(s, b, dir, records)
    && (forall i | 0 <= i < |records| :: !IsLinkAt(s, records[i].target))
    && TargetsFree(t, hops, records)
  }

  lemma FreeRestores(s: Store, t: Store, hops: nat, b: Store, backupHops: nat, dir: Path, records: seq<Record>, i: nat)
    requires i < |records| && Restorable(t, b, dir, records) && dir != []
    requires ManagedFaithful(s, b, dir, records[i]) && !IsLinkAt(s, records[i].target)
    requires TargetFree(t, hops, records, i)
    ensures RestoresAt(t, hops, b, backupHops, dir, records, i)
  {
    var left, r := t - TargetsOf(records, i), records[i];
    if !IsLinkAt(left, r.target) {
      assert Clear(left, r.target);
      ClearNameIsSafe(left, r.target, r.safeRoot, hops);
    }
    UsableExactly(b, backupHops, dir, r);
  }

  // A clear payload is usable exactly when it is no link and not missing.
  lemma UsableExactly(b: Store, backupHops: nat, dir: Path, r: Record)
    requires WellFormed(b) && IsDirAt(b, dir) && dir != [] && Clear(b, dir + r.payload)
    ensures PayloadUsable(b, backupHops, dir, r) <==>
      !IsLinkAt(b, dir + r.payload) && (r.existed ==> dir + r.payload in b)
  {
    var p := dir + r.payload;
    KeysAreClear(b, dir);
    ClearIsSafeBackup(b, dir, Parent(dir), backupHops);
    if IsLinkAt(b, p) {
      ClearLookups(b, p, backupHops);
      if SafeBackup(b, p, dir, backupHops) {
        SafeBackupIsNoLink(b, p, dir, backupHops);
      }
    } else {
      ClearIsSafeBackup(b, p, dir, backupHops);
    }
  }

  // After all records are restored, the parity check passes.
  lemma ParityAfterRestore(s: Store, t: Store, u: Store, hops: nat, b: Store, dir: Path, records: seq<Record>, i: nat)
    requires Undoable(s, t, hops, b, dir, records) && i < |records|
    requires RestoredTo(t, u, b, dir, records, |records|)
    ensures ParityHolds(u, records[i], hops)
  {
    var r, names := records[i], TargetsOf(records, |records|);
    FilesAreReset(s, t, u, hops, b, dir, records);
    assert ManagedFaithful(s, b, dir, r) && r.target in names && !IsLinkAt(s, r.target);
    assert r.target in Files(u) <==> r.existed;
    assert r.existed ==> Files(u)[r.target] == s[r.target].(mode := PermBits(s[r.target].mode));
    assert !IsDirAt(u, r.target) by {
      assert TargetFree(t, hops, records, i);
      NoTargetBecomesDir(t, u, records, i);
    }
    ParityExactly(u, r, hops);
  }

  lemma NoTargetBecomesDir(t: Store, u: Store, records: seq<Record>, i: nat)
    requires i < |records| && TargetsApart(records) && DirsGrow(t, u, ExistedTargets(records))
    requires !IsDirAt(t, records[i].target)
    ensures !IsDirAt(u, records[i].target)
  {
    NoTargetAbove(records, i);
  }

  lemma FilesAreReset(s: Store, t: Store, u: Store, hops: nat, b: Store, dir: Path, records: seq<Record>)
    requires Undoable(s, t, hops, b, dir, records) && RestoredTo(t, u, b, dir, records, |records|)
    ensures Files(u) == Reset(Files(t), s, TargetsOf(records, |records|))
  {
    forall i | 0 <= i < |records|
      ensures Faithful(s, b, dir, records[i]) && !IsLinkAt(s, records[i].target)
    {
      assert ManagedFaithful(s, b, dir, records[i]);
    }
    RestoredIsReset(Files(t), s, b, dir, records, |records|);
  }

  // The recorded contract holds after the rollback.
  lemma ContractAfterRestore(t: Store, u: Store, hops: nat, b: Store, backupHops: nat, dir: Path, m: Manifest,
                             c: Contract)
    requires Restorable(t, b, dir, m.records) && RestoredTo(t, u, b, dir, m.records, |m.records|)
    requires AllRestore(t, hops, b, backupHops, dir, m.records, |m.records|) && ContractSafe(t, hops, m, c)
    ensures RecordedContract(u, hops, m, c)
  {
    if m.projectionContract {
      var names, made := TargetsOf(m.records, |m.records|), ExistedTargets(m.records);
      var left := Unlinked(t, names);
      SameLinksAfter(t, u, hops, b, backupHops, dir, m.records, |m.records|);
      assert forall q | IsLinkAt(left, q) :: IsLinkAt(t - names, q) && (t - names)[q] == left[q];
      assert forall q | IsLinkAt(t - names, q) :: IsLinkAt(left, q);
      DirsAndLinksGrow(t, u, left, made);
      UndoneGrows(t, u, left, made);
      ContractKept(left, u, m.projectionRoot.value, c, made, hops);
    }
  }

  lemma DirsAndLinksGrow(t: Store, u: Store, left: Store, made: set<Path>)
    requires DirsGrow(t, u, made)
    requires forall q | IsDirAt(left, q) :: IsDirAt(t, q)
    requires forall q | IsLinkAt(left, q) :: IsLinkAt(u, q) && u[q] == left[q]
    ensures Grows(left, u) && Grows(Spared(left), u)
  {
    forall q | q in left && (left[q].Dir? || left[q].Link?)
      ensures q in u && u[q] == left[q]
    {
      assert left[q].Dir? ==> IsDirAt(left, q) && IsDirAt(t, q) && IsDirAt(u, q);
      assert left[q].Link? ==> IsLinkAt(left, q);
    }
  }

  lemma UndoneGrows(t: Store, u: Store, left: Store, made: set<Path>)
    requires DirsGrow(t, u, made) && CanGrow(left, made)
    requires forall q | IsDirAt(t, q) :: IsDirAt(left, q)
    requires forall q | IsLinkAt(u, q) :: IsLinkAt(left, q) && left[q] == u[q]
    ensures Grows(u, Grown(left, made))
  {
    forall q | q in u && (u[q].Dir? || u[q].Link?)
      ensures q in Grown(left, made) && Grown(left, made)[q] == u[q]
    {
      if u[q].Link? {
        assert IsLinkAt(u, q);
      } else if !IsDirAt(t, q) {
        assert IsDirAt(u, q);
        var d, k :| d in made && 0 <= k < |d| && d[..k] == q;
        assert Clear(left, d);
      }
    }
  }

  // `rollback_package`.  If the recorded contract does not hold, it changes
  // nothing; otherwise it restores records up to the first that cannot be.
  // From every later store that is undoable the files are then those of the
  // backup, and only the last look at the contract can raise; it does not if
  // the contract is safe.  `s` stands for the store of the backup.
  method RollbackPackage(v: Volume, b: Volume, dir: Path, m: Manifest, c: Contract, ghost s: Store)
      returns (ok: bool, ghost n: nat)
    requires v != b && Restorable(v.nodes, b.nodes, dir, m.records)
    requires m.projectionContract ==> m.projectionRoot.Some? && Plain(m.projectionRoot.value) && WellFormedContract(c)
    modifies v`nodes
    ensures !RecordedContract(old(v.nodes), v.hops, m, c) ==> n == 0 && v.nodes == old(v.nodes)
    ensures n <= |m.records| && RestoredTo(old(v.nodes), v.nodes, b.nodes, dir, m.records, n)
    ensures AllRestore(old(v.nodes), v.hops, b.nodes, b.hops, dir, m.records, n)
    ensures RecordedContract(old(v.nodes), v.hops, m, c) && n < |m.records| ==>
      !RestoresAt(old(v.nodes), v.hops, b.nodes, b.hops, dir, m.records, n)
    ensures ok <==> (
      && RecordedContract(old(v.nodes), v.hops, m, c) && n == |m.records|
      && AllAsRecorded(v.nodes, m.records) && RecordedContract(v.nodes, v.hops, m, c))
    ensures ok ==> PayloadsSound(b.nodes, dir, m.records)
    ensures RecordedContract(old(v.nodes), v.hops, m, c) && Undoable(s, old(v.nodes), v.hops, b.nodes, dir, m.records)
      ==>
      && Files(v.nodes) == Reset(Files(old(v.nodes)), s, TargetsOf(m.records, |m.records|))
      && (ok <==> RecordedContract(v.nodes, v.hops, m, c))
      && (ContractSafe(old(v.nodes), v.hops, m, c) ==> ok)
  {
    ghost var t := v.nodes;
    n := 0;
    ok := ValidateRecorded(v, m, c);
    if !ok {
      return;
    }
    var done := RestoreRecords(v, b, dir, m.records);
    n := done;
    UndoneFully(s, t, v.nodes, v.hops, b.nodes, b.hops, dir, m, c, n);
    AllParityExactly(v.nodes, m.records, v.hops);
    if done < |m.records| {
      return false, n;
    }
    ok := VerifyParity(v, m.records);
    if !ok {
      return;
    }
    RestoredPayloadsSound(t, v.nodes, v.hops, b.nodes, b.hops, dir, m.records);
    ok := ValidateRecorded(v, m, c);
  }

  /* ---- A damaged payload ---- */

  // No later record has the same target.
  ghost predicate IsLastFor(records: seq<Record>, i: nat)
    requires i < |records|
  {
    forall j | i < j < |records| :: records[j].target != records[i].target
  }

  // The payload is the regular file that the record tells.
  ghost predicate PayloadFits(b: Store, dir: Path, r: Record) {
    var p := dir + r.payload;
    p in b && b[p].File? && r.fileType == Regular && r.digest == Some(Sha256(b[p].content))
  }

  ghost predicate PayloadsSound(b: Store, dir: Path, records: seq<Record>) {
    forall i | 0 <= i < |records| && records[i].existed && IsLastFor(records, i) :: PayloadFits(b, dir, records[i])
  }

  // The last record of a target decides what is there in the end.
  lemma {:induction false} RestoredAt(f: Store, b: Store, dir: Path, records: seq<Record>, i: nat, n: nat)
    requires i < n <= |records| && records[i].existed && IsLastFor(records, i)
    requires dir + records[i].payload in b && b[dir + records[i].payload].File?
    ensures var g := Restored(f, b, dir, records, n);
      records[i].target in g && g[records[i].target] == Recovered(b[dir + records[i].payload], records[i])
  {
    if i < n - 1 {
      RestoredAt(f, b, dir, records, i, n - 1);
      assert records[n - 1].target != records[i].target;
    }
  }

  // A rollback that gets past the parity check has restored sound payloads:
  // a single damaged one makes it raise.
  lemma RestoredPayloadsSound(t: Store, u: Store, hops: nat, b: Store, backupHops: nat, dir: Path,
                              records: seq<Record>)
    requires Restorable(t, b, dir, records) && RestoredTo(t, u, b, dir, records, |records|)
    requires AllRestore(t, hops, b, backupHops, dir, records, |records|) && AllAsRecorded(u, records)
    ensures PayloadsSound(b, dir, records)
  {
    forall i | 0 <= i < |records| && records[i].existed && IsLastFor(records, i)
      ensures PayloadFits(b, dir, records[i])
    {
      RestoredPayloadFits(t, u, hops, b, backupHops, dir, records, i);
    }
  }

  lemma RestoredPayloadFits(t: Store, u: Store, hops: nat, b: Store, backupHops: nat, dir: Path, records: seq<Record>,
                            i: nat)
    requires Restorable(t, b, dir, records) && RestoredTo(t, u, b, dir, records, |records|)
    requires AllRestore(t, hops, b, backupHops, dir, records, |records|) && AllAsRecorded(u, records)
    requires i < |records| && records[i].existed && IsLastFor(records, i)
    ensures PayloadFits(b, dir, records[i])
  {
    assert RestoresAt(t, hops, b, backupHops, dir, records, i) && AsRecorded(u, records[i]);
    SafePayloadIsFile(b, dir, records[i], backupHops);
    RestoredAt(Files(t), b, dir, records, i, |records|);
    assert records[i].target in Files(u) && Files(u)[records[i].target] == u[records[i].target];
  }

  lemma UndoneFully(s: Store, t: Store, u: Store, hops: nat, b: Store, backupHops: nat, dir: Path, m: Manifest,
                    c: Contract, n: nat)
    requires n <= |m.records| && RestoredTo(t, u, b, dir, m.records, n)
    requires AllRestore(t, hops, b, backupHops, dir, m.records, n)
    requires n < |m.records| ==> !RestoresAt(t, hops, b, backupHops, dir, m.records, n)
    ensures Undoable(s, t, hops, b, dir, m.records) ==>
      && n == |m.records| && AllParity(u, m.records, hops)
      && Files(u) == Reset(Files(t), s, TargetsOf(m.records, |m.records|))
      && (ContractSafe(t, hops, m, c) ==> RecordedContract(u, hops, m, c))
  {
    if Undoable(s, t, hops, b, dir, m.records) {
      if n < |m.records| {
        assert ManagedFaithful(s, b, dir, m.records[n]) && TargetFree(t, hops, m.records, n);
        FreeRestores(s, t, hops, b, backupHops, dir, m.records, n);
      }
      forall i | 0 <= i < |m.records|
        ensures ParityHolds(u, m.records[i], hops)
      {
        ParityAfterRestore(s, t, u, hops, b, dir, m.records, i);
      }
      FilesAreReset(s, t, u, hops, b, dir, m.records);
      if ContractSafe(t, hops, m, c) {
        ContractAfterRestore(t, u, hops, b, backupHops, dir, m, c);
      }
    }
  }

  method ValidateRecorded(v: Volume, m: Manifest, c: Contract) returns (ok: bool)
    requires WellFormed(v.nodes)
    requires m.projectionContract ==> m.projectionRoot.Some? && Plain(m.projectionRoot.value) && WellFormedContract(c)
    ensures ok <==> RecordedContract(v.nodes, v.hops, m, c)
  {
    ok := true;
    if m.projectionContract {
      ok := ValidateContract(v, m.projectionRoot.value, c);
    }
  }

  /* ---- Stopping and starting again ---- */

  // Stopped after any number of records, the rollback can be run again, and
  // ends with the files that one run ends with.  What the contract needs for
  // that, links at targets included, can be told from the store before.
  lemma RestartedRollback(s: Store, t: Store, u: Store, hops: nat, b: Store, backupHops: nat, dir: Path, m: Manifest,
                          c: Contract, n: nat)
    requires Undoable(s, t, hops, b, dir, m.records) && n <= |m.records| && RestoredTo(t, u, b, dir, m.records, n)
    requires AllRestore(t, hops, b, backupHops, dir, m.records, n)
    ensures Undoable(s, u, hops, b, dir, m.records)
    ensures var names := TargetsOf(m.records, |m.records|); Reset(Files(u), s, names) == Reset(Files(t), s, names)
    ensures ContractSafe(t, hops, m, c) && NoneToUncover(t, hops, m, c) ==>
      ContractSafe(u, hops, m, c) && NoneToUncover(u, hops, m, c)
  {
    SameLinksAfter(t, u, hops, b, backupHops, dir, m.records, n);
    forall i | 0 <= i < |m.records|
      ensures TargetFree(u, hops, m.records, i)
    {
      StillFree(t, u, hops, b, dir, m.records, n, i);
    }
    forall i | 0 <= i < n
      ensures Faithful(s, b, dir, m.records[i]) && !IsLinkAt(s, m.records[i].target)
    {
      assert ManagedFaithful(s, b, dir, m.records[i]);
    }
    RestoredIsReset(Files(t), s, b, dir, m.records, n);
    ResetTwice(Files(t), s, TargetsOf(m.records, n), TargetsOf(m.records, |m.records|));
    if ContractSafe(t, hops, m, c) && NoneToUncover(t, hops, m, c) {
      ContractMidway(t, u, hops, b, backupHops, dir, m, c, n);
    }
  }

  // No undeclared link shows up even when the directories above all files that
  // are put back are there, and the links at targets still are.
  ghost predicate NoneToUncover(t: Store, hops: nat, m: Manifest, c: Contract) {
    m.projectionContract ==>
      m.projectionRoot.Some? && NoneUndeclared(Grown(t, ExistedTargets(m.records)), m.projectionRoot.value, c, hops)
  }

  // A link that is left at a target is the one that was there before.
  lemma StillFree(t: Store, u: Store, hops: nat, b: Store, dir: Path, records: seq<Record>, n: nat, i: nat)
    requires n <= |records| && i < |records| && RestoredTo(t, u, b, dir, records, n)
    requires SameLinks(u, t - TargetsOf(records, n)) && TargetFree(t, hops, records, i)
    ensures TargetFree(u, hops, records, i)
  {
    var r, left := records[i], u - TargetsOf(records, i);
    NoTargetBecomesDir(t, u, records, i);
    if IsLinkAt(left, r.target) {
      assert IsLinkAt(u, r.target) && IsLinkAt(t - TargetsOf(records, n), r.target);
      assert r.target !in TargetsOf(records, n);
      assert n <= i;
      LaterLinks(t, u, records, n, i);
      SafeNameByLinks(left, t - TargetsOf(records, i), r.target, r.safeRoot, hops);
    }
  }

  lemma LaterLinks(t: Store, u: Store, records: seq<Record>, n: nat, i: nat)
    requires n <= i <= |records| && SameLinks(u, t - TargetsOf(records, n))
    ensures SameLinks(u - TargetsOf(records, i), t - TargetsOf(records, i))
  {
    var gone := TargetsOf(records, i);
    assert TargetsOf(records, n) <= gone;
    forall q
      ensures IsLinkAt(u - gone, q) <==> IsLinkAt(t - gone, q)
      ensures IsLinkAt(u - gone, q) ==> (u - gone)[q] == (t - gone)[q]
    {
      assert IsLinkAt(u, q) <==> IsLinkAt(t - TargetsOf(records, n), q);
    }
  }

  lemma ContractMidway(t: Store, u: Store, hops: nat, b: Store, backupHops: nat, dir: Path, m: Manifest, c: Contract,
                       n: nat)
    requires n <= |m.records| && RestoredTo(t, u, b, dir, m.records, n) && Restorable(t, b, dir, m.records)
    requires AllRestore(t, hops, b, backupHops, dir, m.records, n)
    requires ContractSafe(t, hops, m, c) && NoneToUncover(t, hops, m, c)
    ensures ContractSafe(u, hops, m, c) && NoneToUncover(u, hops, m, c)
  {
    if m.projectionContract {
      var names, made, root := TargetsOf(m.records, |m.records|), ExistedTargets(m.records), m.projectionRoot.value;
      SameLinksAfter(t, u, hops, b, backupHops, dir, m.records, n);
      MidwayLinks(t, u, m.records, n);
      DirsAndLinksGrow(t, u, Unlinked(t, names), made);
      AliasesKept(Unlinked(t, names), u, root, c, hops);
      UndoneGrows(t, u, t, made);
      GrownTwice(t, u, made);
      MidwayUndeclared(t, u, root, c, made, hops);
      UnlinkedStable(t, u, root, c, names, made, hops);
    }
  }

  // The links that are left are those that were there and are not restored yet.
  lemma MidwayLinks(t: Store, u: Store, records: seq<Record>, n: nat)
    requires n <= |records| && SameLinks(u, t - TargetsOf(records, n))
    ensures var names := TargetsOf(records, |records|); SameLinks(Unlinked(u, names), Unlinked(t, names))
    ensures forall q | IsLinkAt(Unlinked(t, TargetsOf(records, |records|)), q) :: IsLinkAt(u, q) && u[q] == t[q]
    ensures forall q | IsLinkAt(u, q) :: IsLinkAt(t, q) && t[q] == u[q]
  {
    var names, some := TargetsOf(records, |records|), TargetsOf(records, n);
    assert some <= names;
    forall q
      ensures IsLinkAt(u, q) <==> IsLinkAt(t, q) && q !in some
      ensures IsLinkAt(u, q) ==> u[q] == t[q]
    {
      assert IsLinkAt(u, q) <==> IsLinkAt(t - some, q);
    }
    forall q
      ensures IsLinkAt(Unlinked(u, names), q) <==> IsLinkAt(Unlinked(t, names), q)
      ensures IsLinkAt(Unlinked(u, names), q) ==> Unlinked(u, names)[q] == Unlinked(t, names)[q]
    {
      assert IsLinkAt(Unlinked(u, names), q) <==> IsLinkAt(u, q) && q !in names;
      assert IsLinkAt(Unlinked(t, names), q) <==> IsLinkAt(t, q) && q !in names;
    }
  }

  lemma MidwayUndeclared(t: Store, u: Store, root: Path, c: Contract, made: set<Path>, hops: nat)
    requires WellFormed(t) && WellFormed(u) && CanGrow(t, made) && CanGrow(u, made) && IsDirAt(u, root)
    requires Grows(u, Grown(t, made)) && Grows(Grown(u, made), Grown(t, made))
    requires NoneUndeclared(Grown(t, made), root, c, hops)
    ensures NoneUndeclared(u, root, c, hops) && NoneUndeclared(Grown(u, made), root, c, hops)
  {
    GrownWellFormed(t, made);
    GrownWellFormed(u, made);
    UndeclaredGrow(u, Grown(t, made), root, c, hops);
    UndeclaredGrow(Grown(u, made), Grown(t, made), root, c, hops);
  }

  lemma UnlinkedStable(t: Store, u: Store, root: Path, c: Contract, names: set<Path>, made: set<Path>, hops: nat)
    requires ContractStable(Unlinked(t, names), root, c, made, hops) && WellFormed(u) && CanGrow(u, made)
    requires DirsGrow(t, u, made) && SameLinks(Unlinked(u, names), Unlinked(t, names))
    ensures ContractStable(Unlinked(u, names), root, c, made, hops)
  {
    var was, left := Unlinked(t, names), Unlinked(u, names);
    UnlinkedWellFormed(u, names);
    assert DirsGrow(t, left, made) by {
      UnlinkedDirs(u, names);
    }
    UnlinkedDirs(t, names);
    assert forall q | IsLinkAt(left, q) :: IsLinkAt(was, q) && was[q] == left[q];
    DirsAndLinksGrow(t, left, was, made);
    UndoneGrows(t, left, was, made);
    GrownTwice(was, left, made);
    assert CanGrow(left, made);
    StableWhenGrown(was, left, root, c, made, made, hops);
  }

  lemma UnlinkedDirs(t: Store, names: set<Path>)
    ensures forall q :: IsDirAt(Unlinked(t, names), q) <==> IsDirAt(t, q)
  {}

  lemma UnlinkedWellFormed(t: Store, names: set<Path>)
    requires WellFormed(t)
    ensures WellFormed(Unlinked(t, names))
  {
    var left := Unlinked(t, names);
    forall q | q in left && q != []
      ensures Last(q) != UP && Parent(q) in left && left[Parent(q)].Dir?
    {
      assert q in t && IsDirAt(t, Parent(q));
    }
  }

  /* ---- Originals that were links ---- */

  // Otherwise plain records: managed, their payload where the backup put it,
  // and nothing in the way at their targets.
  ghost predicate PlainRecords(t: Store, hops: nat, b: Store, dir: Path, records: seq<Record>) {
    && Restorable(t, b, dir, records) && dir != [] && TargetsFree(t, hops, records)
    && forall i | 0 <= i < |records| :: PlainRecord(b, dir, records[i])
  }

  ghost predicate PlainRecord(b: Store, dir: Path, r: Record) {
    r.managed && r.safeRoot < r.target && Clear(b, dir + r.payload) && (r.existed ==> dir + r.payload in b)
  }

  // Over plain records the rollback gets to the end exactly when no original
  // was a link, and otherwise stops at the first that was.
  lemma StopsAtTheLinkExactly(t: Store, hops: nat, b: Store, backupHops: nat, dir: Path, records: seq<Record>, n: nat)
    requires PlainRecords(t, hops, b, dir, records) && n <= |records|
    requires AllRestore(t, hops, b, backupHops, dir, records, n)
    requires n < |records| ==> !RestoresAt(t, hops, b, backupHops, dir, records, n)
    ensures n == |records| <==> forall i | 0 <= i < |records| :: !IsLinkAt(b, dir + records[i].payload)
    ensures n < |records| ==> IsLinkAt(b, dir + records[n].payload)
    ensures forall i | 0 <= i < n :: !IsLinkAt(b, dir + records[i].payload)
  {
    forall i | 0 <= i < |records|
      ensures RestoresAt(t, hops, b, backupHops, dir, records, i) <==> !IsLinkAt(b, dir + records[i].payload)
    {
      PlainRestoresExactly(t, hops, b, backupHops, dir, records, i);
    }
  }

  lemma PlainRestoresExactly(t: Store, hops: nat, b: Store, backupHops: nat, dir: Path, records: seq<Record>, i: nat)
    requires PlainRecords(t, hops, b, dir, records) && i < |records|
    ensures RestoresAt(t, hops, b, backupHops, dir, records, i) <==> !IsLinkAt(b, dir + records[i].payload)
  {
    var left, r := t - TargetsOf(records, i), records[i];
    assert TargetFree(t, hops, records, i) && PlainRecord(b, dir, r);
    if !IsLinkAt(left, r.target) {
      assert Clear(left, r.target);
      ClearNameIsSafe(left, r.target, r.safeRoot, hops);
    }
    UsableExactly(b, backupHops, dir, r);
  }

  // What a backup of `s` has recorded about clear names.
  ghost predicate RecordedFrom(s: Store, hops: nat, b: Store, dir: Path, records: seq<Record>) {
    && WellFormed(s)
    && forall i | 0 <= i < |records| :: NodeRecorded(s, hops, b, dir, records[i])
  }

  ghost predicate NodeRecorded(s: Store, hops: nat, b: Store, dir: Path, r: Record) {
    && r.managed && r.safeRoot < r.target && Clear(s, r.target) && !IsDirAt(s, r.target)
    && (r.existed <==> r.target in s) && Saved(s, b, dir, r, hops)
  }

  // Of a backup, the rollback restores everything exactly when no original was
  // a link.
  lemma LinkOriginalsExactly(s: Store, t: Store, hops: nat, b: Store, backupHops: nat, dir: Path,
                             records: seq<Record>, n: nat)
    requires RecordedFrom(s, hops, b, dir, records) && dir != []
    requires Restorable(t, b, dir, records) && TargetsFree(t, hops, records) && n <= |records|
    requires AllRestore(t, hops, b, backupHops, dir, records, n)
    requires n < |records| ==> !RestoresAt(t, hops, b, backupHops, dir, records, n)
    ensures n == |records| <==> forall i | 0 <= i < |records| :: !IsLinkAt(s, records[i].target)
    ensures n < |records| ==> IsLinkAt(s, records[n].target)
    ensures forall i | 0 <= i < n :: !IsLinkAt(s, records[i].target)
  {
    forall i | 0 <= i < |records|
      ensures PlainRecord(b, dir, records[i])
      ensures IsLinkAt(b, dir + records[i].payload) <==> IsLinkAt(s, records[i].target)
    {
      PayloadKeepsLinks(s, hops, b, dir, records[i]);
    }
    StopsAtTheLinkExactly(t, hops, b, backupHops, dir, records, n);
  }

  lemma PayloadKeepsLinks(s: Store, hops: nat, b: Store, dir: Path, r: Record)
    requires WellFormed(s) && NodeRecorded(s, hops, b, dir, r)
    ensures PlainRecord(b, dir, r) && (IsLinkAt(b, dir + r.payload) <==> IsLinkAt(s, r.target))
  {
    ClearLookups(s, r.target, hops);
  }
}
