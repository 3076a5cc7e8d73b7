// `deploy_package`: the transaction.  Unless the run is calm, the system may
// interrupt it before and after any step.
module Deploy {
  import opened Paths
  import opened FileStore
  import opened FileOps
  import opened Options
  import opened PathText
  import opened Substrings
  import opened Volumes
  import opened Projections
  import opened Planner
  import opened SafePaths
  import opened Staging
  import opened Copying
  import opened Dedup
  import opened Execution
  import opened Backup
  import opened Orphans

  // The checks that deploy makes of its own.
  datatype Check =
    | SourceDisappeared | TargetEscapes | TargetIsSymlink | ProjectionInvalid | CopyFailed
    | AliasDisappeared | ParityFailed | EvidenceDrift | TargetIsDirectory | RemoveFailed
    | StillPresent | PruneFailed | AssemblyCheck

  datatype Step = Passed | Failed(check: Check) | Interrupted

  // Whether the system strikes now.
  method Strike(calm: bool) returns (fault: bool)
    ensures calm ==> !fault
  {
    if * {
      fault := !calm;
    } else {
      fault := false;
    }
  }

  function OriginalsOf(plan: seq<Entry>): set<Path> {
    set i | 0 <= i < |plan| && !plan[i].IsAlias() :: Original(plan[i])
  }

  // What the manifest has to guarantee for a transaction from `s`.
  ghost predicate Ready(s: Store, w: Scope, plan: seq<Entry>, c: Contract, root: Path, hops: nat) {
    && Quiet(s, w) && Covers(w, plan) && SourcesAgree(plan)
    && w.managed == OriginalsOf(plan)
    && (forall i | 0 <= i < |plan| :: EntryReady(w, plan[i]))
    && AliasesStable(s, root, c, hops)
  }

  predicate EntryReady(w: Scope, e: Entry) {
    && e.managed && SafeRootOf(e) < Original(e)
    && (e.kind.Remove? ==> e.destination in w.touched)
  }

  /* ---- Copying ---- */

  // The source of a copy is a file at any stage exactly if it was at first.
  lemma SourceStays(s: Store, t: Store, w: Scope, plan: seq<Entry>, i: nat, hops: nat)
    requires Quiet(s, w) && Covers(w, plan) && Stage(s, t, w) && i < |plan| && plan[i].kind.Copy?
    ensures IsFile(t, plan[i].source, hops) <==> plan[i].source in s && s[plan[i].source].File?
    ensures plan[i].source in Files(t) ==> plan[i].source in Files(s) && t[plan[i].source] == s[plan[i].source]
  {
    var q := plan[i].source;
    SourceClear(s, t, w, q);
    ClearLookups(t, q, hops);
  }

  lemma WriterIsSafe(s: Store, t: Store, w: Scope, plan: seq<Entry>, i: nat, hops: nat)
    requires Quiet(s, w) && Covers(w, plan) && Stage(s, t, w) && i < |plan| && plan[i].Writes()
    requires EntryReady(w, plan[i])
    ensures SafeTarget(t, plan[i].destination, plan[i].root, hops)
    ensures !IsSymlink(t, plan[i].destination, hops)
  {
    var d := plan[i].destination;
    ManagedClear(s, t, w, d);
    ClearLookups(t, d, hops);
    ClearIsSafe(t, d, plan[i].root, hops);
  }

  lemma CopyStep(s: Store, t: Store, w: Scope, plan: seq<Entry>, i: nat, hops: nat)
    requires Quiet(s, w) && Covers(w, plan) && i < |plan| && plan[i].Writes() && CopiedTo(s, t, w, plan, i)
    requires plan[i].source in s && s[plan[i].source].File?
    ensures var o := CopyInto(t, plan[i].source, plan[i].destination, hops);
      o.ok && CopiedTo(s, o.store, w, plan, i + 1)
  {
    ManagedClear(s, t, w, plan[i].destination);
    ClearLandsAtItself(t, plan[i].destination, hops);
    CopyLands(s, t, w, plan[i].source, plan[i].destination, plan[i].destination, WriteMap(plan, i), hops);
  }

  // What deploy asks before it copies, on any store.
  method CheckCopy(v: Volume, e: Entry, c: Contract, root: Path) returns (r: Step)
    requires WellFormed(v.nodes) && Plain(root) && WellFormedContract(c)
    ensures r == if !IsFile(v.nodes, e.source, v.hops) then Failed(SourceDisappeared)
                 else if !SafeTarget(v.nodes, e.destination, e.root, v.hops) then Failed(TargetEscapes)
                 else if IsSymlink(v.nodes, e.destination, v.hops) then Failed(TargetIsSymlink)
                 else if !ContractHolds(v.nodes, root, c, v.hops) then Failed(ProjectionInvalid)
                 else Passed
    ensures r.Passed? ==> LiesWithin(v.nodes, e.destination, e.root, v.hops)
  {
    if !IsFile(v.nodes, e.source, v.hops) {
      return Failed(SourceDisappeared);
    }
    if !SafeTarget(v.nodes, e.destination, e.root, v.hops) {
      return Failed(TargetEscapes);
    }
    SafeLiesWithin(v.nodes, e.destination, e.root, v.hops);
    if IsSymlink(v.nodes, e.destination, v.hops) {
      return Failed(TargetIsSymlink);
    }
    var ok := ValidateContract(v, root, c);
    if !ok {
      return Failed(ProjectionInvalid);
    }
    return Passed;
  }

  // One copy, between two looks at the contract.
  method CopyEntry(v: Volume, calm: bool, plan: seq<Entry>, i: nat, c: Contract, root: Path, ghost s: Store,
      ghost w: Scope)
      returns (r: Step)
    requires Ready(s, w, plan, c, root, v.hops) && i < |plan| && plan[i].Writes() && CopiedTo(s, v.nodes, w, plan, i)
    requires ContractHolds(v.nodes, root, c, v.hops)
    modifies v`nodes
    ensures calm ==> !r.Interrupted?
    ensures r.Passed? ==>
      IsFileAt(s, plan[i].source) && CopiedTo(s, v.nodes, w, plan, i + 1) && ContractHolds(v.nodes, root, c, v.hops)
    ensures r.Interrupted? ==> v.nodes == old(v.nodes) || CopiedTo(s, v.nodes, w, plan, i + 1)
    ensures r.Interrupted? && v.nodes != old(v.nodes) ==> IsFileAt(s, plan[i].source)
    ensures r.Failed? ==>
      if r.check.SourceDisappeared? then v.nodes == old(v.nodes) && !IsFileAt(s, plan[i].source)
      else
        && r.check.ProjectionInvalid? && IsFileAt(s, plan[i].source)
        && CopiedTo(s, v.nodes, w, plan, i + 1) && !ContractHolds(v.nodes, root, c, v.hops)
  {
    var e := plan[i];
    SourceStays(s, v.nodes, w, plan, i, v.hops);
    assert EntryReady(w, plan[i]);
    WriterIsSafe(s, v.nodes, w, plan, i, v.hops);
    r := CheckCopy(v, e, c, root);
    if !r.Passed? {
      return;
    }
    var fault := Strike(calm);
    if fault {
      return Interrupted;
    }
    CopyStep(s, v.nodes, w, plan, i, v.hops);
    var ok := v.CopyPreserving(v, e.source, e.destination);
    if !ok {
      return Failed(CopyFailed);
    }
    fault := Strike(calm);
    if fault {
      return Interrupted;
    }
    ok := ValidateContract(v, root, c);
    if !ok {
      return Failed(ProjectionInvalid);
    }
    fault := Strike(calm);
    if fault {
      return Interrupted;
    }
    return Passed;
  }

  ghost predicate IsFileAt(s: Store, p: Path) {
    p in s && s[p].File?
  }

  ghost predicate WritersPresent(s: Store, plan: seq<Entry>, n: nat)
    requires n <= |plan|
  {
    forall i | 0 <= i < n && plan[i].Writes() :: IsFileAt(s, plan[i].source)
  }

  // Once the writers among the first `n` have copied, the store is known in full.
  lemma CopiedStore(s: Store, t: Store, w: Scope, plan: seq<Entry>, n: nat)
    requires Quiet(s, w) && Covers(w, plan) && n <= |plan|
    requires CopiedTo(s, t, w, plan, n) && WritersPresent(s, plan, n)
    ensures t == CopiedBy(s, plan, n)
    ensures Grows(Grown(s, WrittenBy(plan, n)), t) && Grows(t, Grown(s, WrittenBy(plan, n)))
  {
    WriteMapKeys(plan, n);
    forall q | q in Above(WrittenBy(plan, n))
      ensures IsDirAt(t, q)
    {
      MadeDirectory(s, t, w, plan, n, q);
    }
    GrownThere(s, t, WrittenBy(plan, n));
    SameStore(s, t, WrittenBy(plan, n), Overlaid(Files(s), WriteMap(plan, n)));
  }

  // No undeclared link shows up among the directories of the first `n` copies.
  ghost predicate NoneUncovered(s: Store, plan: seq<Entry>, n: nat, root: Path, c: Contract, hops: nat)
    requires n <= |plan|
  {
    NoneUndeclared(Grown(s, WrittenBy(plan, n)), root, c, hops)
  }

  // The re-check after the copies passes exactly when they uncover no
  // undeclared link.
  lemma RecheckExactly(s: Store, t: Store, w: Scope, plan: seq<Entry>, n: nat, c: Contract, root: Path, hops: nat)
    requires Quiet(s, w) && Covers(w, plan) && AliasesStable(s, root, c, hops) && n <= |plan|
    requires CopiedTo(s, t, w, plan, n) && WritersPresent(s, plan, n)
    ensures ContractHolds(t, root, c, hops) <==> NoneUncovered(s, plan, n, root, c, hops)
  {
    CopiedStore(s, t, w, plan, n);
    WrittenCanGrow(s, w, plan, n);
    ContractHoldsExactly(s, t, root, c, WrittenBy(plan, n), hops);
  }

  lemma WrittenCanGrow(s: Store, w: Scope, plan: seq<Entry>, n: nat)
    requires Quiet(s, w) && Covers(w, plan) && n <= |plan|
    ensures CanGrow(s, WrittenBy(plan, n)) && WrittenBy(plan, n) <= w.made
  {
    assert WrittenBy(plan, n) <= WrittenNames(plan);
  }

  // Some copy that the run gets to uncovers an undeclared link.
  ghost predicate Uncovers(s: Store, plan: seq<Entry>, root: Path, c: Contract, hops: nat) {
    exists n | 0 <= n <= |plan| :: UncoversAt(s, plan, n, root, c, hops)
  }

  ghost predicate UncoversAt(s: Store, plan: seq<Entry>, n: nat, root: Path, c: Contract, hops: nat)
    requires n <= |plan|
  {
    WritersPresent(s, plan, n) && !NoneUncovered(s, plan, n, root, c, hops)
  }

  // If nothing is uncovered by the last copy that the run gets to, nothing is.
  lemma NoneBefore(s: Store, w: Scope, plan: seq<Entry>, n: nat, root: Path, c: Contract, hops: nat)
    requires Quiet(s, w) && Covers(w, plan) && IsDirAt(s, root) && n <= |plan|
    requires NoneUncovered(s, plan, n, root, c, hops)
    requires n < |plan| ==> !WritersPresent(s, plan, n + 1)
    ensures !Uncovers(s, plan, root, c, hops)
  {
    forall k: nat | k <= |plan|
      ensures !UncoversAt(s, plan, k, root, c, hops)
    {
      if k <= n {
        WrittenCanGrow(s, w, plan, n);
        FewerUncover(s, root, c, WrittenBy(plan, k), WrittenBy(plan, n), hops);
      } else {
        MoreAreMissing(s, plan, n + 1, k);
      }
    }
  }

  lemma MoreAreMissing(s: Store, plan: seq<Entry>, n: nat, k: nat)
    requires n <= k <= |plan| && !WritersPresent(s, plan, n)
    ensures !WritersPresent(s, plan, k)
  {}

  lemma GrownThere(s: Store, t: Store, made: set<Path>)
    requires Grows(s, t) && forall q | q in Above(made) :: IsDirAt(t, q)
    ensures Grows(Grown(s, made), t)
  {}

  // Directories and files make up a store.
  lemma SameStore(s: Store, t: Store, made: set<Path>, f: Store)
    requires Grows(t, Grown(s, made)) && Grows(Grown(s, made), t) && Files(t) == f
    requires forall q | q in Files(s) :: q in f
    requires forall q | q in f :: !f[q].Dir?
    ensures t == Grown(s, made) + f
  {
    var g := Grown(s, made);
    forall q
      ensures q in t <==> q in g + f
      ensures q in t ==> t[q] == (g + f)[q]
    {
      if q in t {
        if t[q].Dir? {
          assert q !in Files(t);
        } else {
          assert q in Files(t);
        }
      } else {
        assert q !in Files(t);
      }
    }
  }

  lemma MadeDirectory(s: Store, t: Store, w: Scope, plan: seq<Entry>, n: nat, q: Path)
    requires n <= |plan| && q in Above(WrittenBy(plan, n))
    requires CopiedTo(s, t, w, plan, n) && WritersPresent(s, plan, n)
    ensures IsDirAt(t, q)
  {
    var d, k :| d in WrittenBy(plan, n) && 0 <= k < |d| && d[..k] == q;
    WriteMapKeys(plan, n);
    WriteMapFrom(plan, n, d);
    var j :| 0 <= j < n && plan[j].Writes() && plan[j].destination == d && plan[j].source == WriteMap(plan, n)[d];
    assert IsFileAt(s, plan[j].source);
    assert d in Overlaid(Files(s), WriteMap(plan, n));
    assert d in Files(t);
    PrefixesAreDirs(t, d, k);
  }

  lemma WritersStep(s: Store, t: Store, w: Scope, plan: seq<Entry>, i: nat)
    requires i < |plan| && WritersPresent(s, plan, i) && CopiedTo(s, t, w, plan, i)
    ensures !plan[i].Writes() ==> CopiedTo(s, t, w, plan, i + 1)
    ensures WritersPresent(s, plan, i + 1) <==> !plan[i].Writes() || IsFileAt(s, plan[i].source)
    ensures plan[i].Writes() && !IsFileAt(s, plan[i].source) ==> !WritersPresent(s, plan, |plan|)
  {}

  // The store after some of the copies, in order, and no other change.
  ghost predicate Halfway(s: Store, t: Store, w: Scope, plan: seq<Entry>) {
    exists n | 0 <= n <= |plan| :: HalfwayAt(s, t, w, plan, n)
  }

  ghost predicate HalfwayAt(s: Store, t: Store, w: Scope, plan: seq<Entry>, n: nat)
    requires n <= |plan|
  {
    CopiedTo(s, t, w, plan, n) && WritersPresent(s, plan, n)
  }

  // Where the copy loop stands after `n` entries.  It stops at the first
  // missing source or at the first copy that uncovers a link.
  ghost predicate CopyLoop(s: Store, t: Store, w: Scope, plan: seq<Entry>, n: nat, root: Path, c: Contract, r: Step,
                           hops: nat)
    requires n <= |plan|
  {
    && Halfway(s, t, w, plan)
    && (r.Passed? ==> HalfwayAt(s, t, w, plan, n) && ContractHolds(t, root, c, hops))
    && (r.Failed? ==> CopyStopped(s, t, plan, root, c, r.check, hops))
  }

  ghost predicate CopyStopped(s: Store, t: Store, plan: seq<Entry>, root: Path, c: Contract, check: Check, hops: nat) {
    if check.SourceDisappeared? then
      && !WritersPresent(s, plan, |plan|) && !Uncovers(s, plan, root, c, hops)
      && ContractHolds(t, root, c, hops)
    else check.ProjectionInvalid? && Uncovers(s, plan, root, c, hops) && !ContractHolds(t, root, c, hops)
  }

  method CopyPhase(v: Volume, calm: bool, plan: seq<Entry>, c: Contract, root: Path, ghost s: Store, ghost w: Scope)
      returns (r: Step)
    requires Ready(s, w, plan, c, root, v.hops) && v.nodes == s && ContractHolds(s, root, c, v.hops)
    modifies v`nodes
    ensures calm ==> !r.Interrupted?
    ensures CopyLoop(s, v.nodes, w, plan, |plan|, root, c, r, v.hops)
  {
    CopyStart(s, w, plan);
    var i := 0;
    r := Passed;
    while r.Passed? && i < |plan|
      invariant i <= |plan| && CopyLoop(s, v.nodes, w, plan, i, root, c, r, v.hops) && (calm ==> !r.Interrupted?)
    {
      r := CopyNext(v, calm, plan, i, c, root, s, w);
      i := i + 1;
    }
  }

  lemma CopyStart(s: Store, w: Scope, plan: seq<Entry>)
    requires Quiet(s, w)
    ensures HalfwayAt(s, s, w, plan, 0)
  {
    StageStart(s, w);
    assert Overlaid(Files(s), map[]) == Files(s);
  }

  method CopyNext(v: Volume, calm: bool, plan: seq<Entry>, i: nat, c: Contract, root: Path, ghost s: Store,
      ghost w: Scope)
      returns (r: Step)
    requires Ready(s, w, plan, c, root, v.hops) && i < |plan|
    requires CopyLoop(s, v.nodes, w, plan, i, root, c, Passed, v.hops)
    modifies v`nodes
    ensures calm ==> !r.Interrupted?
    ensures CopyLoop(s, v.nodes, w, plan, i + 1, root, c, r, v.hops)
  {
    ghost var t := v.nodes;
    WritersStep(s, t, w, plan, i);
    r := Passed;
    if plan[i].Writes() {
      r := CopyEntry(v, calm, plan, i, c, root, s, w);
    }
    CopyAfter(s, t, v.nodes, w, plan, i, c, root, r, v.hops);
  }

  // What one entry does to the loop.
  lemma CopyAfter(s: Store, t: Store, u: Store, w: Scope, plan: seq<Entry>, i: nat, c: Contract, root: Path, r: Step,
                  hops: nat)
    requires Ready(s, w, plan, c, root, hops) && i < |plan| && CopyLoop(s, t, w, plan, i, root, c, Passed, hops)
    requires u == t || HalfwayAt(s, u, w, plan, i + 1)
    requires r.Passed? ==> HalfwayAt(s, u, w, plan, i + 1) && ContractHolds(u, root, c, hops)
    requires r.Failed? && r.check.SourceDisappeared? ==> u == t && !WritersPresent(s, plan, i + 1)
    requires r.Failed? && !r.check.SourceDisappeared? ==>
      r.check.ProjectionInvalid? && HalfwayAt(s, u, w, plan, i + 1) && !ContractHolds(u, root, c, hops)
    ensures CopyLoop(s, u, w, plan, i + 1, root, c, r, hops)
  {
    assert Halfway(s, u, w, plan);
    if r.Failed? {
      if r.check.SourceDisappeared? {
        SourceMissing(s, t, w, plan, i, c, root, hops);
      } else {
        LinkUncovered(s, u, w, plan, i + 1, c, root, hops);
      }
    }
  }

  lemma LinkUncovered(s: Store, u: Store, w: Scope, plan: seq<Entry>, n: nat, c: Contract, root: Path, hops: nat)
    requires Ready(s, w, plan, c, root, hops) && n <= |plan| && HalfwayAt(s, u, w, plan, n)
    requires !ContractHolds(u, root, c, hops)
    ensures Uncovers(s, plan, root, c, hops)
  {
    RecheckExactly(s, u, w, plan, n, c, root, hops);
    assert UncoversAt(s, plan, n, root, c, hops);
  }

  lemma SourceMissing(s: Store, t: Store, w: Scope, plan: seq<Entry>, i: nat, c: Contract, root: Path, hops: nat)
    requires Ready(s, w, plan, c, root, hops) && i < |plan| && HalfwayAt(s, t, w, plan, i)
    requires ContractHolds(t, root, c, hops) && !WritersPresent(s, plan, i + 1)
    ensures !Uncovers(s, plan, root, c, hops) && !WritersPresent(s, plan, |plan|)
  {
    RecheckExactly(s, t, w, plan, i, c, root, hops);
    NoneBefore(s, w, plan, i, root, c, hops);
    MoreAreMissing(s, plan, i + 1, |plan|);
  }

  /* ---- After copying ---- */

  // What a copy brought to its destination.
  lemma WrittenFile(s: Store, t: Store, w: Scope, plan: seq<Entry>, i: nat, hops: nat)
    requires Quiet(s, w) && Covers(w, plan) && SourcesAgree(plan) && i < |plan| && plan[i].Writes()
    requires CopiedTo(s, t, w, plan, |plan|) && IsFileAt(s, plan[i].source)
    ensures IsFile(t, plan[i].destination, hops) && Walk(t, [], plan[i].destination, hops) == Found(plan[i].destination)
    ensures IsFileAt(t, plan[i].destination) && t[plan[i].destination] == s[plan[i].source]
    ensures IsFileAt(t, plan[i].source) && t[plan[i].source] == s[plan[i].source]
  {
    var d := plan[i].destination;
    WriteMapAgrees(plan, |plan|, i);
    assert Overlaid(Files(s), WriteMap(plan, |plan|))[d] == s[plan[i].source];
    assert d in Files(t);
    ManagedClear(s, t, w, d);
    ClearLookups(t, d, hops);
    SourceClear(s, t, w, plan[i].source);
  }

  // The parity test that deploy and verify share: source and destination are
  // files of one digest.
  predicate Matches(t: Store, e: Entry, hops: nat) {
    && IsFile(t, e.source, hops) && IsFile(t, e.destination, hops)
    && HashOf(t, e.source, hops) == HashOf(t, e.destination, hops)
  }

  // `sha256(path)`: a link is hashed as a link.
  function HashOf(t: Store, p: Path, hops: nat): Option<Digest> {
    var n := SourceNode(t, p, hops);
    if n.Some? && (n.value.File? || n.value.Link?) then Some(NodeDigest(n.value)) else None
  }

  lemma WritersMatch(s: Store, t: Store, w: Scope, plan: seq<Entry>, i: nat, hops: nat)
    requires Quiet(s, w) && Covers(w, plan) && SourcesAgree(plan) && i < |plan| && plan[i].Writes()
    requires CopiedTo(s, t, w, plan, |plan|) && IsFileAt(s, plan[i].source)
    ensures Matches(t, plan[i], hops)
  {
    WrittenFile(s, t, w, plan, i, hops);
    FileHash(t, plan[i].source, hops);
    FileHash(t, plan[i].destination, hops);
  }

  lemma FileHash(t: Store, p: Path, hops: nat)
    requires WellFormed(t) && IsFileAt(t, p)
    ensures IsFile(t, p, hops) && HashOf(t, p, hops) == Some(Sha256(t[p].content))
  {
    if p != [] {
      KeysAreClear(t, p);
      ClearLookups(t, p, hops);
    }
  }

  /* ---- What the parity test compares ---- */

  // The name runs through no link, and is none.
  ghost predicate NoLinkAt(t: Store, p: Path) {
    Clear(t, p) && !IsLinkAt(t, p)
  }

  ghost predicate HasContent(t: Store, p: Path, content: Content) {
    p in t && t[p].File? && t[p].content == content
  }

  // Source and destination are regular files with one content.
  ghost predicate SameFileAt(t: Store, p: Path, q: Path) {
    exists content :: HasContent(t, p, content) && HasContent(t, q, content)
  }

  // At such names the test passes exactly on equal contents.
  lemma MatchesExactly(t: Store, e: Entry, hops: nat)
    requires WellFormed(t) && NoLinkAt(t, e.source) && NoLinkAt(t, e.destination)
    ensures Matches(t, e, hops) <==> SameFileAt(t, e.source, e.destination)
  {
    ClearLookups(t, e.source, hops);
    ClearLookups(t, e.destination, hops);
    if IsFile(t, e.source, hops) {
      FileHash(t, e.source, hops);
      assert HasContent(t, e.source, t[e.source].content);
    }
    if IsFile(t, e.destination, hops) {
      FileHash(t, e.destination, hops);
    }
  }

  // A link is compared by its text, not by what it leads to.
  lemma LinkHash(t: Store, p: Path, hops: nat)
    requires WellFormed(t) && IsLinkAt(t, p)
    ensures HashOf(t, p, hops) == Some(Sha256("symlink:" + LinkText(t[p])))
  {
    KeysAreClear(t, p);
    ClearLookups(t, p, hops);
  }

  // What the store must hold where an entry was deployed.
  ghost predicate IsDeployed(t: Store, e: Entry) {
    && (e.Writes() && NoLinkAt(t, e.source) && NoLinkAt(t, e.destination) ==> SameFileAt(t, e.source, e.destination))
    && (e.kind.Remove? && Clear(t, e.destination) ==> e.destination !in t)
  }

  ghost predicate AllDeployed(t: Store, plan: seq<Entry>) {
    forall i | 0 <= i < |plan| :: IsDeployed(t, plan[i])
  }

  // No name of the plan that is compared or removed runs through a link.
  ghost predicate PlanIsDirect(t: Store, plan: seq<Entry>) {
    forall i | 0 <= i < |plan| :: EntryIsDirect(t, plan[i])
  }

  ghost predicate EntryIsDirect(t: Store, e: Entry) {
    && (e.Writes() ==> NoLinkAt(t, e.source) && NoLinkAt(t, e.destination))
    && (e.kind.Remove? ==> Clear(t, e.destination))
  }

  // What verification and deployment ask of the names, told from the store.
  lemma DeployedExactly(t: Store, plan: seq<Entry>, hops: nat)
    requires WellFormed(t)
    ensures AllMatch(t, plan, |plan|, hops) && AllAbsent(t, plan, |plan|, hops) ==> AllDeployed(t, plan)
    ensures PlanIsDirect(t, plan) ==>
      (AllMatch(t, plan, |plan|, hops) && AllAbsent(t, plan, |plan|, hops) <==> AllDeployed(t, plan))
  {
    forall i | 0 <= i < |plan|
      ensures EntryIsDirect(t, plan[i]) ==> (IsDeployed(t, plan[i]) <==> EntryPasses(t, plan[i], hops))
      ensures EntryPasses(t, plan[i], hops) ==> IsDeployed(t, plan[i])
    {
      EntryDeployedExactly(t, plan[i], hops);
    }
    assert AllMatch(t, plan, |plan|, hops) && AllAbsent(t, plan, |plan|, hops) <==>
      forall i | 0 <= i < |plan| :: EntryPasses(t, plan[i], hops);
  }

  ghost predicate EntryPasses(t: Store, e: Entry, hops: nat) {
    (e.Writes() ==> Matches(t, e, hops)) && (e.kind.Remove? ==> !Present(t, e.destination, hops))
  }

  lemma EntryDeployedExactly(t: Store, e: Entry, hops: nat)
    requires WellFormed(t)
    ensures EntryPasses(t, e, hops) ==> IsDeployed(t, e)
    ensures EntryIsDirect(t, e) ==> (IsDeployed(t, e) <==> EntryPasses(t, e, hops))
  {
    if e.Writes() && NoLinkAt(t, e.source) && NoLinkAt(t, e.destination) {
      MatchesExactly(t, e, hops);
    }
    if e.kind.Remove? && Clear(t, e.destination) {
      ClearLookups(t, e.destination, hops);
    }
  }

  // One edited destination is a mismatch.
  lemma EditIsMismatch(t: Store, plan: seq<Entry>, i: nat, hops: nat)
    requires WellFormed(t) && i < |plan| && plan[i].Writes()
    requires IsFileAt(t, plan[i].source) && plan[i].source != []
    requires IsFileAt(t, plan[i].destination) && plan[i].destination != []
    requires t[plan[i].destination].content != t[plan[i].source].content
    ensures !AllMatch(t, plan, |plan|, hops)
  {
    KeysAreClear(t, plan[i].source);
    KeysAreClear(t, plan[i].destination);
    MatchesExactly(t, plan[i], hops);
  }

  // `copy_mismatches`
  method ParityPhase(v: Volume, plan: seq<Entry>) returns (ok: bool)
    ensures ok <==> AllMatch(v.nodes, plan, |plan|, v.hops)
    ensures ok && WellFormed(v.nodes) ==> forall i | 0 <= i < |plan| && plan[i].Writes() :: IsDeployed(v.nodes, plan[i])
    ensures WellFormed(v.nodes) && PlanIsDirect(v.nodes, plan) ==>
      (ok <==> forall i | 0 <= i < |plan| && plan[i].Writes() :: IsDeployed(v.nodes, plan[i]))
  {
    forall i | 0 <= i < |plan| && plan[i].Writes() && WellFormed(v.nodes)
      ensures Matches(v.nodes, plan[i], v.hops) ==> IsDeployed(v.nodes, plan[i])
      ensures EntryIsDirect(v.nodes, plan[i]) ==> (IsDeployed(v.nodes, plan[i]) <==> Matches(v.nodes, plan[i], v.hops))
    {
      EntryDeployedExactly(v.nodes, plan[i], v.hops);
    }
    for i := 0 to |plan|
      invariant AllMatch(v.nodes, plan, i, v.hops)
    {
      if plan[i].Writes() && !Matches(v.nodes, plan[i], v.hops) {
        return false;
      }
    }
    return true;
  }

  ghost predicate AllMatch(t: Store, plan: seq<Entry>, n: nat, hops: nat)
    requires n <= |plan|
  {
    forall i | 0 <= i < n && plan[i].Writes() :: Matches(t, plan[i], hops)
  }

  // Every alias can be read, under its logical name.
  predicate AliasReadable(t: Store, e: Entry, hops: nat) {
    IsFile(t, e.source, hops) && IsFile(t, e.destination, hops)
  }

  ghost predicate AliasesReadable(t: Store, plan: seq<Entry>, n: nat, hops: nat)
    requires n <= |plan|
  {
    forall i | 0 <= i < n && plan[i].IsAlias() :: AliasReadable(t, plan[i], hops)
  }

  // Through a legal alias, the destination can be read exactly if the physical
  // target holds a regular file.
  lemma ReadableExactly(t: Store, e: Entry, root: Path, p: Projection, rest: Path, hops: nat)
    requires WellFormed(t) && Holds(t, root, p, hops) && e.destination == root + p.logical + rest
    requires NoLinkAt(t, e.source) && NoLinkAt(t, root + p.target + rest)
    ensures AliasReadable(t, e, hops) <==> IsFileAt(t, e.source) && IsFileAt(t, root + p.target + rest)
  {
    ClearLookups(t, e.source, hops);
    AliasWalk(t, root, p, hops, rest);
  }

  method AliasPhase(v: Volume, plan: seq<Entry>) returns (ok: bool)
    ensures ok <==> AliasesReadable(v.nodes, plan, |plan|, v.hops)
  {
    for i := 0 to |plan|
      invariant AliasesReadable(v.nodes, plan, i, v.hops)
    {
      if plan[i].IsAlias() && !AliasReadable(v.nodes, plan[i], v.hops) {
        return false;
      }
    }
    return true;
  }

  /* ---- Removing ---- */

  function RemovedNames(plan: seq<Entry>, n: nat): set<Path>
    requires n <= |plan|
  {
    set i | 0 <= i < n && plan[i].kind.Remove? :: plan[i].destination
  }

  // From `t`, the first `n` removals have been made.
  ghost predicate RemovedTo(s: Store, t: Store, u: Store, w: Scope, plan: seq<Entry>, n: nat)
    requires n <= |plan|
  {
    Stage(s, u, w) && Files(u) == Files(t) - RemovedNames(plan, n) && SameDirs(t, u)
  }

  ghost predicate SameDirs(t: Store, u: Store) {
    forall q :: IsDirAt(t, q) <==> IsDirAt(u, q)
  }

  lemma RemoveStep(s: Store, t: Store, u: Store, v: Store, w: Scope, plan: seq<Entry>, i: nat)
    requires i < |plan| && RemovedTo(s, t, u, w, plan, i) && Stage(s, v, w)
    requires Files(v) == if plan[i].kind.Remove? then Files(u) - {plan[i].destination} else Files(u)
    requires SameDirs(u, v)
    ensures RemovedTo(s, t, v, w, plan, i + 1)
  {
    assert RemovedNames(plan, i + 1) ==
      if plan[i].kind.Remove? then RemovedNames(plan, i) + {plan[i].destination} else RemovedNames(plan, i);
  }

  // A managed name is safe, and no directory.
  lemma RemovableIsSafe(s: Store, u: Store, w: Scope, e: Entry, hops: nat)
    requires Quiet(s, w) && Stage(s, u, w) && e.kind.Remove? && EntryReady(w, e)
    ensures SafeTarget(u, e.destination, e.root, hops)
    ensures Present(u, e.destination, hops) <==> e.destination in u
    ensures e.destination in u ==> !IsDir(u, e.destination, hops)
  {
    var d := e.destination;
    ManagedClear(s, u, w, d);
    ClearLookups(u, d, hops);
    ClearIsSafe(u, d, e.root, hops);
  }

  // If it is there, it can be removed.
  lemma RemoveWorks(s: Store, t: Store, u: Store, w: Scope, plan: seq<Entry>, i: nat, hops: nat)
    requires Quiet(s, w) && i < |plan| && plan[i].kind.Remove? && EntryReady(w, plan[i])
    requires RemovedTo(s, t, u, w, plan, i) && plan[i].destination in u
    ensures var o := Unlink(u, plan[i].destination, hops); o.ok && RemovedTo(s, t, o.store, w, plan, i + 1)
  {
    var d := plan[i].destination;
    StageUnlink(s, u, w, d, hops);
    ManagedClear(s, u, w, d);
    UnlinkClear(u, d, hops);
    RemoveStep(s, t, u, Unlink(u, d, hops).store, w, plan, i);
  }

  lemma RemoveNothing(s: Store, t: Store, u: Store, w: Scope, plan: seq<Entry>, i: nat)
    requires i < |plan| && plan[i].kind.Remove? && RemovedTo(s, t, u, w, plan, i) && plan[i].destination !in u
    ensures RemovedTo(s, t, u, w, plan, i + 1)
  {
    assert Files(u) == Files(u) - {plan[i].destination};
    RemoveStep(s, t, u, u, w, plan, i);
  }

  // What deploy asks before it removes, on any store.
  method CheckRemoval(v: Volume, e: Entry) returns (r: Step)
    ensures r == if !SafeTarget(v.nodes, e.destination, e.root, v.hops) then Failed(TargetEscapes)
                 else if IsDir(v.nodes, e.destination, v.hops) && !IsSymlink(v.nodes, e.destination, v.hops)
                 then Failed(TargetIsDirectory)
                 else Passed
    ensures r.Passed? ==> LiesWithin(v.nodes, e.destination, e.root, v.hops)
  {
    if !SafeTarget(v.nodes, e.destination, e.root, v.hops) {
      return Failed(TargetEscapes);
    }
    SafeLiesWithin(v.nodes, e.destination, e.root, v.hops);
    var isDir, isLink := IsDir(v.nodes, e.destination, v.hops), IsSymlink(v.nodes, e.destination, v.hops);
    if isDir && !isLink {
      return Failed(TargetIsDirectory);
    }
    return Passed;
  }

  method RemoveEntry(v: Volume, calm: bool, plan: seq<Entry>, i: nat, ghost s: Store, ghost t: Store, ghost w: Scope)
      returns (r: Step)
    requires Quiet(s, w) && i < |plan| && plan[i].kind.Remove? && EntryReady(w, plan[i])
    requires RemovedTo(s, t, v.nodes, w, plan, i)
    modifies v`nodes
    ensures calm ==> !r.Interrupted?
    ensures Stage(s, v.nodes, w) && !r.Failed?
    ensures r.Passed? ==> RemovedTo(s, t, v.nodes, w, plan, i + 1)
  {
    var d := plan[i].destination;
    RemovableIsSafe(s, v.nodes, w, plan[i], v.hops);
    r := CheckRemoval(v, plan[i]);
    if !r.Passed? {
      return;
    }
    var fault := Strike(calm);
    if fault {
      return Interrupted;
    }
    if Present(v.nodes, d, v.hops) {
      RemoveWorks(s, t, v.nodes, w, plan, i, v.hops);
      var ok := v.Remove(d);
      if !ok {
        return Failed(RemoveFailed);
      }
    } else {
      RemoveNothing(s, t, v.nodes, w, plan, i);
    }
    fault := Strike(calm);
    if fault {
      return Interrupted;
    }
    return Passed;
  }

  method RemovePhase(v: Volume, calm: bool, plan: seq<Entry>, ghost s: Store, ghost t: Store, ghost w: Scope)
      returns (r: Step)
    requires Quiet(s, w) && Stage(s, t, w) && v.nodes == t && forall i | 0 <= i < |plan| :: EntryReady(w, plan[i])
    modifies v`nodes
    ensures calm ==> !r.Interrupted?
    ensures Stage(s, v.nodes, w) && !r.Failed?
    ensures r.Passed? ==> RemovedTo(s, t, v.nodes, w, plan, |plan|)
  {
    assert RemovedNames(plan, 0) == {} && Files(t) - {} == Files(t);
    r := Passed;
    var i := 0;
    while r.Passed? && i < |plan|
      invariant i <= |plan| && Stage(s, v.nodes, w) && !r.Failed? && (calm ==> !r.Interrupted?)
      invariant r.Passed? ==> RemovedTo(s, t, v.nodes, w, plan, i)
    {
      if plan[i].kind.Remove? {
        r := RemoveEntry(v, calm, plan, i, s, t, w);
      } else {
        RemoveStep(s, t, v.nodes, v.nodes, w, plan, i);
      }
      i := i + 1;
    }
  }

  // The absence check.
  method AbsencePhase(v: Volume, plan: seq<Entry>) returns (ok: bool)
    ensures ok <==> AllAbsent(v.nodes, plan, |plan|, v.hops)
  {
    for i := 0 to |plan|
      invariant AllAbsent(v.nodes, plan, i, v.hops)
    {
      if plan[i].kind.Remove? && Present(v.nodes, plan[i].destination, v.hops) {
        return false;
      }
    }
    return true;
  }

  ghost predicate AllAbsent(u: Store, plan: seq<Entry>, n: nat, hops: nat)
    requires n <= |plan|
  {
    forall i | 0 <= i < n && plan[i].kind.Remove? :: !Present(u, plan[i].destination, hops)
  }

  lemma RemovedAreAbsent(s: Store, t: Store, u: Store, w: Scope, plan: seq<Entry>, hops: nat)
    requires Quiet(s, w) && Stage(s, u, w) && Files(u) == Files(t) - RemovedNames(plan, |plan|)
    requires forall i | 0 <= i < |plan| :: EntryReady(w, plan[i])
    ensures AllAbsent(u, plan, |plan|, hops)
  {
    forall i | 0 <= i < |plan| && plan[i].kind.Remove?
      ensures !Present(u, plan[i].destination, hops)
    {
      var d := plan[i].destination;
      assert EntryReady(w, plan[i]) && d in RemovedNames(plan, |plan|);
      assert d !in Files(u);
      ManagedClear(s, u, w, d);
      ClearLookups(u, d, hops);
    }
  }

  /* ---- Pruning ---- */

  // The legacy directories that lost a file.
  function PruneCandidates(plan: seq<Entry>): set<Path> {
    set i | 0 <= i < |plan| && plan[i].kind.Remove? && UnderOrchestration(Parent(plan[i].destination)) ::
      Parent(plan[i].destination)
  }

  // Told from the text of the path.
  lemma LegacyTextExactly(d: Path)
    requires d != [] && AreNames(d)
    ensures UnderOrchestration(Parent(d)) <==> Occurs([SLASH] + Joined(d), "/skills/orchestration/")
  {
    var mid := ["skills", "orchestration"];
    assert mid[1..] == ["orchestration"] && Joined(mid) == "skills" + [SLASH] + "orchestration";
    assert IsName("skills") && IsName("orchestration");
    assert [SLASH] + Joined(mid) + [SLASH] == "/skills/orchestration/";
    InsideAbsolute(d, mid);
    var p := Parent(d);
    if i :| 0 <= i < |p| - 1 && p[i] == "skills" && p[i + 1] == "orchestration" {
      assert d[i..i + 2] == mid && InsideAt(d, mid, 0, i);
    }
    if i: nat :| InsideAt(d, mid, 0, i) {
      assert d[i] == d[i..i + 2][0] && d[i + 1] == d[i..i + 2][1];
      assert p[i] == "skills" && p[i + 1] == "orchestration";
    }
  }

  // The deepest candidate comes first.
  lemma {:induction false} Deepest(ds: set<Path>) returns (d: Path)
    requires ds != {}
    ensures d in ds && forall e | e in ds :: |e| <= |d|
  {
    var e :| e in ds;
    if ds == {e} {
      d := e;
    } else {
      var f := Deepest(ds - {e});
      d := if |f| < |e| then e else f;
      assert forall g | g in ds :: g == e || g in ds - {e};
    }
  }

  // No name of `start` from position `from` on is "skills".
  ghost predicate NoSkillsFrom(start: Path, from: int) {
    forall j | 0 <= j < |start| && from <= j :: start[j] != "skills"
  }

  // Climbing from `start` without passing a directory called "skills" stays
  // under skills/orchestration.
  lemma ClimbStaysUnder(start: Path, d: Path)
    requires UnderOrchestration(start) && d <= start && d != []
    requires NoSkillsFrom(start, |d| - 1)
    ensures UnderOrchestration(d)
  {
    var i :| 0 <= i < |start| - 1 && start[i] == "skills" && start[i + 1] == "orchestration";
    assert i < |d| - 1;
    assert d[i] == start[i] && d[i + 1] == start[i + 1];
  }

  // No prefix of `start` is anything but a directory.
  ghost predicate DirsTo(t: Store, start: Path) {
    Plain(start) && forall k | 0 <= k <= |start| :: start[..k] in t ==> t[start[..k]].Dir?
  }

  ghost predicate OnlyDropped(t: Store, u: Store) {
    forall q | q in u :: q in t && u[q] == t[q]
  }

  // A stage that prunes `start` has reached.
  ghost predicate Pruning(s: Store, t: Store, u: Store, w: Scope, start: Path) {
    Stage(s, u, w) && Files(u) == Files(t) && OnlyDropped(t, u) && DirsTo(u, start)
  }

  // The lowest directory on the way to `start` that is left is not empty, or is
  // called "skills".
  ghost predicate Tidy(u: Store, start: Path) {
    forall k | 0 < k <= |start| && IsLowest(u, start, k) ::
      start[k - 1] == "skills" || !IsEmptyDir(u, start[..k])
  }

  ghost predicate IsLowest(u: Store, start: Path, k: nat)
    requires k <= |start|
  {
    IsDirAt(u, start[..k]) && (k < |start| ==> start[..k + 1] !in u)
  }

  // A directory on the way up from `start` to the next one called "skills".
  ghost predicate OnTheClimb(start: Path, q: Path) {
    q <= start && NoSkillsFrom(start, |q| - 1)
  }

  ghost predicate OnlyDroppedOn(t: Store, u: Store, start: Path) {
    OnlyDropped(t, u) && forall q | q in t && q !in u :: OnTheClimb(start, q)
  }

  // From `t`, the climb from `start` was made to its end.
  ghost predicate Climbed(t: Store, u: Store, start: Path) {
    && OnlyDroppedOn(t, u, start)
    && if IsDirAt(t, start) then Tidy(u, start) else u == t
  }

  // What one climb has tidied stays so after another.
  lemma TidyKept(t: Store, u: Store, other: Path, start: Path)
    requires WellFormed(u) && Tidy(t, other) && Climbed(t, u, start)
    ensures Tidy(u, other)
  {
    if u != t {
      forall k | 0 < k <= |other| && IsLowest(u, other, k)
        ensures other[k - 1] == "skills" || !IsEmptyDir(u, other[..k])
      {
        TidyAt(t, u, other, start, k);
      }
    }
  }

  lemma TidyAt(t: Store, u: Store, other: Path, start: Path, k: nat)
    requires WellFormed(u) && Tidy(t, other) && OnlyDroppedOn(t, u, start) && Tidy(u, start)
    requires 0 < k <= |other| && IsLowest(u, other, k)
    ensures other[k - 1] == "skills" || !IsEmptyDir(u, other[..k])
  {
    var e := other[..k];
    if k < |other| && other[..k + 1] in t {
      assert e == start[..k] && other[..k + 1] == start[..k + 1];
      assert IsLowest(u, start, k);
    } else if IsEmptyDir(u, e) && !IsEmptyDir(t, e) {
      assert IsDirAt(t, e);
      var q :| q in t && e < q;
      assert OnTheClimb(start, q);
      assert e == start[..k] && start[..k + 1] == q[..k + 1];
      assert e < start[..k + 1];
      assert IsLowest(u, start, k);
    } else {
      assert IsLowest(t, other, k);
    }
  }

  // Nor is there more to do where a longer climb has passed.
  lemma TidyPrefix(u: Store, start: Path, longer: Path)
    requires Tidy(u, longer) && start <= longer && start !in u
    ensures Tidy(u, start)
  {
    forall k | 0 < k <= |start| && IsLowest(u, start, k)
      ensures start[k - 1] == "skills" || !IsEmptyDir(u, start[..k])
    {
      assert start[..|start|] == start;
      assert start[..k] == longer[..k] && start[..k + 1] == longer[..k + 1];
      assert IsLowest(u, longer, k);
    }
  }

  // A climb that ends at `d`, with all below it gone, is made.
  lemma ClimbEnds(t: Store, u: Store, start: Path, d: Path, hops: nat)
    requires WellFormed(u) && DirsTo(u, start) && d <= start && !Prunable(u, d, hops) && IsDirAt(u, d)
    requires d != start ==> start[..|d| + 1] !in u
    ensures Tidy(u, start)
  {
    assert d == start[..|d|];
    PhysicalWalk(u, d, hops);
    forall k | 0 < k <= |start| && IsLowest(u, start, k)
      ensures start[k - 1] == "skills" || !IsEmptyDir(u, start[..k])
    {
      LowestIsOne(u, start, |d|, k);
    }
  }

  lemma LowestIsOne(u: Store, start: Path, i: nat, k: nat)
    requires WellFormed(u) && i <= |start| && k <= |start| && IsLowest(u, start, i) && IsLowest(u, start, k)
    ensures i == k
  {
    if i < k {
      StepIsThere(u, start, i, k);
    } else if k < i {
      StepIsThere(u, start, k, i);
    }
  }

  lemma StepIsThere(u: Store, start: Path, i: nat, k: nat)
    requires WellFormed(u) && i < k <= |start| && start[..k] in u
    ensures start[..i + 1] in u
  {
    assert start[..k][..i + 1] == start[..i + 1];
    if i + 1 < k {
      PrefixesAreDirs(u, start[..k], i + 1);
    }
  }

  predicate Prunable(u: Store, d: Path, hops: nat) {
    d != [] && Last(d) != "skills" && IsDir(u, d, hops) && IsEmptyDir(u, Walk(u, [], d, hops).at)
  }

  // Remove `start` and the directories above it while they are empty, up to
  // one called "skills".
  method PruneUp(v: Volume, calm: bool, start: Path, ghost s: Store, ghost t: Store, ghost w: Scope) returns (r: Step)
    requires Quiet(s, w) && Pruning(s, t, v.nodes, w, start) && UnderOrchestration(start)
    modifies v`nodes
    ensures calm ==> !r.Interrupted?
    ensures Pruning(s, t, v.nodes, w, start) && !r.Failed?
    ensures r.Passed? ==> Climbed(old(v.nodes), v.nodes, start)
  {
    ghost var was := v.nodes;
    var d := start;
    r := Passed;
    while r.Passed? && Prunable(v.nodes, d, v.hops)
      invariant Pruning(s, t, v.nodes, w, start) && !r.Failed? && (calm ==> !r.Interrupted?)
      invariant d <= start && NoSkillsFrom(start, |d|)
      invariant r.Passed? ==> ClimbedTo(was, v.nodes, start, d)
      decreases |d|
    {
      ghost var before := v.nodes;
      PrefixIsPhysical(before, start, d, v.hops);
      r := PruneDir(v, calm, d, start, s, t, w);
      if r.Passed? {
        ClimbStep(was, before, v.nodes, start, d);
      }
      d := Parent(d);
    }
    if r.Passed? && IsDirAt(was, start) {
      ClimbEnds(was, v.nodes, start, d, v.hops);
    }
  }

  // The climb stands at `d`.
  ghost predicate ClimbedTo(was: Store, u: Store, start: Path, d: Path) {
    && d <= start && OnlyDroppedOn(was, u, start) && (!IsDirAt(was, start) ==> u == was && d == start)
    && (IsDirAt(was, start) ==> IsDirAt(u, d)) && (d != start ==> start[..|d| + 1] !in u)
  }

  lemma ClimbStep(was: Store, t: Store, u: Store, start: Path, d: Path)
    requires WellFormed(t) && ClimbedTo(was, t, start, d) && d != [] && IsDirAt(t, d) && u == t - {d}
    requires NoSkillsFrom(start, |d| - 1)
    ensures ClimbedTo(was, u, start, Parent(d))
  {
    assert start[..|d|] == d && |Parent(d)| + 1 == |d|;
    assert Parent(d) in t && t[Parent(d)].Dir?;
  }

  method PruneDir(v: Volume, calm: bool, d: Path, start: Path, ghost s: Store, ghost t: Store, ghost w: Scope)
      returns (r: Step)
    requires Quiet(s, w) && Pruning(s, t, v.nodes, w, start) && UnderOrchestration(start)
    requires d <= start && NoSkillsFrom(start, |d|) && Prunable(v.nodes, d, v.hops)
    modifies v`nodes
    ensures calm ==> !r.Interrupted?
    ensures Pruning(s, t, v.nodes, w, start) && !r.Failed?
    ensures NoSkillsFrom(start, |d| - 1)
    ensures r.Passed? ==> v.nodes == old(v.nodes) - {d}
  {
    NextHasNoSkills(start, d);
    var fault := Strike(calm);
    if fault {
      return Interrupted;
    }
    PruneStep(s, t, v.nodes, w, start, d, v.hops);
    var ok := v.RemoveDir(d);
    if !ok {
      return Failed(PruneFailed);
    }
    return Passed;
  }

  lemma NextHasNoSkills(start: Path, d: Path)
    requires d != [] && d <= start && Last(d) != "skills" && NoSkillsFrom(start, |d|)
    ensures NoSkillsFrom(start, |d| - 1)
  {
    assert start[|d| - 1] == Last(d);
  }

  lemma PruneStep(s: Store, t: Store, u: Store, w: Scope, start: Path, d: Path, hops: nat)
    requires Pruning(s, t, u, w, start) && UnderOrchestration(start)
    requires d <= start && NoSkillsFrom(start, |d| - 1) && Prunable(u, d, hops)
    ensures var o := Rmdir(u, d, hops); o.ok && o.store == u - {d} && Pruning(s, t, o.store, w, start)
  {
    ClimbStaysUnder(start, d);
    PrefixIsPhysical(u, start, d, hops);
    StageRmdir(s, u, w, d);
  }

  lemma PrefixIsPhysical(t: Store, start: Path, d: Path, hops: nat)
    requires WellFormed(t) && DirsTo(t, start) && d <= start && d != []
    requires IsDir(t, d, hops)
    ensures IsDirAt(t, d) && Walk(t, [], d, hops) == Found(d) && Locate(t, d, hops) == Found(d)
  {
    forall k | 0 <= k < |d|
      ensures d[..k] in t ==> t[d[..k]].Dir?
    {
      assert d[..k] == start[..k];
    }
    assert d == start[..|d|];
    ClearLookups(t, d, hops);
  }

  ghost predicate Pruned(s: Store, t: Store, u: Store, w: Scope) {
    Stage(s, u, w) && Files(u) == Files(t) && OnlyDropped(t, u)
  }

  lemma CandidateReady(s: Store, u: Store, w: Scope, plan: seq<Entry>, start: Path)
    requires Quiet(s, w) && Stage(s, u, w) && start in PruneCandidates(plan)
    requires forall i | 0 <= i < |plan| :: EntryReady(w, plan[i])
    ensures DirsTo(u, start) && UnderOrchestration(start)
  {
    var i :| 0 <= i < |plan| && plan[i].kind.Remove? && UnderOrchestration(Parent(plan[i].destination))
      && start == Parent(plan[i].destination);
    var d := plan[i].destination;
    assert EntryReady(w, plan[i]);
    ManagedClear(s, u, w, d);
    DirsAbove(u, d);
  }

  lemma DirsAbove(t: Store, d: Path)
    requires Clear(t, d)
    ensures DirsTo(t, Parent(d))
  {
    var start := Parent(d);
    assert start == d[..|d| - 1];
    forall k | 0 <= k <= |start|
      ensures start[..k] == d[..k]
    {}
  }

  // The empty legacy directories go, the deepest first.
  method PrunePhase(v: Volume, calm: bool, plan: seq<Entry>, ghost s: Store, ghost w: Scope) returns (r: Step)
    requires Quiet(s, w) && Stage(s, v.nodes, w) && forall i | 0 <= i < |plan| :: EntryReady(w, plan[i])
    modifies v`nodes
    ensures calm ==> !r.Interrupted?
    ensures Pruned(s, old(v.nodes), v.nodes, w) && !r.Failed?
    ensures r.Passed? ==> PrunedFully(old(v.nodes), v.nodes, PruneCandidates(plan))
  {
    ghost var t := v.nodes;
    var candidates := PruneCandidates(plan);
    r := Passed;
    while r.Passed? && candidates != {}
      invariant candidates <= PruneCandidates(plan) && Pruned(s, t, v.nodes, w)
      invariant !r.Failed? && (calm ==> !r.Interrupted?)
      invariant r.Passed? ==> PrunedBut(t, v.nodes, PruneCandidates(plan), candidates)
      decreases candidates
    {
      ghost var before := v.nodes;
      ghost var deepest := Deepest(candidates);
      var start :| start in candidates && forall e | e in candidates :: |e| <= |start|;
      CandidateReady(s, v.nodes, w, plan, start);
      r := PruneUp(v, calm, start, s, t, w);
      if r.Passed? {
        PhaseStep(s, t, before, v.nodes, w, PruneCandidates(plan), candidates, start);
      }
      candidates := candidates - {start};
    }
    assert r.Passed? ==> PruneCandidates(plan) - candidates == PruneCandidates(plan);
  }

  // All climbs were made but those from `left`.
  ghost predicate PrunedBut(t: Store, u: Store, starts: set<Path>, left: set<Path>) {
    PrunedFully(t, u, starts - left)
  }

  lemma PhaseStep(s: Store, t: Store, before: Store, u: Store, w: Scope, starts: set<Path>, left: set<Path>,
                  start: Path)
    requires Pruned(s, t, before, w) && WellFormed(u) && start in left && left <= starts
    requires PrunedBut(t, before, starts, left) && Climbed(before, u, start)
    ensures PrunedBut(t, u, starts, left - {start})
  {
    ClimbOnceMore(t, before, u, starts - left, start);
    assert starts - left + {start} == starts - (left - {start});
  }

  // Directories are gone only on the climb from one of `starts`, and what is
  // left on the way to each of them is tidy.
  ghost predicate PrunedFully(t: Store, u: Store, starts: set<Path>) {
    && (forall q | q in t && q !in u :: OnAClimb(t, starts, q))
    && (forall c | c in starts && IsDirAt(t, c) :: Tidy(u, c))
  }

  ghost predicate OnAClimb(t: Store, starts: set<Path>, q: Path) {
    exists c | c in starts :: IsDirAt(t, c) && OnTheClimb(c, q)
  }

  lemma ClimbOnceMore(t: Store, before: Store, u: Store, starts: set<Path>, start: Path)
    requires WellFormed(u) && OnlyDropped(t, before) && PrunedFully(t, before, starts) && Climbed(before, u, start)
    ensures PrunedFully(t, u, starts + {start})
  {
    forall q | q in t && q !in u
      ensures OnAClimb(t, starts + {start}, q)
    {
      if q !in before {
        assert OnAClimb(t, starts, q);
      } else {
        assert IsDirAt(t, start) && OnTheClimb(start, q);
      }
    }
    forall c | c in starts && IsDirAt(t, c)
      ensures Tidy(u, c)
    {
      TidyKept(before, u, c, start);
    }
    if IsDirAt(t, start) && !IsDirAt(before, start) {
      assert OnAClimb(t, starts, start);
      var c :| c in starts && IsDirAt(t, c) && OnTheClimb(c, start);
      TidyPrefix(u, start, c);
    }
  }

  /* ---- The guarded part of the transaction ---- */

  // The files that a complete run leaves.
  ghost function DeployedFiles(f: Store, plan: seq<Entry>): Store {
    Overlaid(f, WriteMap(plan, |plan|)) - RemovedNames(plan, |plan|)
  }

  // The aliases can be read once their owners are written.
  lemma AliasesCanBeRead(s: Store, t: Store, w: Scope, es: seq<Entry>, plan: seq<Entry>, c: Contract, root: Path,
      hops: nat)
    requires Runnable(s, w, es, plan, c, root, hops) && CopiedTo(s, t, w, plan, |plan|)
    ensures AliasesReadable(t, plan, |plan|, hops)
  {
    forall i | 0 <= i < |plan| && plan[i].IsAlias()
      ensures AliasReadable(t, plan[i], hops)
    {
      AliasCanBeRead(s, t, w, es, plan, c, root, hops, i);
    }
  }

  lemma AliasCanBeRead(s: Store, t: Store, w: Scope, es: seq<Entry>, plan: seq<Entry>, c: Contract, root: Path,
                       hops: nat, i: nat)
    requires Runnable(s, w, es, plan, c, root, hops) && CopiedTo(s, t, w, plan, |plan|)
    requires i < |plan| && plan[i].IsAlias()
    ensures AliasReadable(t, plan[i], hops)
  {
    PlanEntry(es, plan, c, root, i);
    OwnerPerformsWrite(es, plan, c, root, i);
    var o := OwnerOf(es, c, root, i);
    PlanSourcesAgree(es, plan, c, root);
    WrittenFile(s, t, w, plan, o, hops);
    SourceStays(s, t, w, plan, i, hops);
    var p := ProjectionFor(c, es[i].profile).value;
    ProjectionForIsListed(c, es[i].profile);
    var k :| 0 <= k < |c| && c[k] == p;
    StageKeepsAliases(s, t, w, root, c, hops);
    AliasWalk(t, root, p, hops, es[i].relative);
  }

  // How a run of the guarded part ends.  `t` is the store between copying and
  // removing, the one the evidence was checked in.
  ghost predicate Completed(s: Store, t: Store, u: Store, w: Scope, plan: seq<Entry>, c: Contract, root: Path,
                            items: seq<Item>, assemblyPaths: set<Path>, hops: nat) {
    && HalfwayAt(s, t, w, plan, |plan|) && !Uncovers(s, plan, root, c, hops)
    && EvidenceHolds(t, root, plan, items, assemblyPaths, hops)
    && Stage(s, u, w) && Files(u) == DeployedFiles(Files(s), plan) && LegacyPruned(t, u, plan)
  }

  // Of the directories that were there after the copies, those are gone that
  // the removals left empty on the climbs from the legacy directories.
  ghost predicate LegacyPruned(t: Store, u: Store, plan: seq<Entry>) {
    && (forall q | IsDirAt(t, q) && q !in u :: OnAClimb(t, PruneCandidates(plan), q))
    && (forall c | c in PruneCandidates(plan) && IsDirAt(t, c) :: Tidy(u, c))
  }

  lemma PrunedAfterRemoval(t: Store, v: Store, u: Store, plan: seq<Entry>)
    requires SameDirs(t, v) && PrunedFully(v, u, PruneCandidates(plan))
    ensures LegacyPruned(t, u, plan)
  {
    forall q | IsDirAt(t, q) && q !in u
      ensures OnAClimb(t, PruneCandidates(plan), q)
    {
      assert IsDirAt(v, q) && OnAClimb(v, PruneCandidates(plan), q);
      var c :| c in PruneCandidates(plan) && IsDirAt(v, c) && OnTheClimb(c, q);
      assert IsDirAt(t, c);
    }
  }

  // The checks that can fail without an outside writer, and why.  The contract
  // fails, at a copy, exactly if a copy that the run gets to uncovers a link.
  ghost predicate Expected(s: Store, t: Store, w: Scope, plan: seq<Entry>, c: Contract, root: Path, items: seq<Item>,
                           assemblyPaths: set<Path>, assemblyPasses: bool, check: Check, hops: nat) {
    && (check.ProjectionInvalid? <==> Uncovers(s, plan, root, c, hops))
    && match check
       case SourceDisappeared => Halfway(s, t, w, plan) && !WritersPresent(s, plan, |plan|)
       case ProjectionInvalid => Halfway(s, t, w, plan) && !ContractHolds(t, root, c, hops)
       case AliasDisappeared => CopiedTo(s, t, w, plan, |plan|) && !AliasesReadable(t, plan, |plan|, hops)
       case EvidenceDrift =>
         CopiedTo(s, t, w, plan, |plan|) && !EvidenceHolds(t, root, plan, items, assemblyPaths, hops)
       case AssemblyCheck => !assemblyPasses
       case _ => false
  }

  // Where the guarded part can stop: among the copies, or at a stage of a run
  // that uncovers nothing.
  ghost predicate Stopped(s: Store, t: Store, w: Scope, plan: seq<Entry>, c: Contract, root: Path, hops: nat) {
    Stage(s, t, w) && (Halfway(s, t, w, plan) || NoneUncovered(s, plan, |plan|, root, c, hops))
  }

  lemma CopiedMatch(s: Store, t: Store, w: Scope, plan: seq<Entry>, c: Contract, root: Path, hops: nat)
    requires Ready(s, w, plan, c, root, hops) && CopiedTo(s, t, w, plan, |plan|) && WritersPresent(s, plan, |plan|)
    ensures AllMatch(t, plan, |plan|, hops)
  {
    forall i | 0 <= i < |plan| && plan[i].Writes()
      ensures Matches(t, plan[i], hops)
    {
      WritersMatch(s, t, w, plan, i, hops);
    }
  }

  // The contract holds at every stage of a run that uncovers nothing.
  lemma NothingUncovered(s: Store, t: Store, w: Scope, plan: seq<Entry>, c: Contract, root: Path, hops: nat)
    requires Quiet(s, w) && Covers(w, plan) && AliasesStable(s, root, c, hops) && Stage(s, t, w)
    requires NoneUncovered(s, plan, |plan|, root, c, hops)
    ensures ContractStable(s, root, c, w.made, hops) && ContractHolds(t, root, c, hops)
    ensures !Uncovers(s, plan, root, c, hops)
  {
    WrittenCanGrow(s, w, plan, |plan|);
    NoneBefore(s, w, plan, |plan|, root, c, hops);
    StageKeepsContract(s, t, w, root, c, hops);
  }

  // The part of `deploy_package` that rolls back when it raises.  `t` is the
  // store between copying and removing, or the one in which the run stopped.
  method TryDeploy(v: Volume, calm: bool, plan: seq<Entry>, c: Contract, root: Path, items: seq<Item>,
      assemblyPaths: set<Path>, assemblyPasses: bool, ghost s: Store, ghost w: Scope)
      returns (r: Step, ghost t: Store)
    requires Ready(s, w, plan, c, root, v.hops) && v.nodes == s && ContractHolds(s, root, c, v.hops)
    modifies v`nodes
    ensures calm ==> !r.Interrupted?
    ensures !r.Passed? ==> t == v.nodes && Stopped(s, t, w, plan, c, root, v.hops)
    ensures r.Passed? ==> Completed(s, t, v.nodes, w, plan, c, root, items, assemblyPaths, v.hops)
    ensures r.Failed? ==> Expected(s, t, w, plan, c, root, items, assemblyPaths, assemblyPasses, r.check, v.hops)
    ensures r.Passed? ==> AliasesReadable(t, plan, |plan|, v.hops) && assemblyPasses
  {
    r := CopyPhase(v, calm, plan, c, root, s, w);
    t := v.nodes;
    if !r.Passed? {
      return;
    }
    RecheckExactly(s, t, w, plan, |plan|, c, root, v.hops);
    NothingUncovered(s, t, w, plan, c, root, v.hops);
    var ok := AliasPhase(v, plan);
    if !ok {
      return Failed(AliasDisappeared), t;
    }
    CopiedMatch(s, t, w, plan, c, root, v.hops);
    r := CheckCopied(v, calm, plan, c, root, items, assemblyPaths);
    if !r.Passed? {
      return;
    }
    r := RemovePhase(v, calm, plan, s, t, w);
    ghost var u := v.nodes;
    if !r.Passed? {
      return r, u;
    }
    RemovedAreAbsent(s, t, u, w, plan, v.hops);
    ok := AbsencePhase(v, plan);
    if !ok {
      return Failed(StillPresent), u;
    }
    ghost var removed := v.nodes;
    r := PrunePhase(v, calm, plan, s, w);
    u := v.nodes;
    if !r.Passed? {
      return r, u;
    }
    PrunedAfterRemoval(t, removed, u, plan);
    NothingUncovered(s, u, w, plan, c, root, v.hops);
    ok := ValidateContract(v, root, c);
    if !ok {
      return Failed(ProjectionInvalid), u;
    }
    if !assemblyPasses {
      return Failed(AssemblyCheck), u;
    }
    var fault := Strike(calm);
    if fault {
      return Interrupted, u;
    }
    return Passed, t;
  }

  // The checks between copying and removing.
  method CheckCopied(v: Volume, calm: bool, plan: seq<Entry>, c: Contract, root: Path, items: seq<Item>,
      assemblyPaths: set<Path>)
      returns (r: Step)
    requires WellFormed(v.nodes) && Plain(root) && WellFormedContract(c)
    ensures calm ==> !r.Interrupted?
    ensures r.Passed? ==> EvidenceHolds(v.nodes, root, plan, items, assemblyPaths, v.hops)
    ensures ContractHolds(v.nodes, root, c, v.hops) && AllMatch(v.nodes, plan, |plan|, v.hops) ==>
      (r.Failed? ==>
      r.check.EvidenceDrift? && !EvidenceHolds(v.nodes, root, plan, items, assemblyPaths, v.hops))
  {
    var ok := ValidateContract(v, root, c);
    if !ok {
      return Failed(ProjectionInvalid);
    }
    ok := ParityPhase(v, plan);
    if !ok {
      return Failed(ParityFailed);
    }
    ok := RevalidateEvidence(v, root, plan, items, assemblyPaths);
    if !ok {
      return Failed(EvidenceDrift);
    }
    ok := ValidateContract(v, root, c);
    if !ok {
      return Failed(ProjectionInvalid);
    }
    var fault := Strike(calm);
    if fault {
      return Interrupted;
    }
    return Passed;
  }
}
