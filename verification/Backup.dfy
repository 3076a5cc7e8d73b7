// `backup_package`: one record and one payload for every managed name.
module Backup {
  import opened Paths
  import opened FileStore
  import opened FileOps
  import opened Options
  import opened Volumes
  import opened PathText
  import opened Planner
  import opened SafePaths

  // SHA-256, taken to be injective.
  datatype Digest = Sha256(preimage: string)

  // `os.readlink(path)`
  function LinkText(n: Node): string
    requires n.Link?
  {
    Spelled(n.absolute, n.parts)
  }

  // Reading the text gives the link back.
  lemma LinkTextReads(n: Node)
    requires n.Link? && AreNames(n.parts) && n.parts != []
    ensures Parts(LinkText(n)) == n.parts && (IsAbsolute(LinkText(n)) <==> n.absolute)
  {
    PartsOfSpelled(n.absolute, n.parts);
  }

  // `sha256(path)`: a link is hashed by its text.
  function NodeDigest(n: Node): Digest
    requires n.File? || n.Link?
  {
    if n.File? then Sha256(n.content)
    else Sha256("symlink:" + LinkText(n))
  }

  datatype FileType = Regular | Symlinked | Absent

  // `st_mode & 0o777`
  function PermBits(mode: nat): nat {
    mode % 512
  }

  datatype Record = Record(
    id: Path, target: Path, safeRoot: Path, payload: Path, managed: bool,
    existed: bool, fileType: FileType, mode: Option<nat>, digest: Option<Digest>)

  datatype Manifest = Manifest(records: seq<Record>, projectionContract: bool, projectionRoot: Option<Path>)

  function Original(e: Entry): Path {
    if e.kind.SourceOnly? then e.source else e.destination
  }

  function SafeRootOf(e: Entry): Path {
    if e.kind.SourceOnly? then e.sourceRoot else e.root
  }

  function PayloadName(id: Path): Path {
    ["files"] + id
  }

  // The record of an entry; `record_path` raises on what is neither a file
  // nor a link.
  function RecordOf(s: Store, e: Entry, hops: nat): Option<Record> {
    var p := Original(e);
    var blank := Record(e.id, p, SafeRootOf(e), PayloadName(e.id), e.managed, false, Absent, None, None);
    if IsSymlink(s, p, hops) then
      var link := s[Locate(s, p, hops).at];
      Some(blank.(existed := true, fileType := Symlinked, mode := Some(511), digest := Some(NodeDigest(link))))
    else if IsFile(s, p, hops) then
      var file := s[Walk(s, [], p, hops).at];
      Some(blank.(existed := true, fileType := Regular, mode := Some(PermBits(file.mode)),
          digest := Some(NodeDigest(file))))
    else if Exists(s, p, hops) then None
    else Some(blank)
  }

  // The record, told from the one key that the name of the entry stands for.
  ghost predicate Tells(s: Store, e: Entry, r: Record) {
    var p := if e.kind.SourceOnly? then e.source else e.destination;
    && r.id == e.id && r.target == p && r.safeRoot == (if e.kind.SourceOnly? then e.sourceRoot else e.root)
    && r.payload == ["files"] + e.id && r.managed == e.managed && (r.existed <==> p in s)
    && if p !in s then r.fileType == Absent && r.mode.None? && r.digest.None?
       else match s[p]
         case File(content, mode) =>
           r.fileType == Regular && r.mode == Some(mode % 512) && r.digest == Some(Sha256(content))
         case Link(_, _) =>
           r.fileType == Symlinked && r.mode == Some(511) && r.digest == Some(Sha256("symlink:" + LinkText(s[p])))
         case _ => false
  }

  // At a name that runs through no link there is a record unless a directory or
  // a special file is there.
  lemma RecordExactly(s: Store, e: Entry, hops: nat)
    requires WellFormed(s) && Clear(s, Original(e))
    ensures RecordOf(s, e, hops).None? <==> Original(e) in s && (s[Original(e)].Dir? || s[Original(e)].Special?)
    ensures RecordOf(s, e, hops).Some? ==> Tells(s, e, RecordOf(s, e, hops).value)
  {
    ClearLookups(s, Original(e), hops);
  }

  // What there is to record of each entry; an alias has no record.
  ghost function Told(s: Store, plan: seq<Entry>, hops: nat): seq<Option<Record>> {
    seq(|plan|, i requires 0 <= i < |plan| => if plan[i].IsAlias() then None else RecordOf(s, plan[i], hops))
  }

  ghost function Kept(told: seq<Option<Record>>, n: nat): seq<Record>
    requires n <= |told|
  {
    if n == 0 then []
    else if told[n - 1].None? then Kept(told, n - 1)
    else Kept(told, n - 1) + [told[n - 1].value]
  }

  // The records of the first `n` entries: one for each that is no alias.
  ghost function RecordsOf(s: Store, plan: seq<Entry>, n: nat, hops: nat): seq<Record>
    requires n <= |plan|
  {
    Kept(Told(s, plan, hops), n)
  }

  ghost predicate Recordable(s: Store, plan: seq<Entry>, n: nat, hops: nat)
    requires n <= |plan|
  {
    forall i | 0 <= i < n && !plan[i].IsAlias() :: RecordOf(s, plan[i], hops).Some?
  }

  // The payload of `r` is what was at its target.
  ghost predicate Saved(s: Store, b: Store, dir: Path, r: Record, hops: nat) {
    && Clear(b, dir + r.payload)
    && (r.existed <==> dir + r.payload in b)
    && (r.existed ==> Some(b[dir + r.payload]) == SourceNode(s, r.target, hops))
  }

  ghost predicate AllSaved(s: Store, b: Store, dir: Path, records: seq<Record>, hops: nat) {
    forall i | 0 <= i < |records| :: Saved(s, b, dir, records[i], hops)
  }

  /* ---- When payloads do not get into each other's way ---- */

  // The ids of recorded entries are distinct and no one is a prefix of another.
  ghost predicate IdsApart(plan: seq<Entry>) {
    && (forall i | 0 <= i < |plan| :: plan[i].id != [] && Plain(plan[i].id))
    && (forall i, j | 0 <= i < |plan| && 0 <= j < |plan| && i != j && !plan[i].IsAlias() && !plan[j].IsAlias() ::
          !(plan[i].id <= plan[j].id))
  }

  function LastWithId(plan: seq<Entry>, id: Path, n: nat): (o: Option<nat>)
    requires n <= |plan|
    ensures o.Some? ==> o.value < n && plan[o.value].id == id && forall j | o.value < j < n :: plan[j].id != id
    ensures o.None? ==> forall j | 0 <= j < n :: plan[j].id != id
  {
    if n == 0 then None
    else if plan[n - 1].id == id then Some(n - 1)
    else LastWithId(plan, id, n - 1)
  }

  // An alias comes after the entry that owns its write.
  predicate OwnerFirst(plan: seq<Entry>, i: nat)
    requires i < |plan|
  {
    && plan[i].writeOwner.Some?
    && var o := LastWithId(plan, plan[i].writeOwner.value, |plan|);
      o.Some? && o.value < i
  }

  // The backup gets past entry `i`.
  ghost predicate EntryBackable(s: Store, plan: seq<Entry>, i: nat, hops: nat)
    requires i < |plan|
  {
    if plan[i].IsAlias() then OwnerFirst(plan, i)
    else SafeTarget(s, Original(plan[i]), SafeRootOf(plan[i]), hops) && RecordOf(s, plan[i], hops).Some?
  }

  ghost predicate Backable(s: Store, plan: seq<Entry>, n: nat, hops: nat)
    requires n <= |plan|
  {
    forall i | 0 <= i < n :: EntryBackable(s, plan, i, hops)
  }

  // The original, if it is there, lives below its safe root, whatever links its
  // name runs through.
  ghost predicate Contained(s: Store, e: Entry, hops: nat) {
    var p := if e.kind.SourceOnly? then e.source else e.destination;
    var top := Walk(s, [], if e.kind.SourceOnly? then e.sourceRoot else e.root, hops);
    Present(s, p, hops) && PlaceOf(s, p, hops).Found? && top.Found? ==> Within(PlaceOf(s, p, hops).at, top.at)
  }

  // Of an entry that the backup gets past.
  lemma BackableIsContained(s: Store, plan: seq<Entry>, i: nat, hops: nat)
    requires WellFormed(s) && i < |plan| && !plan[i].IsAlias() && EntryBackable(s, plan, i, hops)
    ensures Contained(s, plan[i], hops)
  {
    var p, root := Original(plan[i]), SafeRootOf(plan[i]);
    if Present(s, p, hops) && PlaceOf(s, p, hops).Found? && Walk(s, [], root, hops).Found? {
      FoundIsNamed(s, p, hops);
      SafeTargetExactly(s, p, root, hops);
    }
  }

  // A file or a link has a name of its own.
  lemma FoundIsNamed(s: Store, p: Path, hops: nat)
    requires WellFormed(s) && (IsSymlink(s, p, hops) || IsFile(s, p, hops))
    ensures p != [] && Last(p) != UP
  {
    if p != [] && Last(p) == UP {
      JoinParentLast(p);
      WalkPrefix(s, [], Parent(p), [UP], hops);
      EndsAbove(s, Parent(p), hops);
    }
  }

  // ".." leads to a directory.
  lemma EndsAbove(s: Store, p: Path, hops: nat)
    requires WellFormed(s) && Walk(s, [], p + [UP], hops).Found? && Walk(s, [], p, hops).Found?
    ensures IsDirAt(s, Walk(s, [], p + [UP], hops).at)
  {
    var d, left := Walk(s, [], p, hops).at, hops - Cost(s, [], p, hops);
    WalkThen(s, [], p, [UP], hops, left);
    WalkEnds(s, [], p, hops);
  }

  lemma {:induction false} KeptHas(told: seq<Option<Record>>, n: nat, i: nat)
    requires i < n <= |told| && told[i].Some?
    ensures told[i].value in Kept(told, n)
  {
    if i < n - 1 {
      KeptHas(told, n - 1, i);
    }
  }

  // A record tells what is at the original, if its name runs through no link.
  ghost predicate IsTold(s: Store, records: seq<Record>, e: Entry) {
    Clear(s, if e.kind.SourceOnly? then e.source else e.destination) ==>
      exists k | 0 <= k < |records| :: Tells(s, e, records[k])
  }

  // What a finished backup says of each entry that is no alias.
  lemma BackedEntries(s: Store, plan: seq<Entry>, hops: nat)
    requires WellFormed(s) && Backable(s, plan, |plan|, hops)
    ensures forall i | 0 <= i < |plan| && !plan[i].IsAlias() ::
      Contained(s, plan[i], hops) && IsTold(s, RecordsOf(s, plan, |plan|, hops), plan[i])
  {
    forall i | 0 <= i < |plan| && !plan[i].IsAlias()
      ensures Contained(s, plan[i], hops) && IsTold(s, RecordsOf(s, plan, |plan|, hops), plan[i])
    {
      assert EntryBackable(s, plan, i, hops);
      BackableIsContained(s, plan, i, hops);
      EntryIsTold(s, plan, i, hops);
    }
  }

  lemma EntryIsTold(s: Store, plan: seq<Entry>, i: nat, hops: nat)
    requires WellFormed(s) && i < |plan| && !plan[i].IsAlias() && RecordOf(s, plan[i], hops).Some?
    ensures IsTold(s, RecordsOf(s, plan, |plan|, hops), plan[i])
  {
    if Clear(s, Original(plan[i])) {
      var records := RecordsOf(s, plan, |plan|, hops);
      KeptHas(Told(s, plan, hops), |plan|, i);
      RecordExactly(s, plan[i], hops);
      var k :| 0 <= k < |records| && records[k] == RecordOf(s, plan[i], hops).value;
      assert Tells(s, plan[i], records[k]);
    }
  }

  lemma BelowEmptyDir(b: Store, dir: Path, rest: Path)
    requires WellFormed(b) && IsEmptyDir(b, dir) && rest != [] && Plain(rest)
    ensures Clear(b, dir + rest) && dir + rest !in b
  {
    KeysArePlain(b, dir);
    var p := dir + rest;
    forall k | 0 <= k < |p|
      ensures p[..k] in b ==> b[p[..k]].Dir?
    {
      if k < |dir| {
        assert p[..k] == dir[..k];
        PrefixesAreDirs(b, dir, k);
      } else if k == |dir| {
        assert p[..k] == dir;
      } else {
        assert dir < p[..k];
      }
    }
    assert dir < p;
  }

  lemma ClearIsSafeBackup(s: Store, p: Path, root: Path, hops: nat)
    requires WellFormed(s) && Clear(s, p) && !IsLinkAt(s, p) && root <= p
    ensures SafeBackup(s, p, root, hops)
  {
    forall k: nat | 0 < k <= |p|
      ensures !IsSymlink(s, p[..k], hops)
    {
      var q := p[..k];
      assert k == |p| ==> q == p;
      forall l | 0 <= l < |q|
        ensures q[..l] in s ==> s[q[..l]].Dir?
      {
        assert q[..l] == p[..l];
      }
      ClearLookups(s, q, hops);
    }
  }

  // What is safe under `safe_backup_path` is where its name says it is.
  lemma SafeBackupIsNoLink(s: Store, p: Path, root: Path, hops: nat)
    requires SafeBackup(s, p, root, hops) && p != []
    ensures !IsSymlink(s, p, hops)
  {
    assert p[..|p|] == p;
  }

  // The names of the payloads still to be written.
  ghost predicate Pending(b: Store, dir: Path, plan: seq<Entry>, n: nat)
    requires n <= |plan|
  {
    forall i | n <= i < |plan| && !plan[i].IsAlias() ::
      Clear(b, dir + PayloadName(plan[i].id)) && dir + PayloadName(plan[i].id) !in b
  }

  lemma PendingKept(b: Store, t: Store, dir: Path, plan: seq<Entry>, n: nat)
    requires n < |plan| && !plan[n].IsAlias() && IdsApart(plan) && Pending(b, dir, plan, n)
    requires Touches(b, t, dir + PayloadName(plan[n].id))
    ensures Pending(t, dir, plan, n + 1)
  {
    var p := dir + PayloadName(plan[n].id);
    forall i | n + 1 <= i < |plan| && !plan[i].IsAlias()
      ensures Clear(t, dir + PayloadName(plan[i].id)) && dir + PayloadName(plan[i].id) !in t
    {
      var q := dir + PayloadName(plan[i].id);
      PayloadsApart(dir, plan[n].id, plan[i].id);
      ClearKept(b, t, p, q);
    }
  }

  lemma PayloadsApart(dir: Path, a: Path, b: Path)
    requires !(a <= b) && !(b <= a)
    ensures !(dir + PayloadName(a) <= dir + PayloadName(b)) && !(dir + PayloadName(b) <= dir + PayloadName(a))
  {
    var x := dir + ["files"];
    assert dir + PayloadName(a) == x + a && dir + PayloadName(b) == x + b;
    PrefixBelow(x, a, b);
    PrefixBelow(x, b, a);
  }

  lemma PrefixBelow(x: Path, a: Path, b: Path)
    ensures x + a <= x + b ==> a <= b
  {
    assert (x + a)[|x|..] == a && (x + b)[|x|..] == b;
    if x + a <= x + b {
      assert forall i | 0 <= i < |a| :: a[i] == (x + a)[|x| + i] == (x + b)[|x| + i] == b[i];
    }
  }

  // What the loop has done after `n` entries.
  ghost predicate BackedUp(s: Store, b: Store, dir: Path, plan: seq<Entry>, n: nat, records: seq<Record>, hops: nat)
    requires n <= |plan|
  {
    && WellFormed(b) && IsDirAt(b, dir) && Pending(b, dir, plan, n)
    && Recordable(s, plan, n, hops) && records == RecordsOf(s, plan, n, hops)
    && AllSaved(s, b, dir, records, hops)
    && forall k | 0 <= k < |records| :: FromEntry(plan, n, records[k])
  }

  ghost predicate FromEntry(plan: seq<Entry>, n: nat, r: Record)
    requires n <= |plan|
  {
    exists i | 0 <= i < n :: !plan[i].IsAlias() && r.id == plan[i].id && r.payload == PayloadName(plan[i].id)
  }

  // One more entry: its payload was written ...
  lemma SaveStep(s: Store, b: Store, t: Store, dir: Path, plan: seq<Entry>, n: nat, records: seq<Record>,
                 hops: nat, backupHops: nat)
    requires n < |plan| && !plan[n].IsAlias() && IdsApart(plan)
    requires BackedUp(s, b, dir, plan, n, records, hops) && RecordOf(s, plan[n], hops).Some?
    requires Outcome(t, true) ==
      Install(b, dir + PayloadName(plan[n].id), SourceNode(s, Original(plan[n]), hops), backupHops)
    ensures BackedUp(s, t, dir, plan, n + 1, records + [RecordOf(s, plan[n], hops).value], hops)
  {
    var p, node := dir + PayloadName(plan[n].id), SourceNode(s, Original(plan[n]), hops);
    InstallClear(b, p, node.value, backupHops);
    PendingKept(b, t, dir, plan, n);
    forall k | 0 <= k < |records|
      ensures Saved(s, t, dir, records[k], hops)
    {
      SavedKept(s, b, t, dir, plan, n, records[k], hops);
    }
    KeysAreClear(t, p);
    RecordFromEntry(s, plan, n, records, hops);
  }

  lemma SavedKept(s: Store, b: Store, t: Store, dir: Path, plan: seq<Entry>, n: nat, r: Record, hops: nat)
    requires n < |plan| && !plan[n].IsAlias() && IdsApart(plan)
    requires FromEntry(plan, n, r) && Saved(s, b, dir, r, hops)
    requires Touches(b, t, dir + PayloadName(plan[n].id))
    ensures Saved(s, t, dir, r, hops)
  {
    var p := dir + PayloadName(plan[n].id);
    PayloadsApart(dir, r.id, plan[n].id);
    ClearKept(b, t, p, dir + r.payload);
  }

  lemma PayloadIsSafe(b: Store, dir: Path, plan: seq<Entry>, n: nat, hops: nat)
    requires WellFormed(b) && n < |plan| && !plan[n].IsAlias() && Pending(b, dir, plan, n)
    ensures SafeBackup(b, dir + PayloadName(plan[n].id), dir, hops)
  {
    ClearIsSafeBackup(b, dir + PayloadName(plan[n].id), dir, hops);
  }

  lemma RecordFromEntry(s: Store, plan: seq<Entry>, n: nat, records: seq<Record>, hops: nat)
    requires n < |plan| && !plan[n].IsAlias() && RecordOf(s, plan[n], hops).Some?
    requires forall k | 0 <= k < |records| :: FromEntry(plan, n, records[k])
    ensures var all := records + [RecordOf(s, plan[n], hops).value];
      forall k | 0 <= k < |all| :: FromEntry(plan, n + 1, all[k])
  {
    var all := records + [RecordOf(s, plan[n], hops).value];
    forall k | 0 <= k < |all|
      ensures FromEntry(plan, n + 1, all[k])
    {
      if k < |records| {
        assert FromEntry(plan, n, records[k]);
      } else {
        assert all[k].payload == PayloadName(plan[n].id);
      }
    }
  }

  // ... or there was nothing to write.
  lemma SkipStep(s: Store, b: Store, dir: Path, plan: seq<Entry>, n: nat, records: seq<Record>, hops: nat)
    requires n < |plan| && !plan[n].IsAlias()
    requires BackedUp(s, b, dir, plan, n, records, hops)
    requires RecordOf(s, plan[n], hops).Some? && !RecordOf(s, plan[n], hops).value.existed
    ensures BackedUp(s, b, dir, plan, n + 1, records + [RecordOf(s, plan[n], hops).value], hops)
  {
    RecordFromEntry(s, plan, n, records, hops);
  }

  // `backup_package` from the creation of its directory on.  `saved` is the
  // `_backup_path` that each entry gets.
  method BackupEntries(v: Volume, b: Volume, plan: seq<Entry>, dir: Path)
      returns (ok: bool, records: seq<Record>, saved: seq<Path>)
    requires v != b && WellFormed(b.nodes) && IsEmptyDir(b.nodes, dir) && IdsApart(plan)
    modifies b`nodes
    ensures ok <==> Backable(v.nodes, plan, |plan|, v.hops)
    ensures ok ==> BackedUp(v.nodes, b.nodes, dir, plan, |plan|, records, v.hops)
    ensures ok ==> |saved| == |plan| && forall i | 0 <= i < |plan| :: SavedAt(plan, saved, i)
    ensures ok && WellFormed(v.nodes) ==> forall i | 0 <= i < |plan| && !plan[i].IsAlias() ::
      Contained(v.nodes, plan[i], v.hops) && IsTold(v.nodes, records, plan[i])
  {
    records, saved := [], [];
    forall i | 0 <= i < |plan|
      ensures Clear(b.nodes, dir + PayloadName(plan[i].id)) && dir + PayloadName(plan[i].id) !in b.nodes
    {
      BelowEmptyDir(b.nodes, dir, PayloadName(plan[i].id));
    }
    for i := 0 to |plan|
      invariant BackedUp(v.nodes, b.nodes, dir, plan, i, records, v.hops)
      invariant Backable(v.nodes, plan, i, v.hops)
      invariant |saved| == i && forall j | 0 <= j < i :: SavedAt(plan, saved, j)
    {
      if plan[i].IsAlias() {
        if !OwnerFirst(plan, i) {
          assert !EntryBackable(v.nodes, plan, i, v.hops);
          return false, records, saved;
        }
        var path := saved[LastWithId(plan, plan[i].writeOwner.value, |plan|).value];
        SavedGrows(plan, saved, path);
        saved := saved + [path];
      } else {
        ok, records := BackupEntry(v, b, plan, i, dir, records);
        if !ok {
          assert !EntryBackable(v.nodes, plan, i, v.hops);
          return;
        }
        SavedGrows(plan, saved, PayloadName(plan[i].id));
        saved := saved + [PayloadName(plan[i].id)];
      }
      assert EntryBackable(v.nodes, plan, i, v.hops);
    }
    ok := true;
    if WellFormed(v.nodes) {
      BackedEntries(v.nodes, plan, v.hops);
    }
  }

  // An alias shares the payload of its owner.
  ghost predicate SavedAt(plan: seq<Entry>, saved: seq<Path>, i: nat)
    requires i < |plan| && i < |saved|
  {
    if plan[i].IsAlias() then
      OwnerFirst(plan, i) && saved[i] == saved[LastWithId(plan, plan[i].writeOwner.value, |plan|).value]
    else saved[i] == PayloadName(plan[i].id)
  }

  lemma SavedGrows(plan: seq<Entry>, saved: seq<Path>, path: Path)
    requires |saved| < |plan| && forall j | 0 <= j < |saved| :: SavedAt(plan, saved, j)
    requires if plan[|saved|].IsAlias()
             then OwnerFirst(plan, |saved|)
               && path == saved[LastWithId(plan, plan[|saved|].writeOwner.value, |plan|).value]
             else path == PayloadName(plan[|saved|].id)
    ensures forall j | 0 <= j <= |saved| :: SavedAt(plan, saved + [path], j)
  {
    forall j | 0 <= j < |saved|
      ensures SavedAt(plan, saved + [path], j)
    {
      assert SavedAt(plan, saved, j);
    }
    var i := |saved|;
    assert (saved + [path])[i] == path;
    if plan[i].IsAlias() {
      var o := LastWithId(plan, plan[i].writeOwner.value, |plan|).value;
      assert (saved + [path])[o] == saved[o];
    }
  }

  // One entry that is no alias: check it, record it, copy it.
  method BackupEntry(v: Volume, b: Volume, plan: seq<Entry>, i: nat, dir: Path, before: seq<Record>)
      returns (ok: bool, records: seq<Record>)
    requires v != b && i < |plan| && !plan[i].IsAlias() && IdsApart(plan)
    requires BackedUp(v.nodes, b.nodes, dir, plan, i, before, v.hops)
    modifies b`nodes
    ensures ok <==> EntryBackable(v.nodes, plan, i, v.hops)
    ensures ok ==> BackedUp(v.nodes, b.nodes, dir, plan, i + 1, records, v.hops)
    ensures ok && WellFormed(v.nodes) ==> Contained(v.nodes, plan[i], v.hops)
  {
    if WellFormed(v.nodes) && EntryBackable(v.nodes, plan, i, v.hops) {
      BackableIsContained(v.nodes, plan, i, v.hops);
    }
    PayloadIsSafe(b.nodes, dir, plan, i, b.hops);
    var e := plan[i];
    records := before;
    if !SafeTarget(v.nodes, Original(e), SafeRootOf(e), v.hops) {
      return false, records;
    }
    ok := CheckBackupPath(b, dir + PayloadName(e.id), dir);
    var r := RecordOf(v.nodes, e, v.hops);
    if !ok || r.None? {
      return false, records;
    }
    if r.value.existed {
      ghost var was := b.nodes;
      InstallClear(was, dir + PayloadName(e.id), SourceNode(v.nodes, Original(e), v.hops).value, b.hops);
      ok := b.CopyPreserving(v, Original(e), dir + PayloadName(e.id));
      if !ok {
        return;
      }
      SaveStep(v.nodes, was, b.nodes, dir, plan, i, before, v.hops, b.hops);
    } else {
      SkipStep(v.nodes, b.nodes, dir, plan, i, before, v.hops);
    }
    records := records + [r.value];
  }
}
