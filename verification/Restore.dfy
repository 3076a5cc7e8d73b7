// `restore_file`: one record put back.
module Restore {
  import opened Paths
  import opened FileStore
  import opened FileOps
  import opened Options
  import opened Volumes
  import opened Projections
  import opened SafePaths
  import opened Backup

  // The payload of a record is a file or a link, if it is there at all.
  ghost predicate PayloadSound(b: Store, dir: Path, r: Record) {
    var p := dir + r.payload;
    p != [] && Plain(p) && (p in b ==> b[p].File? || b[p].Link?)
  }

  // `restore_file` gets through.
  ghost predicate CanRestore(s: Store, hops: nat, b: Store, backupHops: nat, dir: Path, r: Record) {
    && SafeTarget(s, r.target, r.safeRoot, hops) && !IsDirAt(s, r.target)
    && PayloadUsable(b, backupHops, dir, r)
  }

  // The backup side of it: no link on the way, and a payload if there was one.
  ghost predicate PayloadUsable(b: Store, backupHops: nat, dir: Path, r: Record) {
    && SafeBackup(b, dir, Parent(dir), backupHops)
    && SafeBackup(b, dir + r.payload, dir, backupHops)
    && (r.existed ==> dir + r.payload in b)
  }

  // The file that the record and its payload stand for.
  function Recovered(payload: Node, r: Record): Node {
    if payload.File? && r.mode.Some? then payload.(mode := r.mode.value) else payload
  }

  // What `restore_file` does to the files.
  function RestoreOne(f: Store, b: Store, dir: Path, r: Record): Store {
    if !r.existed then f - {r.target}
    else if dir + r.payload in b && b[dir + r.payload].File? then f[r.target := Recovered(b[dir + r.payload], r)]
    else f
  }

  // A safe payload is a file, never a link, and is found where its name says.
  lemma SafePayloadIsFile(b: Store, dir: Path, r: Record, hops: nat)
    requires WellFormed(b) && IsDirAt(b, dir) && PayloadSound(b, dir, r)
    requires SafeBackup(b, dir + r.payload, dir, hops)
    ensures Present(b, dir + r.payload, hops) <==> dir + r.payload in b
    ensures dir + r.payload in b ==>
      b[dir + r.payload].File? && SourceNode(b, dir + r.payload, hops) == Some(b[dir + r.payload])
  {
    var p := dir + r.payload;
    SafeBackupIsNoLink(b, p, dir, hops);
    if p in b {
      KeysAreClear(b, p);
      ClearLookups(b, p, hops);
    } else if Exists(b, p, hops) {
      LinkFreeIsPhysical(b, p, dir, hops);
    }
  }

  // The target, and nothing else, is as the record says.
  ghost predicate PutBack(s: Store, t: Store, b: Store, dir: Path, r: Record) {
    && WellFormed(t) && Touches(s, t, r.target) && (r.target in t ==> t[r.target].File?)
    && Files(t) == RestoreOne(Files(s), b, dir, r)
    && (!r.existed ==> t.Keys <= s.Keys)
  }

  // `restore_file`
  method RestoreFile(v: Volume, b: Volume, dir: Path, r: Record) returns (ok: bool)
    requires v != b && WellFormed(v.nodes) && WellFormed(b.nodes) && IsDirAt(b.nodes, dir)
    requires Clear(v.nodes, r.target) && PayloadSound(b.nodes, dir, r)
    modifies v`nodes
    ensures ok <==> CanRestore(old(v.nodes), v.hops, b.nodes, b.hops, dir, r)
    ensures if ok then PutBack(old(v.nodes), v.nodes, b.nodes, dir, r) else v.nodes == old(v.nodes)
  {
    ok := CheckRestore(v, b, dir, r);
    if !ok {
      return;
    }
    ghost var s := v.nodes;
    FreeTarget(v, r);
    if r.existed {
      SafePayloadIsFile(b.nodes, dir, r, b.hops);
      RestoreCopied(s, v.nodes, v.hops, b.nodes, b.hops, dir, r);
      ok := v.CopyPreserving(b, dir + r.payload, r.target);
      if r.mode.Some? && !IsSymlink(v.nodes, r.target, v.hops) {
        ok := v.ChangeMode(r.target, r.mode.value);
      }
    }
  }

  // The checks that `restore_file` makes before it changes anything.
  method CheckRestore(v: Volume, b: Volume, dir: Path, r: Record) returns (ok: bool)
    requires WellFormed(v.nodes) && WellFormed(b.nodes) && IsDirAt(b.nodes, dir)
    requires Clear(v.nodes, r.target) && PayloadSound(b.nodes, dir, r)
    ensures ok <==> CanRestore(v.nodes, v.hops, b.nodes, b.hops, dir, r)
  {
    if !SafeTarget(v.nodes, r.target, r.safeRoot, v.hops) {
      return false;
    }
    ok := CheckBackupPath(b, dir, Parent(dir));
    if !ok {
      return;
    }
    ok := CheckBackupPath(b, dir + r.payload, dir);
    if !ok {
      return;
    }
    SafePayloadIsFile(b.nodes, dir, r, b.hops);
    if r.existed && !Present(b.nodes, dir + r.payload, b.hops) {
      return false;
    }
    ClearLookups(v.nodes, r.target, v.hops);
    ok := !(IsDir(v.nodes, r.target, v.hops) && !IsSymlink(v.nodes, r.target, v.hops));
  }

  method FreeTarget(v: Volume, r: Record)
    requires WellFormed(v.nodes) && Clear(v.nodes, r.target) && !IsDirAt(v.nodes, r.target)
    modifies v`nodes
    ensures WellFormed(v.nodes) && Clear(v.nodes, r.target) && r.target !in v.nodes && v.nodes.Keys <= old(v.nodes).Keys
    ensures Touches(old(v.nodes), v.nodes, r.target) && Files(v.nodes) == Files(old(v.nodes)) - {r.target}
  {
    ClearLookups(v.nodes, r.target, v.hops);
    if Present(v.nodes, r.target, v.hops) {
      UnlinkClear(v.nodes, r.target, v.hops);
      var removed := v.Remove(r.target);
      ClearKept(old(v.nodes), v.nodes, r.target, r.target);
    }
  }

  // From an emptied target, the copy and the chmod put the recorded file back.
  lemma RestoreCopied(s: Store, t: Store, hops: nat, b: Store, backupHops: nat, dir: Path, r: Record)
    requires WellFormed(s) && WellFormed(t) && Clear(t, r.target) && r.target !in t
    requires r.existed && dir + r.payload in b && b[dir + r.payload].File?
    requires SourceNode(b, dir + r.payload, backupHops) == Some(b[dir + r.payload])
    requires Touches(s, t, r.target) && Files(t) == Files(s) - {r.target}
    ensures var o := Install(t, r.target, SourceNode(b, dir + r.payload, backupHops), hops);
      && o.ok && !IsSymlink(o.store, r.target, hops)
      && (r.mode.None? ==> PutBack(s, o.store, b, dir, r))
      && (r.mode.Some? ==>
        var c := Chmod(o.store, r.target, r.mode.value, hops); c.ok && PutBack(s, c.store, b, dir, r))
  {
    var node := b[dir + r.payload];
    InstallThenChmod(t, r.target, node, GetOr(r.mode, node.mode), hops);
    var u := Install(t, r.target, Some(node), hops).store;
    TouchesTwice(s, t, u, r.target);
    PutInstead(Files(s), Files(t), r.target, node);
    if r.mode.Some? {
      TouchesTwice(s, t, Chmod(u, r.target, r.mode.value, hops).store, r.target);
      PutInstead(Files(s), Files(t), r.target, Recovered(node, r));
    }
  }

  lemma InstallThenChmod(t: Store, p: Path, node: Node, mode: nat, hops: nat)
    requires WellFormed(t) && Clear(t, p) && p !in t && node.File?
    ensures var o := Install(t, p, Some(node), hops);
      && o.ok && !IsSymlink(o.store, p, hops) && WellFormed(o.store) && Touches(t, o.store, p)
      && p in o.store && o.store[p] == node && Files(o.store) == Files(t)[p := node]
    ensures var o := Install(t, p, Some(node), hops);
      var c := Chmod(o.store, p, mode, hops);
      && c.ok && WellFormed(c.store) && Touches(t, c.store, p)
      && p in c.store && c.store[p].File? && Files(c.store) == Files(t)[p := node.(mode := mode)]
  {
    InstallClear(t, p, node, hops);
    ChmodAfter(t, Install(t, p, Some(node), hops).store, p, node, mode, hops);
  }

  lemma ChmodAfter(t: Store, u: Store, p: Path, node: Node, mode: nat, hops: nat)
    requires WellFormed(u) && Touches(t, u, p) && p != [] && p in u && u[p] == node && node.File?
    requires Files(u) == Files(t)[p := node]
    ensures !IsSymlink(u, p, hops)
    ensures var c := Chmod(u, p, mode, hops);
      && c.ok && WellFormed(c.store) && Touches(t, c.store, p)
      && p in c.store && c.store[p].File? && Files(c.store) == Files(t)[p := node.(mode := mode)]
  {
    ChmodFile(u, p, mode, hops);
    TouchesTwice(t, u, Chmod(u, p, mode, hops).store, p);
  }

  lemma ChmodFile(s: Store, p: Path, mode: nat, hops: nat)
    requires WellFormed(s) && p in s && p != [] && s[p].File?
    ensures !IsSymlink(s, p, hops)
    ensures var c := Chmod(s, p, mode, hops);
      && c.ok && WellFormed(c.store) && Touches(s, c.store, p) && p in c.store && c.store[p].File?
      && Files(c.store) == Files(s)[p := s[p].(mode := mode)]
  {
    KeysAreClear(s, p);
    ClearLookups(s, p, hops);
    PutWellFormed(s, p, s[p].(mode := mode));
    FilesPut(s, p, s[p].(mode := mode));
  }

  lemma PutInstead(f: Store, g: Store, p: Path, x: Node)
    requires g == f - {p}
    ensures g[p := x] == f[p := x]
  {}
}
