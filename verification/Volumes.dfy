// A mounted file tree, changed in place by the operations the deployer uses.
module Volumes {
  import opened Paths
  import opened FileStore
  import opened FileOps

  class Volume {
    const hops: nat  // links one lookup may follow
    var nodes: Store

    constructor (nodes: Store, hops: nat)
      ensures this.nodes == nodes && this.hops == hops
    {
      this.nodes := nodes;
      this.hops := hops;
    }

    method MakeParents(p: Path) returns (ok: bool)
      modifies this`nodes
      ensures Outcome(nodes, ok) == MakeDirs(old(nodes), Parent(p), hops)
    {
      var o := MakeDirs(nodes, Parent(p), hops);
      nodes, ok := o.store, o.ok;
    }

    method Remove(p: Path) returns (ok: bool)
      modifies this`nodes
      ensures Outcome(nodes, ok) == Unlink(old(nodes), p, hops)
    {
      var o := Unlink(nodes, p, hops);
      nodes, ok := o.store, o.ok;
    }

    method RemoveDir(p: Path) returns (ok: bool)
      modifies this`nodes
      ensures Outcome(nodes, ok) == Rmdir(old(nodes), p, hops)
    {
      var o := Rmdir(nodes, p, hops);
      nodes, ok := o.store, o.ok;
    }

    method MakeLink(p: Path, link: Node) returns (ok: bool)
      modifies this`nodes
      ensures Outcome(nodes, ok) == Symlink(old(nodes), p, link, hops)
    {
      var o := Symlink(nodes, p, link, hops);
      nodes, ok := o.store, o.ok;
    }

    method Replace(p: Path, node: Node) returns (ok: bool)
      modifies this`nodes
      ensures Outcome(nodes, ok) == Place(old(nodes), p, node, hops)
    {
      var o := Place(nodes, p, node, hops);
      nodes, ok := o.store, o.ok;
    }

    method ChangeMode(p: Path, mode: nat) returns (ok: bool)
      modifies this`nodes
      ensures Outcome(nodes, ok) == Chmod(old(nodes), p, mode, hops)
    {
      var o := Chmod(nodes, p, mode, hops);
      nodes, ok := o.store, o.ok;
    }

    // `path` is read in `src`, after the parents of the destination were made.
    method CopyPreserving(src: Volume, path: Path, destination: Path) returns (ok: bool)
      modifies this`nodes
      ensures var from := if src == this then MakeDirs(old(nodes), Parent(destination), hops).store else src.nodes;
        Outcome(nodes, ok) == Install(old(nodes), destination, SourceNode(from, path, src.hops), hops)
    {
      ok := MakeParents(destination);
      if !ok {
        return;
      }
      if IsSymlink(src.nodes, path, src.hops) {
        var link := src.nodes[Locate(src.nodes, path, src.hops).at];
        if Present(nodes, destination, hops) {
          ok := Remove(destination);
          if !ok {
            return;
          }
        }
        ok := MakeLink(destination, link);
      } else if IsFile(src.nodes, path, src.hops) {
        ok := Replace(destination, src.nodes[Walk(src.nodes, [], path, src.hops).at]);
      } else {
        ok := false;
      }
    }
  }
}
