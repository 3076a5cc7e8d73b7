// The tar archive of a tree with its manifest, and the check of an archive
// against a manifest.
module Archive {
  import opened Paths
  import opened Options
  import opened Backup
  import opened SkillTrees

  const TOP: Name := ".hermes"
  const BLOCK: nat := 1024 * 1024

  datatype Kind = RegularMember | LinkMember | HardLinkMember | FolderMember

  datatype Member = Member(name: Path, kind: Kind, data: string)

  datatype ManifestItem = ManifestItem(relative: Path, isSymlink: bool, sha256: Option<Digest>)

  /* ---- Hashing while copying ---- */

  // `hashlib.sha256()`: what was fed so far decides the digest.
  class Hasher {
    var fed: string

    constructor ()
      ensures fed == ""
    {
      fed := "";
    }

    method Update(block: string)
      modifies this
      ensures fed == old(fed) + block
    {
      fed := fed + block;
    }

    function HexDigest(): (d: Digest)
      reads this
      ensures d.preimage == fed
    {
      Sha256(fed)
    }
  }

  // An open file.
  class Stream {
    const content: string
    var pos: nat

    constructor (content: string)
      ensures this.content == content && pos == 0
    {
      this.content, pos := content, 0;
    }

    // `read(size)`, at most `size` characters; all that is left if it is
    // negative.
    method Read(size: int) returns (block: string)
      requires pos <= |content|
      modifies this`pos
      ensures pos == if 0 <= size < |content| - old(pos) then old(pos) + size else |content|
      ensures block == content[old(pos)..pos]
    {
      var end := if 0 <= size < |content| - pos then pos + size else |content|;
      block := content[pos..end];
      pos := end;
    }
  }

  // Passes on what it reads, and feeds it to the digest.
  class HashingReader {
    const fh: Stream
    const digest: Hasher

    constructor (fh: Stream, digest: Hasher)
      ensures this.fh == fh && this.digest == digest
    {
      this.fh, this.digest := fh, digest;
    }

    ghost predicate InStep()
      reads this, fh, digest
    {
      fh.pos <= |fh.content| && digest.fed == fh.content[..fh.pos]
    }

    method Read(size: int) returns (block: string)
      requires InStep()
      modifies fh`pos, digest
      ensures fh.pos == if 0 <= size < |fh.content| - old(fh.pos) then old(fh.pos) + size else |fh.content|
      ensures InStep() && block == fh.content[old(fh.pos)..fh.pos]
    {
      block := fh.Read(size);
      digest.Update(block);
    }
  }

  // How `tarfile` copies `length` characters: full blocks, then the rest.
  method CopyBlocks(src: HashingReader, length: nat, bufsize: nat) returns (data: string, ok: bool)
    requires src.InStep() && src.fh.pos == 0 && bufsize > 0
    modifies src.fh`pos, src.digest
    ensures src.InStep()
    ensures ok <==> length <= |src.fh.content|
    ensures ok ==> data == src.fh.content[..length] && src.digest.fed == data
  {
    data := "";
    if length == 0 {
      assert src.fh.content[..0] == "";
      return "", true;
    }
    var blocks, remainder := length / bufsize, length % bufsize;
    BlocksAndRest(length, bufsize);
    for b := 0 to blocks
      invariant src.InStep() && src.fh.pos == b * bufsize && data == src.fh.content[..src.fh.pos]
    {
      NextBlock(b, blocks, bufsize);
      var buf := src.Read(bufsize);
      if |buf| < bufsize {
        return data, false;
      }
      data := data + buf;
    }
    if remainder != 0 {
      var buf := src.Read(remainder);
      if |buf| < remainder {
        return data, false;
      }
      data := data + buf;
    }
    ok := true;
  }

  lemma BlocksAndRest(length: nat, bufsize: nat)
    requires bufsize > 0
    ensures length == (length / bufsize) * bufsize + length % bufsize
  {}

  lemma NextBlock(b: nat, blocks: nat, bufsize: nat)
    requires b < blocks
    ensures (b + 1) * bufsize == b * bufsize + bufsize <= blocks * bufsize
  {}

  // The digest of a member, read block by block until nothing comes.
  method StreamedDigest(data: string) returns (d: Digest)
    ensures d == Sha256(data)
  {
    var stream := new Stream(data);
    var digest := new Hasher();
    var block := stream.Read(BLOCK);
    while block != ""
      invariant stream.pos <= |data| && stream.content == data
      invariant digest.fed + block == data[..stream.pos]
      invariant block == "" ==> stream.pos == |data|
      decreases |data| - stream.pos, |block|
    {
      digest.Update(block);
      block := stream.Read(BLOCK);
    }
    assert digest.fed + "" == digest.fed;
    d := digest.HexDigest();
  }

  /* ---- What an archive holds ---- */

  // The regular files that share a number with an earlier one.
  predicate IsRepeat(f: Forest, files: seq<Path>, i: nat)
    requires i < |files|
  {
    var n := At(Folder(f), files[i]);
    && n.Some? && n.value.Regular? && n.value.inode != 0
    && exists j | 0 <= j < i :: HasInode(f, files[j], n.value.inode)
  }

  predicate HasInode(f: Forest, p: Path, inode: nat) {
    var n := At(Folder(f), p);
    n.Some? && n.value.Regular? && n.value.inode == inode
  }

  function MemberFor(f: Forest, files: seq<Path>, i: nat): Member
    requires i < |files|
  {
    match At(Folder(f), files[i])
    case Some(Regular(content, _)) =>
      if IsRepeat(f, files, i) then Member([TOP] + files[i], HardLinkMember, "")
      else Member([TOP] + files[i], RegularMember, content)
    case _ => Member([TOP] + files[i], LinkMember, "")
  }

  function ItemFor(f: Forest, files: seq<Path>, i: nat): ManifestItem
    requires i < |files|
  {
    var m := MemberFor(f, files, i);
    if m.kind.LinkMember? then ManifestItem(files[i], true, None)
    else ManifestItem(files[i], false, Some(Sha256(m.data)))
  }

  ghost predicate IsArchiveOf(f: Forest, files: seq<Path>, n: nat, members: seq<Member>, items: seq<ManifestItem>)
    requires n <= |files|
  {
    && |members| == n + 1 && |items| == n
    && members[0] == Member([TOP], FolderMember, "")
    && (forall i | 0 <= i < n :: members[i + 1] == MemberFor(f, files, i))
    && (forall i | 0 <= i < n :: items[i] == ItemFor(f, files, i))
  }

  // The names under which `tarfile` remembers the files it has met.
  ghost predicate Remembers(f: Forest, files: seq<Path>, n: nat, inodes: map<nat, Path>)
    requires n <= |files|
  {
    && (forall k | k in inodes :: k != 0 && exists j | 0 <= j < n :: inodes[k] == [TOP] + files[j] && HasInode(f,
        files[j], k))
    && (forall j, k | 0 <= j < n && k != 0 && HasInode(f, files[j], k) :: k in inodes)
  }

  // The nodes that the walk keeps are regular files and links.
  ghost predicate AreKept(f: Forest, files: seq<Path>) {
    && NoneTwice(files)
    && forall i | 0 <= i < |files| :: IsFileOrLink(f, files[i])
  }

  predicate IsFileOrLink(f: Forest, p: Path) {
    var n := At(Folder(f), p);
    n.Some? && (n.value.Regular? || n.value.Linked?)
  }

  lemma WalkedAreKept(f: Forest)
    requires ProperForest(f)
    ensures AreKept(f, Listed(f, [], true))
  {
    var files := Listed(f, [], true);
    WalkPartitions(f, [TOP]);
    forall i | 0 <= i < |files|
      ensures IsFileOrLink(f, files[i])
    {
      LeavesInNamed(f, []);
      PathsWhereNamed(LeavesIn(f, []), true, i);
      WalkPartitions(f, files[i]);
    }
  }

  lemma PathsWhereNamed(ls: seq<Leaf>, kept: bool, i: nat)
    requires forall k | 0 <= k < |ls| :: ls[k].path != []
    requires i < |PathsWhere(ls, kept)|
    ensures PathsWhere(ls, kept)[i] != []
  {
    PathsWhereHas(ls, kept, PathsWhere(ls, kept)[i]);
  }

  // `gettarinfo`: a file met before under another name becomes a hard link.
  method TarInfo(inodes: map<nat, Path>, name: Path, inode: nat) returns (isHardLink: bool, inodes': map<nat, Path>)
    ensures isHardLink <==> inode in inodes && inodes[inode] != name
    ensures inodes' == if isHardLink || inode == 0 then inodes else inodes[inode := name]
  {
    isHardLink := inode in inodes && inodes[inode] != name;
    inodes' := if isHardLink || inode == 0 then inodes else inodes[inode := name];
  }

  // `archive_tree`, on a root that is a directory.
  method ArchiveTree(f: Forest, bufsize: nat) returns (members: seq<Member>, items: seq<ManifestItem>)
    requires ProperForest(f) && bufsize > 0
    ensures var files := Listed(f, [], true); IsArchiveOf(f, files, |files|, members, items)
  {
    var walk := WalkEntries(Some(Folder(f)));
    var files := walk.files;
    assert files == Listed(f, [], true);
    WalkedAreKept(f);
    members, items := [Member([TOP], FolderMember, "")], [];
    var inodes: map<nat, Path> := map[];
    for i := 0 to |files|
      invariant IsArchiveOf(f, files, i, members, items)
      invariant Remembers(f, files, i, inodes)
    {
      var member, item;
      member, item, inodes := AddEntry(f, files, i, inodes, bufsize);
      members := members + [member];
      items := items + [item];
    }
  }

  method AddEntry(f: Forest, files: seq<Path>, i: nat, inodes: map<nat, Path>, bufsize: nat)
      returns (member: Member, item: ManifestItem, inodes': map<nat, Path>)
    requires AreKept(f, files) && i < |files| && Remembers(f, files, i, inodes) && bufsize > 0
    ensures member == MemberFor(f, files, i) && item == ItemFor(f, files, i)
    ensures Remembers(f, files, i + 1, inodes')
  {
    assert IsFileOrLink(f, files[i]);
    var name, node := [TOP] + files[i], At(Folder(f), files[i]).value;
    if node.Linked? {
      return Member(name, LinkMember, ""), ManifestItem(files[i], true, None), inodes;
    }
    var isHardLink;
    isHardLink, inodes' := TarInfo(inodes, name, node.inode);
    RepeatsAreRemembered(f, files, i, inodes, inodes', isHardLink);
    var data, digest := AddFile(node.content, isHardLink, bufsize);
    member := Member(name, if isHardLink then HardLinkMember else RegularMember, data);
    item := ManifestItem(files[i], false, Some(digest));
  }

  // `addfile`: a hard link has size 0, so nothing is read.
  method AddFile(content: string, isHardLink: bool, bufsize: nat) returns (data: string, digest: Digest)
    requires bufsize > 0
    ensures data == (if isHardLink then "" else content) && digest == Sha256(data)
  {
    var fh := new Stream(content);
    var hasher := new Hasher();
    var reader := new HashingReader(fh, hasher);
    var size := if isHardLink then 0 else |content|;
    var ok;
    data, ok := CopyBlocks(reader, size, bufsize);
    digest := hasher.HexDigest();
  }

  lemma RepeatsAreRemembered(f: Forest, files: seq<Path>, i: nat, inodes: map<nat, Path>, next: map<nat, Path>,
      isHardLink: bool)
    requires AreKept(f, files) && i < |files| && Remembers(f, files, i, inodes)
    requires At(Folder(f), files[i]).Some? && At(Folder(f), files[i]).value.Regular?
    requires var inode, name := At(Folder(f), files[i]).value.inode, [TOP] + files[i];
      && (isHardLink <==> inode in inodes && inodes[inode] != name)
      && next == if isHardLink || inode == 0 then inodes else inodes[inode := name]
    ensures isHardLink <==> IsRepeat(f, files, i)
    ensures Remembers(f, files, i + 1, next)
  {
    var inode, name := At(Folder(f), files[i]).value.inode, [TOP] + files[i];
    assert HasInode(f, files[i], inode);
    if inode in inodes {
      var j :| 0 <= j < i && inodes[inode] == [TOP] + files[j] && HasInode(f, files[j], inode);
      assert name[1..] == files[i] && inodes[inode][1..] == files[j];
    }
  }

  /* ---- verify_tar_manifest ---- */

  // `{member.name: member}`: the last member of a name counts.
  function LastNamed(members: seq<Member>, name: Path): Option<Member> {
    if members == [] then None
    else if members[|members| - 1].name == name then Some(members[|members| - 1])
    else LastNamed(members[..|members| - 1], name)
  }

  predicate Confirmed(members: seq<Member>, item: ManifestItem) {
    item.isSymlink ||
    var m := LastNamed(members, [TOP] + item.relative);
    m.Some? && m.value.kind.RegularMember? && Some(Sha256(m.value.data)) == item.sha256
  }

  method VerifyTarManifest(archive: seq<Member>, items: seq<ManifestItem>) returns (ok: bool)
    ensures ok <==> forall i | 0 <= i < |items| :: Confirmed(archive, items[i])
  {
    var members: map<Path, Member> := map[];
    for i := 0 to |archive|
      invariant forall name :: name in members <==> LastNamed(archive[..i], name).Some?
      invariant forall name | name in members :: Some(members[name]) == LastNamed(archive[..i], name)
    {
      assert archive[..i + 1][..i] == archive[..i];
      members := members[archive[i].name := archive[i]];
    }
    assert archive[..|archive|] == archive;
    for i := 0 to |items|
      invariant forall k | 0 <= k < i :: Confirmed(archive, items[k])
    {
      if items[i].isSymlink {
        continue;
      }
      var name := [TOP] + items[i].relative;
      if name !in members || !members[name].kind.RegularMember? {
        assert !Confirmed(archive, items[i]);
        return false;
      }
      var d := StreamedDigest(members[name].data);
      if Some(d) != items[i].sha256 {
        assert !Confirmed(archive, items[i]);
        return false;
      }
    }
    ok := true;
  }

  ghost predicate AllConfirmed(members: seq<Member>, items: seq<ManifestItem>) {
    forall i | 0 <= i < |items| :: Confirmed(members, items[i])
  }

  /* ---- Round trip ---- */

  lemma {:induction false} LastNamedIs(members: seq<Member>, k: nat)
    requires k < |members| && forall i | k < i < |members| :: members[i].name != members[k].name
    ensures LastNamed(members, members[k].name) == Some(members[k])
    decreases |members|
  {
    if k < |members| - 1 {
      LastNamedIs(members[..|members| - 1], k);
    }
  }

  // Two names of one file; a number of 0 tells nothing.
  predicate SameFile(f: Forest, p: Path, q: Path) {
    var n := At(Folder(f), p);
    n.Some? && n.value.Regular? && n.value.inode != 0 && HasInode(f, q, n.value.inode)
  }

  // No two kept regular files are the same file.
  ghost predicate NoSharedFiles(f: Forest, files: seq<Path>) {
    forall i, j | 0 <= i < |files| && 0 <= j < |files| && i != j :: !SameFile(f, files[i], files[j])
  }

  lemma RepeatsAreShared(f: Forest, files: seq<Path>)
    ensures NoSharedFiles(f, files) <==> forall i | 0 <= i < |files| :: !IsRepeat(f, files, i)
  {
    forall i, j | 0 <= j < i < |files| && SameFile(f, files[j], files[i])
      ensures SameFile(f, files[i], files[j]) && IsRepeat(f, files, i)
    {}
  }

  // The check accepts the archive that was just made exactly when no two of
  // its regular files share their inode.
  lemma OwnArchiveAcceptedExactly(f: Forest, members: seq<Member>, items: seq<ManifestItem>)
    requires ProperForest(f)
    requires var files := Listed(f, [], true); IsArchiveOf(f, files, |files|, members, items)
    ensures AllConfirmed(members, items) <==> NoSharedFiles(f, Listed(f, [], true))
  {
    var files := Listed(f, [], true);
    WalkedAreKept(f);
    forall i | 0 <= i < |files|
      ensures Confirmed(members, items[i]) <==> !IsRepeat(f, files, i)
    {
      OwnMemberConfirmed(f, files, members, items, i);
    }
    RepeatsAreShared(f, files);
  }

  lemma OwnMemberConfirmed(f: Forest, files: seq<Path>, members: seq<Member>, items: seq<ManifestItem>, i: nat)
    requires AreKept(f, files) && IsArchiveOf(f, files, |files|, members, items) && i < |files|
    ensures Confirmed(members, items[i]) <==> !IsRepeat(f, files, i)
  {
    assert IsFileOrLink(f, files[i]);
    forall k | i + 1 < k < |members|
      ensures members[k].name != members[i + 1].name
    {
      assert members[k] == MemberFor(f, files, k - 1) && members[i + 1] == MemberFor(f, files, i);
      assert members[k].name[1..] == files[k - 1] && members[i + 1].name[1..] == files[i];
    }
    LastNamedIs(members, i + 1);
  }

  // The walk met the file at `p` before, under another name.
  ghost predicate IsRepeated(f: Forest, files: seq<Path>, p: Path) {
    exists i | 0 <= i < |files| :: files[i] == p && IsRepeat(f, files, i)
  }

  // Whatever archive passes against the manifest of a tree holds every kept
  // regular file with its whole content, but an empty regular file for a
  // repeat.
  lemma AcceptedHoldsContent(f: Forest, members: seq<Member>, items: seq<ManifestItem>, archive: seq<Member>, p: Path)
    requires ProperForest(f)
    requires var files := Listed(f, [], true); IsArchiveOf(f, files, |files|, members, items)
    requires AllConfirmed(archive, items)
    requires p != [] && !IsExcluded(p) && At(Folder(f), p).Some? && At(Folder(f), p).value.Regular?
    ensures var content := if IsRepeated(f, Listed(f, [], true), p) then "" else At(Folder(f), p).value.content;
      LastNamed(archive, [TOP] + p) == Some(Member([TOP] + p, RegularMember, content))
  {
    var files := Listed(f, [], true);
    WalkPartitions(f, p);
    WalkedAreKept(f);
    var i :| 0 <= i < |files| && files[i] == p && (IsRepeated(f, files, p) ==> IsRepeat(f, files, i));
    assert Confirmed(archive, items[i]) && items[i] == ItemFor(f, files, i);
    LastNamedHasName(archive, [TOP] + p);
  }

  lemma {:induction false} LastNamedHasName(members: seq<Member>, name: Path)
    ensures var m := LastNamed(members, name); m.Some? ==> m.value in members && m.value.name == name
  {
    if members != [] && members[|members| - 1].name != name {
      LastNamedHasName(members[..|members| - 1], name);
    }
  }
}
