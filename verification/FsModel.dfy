/** The block file system as values: inodes, blocks and open files, the walk along a
    path, and what each call does. */
module FsModel {
  import opened Options
  import opened Bytes

  const RD_BLK_SZ: nat := 4096
  const HEADER: nat := 12        // sizeof(rd_header_t) on the 32-bit target
  const DATA: nat := 4084        // what a block holds after its header
  const MAX_INODES: nat := 110   // inodes of 36 bytes that end below byte 4000 of their block
  const MAX_SONS: nat := 64
  const NR_FILE: nat := 256
  const DIR_SIZE: nat := 2336    // sizeof(dir_t)

  const ROOT_BLOCK := 1          // block 0 holds the inodes, block 1 the root directory
  const GONE: int := -1
  const FAIL: int := -1

  datatype Kind = FILE | DIR

  /** `file` is the number of the inode's block, or GONE. */
  datatype Inode = Inode(refcnt: int, linkcnt: int, unlink: bool, kind: Kind, size: nat, file: int)

  /** A used slot of a directory; ino is GONE when it was deleted. */
  datatype Entry = Entry(ino: int, name: string)

  /** A block: the bytes after its header when it is a file's, the used slots when it
      is a directory's. */
  datatype Block = Block(occupied: bool, data: seq<Byte>, sons: seq<Entry>)

  const BLANK := Block(false, Zeros(DATA), [])

  /** A descriptor: a task and a slot of its table. */
  type Fd = (nat, int)

  datatype File = File(ino: nat, offset: nat)

  datatype Fs = Fs(inodes: seq<Inode>, blocks: seq<Block>, fds: map<Fd, File>)

  // ---- who names an inode ----

  /** The directory slots that name inode i, and the descriptors open on it. */
  ghost function Links(fs: Fs, i: int): set<(nat, nat)> {
    set b: nat, s: nat | b < |fs.blocks| && s < |fs.blocks[b].sons| && fs.blocks[b].sons[s].ino == i :: (b, s)
  }

  ghost function Refs(fs: Fs, i: int): set<Fd> {
    set f | f in fs.fds && fs.fds[f].ino == i
  }

  ghost predicate Live(fs: Fs, i: int) {
    i == 0 || Links(fs, i) != {} || Refs(fs, i) != {}
  }

  // ---- the invariant ----

  ghost predicate Shape(fs: Fs) {
    && 1 <= |fs.inodes| && fs.inodes[0].kind == DIR && fs.inodes[0].file == ROOT_BLOCK
    && 2 <= |fs.blocks| && fs.blocks[0].occupied && fs.blocks[0].sons == []
    && (forall b :: 0 <= b < |fs.blocks| ==> |fs.blocks[b].data| == DATA)
  }

  /** Entries and descriptors lead to inodes, descriptors to files. */
  ghost predicate NamesOk(fs: Fs) {
    && (forall b, s :: 0 <= b < |fs.blocks| && 0 <= s < |fs.blocks[b].sons| ==>
          fs.blocks[b].sons[s].ino == GONE || 0 < fs.blocks[b].sons[s].ino < |fs.inodes|)
    && (forall f :: f in fs.fds ==>
          0 < fs.fds[f].ino < |fs.inodes| && fs.inodes[fs.fds[f].ino].kind == FILE && fs.fds[f].offset <= DATA)
  }

  ghost predicate ZeroFrom(data: seq<Byte>, n: nat) {
    forall k :: n <= k < |data| ==> data[k] == 0
  }

  /** A live inode owns an occupied block; a file's counts are exact and the bytes
      after its end are zero. */
  ghost predicate NodeOk(fs: Fs, i: nat)
    requires i < |fs.inodes|
  {
    var n := fs.inodes[i];
    Live(fs, i) ==>
      && 0 < n.file < |fs.blocks| && fs.blocks[n.file].occupied
      && (n.kind == FILE ==>
            && n.linkcnt == |Links(fs, i)| && n.refcnt == |Refs(fs, i)| && (n.unlink <==> n.linkcnt == 0)
            && n.size <= DATA && ZeroFrom(fs.blocks[n.file].data, n.size) && fs.blocks[n.file].sons == [])
  }

  ghost predicate NodesOk(fs: Fs) {
    forall i :: 0 <= i < |fs.inodes| ==> NodeOk(fs, i)
  }

  /** No two live inodes share a block. */
  ghost predicate Apart(fs: Fs) {
    forall i, j :: 0 <= i < j < |fs.inodes| && Live(fs, i) && Live(fs, j) ==> fs.inodes[i].file != fs.inodes[j].file
  }

  /** Block b is the inode table or a live inode's. */
  ghost predicate Owned(fs: Fs, b: nat) {
    b == 0 || exists i :: 0 <= i < |fs.inodes| && Live(fs, i) && fs.inodes[i].file == b
  }

  /** Occupied blocks are owned, and free ones blank. */
  ghost predicate BlocksOk(fs: Fs) {
    forall b :: 0 <= b < |fs.blocks| ==> if fs.blocks[b].occupied then Owned(fs, b) else fs.blocks[b] == BLANK
  }

  ghost predicate Inv(fs: Fs) {
    Shape(fs) && NamesOk(fs) && NodesOk(fs) && Apart(fs) && BlocksOk(fs)
  }

  // ---- the walk along a path ----

  /** The first slot from s on that names `name`, or the number of slots. */
  function Slot(sons: seq<Entry>, name: string, s: nat): (k: nat)
    requires s <= |sons|
    ensures s <= k <= |sons|
    ensures k < |sons| ==> sons[k].ino != GONE && sons[k].name == name
    ensures forall j :: s <= j < k ==> sons[j].ino == GONE || sons[j].name != name
    decreases |sons| - s
  {
    if s == |sons| || (sons[s].ino != GONE && sons[s].name == name) then s else Slot(sons, name, s + 1)
  }

  /** How a walk ends: at a name that is not there, at an inode of the wrong kind, or
      at the slot of the last name. */
  datatype Look = Missing(dir: nat, last: bool) | Refused | Found(dir: nat, slot: nat, ino: nat)

  /** `fs_lookup` from the directory in block d. */
  function Walk(fs: Fs, d: nat, path: seq<string>, dirFlag: bool): Look
    requires path != []
    decreases |path|
  {
    if d >= |fs.blocks| then Refused
    else
      var s := Slot(fs.blocks[d].sons, path[0], 0);
      var last := |path| == 1;
      if s == |fs.blocks[d].sons| then Missing(d, last)
      else
        var i := fs.blocks[d].sons[s].ino;
        if !(0 <= i < |fs.inodes|) then Refused
        else if fs.inodes[i].kind == FILE && dirFlag then Refused
        else if last && fs.inodes[i].kind == DIR && !dirFlag then Refused
        else if !last && fs.inodes[i].kind == FILE then Refused
        else if last then Found(d, s, i)
        else if fs.inodes[i].file < 0 then Refused
        else Walk(fs, fs.inodes[i].file, path[1..], dirFlag)
  }

  /** The directory a path's last name is looked up in, found as `vfs_link` and
      `vfs_unlink` find it. */
  function Parent(fs: Fs, path: seq<string>): Option<nat>
    requires path != []
  {
    if |path| == 1 then Some(ROOT_BLOCK)
    else
      var r := Walk(fs, ROOT_BLOCK, path[..|path| - 1], true);
      if r.Found? && r.ino < |fs.inodes| && fs.inodes[r.ino].file > 0 then Some(fs.inodes[r.ino].file) else None
  }

  // ---- the calls ----

  function AddEntry(fs: Fs, d: nat, e: Entry): Fs
    requires d < |fs.blocks|
  {
    fs.(blocks := fs.blocks[d := fs.blocks[d].(sons := fs.blocks[d].sons + [e])])
  }

  function DropEntry(fs: Fs, d: nat, s: nat): Fs
    requires d < |fs.blocks| && s < |fs.blocks[d].sons|
  {
    fs.(blocks := fs.blocks[d := fs.blocks[d].(sons := fs.blocks[d].sons[s := fs.blocks[d].sons[s].(ino := GONE)])])
  }

  function SetInode(fs: Fs, i: nat, n: Inode): Fs
    requires i < |fs.inodes|
  {
    fs.(inodes := fs.inodes[i := n])
  }

  function Wipe(fs: Fs, b: int): Fs {
    if 0 <= b < |fs.blocks| then fs.(blocks := fs.blocks[b := BLANK]) else fs
  }

  /** `find_free_rdblk`: the first free block from b on, or the number of blocks. */
  function FreeBlock(blocks: seq<Block>, b: nat): (k: nat)
    requires b <= |blocks|
    ensures b <= k <= |blocks|
    ensures k < |blocks| ==> !blocks[k].occupied
    ensures forall j :: b <= j < k ==> blocks[j].occupied
    decreases |blocks| - b
  {
    if b == |blocks| || !blocks[b].occupied then b else FreeBlock(blocks, b + 1)
  }

  /** Nothing is left to create an inode with, and the source halts. */
  predicate Exhausted(fs: Fs) {
    FreeBlock(fs.blocks, 0) == |fs.blocks| || |fs.inodes| + 1 > MAX_INODES
  }

  /** A new inode with a block of its own, entered in the directory in block d. */
  function Create(fs: Fs, d: nat, name: string, kind: Kind, refcnt: nat): Fs
    requires d < |fs.blocks| && !Exhausted(fs)
  {
    var b := FreeBlock(fs.blocks, 0);
    var n := Inode(refcnt, 1, false, kind, if kind == DIR then DIR_SIZE else 0, b);
    AddEntry(Fs(fs.inodes + [n], fs.blocks[b := fs.blocks[b].(occupied := true)], fs.fds), d, Entry(|fs.inodes|, name))
  }

  /** The first free slot of a task's table from k on, or NR_FILE. */
  function FreeFd(fds: map<Fd, File>, task: nat, k: nat): (r: nat)
    requires k <= NR_FILE
    ensures k <= r <= NR_FILE
    ensures r < NR_FILE ==> (task, r) !in fds
    ensures forall j :: k <= j < r ==> (task, j) in fds
    decreases NR_FILE - k
  {
    if k == NR_FILE || (task, k) !in fds then k else FreeFd(fds, task, k + 1)
  }

  /** The end of `vfs_open`: a descriptor for inode i, or -1 with a full table. */
  function Bind(fs: Fs, task: nat, i: nat): (Fs, int) {
    var k := FreeFd(fs.fds, task, 0);
    if k == NR_FILE then (fs, FAIL) else (fs.(fds := fs.fds[(task, k) := File(i, 0)]), k as int)
  }

  /** `vfs_open`; no result where the source halts. */
  function Open(fs: Fs, task: nat, path: seq<string>, create: bool): (Fs, Option<int>)
    requires path != []
  {
    var r := Walk(fs, ROOT_BLOCK, path, false);
    if r.Found? && r.ino < |fs.inodes| then
      var n := fs.inodes[r.ino];
      var (gs, fd) := Bind(SetInode(fs, r.ino, n.(refcnt := n.refcnt + 1)), task, r.ino);
      (gs, Some(fd))
    else if r.Missing? && create && r.last && r.dir < |fs.blocks| then
      if Exhausted(fs) then (fs, None)
      else
        var (gs, fd) := Bind(Create(fs, r.dir, path[|path| - 1], FILE, 1), task, |fs.inodes|);
        (gs, Some(fd))
    else (fs, Some(FAIL))
  }

  /** `vfs_mkdir`; no result where the source halts. */
  function Mkdir(fs: Fs, path: seq<string>): (Fs, Option<int>)
    requires path != []
  {
    var r := Walk(fs, ROOT_BLOCK, path, true);
    if r.Found? then (fs, Some(1))
    else if r.Missing? && r.last && r.dir < |fs.blocks| then
      if Exhausted(fs) then (fs, None) else (Create(fs, r.dir, path[|path| - 1], DIR, 0), Some(1))
    else (fs, Some(0))
  }

  /** `vfs_link`: the count goes up before the new directory is looked up. */
  function Link(fs: Fs, path: seq<string>, newPath: seq<string>): (Fs, int)
    requires path != [] && newPath != []
  {
    if Walk(fs, ROOT_BLOCK, newPath, false).Found? then (fs, -1)
    else
      var r := Walk(fs, ROOT_BLOCK, path, false);
      if !r.Found? || r.ino >= |fs.inodes| then (fs, -1)
      else
        var n := fs.inodes[r.ino];
        var up := SetInode(fs, r.ino, n.(linkcnt := n.linkcnt + 1));
        var d := Parent(fs, newPath);
        if d == None || d.value >= |fs.blocks| then (up, -1)
        else if |fs.blocks[d.value].sons| < MAX_SONS then
          (AddEntry(up, d.value, Entry(r.ino, newPath[|newPath| - 1])), 0)
        else (up, 0)
  }

  /** `vfs_unlink`: the last name of a file nobody has open frees its block at once. */
  function Unlink(fs: Fs, path: seq<string>): (Fs, int)
    requires path != []
  {
    var r := Walk(fs, ROOT_BLOCK, path, false);
    if !r.Found? || r.ino >= |fs.inodes| || r.dir >= |fs.blocks| || r.slot >= |fs.blocks[r.dir].sons| then (fs, -1)
    else
      var n := fs.inodes[r.ino];
      if n.refcnt == 0 && n.linkcnt == 1 then
        (Wipe(DropEntry(fs, r.dir, r.slot), n.file), 0)
      else
        var m := n.(linkcnt := n.linkcnt - 1, unlink := n.unlink || n.linkcnt == 1);
        (DropEntry(SetInode(fs, r.ino, m), r.dir, r.slot), 0)
  }

  /** `vfs_close`: the last descriptor of an unlinked file frees its block. */
  function Close(fs: Fs, f: Fd): (Fs, int) {
    if f !in fs.fds then (fs, 0)
    else
      var i := fs.fds[f].ino;
      var without := fs.(fds := fs.fds - {f});
      if i >= |fs.inodes| then (without, 1)
      else
        var n := fs.inodes[i].(refcnt := fs.inodes[i].refcnt - 1);
        if n.unlink && n.linkcnt == 0 && n.refcnt == 0 then
          (Wipe(SetInode(without, i, n.(file := GONE)), n.file), 1)
        else (SetInode(without, i, n), 1)
  }

  // ---- reading, writing and seeking ----

  /** The bytes of a file. */
  function Contents(fs: Fs, i: nat): seq<Byte>
    requires i < |fs.inodes| && 0 <= fs.inodes[i].file < |fs.blocks|
    requires fs.inodes[i].size <= |fs.blocks[fs.inodes[i].file].data|
  {
    fs.blocks[fs.inodes[i].file].data[..fs.inodes[i].size]
  }

  /** A descriptor in use, of a file in range. */
  predicate Usable(fs: Fs, f: Fd) {
    && f in fs.fds && fs.fds[f].ino < |fs.inodes|
    && var n := fs.inodes[fs.fds[f].ino];
       0 <= n.file < |fs.blocks| && n.size <= |fs.blocks[n.file].data| == DATA && fs.fds[f].offset <= DATA
  }

  /** The length `vfs_read` passes on: the difference is unsigned. */
  function ReadCount(size: nat, offset: nat, nbyte: nat): nat {
    if offset + nbyte > size then (size - offset) % TWO32 else nbyte
  }

  /** `vfs_read` from an offset at or before the end of file; nothing from a descriptor
      not in use. */
  function Read(fs: Fs, f: Fd, nbyte: nat): (Fs, seq<Byte>)
    requires f in fs.fds ==> Usable(fs, f) && fs.fds[f].offset <= fs.inodes[fs.fds[f].ino].size
  {
    if f !in fs.fds then (fs, [])
    else
      var off := fs.fds[f].offset;
      var n := fs.inodes[fs.fds[f].ino];
      var count := ReadCount(n.size, off, nbyte);
      (fs.(fds := fs.fds[f := File(fs.fds[f].ino, off + count)]), fs.blocks[n.file].data[off..off + count])
  }

  function Splice(d: seq<Byte>, at: nat, buf: seq<Byte>): seq<Byte>
    requires at + |buf| <= |d|
  {
    d[..at] + buf + d[at + |buf|..]
  }

  /** `vfs_write`: nothing is written when the bytes do not fit in the block. */
  function Write(fs: Fs, f: Fd, buf: seq<Byte>): (Fs, nat)
    requires f in fs.fds ==> Usable(fs, f)
  {
    if f !in fs.fds || fs.fds[f].offset + |buf| + HEADER > RD_BLK_SZ then (fs, 0)
    else
      var i := fs.fds[f].ino;
      var n := fs.inodes[i];
      var end := fs.fds[f].offset + |buf|;
      (Fs(fs.inodes[i := n.(size := if end > n.size then end else n.size)],
          fs.blocks[n.file := fs.blocks[n.file].(data := Splice(fs.blocks[n.file].data, fs.fds[f].offset, buf))],
          fs.fds[f := File(i, end)]), |buf|)
  }

  datatype Whence = SeekSet | SeekCur | SeekEnd | Bad

  const TWO64 := 0x1_0000_0000_0000_0000

  /** `vfs_lseek`: the sum of SEEK_CUR is unsigned, so its second test never fails. */
  function Lseek(fs: Fs, f: Fd, offset: int, whence: Whence): (Fs, int)
    requires f in fs.fds ==> Usable(fs, f)
  {
    if f !in fs.fds || whence == Bad then (fs, FAIL)
    else
      var i := fs.fds[f].ino;
      var cur := fs.fds[f].offset;
      match whence
      case SeekSet =>
        if offset + HEADER > RD_BLK_SZ || offset < 0 then (fs, FAIL)
        else (fs.(fds := fs.fds[f := File(i, offset)]), offset)
      case SeekCur =>
        if (cur + offset + HEADER) % TWO64 > RD_BLK_SZ then (fs, FAIL)
        else (fs.(fds := fs.fds[f := File(i, (cur + offset) % TWO64)]), cur + offset)
      case SeekEnd =>
        var end: int := fs.inodes[i].size + offset;
        if end + HEADER > RD_BLK_SZ || end < 0 then (fs, FAIL)
        else (fs.(fds := fs.fds[f := File(i, end)]), end)
  }
}
