/** What the calls of the block file system return and set, case by case. */
module FsResults {
  import opened Options
  import opened Bytes
  import opened FsModel
  import opened FsInv
  import opened FsOps

  /** A new file has one name, one descriptor, no bytes, and the lowest free block, which is
      then taken; a new directory has one name and a block likewise. */
  lemma {:induction false} CreateTakes(fs: Fs, d: nat, name: string, kind: Kind, refcnt: nat, b: nat)
    requires d < |fs.blocks| && fs.blocks[d].occupied && b < |fs.blocks| && |fs.inodes| < 110
    requires !fs.blocks[b].occupied && forall k :: 0 <= k < b ==> fs.blocks[k].occupied
    ensures !Exhausted(fs)
    ensures var gs := Create(fs, d, name, kind, refcnt); var i := |fs.inodes|;
      && |gs.inodes| == i + 1 && gs.inodes[..i] == fs.inodes && gs.fds == fs.fds && |gs.blocks| == |fs.blocks|
      && gs.inodes[i].kind == kind && gs.inodes[i].linkcnt == 1 && gs.inodes[i].refcnt == refcnt
      && !gs.inodes[i].unlink && gs.inodes[i].file == b && gs.inodes[i].size == (if kind == DIR then 2336 else 0)
      && gs.blocks[b] == fs.blocks[b].(occupied := true)
      && gs.blocks[d] == fs.blocks[d].(sons := fs.blocks[d].sons + [Entry(i, name)])
      && forall k :: 0 <= k < |fs.blocks| && k != b && k != d ==> gs.blocks[k] == fs.blocks[k]
  {
    assert FreeBlock(fs.blocks, 0) == b;
    hide FreeBlock;
  }

  /** A close returns 1 for a descriptor in use, which it releases, and 0 otherwise. */
  lemma {:induction false} CloseReleases(fs: Fs, f: Fd)
    ensures var (gs, ret) := Close(fs, f);
      && ret == (if f in fs.fds then 1 else 0)
      && (forall g :: g in gs.fds <==> g in fs.fds && g != f)
      && (forall g :: g in gs.fds ==> gs.fds[g] == fs.fds[g])
      && (f !in fs.fds ==> gs == fs)
  {
  }

  /** The offset a seek asks for. */
  function Asked(fs: Fs, f: Fd, offset: int, whence: Whence): int
    requires Usable(fs, f)
  {
    match whence
    case SeekSet => offset
    case SeekCur => fs.fds[f].offset + offset
    case SeekEnd => fs.inodes[fs.fds[f].ino].size + offset
    case Bad => -1
  }

  /** A seek inside the block sets the offset asked for and returns it; any other changes
      nothing and returns -1, but for SEEK_CUR to one of the twelve bytes below zero, which
      returns that negative number and leaves the offset wrapped around. */
  lemma {:induction false} LseekReturns(fs: Fs, f: Fd, offset: int, whence: Whence)
    requires Usable(fs, f) && -TWO64 < 2 * offset < TWO64
    ensures var (gs, ret) := Lseek(fs, f, offset, whence); var x := Asked(fs, f, offset, whence);
      var wraps := whence == SeekCur && -12 <= x < 0;
      && (whence != Bad && 0 <= x <= 4084 ==>
            ret == x && gs == fs.(fds := fs.fds[f := File(fs.fds[f].ino, x)]))
      && (wraps ==> ret == x && gs == fs.(fds := fs.fds[f := File(fs.fds[f].ino, x + 0x1_0000_0000_0000_0000)]))
      && (whence == Bad || x > 4084 || (x < 0 && !wraps) ==> ret == -1 && gs == fs)
  {
    if whence == SeekCur {
      UnsignedSum(fs.fds[f].offset + offset);
      UnsignedSum(fs.fds[f].offset + offset + HEADER);
    }
  }

  /** A write that fits in the block returns its length, moves the offset behind it and the end
      of file with it where that is later; any other returns 0 and changes nothing. */
  lemma {:induction false} WriteReturns(fs: Fs, f: Fd, buf: seq<Byte>)
    requires f in fs.fds ==> Usable(fs, f)
    ensures var (gs, ret) := Write(fs, f, buf);
      if f !in fs.fds || fs.fds[f].offset + |buf| > 4084 then ret == 0 && gs == fs
      else
        var i := fs.fds[f].ino; var n := fs.inodes[i]; var end := fs.fds[f].offset + |buf|;
        && ret == |buf| && gs.fds == fs.fds[f := File(i, end)]
        && gs.inodes == fs.inodes[i := n.(size := if end > n.size then end else n.size)]
  {
    hide Splice;
  }

  /** A read at or before the end of file returns the bytes from there, at most as many as
      asked for, and moves the offset behind them; from a descriptor not in use, none. */
  lemma {:induction false} ReadReturns(fs: Fs, f: Fd, nbyte: nat)
    requires f in fs.fds ==> Usable(fs, f) && fs.fds[f].offset <= fs.inodes[fs.fds[f].ino].size
    ensures var (gs, bytes) := Read(fs, f, nbyte);
      if f !in fs.fds then bytes == [] && gs == fs
      else
        var n := fs.inodes[fs.fds[f].ino]; var off := fs.fds[f].offset;
        && |bytes| == (if nbyte < n.size - off then nbyte else n.size - off)
        && (forall k :: 0 <= k < |bytes| ==> bytes[k] == fs.blocks[n.file].data[off + k])
        && gs == fs.(fds := fs.fds[f := File(fs.fds[f].ino, off + |bytes|)])
  {
  }
}
