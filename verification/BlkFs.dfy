/** The block file system as the kernel keeps it: inodes, device blocks and
    descriptor tables changed in place, each call proved against FsModel. */
module BlkFs {
  import opened Options
  import opened Bytes
  import opened FsModel
  import opened FsInv
  import opened FsOps
  import opened FsRuns

  /** A walk looks only at entries, kinds and blocks of inodes. */
  ghost predicate SameTree(fs: Fs, gs: Fs) {
    && gs.blocks == fs.blocks && |gs.inodes| == |fs.inodes|
    && (forall j :: 0 <= j < |fs.inodes| ==>
          gs.inodes[j].kind == fs.inodes[j].kind && gs.inodes[j].file == fs.inodes[j].file)
  }

  lemma {:induction false} SlotIs(sons: seq<Entry>, name: string, k: nat)
    requires k <= |sons| && (forall j :: 0 <= j < k ==> sons[j].ino == GONE || sons[j].name != name)
    requires k < |sons| ==> sons[k].ino != GONE && sons[k].name == name
    ensures Slot(sons, name, 0) == k
  {
  }

  lemma {:induction false} FreeBlockIs(blocks: seq<Block>, k: nat)
    requires k <= |blocks| && (forall j :: 0 <= j < k ==> blocks[j].occupied) && (k < |blocks| ==> !blocks[k].occupied)
    ensures FreeBlock(blocks, 0) == k
  {
  }

  lemma {:induction false} FreeFdIs(fds: map<Fd, File>, task: nat, k: nat)
    requires k <= NR_FILE && (forall j :: 0 <= j < k ==> (task, j) in fds) && (k < NR_FILE ==> (task, k) !in fds)
    ensures FreeFd(fds, task, 0) == k
  {
  }

  class BlockFs {
    var inodes: seq<Inode>
    const blocks: array<Block>
    var fds: map<Fd, File>

    ghost function View(): Fs
      reads this, blocks
    {
      Fs(inodes, blocks[..], fds)
    }

    /** `fs_init` on a device of n blank blocks: one for the inodes, one for the root
        directory. */
    constructor (n: nat)
      requires n >= 2
      ensures View() == Initial(n) && Inv(View()) && fresh(blocks)
    {
      blocks := new Block[n](_ => BLANK);
      inodes, fds := [], map[];
      new;
      hide FreeBlock;
      FreeBlockIs(blocks[..], 0);
      var off := FindFreeRdblk();
      FreeBlockIs(blocks[..], 1);
      var dirOff := FindFreeRdblk();
      inodes := [Inode(0, 0, false, DIR, DIR_SIZE, dirOff.value)];
      InitialInv(n);
      hide Inv;
    }

    /** `find_free_rdblk`: take the first free block; none when the source halts. */
    method FindFreeRdblk() returns (b: Option<nat>)
      modifies blocks
      ensures var k := FreeBlock(old(blocks[..]), 0);
        if k == blocks.Length then b == None && blocks[..] == old(blocks[..])
        else b == Some(k) && blocks[..] == old(blocks[..])[k := old(blocks[k]).(occupied := true)]
    {
      var k := 0;
      while k < blocks.Length
        invariant k <= blocks.Length && blocks[..] == old(blocks[..])
        invariant forall j :: 0 <= j < k ==> blocks[j].occupied
      {
        if !blocks[k].occupied {
          FreeBlockIs(blocks[..], k);
          blocks[k] := blocks[k].(occupied := true);
          return Some(k);
        }
        k := k + 1;
      }
      FreeBlockIs(blocks[..], k);
      return None;
    }

    /** The scan of a directory for a name. */
    method FindSon(d: nat, name: string) returns (s: nat)
      requires d < blocks.Length
      ensures s == Slot(blocks[d].sons, name, 0)
    {
      var sons := blocks[d].sons;
      s := 0;
      while s < |sons|
        invariant s <= |sons|
        invariant forall j :: 0 <= j < s ==> sons[j].ino == GONE || sons[j].name != name
      {
        if sons[s].ino != GONE && sons[s].name == name {
          break;
        }
        s := s + 1;
      }
      SlotIs(sons, name, s);
    }

    /** The walk of `fs_lookup`. The counts of inodes may be ahead of fs by then. */
    method Lookup(path: seq<string>, dirFlag: bool, ghost fs: Fs) returns (r: Look)
      requires Inv(fs) && SameTree(fs, View()) && path != []
      ensures r == Walk(fs, ROOT_BLOCK, path, dirFlag)
      ensures LookOk(fs, r, path[|path| - 1], if dirFlag then DIR else FILE)
    {
      hide Inv, DirBlock, Live, Links, Walk, LookOk, Slot;
      RootIsDir(fs);
      WalkOk(fs, ROOT_BLOCK, path, dirFlag);
      var cur: nat := ROOT_BLOCK;
      var rest := path;
      while true
        invariant rest != [] && DirBlock(fs, cur)
        invariant Walk(fs, cur, rest, dirFlag) == Walk(fs, ROOT_BLOCK, path, dirFlag)
        decreases |rest|
      {
        SlotFacts(fs, cur, rest[0]);
        var s := FindSon(cur, rest[0]);
        var last := |rest| == 1;
        if last { WalkLast(fs, cur, rest, dirFlag); } else { WalkDown(fs, cur, rest, dirFlag); }
        assert fs.blocks[cur] == blocks[cur];
        if s == |blocks[cur].sons| {
          return Missing(cur, last);
        }
        var son := blocks[cur].sons[s].ino;
        if inodes[son].kind == FILE && dirFlag {
          return Refused;
        }
        if last && inodes[son].kind == DIR && !dirFlag {
          return Refused;
        }
        if !last && inodes[son].kind == FILE {
          return Refused;
        }
        if last {
          return Found(cur, s, son);
        }
        cur := inodes[son].file;
        rest := rest[1..];
      }
    }

    /** `vfs_open` and `vfs_mkdir` on a name that is not there: a block, an inode and an
        entry. Not ok where the source halts. */
    method CreateIn(d: nat, name: string, kind: Kind, refcnt: nat) returns (ok: bool)
      requires d < blocks.Length && |blocks[d].sons| < MAX_SONS && blocks[d].occupied
      modifies this`inodes, blocks
      ensures ok == !Exhausted(old(View()))
      ensures ok ==> View() == Create(old(View()), d, name, kind, refcnt)
    {
      hide FreeBlock;
      ghost var before := View();
      var b := FindFreeRdblk();
      if b == None {
        return false;
      }
      var s := 0;
      while s < MAX_SONS && s < |blocks[d].sons|
        invariant s <= |blocks[d].sons|
      {
        s := s + 1;
      }
      if |inodes| + 1 > MAX_INODES {
        return false;
      }
      var n := Inode(refcnt, 1, false, kind, if kind == DIR then DIR_SIZE else 0, b.value);
      assert blocks[d] == before.blocks[d] && blocks[d].sons[..s] == before.blocks[d].sons;
      blocks[d] := blocks[d].(sons := blocks[d].sons[..s] + [Entry(|inodes|, name)]);
      inodes := inodes + [n];
      assert View().blocks == Create(before, d, name, kind, refcnt).blocks;
      ok := true;
    }

    /** The last part of `vfs_open`: the first free slot of the task's table. */
    method BindFd(task: nat, i: nat) returns (fd: int)
      modifies this`fds
      ensures (View(), fd) == Bind(old(View()), task, i)
    {
      var k := 0;
      while k < NR_FILE
        invariant k <= NR_FILE && fds == old(fds)
        invariant forall j :: 0 <= j < k ==> (task, j) in fds
      {
        if (task, k) !in fds {
          FreeFdIs(fds, task, k);
          fds := fds[(task, k) := File(i, 0)];
          return k;
        }
        k := k + 1;
      }
      FreeFdIs(fds, task, k);
      return FAIL;
    }

    /** `vfs_open`; no result where the source halts. */
    method VfsOpen(task: nat, path: seq<string>, create: bool) returns (fd: Option<int>)
      requires Inv(View()) && path != []
      requires var r := Walk(View(), ROOT_BLOCK, path, false);
        r.Missing? && r.last && r.dir < blocks.Length ==> |blocks[r.dir].sons| < MAX_SONS
      modifies this`inodes, this`fds, blocks
      ensures fd == Open(old(View()), task, path, create).1
      ensures fd.Some? ==> View() == Open(old(View()), task, path, create).0
    {
      hide Inv, DirBlock, Live, Links, Walk, Bind, Create, Exhausted;
      ghost var fs := View();
      var r := Lookup(path, false, fs);
      if r.Found? {
        inodes := inodes[r.ino := inodes[r.ino].(refcnt := inodes[r.ino].refcnt + 1)];
        assert View() == SetInode(fs, r.ino, inodes[r.ino]);
        var k := BindFd(task, r.ino);
        return Some(k);
      }
      if r.Missing? && create && r.last {
        DirBlockOk(fs, r.dir);
        var i := |inodes|;
        var ok := CreateIn(r.dir, path[|path| - 1], FILE, 1);
        if !ok {
          return None;
        }
        var k := BindFd(task, i);
        return Some(k);
      }
      return Some(FAIL);
    }

    /** `vfs_mkdir`; no result where the source halts. */
    method VfsMkdir(path: seq<string>) returns (ret: Option<int>)
      requires Inv(View()) && path != []
      requires var r := Walk(View(), ROOT_BLOCK, path, true);
        r.Missing? && r.last && r.dir < blocks.Length ==> |blocks[r.dir].sons| < MAX_SONS
      modifies this`inodes, blocks
      ensures ret == Mkdir(old(View()), path).1
      ensures ret.Some? ==> View() == Mkdir(old(View()), path).0
    {
      hide Inv, DirBlock, Live, Links, Walk, Create, Exhausted;
      ghost var fs := View();
      var r := Lookup(path, true, fs);
      if r.Found? {
        return Some(1);
      }
      if r.Missing? && r.last {
        DirBlockOk(fs, r.dir);
        var ok := CreateIn(r.dir, path[|path| - 1], DIR, 0);
        return if ok then Some(1) else None;
      }
      return Some(0);
    }

    /** The directory of a path's last name. */
    method FindDir(path: seq<string>, ghost fs: Fs) returns (d: Option<nat>)
      requires Inv(fs) && SameTree(fs, View()) && path != []
      ensures d == Parent(fs, path) && (d.Some? ==> 0 < d.value < blocks.Length && DirBlock(fs, d.value))
    {
      hide Inv, DirBlock, Live, Links, Walk;
      ParentOk(fs, path);
      if |path| == 1 {
        RootIsDir(fs);
        return Some(ROOT_BLOCK);
      }
      var r := Lookup(path[..|path| - 1], true, fs);
      if !r.Found? || inodes[r.ino].file <= 0 {
        return None;
      }
      return Some(inodes[r.ino].file);
    }

    /** `vfs_link`. */
    method VfsLink(path: seq<string>, newPath: seq<string>) returns (ret: int)
      requires Inv(View()) && path != [] && newPath != []
      modifies this`inodes, blocks
      ensures (View(), ret) == Link(old(View()), path, newPath)
    {
      hide Inv, DirBlock, Live, Links, Walk, Parent;
      ghost var fs := View();
      var q := Lookup(newPath, false, fs);
      if q.Found? {
        return FAIL;
      }
      var r := Lookup(path, false, fs);
      if !r.Found? {
        return FAIL;
      }
      inodes := inodes[r.ino := inodes[r.ino].(linkcnt := inodes[r.ino].linkcnt + 1)];
      var d := FindDir(newPath, fs);
      if d == None {
        return FAIL;
      }
      if |blocks[d.value].sons| < MAX_SONS {
        blocks[d.value] := blocks[d.value].(sons := blocks[d.value].sons + [Entry(r.ino, newPath[|newPath| - 1])]);
      }
      return 0;
    }

    /** `vfs_unlink`. */
    method VfsUnlink(path: seq<string>) returns (ret: int)
      requires Inv(View()) && path != []
      modifies this`inodes, blocks
      ensures (View(), ret) == Unlink(old(View()), path)
    {
      hide Inv, DirBlock, Live, Links, Walk, Slot;
      ghost var fs := View();
      ParentIs(fs, path);
      var r := Lookup(path, false, fs);
      if !r.Found? {
        return FAIL;
      }
      LiveBlock(fs, r.ino);
      FileIsNotDir(fs, r.ino, r.dir);
      var inode := inodes[r.ino];
      if inode.refcnt == 0 && inode.linkcnt == 1 {
        r := Lookup(path, false, fs);
        blocks[r.dir] := blocks[r.dir].(sons := blocks[r.dir].sons[r.slot := blocks[r.dir].sons[r.slot].(ino := GONE)]);
        blocks[inode.file] := BLANK;
      } else {
        if inode.linkcnt == 1 {
          inode := inode.(unlink := true);
        }
        inode := inode.(linkcnt := inode.linkcnt - 1);
        inodes := inodes[r.ino := inode];
        hide Parent;
        var d := FindDir(path, fs);
        if d == None {
          return 0;
        }
        var s := FindSon(d.value, path[|path| - 1]);
        if s < |blocks[d.value].sons| {
          blocks[d.value] := blocks[d.value].(sons := blocks[d.value].sons[s := blocks[d.value].sons[s].(ino := GONE)]);
        }
      }
      return 0;
    }

    /** `vfs_close`. */
    method VfsClose(f: Fd) returns (ret: int)
      requires Inv(View())
      modifies this`inodes, this`fds, blocks
      ensures (View(), ret) == Close(old(View()), f)
    {
      hide Inv, Live, Links, Refs, NodeOk;
      ghost var fs := View();
      if f !in fds {
        return 0;
      }
      FdFacts(fs, f);
      var i := fds[f].ino;
      var inode := inodes[i].(refcnt := inodes[i].refcnt - 1);
      if inode.unlink && inode.linkcnt == 0 && inode.refcnt == 0 {
        blocks[inode.file] := BLANK;
        inode := inode.(file := GONE);
      }
      inodes := inodes[i := inode];
      fds := fds - {f};
      return 1;
    }

    /** `vfs_read`, at or before the end of file. */
    method VfsRead(f: Fd, nbyte: nat) returns (bytes: seq<Byte>)
      requires f in fds ==> Usable(View(), f) && fds[f].offset <= inodes[fds[f].ino].size
      modifies this`fds
      ensures (View(), bytes) == Read(old(View()), f, nbyte)
    {
      if f !in fds {
        return [];
      }
      var off := fds[f].offset;
      var inode := inodes[fds[f].ino];
      var count := nbyte;
      if off + count > inode.size {
        count := (inode.size - off) % TWO32;
      }
      bytes := blocks[inode.file].data[off..off + count];
      fds := fds[f := fds[f].(offset := off + count)];
    }

    /** `vfs_write`. */
    method VfsWrite(f: Fd, buf: seq<Byte>) returns (ret: nat)
      requires f in fds ==> Usable(View(), f)
      modifies this`inodes, this`fds, blocks
      ensures (View(), ret) == Write(old(View()), f, buf)
    {
      hide Splice;
      if f !in fds {
        return 0;
      }
      var off := fds[f].offset;
      if off + |buf| + HEADER > RD_BLK_SZ {
        return 0;
      }
      var i := fds[f].ino;
      var inode := inodes[i];
      assert blocks[..][inode.file] == blocks[inode.file];
      blocks[inode.file] := blocks[inode.file].(data := Splice(blocks[inode.file].data, off, buf));
      fds := fds[f := fds[f].(offset := off + |buf|)];
      if fds[f].offset > inode.size {
        inodes := inodes[i := inode.(size := fds[f].offset)];
      }
      assert inodes == old(inodes)[i := inodes[i]];
      return |buf|;
    }

    /** `vfs_lseek`. */
    method VfsLseek(f: Fd, offset: int, whence: Whence) returns (ret: int)
      requires f in fds ==> Usable(View(), f)
      modifies this`fds
      ensures (View(), ret) == Lseek(old(View()), f, offset, whence)
    {
      if f !in fds {
        return FAIL;
      }
      if whence == SeekSet {
        if offset + HEADER > RD_BLK_SZ || offset < 0 {
          return FAIL;
        }
        fds := fds[f := fds[f].(offset := offset)];
        return offset;
      } else if whence == SeekCur {
        var sum := (fds[f].offset + offset) % TWO64;
        if (fds[f].offset + offset + HEADER) % TWO64 > RD_BLK_SZ || sum < 0 {
          return FAIL;
        }
        ret := fds[f].offset + offset;
        fds := fds[f := fds[f].(offset := sum)];
      } else if whence == SeekEnd {
        var end: int := inodes[fds[f].ino].size;
        if end + offset + HEADER > RD_BLK_SZ || end + offset < 0 {
          return FAIL;
        }
        ret := end + offset;
        fds := fds[f := fds[f].(offset := end + offset)];
      } else {
        return FAIL;
      }
    }
  }
}
