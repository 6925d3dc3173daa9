/** Whole runs of the block file system: the lifetime of files and what becomes of
    their bytes. */
module FsRuns {
  import opened Options
  import opened Bytes
  import opened FsModel
  import opened FsInv
  import opened FsOps

  datatype Op =
    | OpOpen(task: nat, path: seq<string>, create: bool)
    | OpMkdir(path: seq<string>)
    | OpLink(path: seq<string>, newPath: seq<string>)
    | OpUnlink(path: seq<string>)
    | OpClose(f: Fd)
    | OpRead(f: Fd, nbyte: nat)
    | OpWrite(f: Fd, buf: seq<Byte>)
    | OpLseek(f: Fd, offset: int, whence: Whence)

  /** A new last name finds a slot in its directory. */
  predicate RoomFor(fs: Fs, path: seq<string>, dirFlag: bool)
    requires path != []
  {
    var r := Walk(fs, ROOT_BLOCK, path, dirFlag);
    r.Missing? && r.last && r.dir < |fs.blocks| ==> |fs.blocks[r.dir].sons| < MAX_SONS
  }

  /** What a caller can check: a free descriptor, slots in directories, seeks and reads
      inside the file's range. */
  predicate Legal(fs: Fs, op: Op) {
    match op
    case OpOpen(task, path, create) =>
      path != [] && RoomFor(fs, path, false) && (Opens(fs, path, create) ==> FreeFd(fs.fds, task, 0) < NR_FILE)
    case OpMkdir(path) => path != [] && RoomFor(fs, path, true)
    case OpLink(path, newPath) =>
      path != [] && newPath != [] && (WouldLink(fs, path, newPath) ==> HasRoom(fs, newPath))
    case OpUnlink(path) => path != []
    case OpClose(f) => true
    case OpRead(f, _) => Usable(fs, f) ==> fs.fds[f].offset <= fs.inodes[fs.fds[f].ino].size
    case OpWrite(f, _) => true
    case OpLseek(f, offset, whence) =>
      Usable(fs, f) ==>
        -TWO64 < 2 * offset < TWO64 && !(whence == SeekCur && 0 <= fs.fds[f].offset + offset + HEADER < HEADER)
  }

  function Do(fs: Fs, op: Op): Fs
    requires Legal(fs, op)
  {
    match op
    case OpOpen(task, path, create) => Open(fs, task, path, create).0
    case OpMkdir(path) => Mkdir(fs, path).0
    case OpLink(path, newPath) => Link(fs, path, newPath).0
    case OpUnlink(path) => Unlink(fs, path).0
    case OpClose(f) => Close(fs, f).0
    case OpRead(f, n) => if Usable(fs, f) then Read(fs, f, n).0 else fs
    case OpWrite(f, buf) => if Usable(fs, f) then Write(fs, f, buf).0 else fs
    case OpLseek(f, offset, whence) => if Usable(fs, f) then Lseek(fs, f, offset, whence).0 else fs
  }

  // ---- the invariant over runs ----

  lemma {:induction false} MkdirStep(fs: Fs, path: seq<string>)
    requires Inv(fs) && path != []
    ensures Inv(Mkdir(fs, path).0)
  {
    hide Inv, DirBlock, Walk, Exhausted, Create, Live, Links;
    RootIsDir(fs);
    WalkOk(fs, ROOT_BLOCK, path, true);
    var r := Walk(fs, ROOT_BLOCK, path, true);
    if r.Missing? && r.last && !Exhausted(fs) {
      MkdirKeeps(fs, r.dir, path[|path| - 1]);
    }
  }

  lemma {:induction false} WriteKeeps(fs: Fs, f: Fd, buf: seq<Byte>)
    requires Inv(fs) && Usable(fs, f)
    ensures Inv(Write(fs, f, buf).0)
  {
    hide Inv, Write, Written;
    WriteIs(fs, f, buf);
    if fs.fds[f].offset + |buf| <= DATA { WrittenKeeps(fs, f, buf); }
  }

  lemma {:induction false} StepKeeps(fs: Fs, op: Op)
    requires Inv(fs) && Legal(fs, op)
    ensures Inv(Do(fs, op))
  {
    hide Inv, Open, Mkdir, Link, Unlink, Close, Read, Write, Lseek;
    hide Walk, Opens, FreeFd, WouldLink, HasRoom, RoomFor, Usable;
    match op
    case OpOpen(task, path, create) => OpenKeepsIff(fs, task, path, create);
    case OpMkdir(path) => MkdirStep(fs, path);
    case OpLink(path, newPath) => LinkKeepsIff(fs, path, newPath);
    case OpUnlink(path) => UnlinkKeeps(fs, path);
    case OpClose(f) => CloseKeeps(fs, f);
    case OpRead(f, n) => if Usable(fs, f) { ReadKeeps(fs, f, n); }
    case OpWrite(f, buf) => if Usable(fs, f) { WriteKeeps(fs, f, buf); }
    case OpLseek(f, offset, whence) => if Usable(fs, f) { SeekKeeps(fs, f, offset, whence); }
  }

  lemma {:induction false} SeekKeeps(fs: Fs, f: Fd, offset: int, whence: Whence)
    requires Inv(fs) && Usable(fs, f) && -TWO64 < 2 * offset < TWO64
    requires !(whence == SeekCur && 0 <= fs.fds[f].offset + offset + HEADER < HEADER)
    ensures Inv(Lseek(fs, f, offset, whence).0)
  {
    hide Inv, Lseek;
    LseekKeepsIff(fs, f, offset, whence);
  }

  /** The file system `fs_init` makes on a device of n blank blocks: a root directory
      with no entries. */
  function Initial(n: nat): Fs
    requires n >= 2
  {
    var used := BLANK.(occupied := true);
    Fs([Inode(0, 0, false, DIR, DIR_SIZE, ROOT_BLOCK)], [used, used] + seq(n - 2, _ => BLANK), map[])
  }

  lemma InitialInv(n: nat)
    requires n >= 2
    ensures Inv(Initial(n))
  {
    var fs := Initial(n);
    assert Live(fs, 0) && fs.inodes[0].file == ROOT_BLOCK;
    assert Owned(fs, 1);
    assert NodeOk(fs, 0);
  }

  predicate LegalRun(fs: Fs, ops: seq<Op>)
    decreases ops
  {
    ops == [] || (Legal(fs, ops[0]) && LegalRun(Do(fs, ops[0]), ops[1..]))
  }

  function Run(fs: Fs, ops: seq<Op>): Fs
    requires LegalRun(fs, ops)
    decreases ops
  {
    if ops == [] then fs else Run(Do(fs, ops[0]), ops[1..])
  }

  lemma {:induction false} RunKeeps(fs: Fs, ops: seq<Op>)
    requires Inv(fs) && LegalRun(fs, ops)
    ensures Inv(Run(fs, ops))
    decreases ops
  {
    hide Inv, Legal, Do;
    if ops != [] {
      StepKeeps(fs, ops[0]);
      RunKeeps(Do(fs, ops[0]), ops[1..]);
    }
  }

  /** After any run a live file's link count is the number of directory entries that
      name it and its reference count the number of descriptors open on it; its block
      is occupied, and no other live inode's. */
  lemma {:induction false} CountsExact(n: nat, ops: seq<Op>, i: nat, j: nat)
    requires n >= 2 && LegalRun(Initial(n), ops)
    requires var fs := Run(Initial(n), ops); i < |fs.inodes| && Live(fs, i) && fs.inodes[i].kind == FILE
    ensures var fs := Run(Initial(n), ops); var x := fs.inodes[i];
      && x.linkcnt == |Links(fs, i)| && x.refcnt == |Refs(fs, i)| && (x.unlink <==> x.linkcnt == 0)
      && 0 < x.file < |fs.blocks| && fs.blocks[x.file].occupied
      && (j < |fs.inodes| && j != i && Live(fs, j) ==> fs.inodes[j].file != x.file)
  {
    hide LegalRun, Run, Links, Refs, Inv, Live;
    InitialInv(n);
    RunKeeps(Initial(n), ops);
    var fs := Run(Initial(n), ops);
    LiveNode(fs, i);
    if j < |fs.inodes| && j != i && Live(fs, j) { OwnBlocks(fs, i, j); }
  }

  lemma {:induction false} LiveNode(fs: Fs, i: nat)
    requires Inv(fs) && i < |fs.inodes| && Live(fs, i)
    ensures var x := fs.inodes[i];
      && 0 < x.file < |fs.blocks| && fs.blocks[x.file].occupied && |fs.blocks[x.file].data| == DATA
      && (x.kind == FILE ==>
            && x.linkcnt == |Links(fs, i)| && x.refcnt == |Refs(fs, i)| && (x.unlink <==> x.linkcnt == 0)
            && x.size <= DATA)
  {
    hide Live, Links, Refs;
    assert NodeOk(fs, i);
  }

  // ---- the one inode a step is about ----

  /** Every inode but i is named by the same entries and descriptors. */
  ghost predicate AllBut(fs: Fs, gs: Fs, i: nat) {
    && |fs.inodes| <= |gs.inodes| && |gs.blocks| == |fs.blocks|
    && (forall j :: 0 <= j < |fs.inodes| && j != i ==> SameNode(fs, gs, j))
  }

  /** Nothing but inode i has another block or other bytes. */
  ghost predicate SameFiles(fs: Fs, gs: Fs, i: nat) {
    && |fs.inodes| <= |gs.inodes| && |gs.blocks| == |fs.blocks|
    && (forall j :: 0 <= j < |fs.inodes| && j != i && Live(fs, j) && 0 <= fs.inodes[j].file < |fs.blocks| ==>
          gs.blocks[fs.inodes[j].file].data == fs.blocks[fs.inodes[j].file].data)
  }

  lemma {:induction false} OpenTouches(fs: Fs, task: nat, path: seq<string>, create: bool) returns (i: nat)
    requires Inv(fs) && Legal(fs, OpOpen(task, path, create))
    ensures var gs := Open(fs, task, path, create).0;
      && AllBut(fs, gs, i) && (i < |fs.inodes| ==> Live(fs, i) && Live(gs, i)) && SameFiles(fs, gs, |fs.inodes|)
      && (i < |fs.inodes| ==> gs.inodes[i] == fs.inodes[i].(refcnt := fs.inodes[i].refcnt + 1))
  {
    hide Inv, Live, Links, Refs, DirBlock, Open, Opened, CreatedOpen, Create, Walk, FreeFd, Exhausted, NodeOk;
    RootIsDir(fs);
    WalkOk(fs, ROOT_BLOCK, path, false);
    OpenIs(fs, task, path, create);
    var r := Walk(fs, ROOT_BLOCK, path, false);
    var k := FreeFd(fs.fds, task, 0);
    i := |fs.inodes|;
    if r.Found? {
      i := r.ino;
      NodeNow(fs, i);
      OpenedNode(fs, i, (task, k));
      OpenedSame(fs, i, (task, k));
    } else if Opens(fs, path, create) {
      CreatedOpenSame(fs, r.dir, path[|path| - 1], (task, k));
    }
  }

  lemma {:induction false} NodeNow(fs: Fs, i: nat)
    requires Inv(fs) && i < |fs.inodes|
    ensures NodeOk(fs, i)
  {
    hide NodeOk;
  }

  lemma {:induction false} OpenedSame(fs: Fs, i: nat, f: Fd)
    requires i < |fs.inodes|
    ensures var gs := Opened(fs, i, f);
      SameFiles(fs, gs, |fs.inodes|) && gs.inodes[i] == fs.inodes[i].(refcnt := fs.inodes[i].refcnt + 1)
  {
    hide Live;
  }

  lemma {:induction false} CreateSame(fs: Fs, d: nat, name: string, kind: Kind, refcnt: nat)
    requires d < |fs.blocks| && !Exhausted(fs)
    ensures var gs := Create(fs, d, name, kind, refcnt);
      && |gs.inodes| == |fs.inodes| + 1 && gs.inodes[..|fs.inodes|] == fs.inodes && gs.fds == fs.fds
      && |gs.blocks| == |fs.blocks| && forall b :: 0 <= b < |fs.blocks| ==> gs.blocks[b].data == fs.blocks[b].data
  {
    hide FreeBlock;
  }

  lemma {:induction false} CreatedOpenSame(fs: Fs, d: nat, name: string, f: Fd)
    requires Inv(fs) && DirBlock(fs, d) && d < |fs.blocks| && !Exhausted(fs) && f !in fs.fds
    ensures var gs := CreatedOpen(fs, d, name, f); AllBut(fs, gs, |fs.inodes|) && SameFiles(fs, gs, |fs.inodes|)
  {
    hide Inv, DirBlock, Exhausted, Links, Refs, Live, Create;
    CreateSame(fs, d, name, FILE, 1);
    CreatedOpenNode(fs, d, name, f);
    assert forall j :: 0 <= j < |fs.inodes| ==> CreatedOpen(fs, d, name, f).inodes[..|fs.inodes|][j] == fs.inodes[j];
  }

  lemma {:induction false} MkdirTouches(fs: Fs, path: seq<string>)
    requires Inv(fs) && path != []
    ensures var gs := Mkdir(fs, path).0; AllBut(fs, gs, |fs.inodes|) && SameFiles(fs, gs, |fs.inodes|)
  {
    hide Inv, Live, Links, Refs, DirBlock, Create, Walk, Exhausted;
    RootIsDir(fs);
    WalkOk(fs, ROOT_BLOCK, path, true);
    var r := Walk(fs, ROOT_BLOCK, path, true);
    if r.Missing? && r.last && !Exhausted(fs) {
      var gs := Create(fs, r.dir, path[|path| - 1], DIR, 0);
      CreateSame(fs, r.dir, path[|path| - 1], DIR, 0);
      forall j | 0 <= j < |fs.inodes| ensures SameNode(fs, gs, j) {
        CreateLinks(fs, r.dir, path[|path| - 1], DIR, 0, j);
        assert gs.inodes[..|fs.inodes|][j] == fs.inodes[j];
      }
    }
  }

  /** The step is about inode i at most, and only the bytes of inode w change; either
      is |inodes| for none. An inode that dies leaves its block blank. */
  ghost predicate StepOk(fs: Fs, gs: Fs, i: nat, w: nat) {
    && AllBut(fs, gs, i) && SameFiles(fs, gs, w) && (w == i || w == |fs.inodes|)
    && (i < |fs.inodes| ==>
          && Live(fs, i) && 0 < fs.inodes[i].file < |fs.blocks| && gs.inodes[i].kind == fs.inodes[i].kind
          && (Live(gs, i) ==>
                gs.inodes[i].file == fs.inodes[i].file && (w != i ==> gs.inodes[i].size == fs.inodes[i].size))
          && (!Live(gs, i) ==> gs.blocks[fs.inodes[i].file] == BLANK))
  }

  lemma {:induction false} NoStep(fs: Fs)
    ensures StepOk(fs, fs, |fs.inodes|, |fs.inodes|)
  {
  }

  lemma {:induction false} LinkTouches(fs: Fs, path: seq<string>, newPath: seq<string>) returns (i: nat)
    requires Inv(fs) && Legal(fs, OpLink(path, newPath))
    ensures StepOk(fs, Link(fs, path, newPath).0, i, |fs.inodes|)
  {
    hide Inv, Live, Links, Refs, DirBlock, Link, Linked, Walk, Parent, NodeOk;
    RootIsDir(fs);
    WalkOk(fs, ROOT_BLOCK, path, false);
    ParentOk(fs, newPath);
    LinkIs(fs, path, newPath);
    var r := Walk(fs, ROOT_BLOCK, path, false);
    i := |fs.inodes|;
    if WouldLink(fs, path, newPath) {
      i := r.ino;
      var d := Parent(fs, newPath).value;
      NodeNow(fs, i);
      LiveBlock(fs, i);
      FileIsNotDir(fs, i, d);
      LinkedNode(fs, i, d, newPath[|newPath| - 1]);
      LinkedSame(fs, i, d, newPath[|newPath| - 1]);
    }
  }

  lemma {:induction false} LinkedSame(fs: Fs, i: nat, d: nat, name: string)
    requires i < |fs.inodes| && d < |fs.blocks|
    ensures var gs := Linked(fs, i, d, name);
      SameFiles(fs, gs, |fs.inodes|) && gs.inodes[i] == fs.inodes[i].(linkcnt := fs.inodes[i].linkcnt + 1)
  {
    hide Live;
  }

  lemma {:induction false} UnlinkTouches(fs: Fs, path: seq<string>) returns (i: nat, w: nat)
    requires Inv(fs) && path != []
    ensures var gs := Unlink(fs, path).0;
      StepOk(fs, gs, i, w) && (w < |fs.inodes| && w < |gs.inodes| ==> !Live(gs, w))
  {
    hide Inv, Live, Links, Refs, DirBlock, Unlink, Unlinked, Removed, Walk, NodeOk, SameBlocks;
    RootIsDir(fs);
    WalkOk(fs, ROOT_BLOCK, path, false);
    UnlinkIs(fs, path);
    var r := Walk(fs, ROOT_BLOCK, path, false);
    i, w := |fs.inodes|, |fs.inodes|;
    if r.Found? {
      i := r.ino;
      NodeNow(fs, i);
      LiveBlock(fs, i);
      FileIsNotDir(fs, i, r.dir);
      if fs.inodes[i].refcnt == 0 && fs.inodes[i].linkcnt == 1 {
        w := i;
        RemovedNode(fs, i, r.dir, r.slot);
        RemovedSame(fs, i, r.dir, r.slot);
      } else {
        UnlinkedNode(fs, i, r.dir, r.slot);
        UnlinkedSame(fs, i, r.dir, r.slot);
      }
    }
  }

  lemma {:induction false} UnlinkedSame(fs: Fs, i: nat, d: nat, s: nat)
    requires i < |fs.inodes| && d < |fs.blocks| && s < |fs.blocks[d].sons|
    ensures var gs := Unlinked(fs, i, d, s); var x := fs.inodes[i];
      SameFiles(fs, gs, |fs.inodes|)
      && gs.inodes[i] == x.(linkcnt := x.linkcnt - 1, unlink := x.unlink || x.linkcnt == 1)
  {
    hide Live;
  }

  lemma {:induction false} RemovedSame(fs: Fs, i: nat, d: nat, s: nat)
    requires Inv(fs) && i < |fs.inodes| && Live(fs, i) && d < |fs.blocks| && s < |fs.blocks[d].sons|
    requires 0 < fs.inodes[i].file < |fs.blocks|
    ensures var gs := Removed(fs, i, d, s);
      SameFiles(fs, gs, i) && gs.inodes == fs.inodes && gs.blocks[fs.inodes[i].file] == BLANK
  {
    hide Live, Inv;
    var gs := Removed(fs, i, d, s);
    forall j | 0 <= j < |fs.inodes| && j != i && Live(fs, j) ensures fs.inodes[j].file != fs.inodes[i].file {
      OwnBlocks(fs, i, j);
    }
  }

  lemma {:induction false} CloseTouches(fs: Fs, f: Fd) returns (i: nat, w: nat)
    requires Inv(fs)
    ensures var gs := Close(fs, f).0;
      StepOk(fs, gs, i, w) && (w < |fs.inodes| && w < |gs.inodes| ==> !Live(gs, w))
  {
    hide Inv, Live, Links, Refs, Close, Closed, Dropped, NodeOk;
    i, w := |fs.inodes|, |fs.inodes|;
    if f in fs.fds {
      FdFacts(fs, f);
      CloseIs(fs, f);
      i := fs.fds[f].ino;
      LiveBlock(fs, i);
      if LastClose(fs, f) {
        w := i;
        DroppedNode(fs, f);
        DroppedSame(fs, f);
      } else {
        ClosedNode(fs, f);
        ClosedSame(fs, f);
      }
    } else {
      hide StepOk;
      NoStep(fs);
      assert Close(fs, f).0 == fs by { CloseIs(fs, f); }
    }
  }

  lemma {:induction false} ClosedSame(fs: Fs, f: Fd)
    requires f in fs.fds && fs.fds[f].ino < |fs.inodes|
    ensures var gs := Closed(fs, f); var i := fs.fds[f].ino;
      SameFiles(fs, gs, |fs.inodes|) && gs.inodes[i] == fs.inodes[i].(refcnt := fs.inodes[i].refcnt - 1)
  {
    hide Live;
  }

  lemma {:induction false} DroppedSame(fs: Fs, f: Fd)
    requires Inv(fs) && f in fs.fds && fs.fds[f].ino < |fs.inodes| && Live(fs, fs.fds[f].ino)
    requires 0 < fs.inodes[fs.fds[f].ino].file < |fs.blocks|
    ensures var gs := Dropped(fs, f); var i := fs.fds[f].ino;
      SameFiles(fs, gs, i) && gs.blocks[fs.inodes[i].file] == BLANK && gs.inodes[i].kind == fs.inodes[i].kind
  {
    hide Live, Inv;
    var i := fs.fds[f].ino;
    forall j | 0 <= j < |fs.inodes| && j != i && Live(fs, j) ensures fs.inodes[j].file != fs.inodes[i].file {
      OwnBlocks(fs, i, j);
    }
  }

  lemma {:induction false} MovedTouches(fs: Fs, f: Fd, offset: nat)
    requires f in fs.fds
    ensures StepOk(fs, Moved(fs, f, offset), |fs.inodes|, |fs.inodes|)
  {
    hide Live, Links, Refs;
    forall j | 0 <= j < |fs.inodes| ensures SameNode(fs, Moved(fs, f, offset), j) { NamesMoved(fs, f, offset, j); }
  }

  lemma {:induction false} WriteTouches(fs: Fs, f: Fd, buf: seq<Byte>)
    requires Inv(fs) && Usable(fs, f)
    ensures StepOk(fs, Write(fs, f, buf).0, fs.fds[f].ino, fs.fds[f].ino)
    ensures Live(Write(fs, f, buf).0, fs.fds[f].ino)
  {
    hide Inv, Live, Links, Refs, Write, Written, NodeOk;
    var i := fs.fds[f].ino;
    FdFacts(fs, f);
    LiveBlock(fs, i);
    WriteIs(fs, f, buf);
    if fs.fds[f].offset + |buf| <= DATA {
      WrittenNode(fs, f, buf);
      WrittenFiles(fs, f, buf);
    }
  }

  lemma {:induction false} WrittenFiles(fs: Fs, f: Fd, buf: seq<Byte>)
    requires Inv(fs) && Usable(fs, f) && fs.fds[f].offset + |buf| <= DATA && Live(fs, fs.fds[f].ino)
    ensures var gs := Written(fs, f, buf); var i := fs.fds[f].ino;
      SameFiles(fs, gs, i) && gs.inodes[i].file == fs.inodes[i].file && gs.inodes[i].kind == fs.inodes[i].kind
  {
    hide Live, Inv, Splice;
    var i := fs.fds[f].ino;
    forall j | 0 <= j < |fs.inodes| && j != i && Live(fs, j) ensures fs.inodes[j].file != fs.inodes[i].file {
      OwnBlocks(fs, i, j);
    }
  }

  /** What a step is about. */
  lemma {:induction false} StepTouches(fs: Fs, op: Op) returns (i: nat, w: nat)
    requires Inv(fs) && Legal(fs, op)
    ensures var gs := Do(fs, op);
      && StepOk(fs, gs, i, w)
      && (w < |fs.inodes| && w < |gs.inodes| && Live(gs, w) ==> op.OpWrite? && op.f in fs.fds && fs.fds[op.f].ino == w)
  {
    hide Inv, Open, Mkdir, Link, Unlink, Close, Read, Write, Lseek, Live, StepOk, Moved;
    hide Walk, Opens, FreeFd, WouldLink, HasRoom, RoomFor;
    i, w := |fs.inodes|, |fs.inodes|;
    NoStep(fs);
    match op
    case OpOpen(task, path, create) =>
      i := OpenTouches(fs, task, path, create);
      OpenOk(fs, task, path, create, i);
    case OpMkdir(path) =>
      MkdirTouches(fs, path);
      MkdirOk(fs, path);
    case OpLink(path, newPath) => i := LinkTouches(fs, path, newPath);
    case OpUnlink(path) => i, w := UnlinkTouches(fs, path);
    case OpClose(f) => i, w := CloseTouches(fs, f);
    case OpRead(f, n) =>
      if Usable(fs, f) {
        ReadDelivers(fs, f, n);
        MovedTouches(fs, f, fs.fds[f].offset + |Read(fs, f, n).1|);
      }
    case OpWrite(f, buf) =>
      if Usable(fs, f) {
        i, w := fs.fds[f].ino, fs.fds[f].ino;
        WriteTouches(fs, f, buf);
      }
    case OpLseek(f, offset, whence) =>
      if Usable(fs, f) {
        LseekIs(fs, f, offset, whence);
        var t := Target(fs, f, offset, whence);
        if t.Some? { MovedTouches(fs, f, t.value); }
      }
  }

  lemma {:induction false} OpenOk(fs: Fs, task: nat, path: seq<string>, create: bool, i: nat)
    requires Inv(fs) && Legal(fs, OpOpen(task, path, create))
    requires var gs := Open(fs, task, path, create).0;
      && AllBut(fs, gs, i) && (i < |fs.inodes| ==> Live(fs, i) && Live(gs, i)) && SameFiles(fs, gs, |fs.inodes|)
      && (i < |fs.inodes| ==> gs.inodes[i] == fs.inodes[i].(refcnt := fs.inodes[i].refcnt + 1))
    ensures StepOk(fs, Open(fs, task, path, create).0, i, |fs.inodes|)
  {
    hide Inv, Live, Open, Legal, AllBut, SameFiles;
    if i < |fs.inodes| { LiveBlock(fs, i); }
  }

  lemma {:induction false} MkdirOk(fs: Fs, path: seq<string>)
    requires path != []
    requires var gs := Mkdir(fs, path).0; AllBut(fs, gs, |fs.inodes|) && SameFiles(fs, gs, |fs.inodes|)
    ensures StepOk(fs, Mkdir(fs, path).0, |fs.inodes|, |fs.inodes|)
  {
    hide Mkdir, AllBut, SameFiles;
  }

  // ---- the lifetime of a file ----

  lemma {:induction false} SameLiveness(fs: Fs, gs: Fs, j: nat)
    requires j < |fs.inodes| && j < |gs.inodes| && SameNode(fs, gs, j)
    ensures Live(gs, j) <==> Live(fs, j)
  {
    hide Links, Refs;
  }

  lemma {:induction false} StepKeepsBlock(fs: Fs, gs: Fs, i: nat, w: nat, j: nat)
    requires Inv(fs) && Inv(gs) && StepOk(fs, gs, i, w) && j < |fs.inodes| && Live(fs, j)
    ensures j < |gs.inodes| && 0 < fs.inodes[j].file < |fs.blocks| == |gs.blocks|
    ensures Live(gs, j) ==> gs.inodes[j].file == fs.inodes[j].file && gs.inodes[j].kind == fs.inodes[j].kind
    ensures Live(gs, j) && j != w ==>
      && gs.inodes[j].size == fs.inodes[j].size
      && gs.blocks[fs.inodes[j].file].data == fs.blocks[fs.inodes[j].file].data
    ensures !Live(gs, j) ==> gs.blocks[fs.inodes[j].file] == BLANK
  {
    hide Inv, Live;
    LiveBlock(fs, j);
    if j != i {
      assert SameNode(fs, gs, j);
      SameLiveness(fs, gs, j);
    }
  }

  /** The step writes through a descriptor open on inode j. */
  predicate WritesTo(fs: Fs, op: Op, j: nat) {
    op.OpWrite? && op.f in fs.fds && fs.fds[op.f].ino == j
  }

  /** A file that stays in use keeps its block, and its contents unless the call writes
      to it: no other call touches them. */
  lemma {:induction false} KeepsItsBlock(fs: Fs, op: Op, j: nat)
    requires Inv(fs) && Legal(fs, op) && j < |fs.inodes| && Live(fs, j) && fs.inodes[j].kind == FILE
    requires j < |Do(fs, op).inodes| ==> Live(Do(fs, op), j)
    ensures var gs := Do(fs, op);
      && j < |gs.inodes| && gs.inodes[j].file == fs.inodes[j].file && 0 < fs.inodes[j].file < |fs.blocks| == |gs.blocks|
      && fs.inodes[j].size <= |fs.blocks[fs.inodes[j].file].data|
      && gs.inodes[j].size <= |gs.blocks[fs.inodes[j].file].data|
      && (!WritesTo(fs, op, j) ==> Contents(gs, j) == Contents(fs, j))
  {
    hide Inv, Live, Do, Legal, StepOk, Links, Refs;
    StepKeeps(fs, op);
    var i, w := StepTouches(fs, op);
    StepKeepsBlock(fs, Do(fs, op), i, w, j);
    LiveNode(fs, j);
    LiveNode(Do(fs, op), j);
  }

  /** The call that ends a file's use, and no other, clears its block and frees it. */
  lemma {:induction false} DiesBlank(fs: Fs, op: Op, j: nat)
    requires Inv(fs) && Legal(fs, op) && j < |fs.inodes| && Live(fs, j) && !Live(Do(fs, op), j)
    ensures 0 < fs.inodes[j].file < |fs.blocks| == |Do(fs, op).blocks|
    ensures fs.blocks[fs.inodes[j].file].occupied && Do(fs, op).blocks[fs.inodes[j].file] == BLANK
  {
    hide Inv, Live, Do, Legal, StepOk;
    StepKeeps(fs, op);
    var i, w := StepTouches(fs, op);
    StepKeepsBlock(fs, Do(fs, op), i, w, j);
    LiveBlock(fs, j);
  }

  lemma {:induction false} StepStaysDead(fs: Fs, op: Op, j: nat)
    requires Inv(fs) && Legal(fs, op) && j < |fs.inodes| && !Live(fs, j)
    ensures j < |Do(fs, op).inodes| && !Live(Do(fs, op), j)
  {
    hide Inv, Live, Do, Legal;
    var i, w := StepTouches(fs, op);
    assert SameNode(fs, Do(fs, op), j);
    SameLiveness(fs, Do(fs, op), j);
  }

  /** An inode out of use is never used again, so its block is cleared only once. */
  lemma {:induction false} NeverReborn(fs: Fs, ops: seq<Op>, j: nat)
    requires Inv(fs) && LegalRun(fs, ops) && j < |fs.inodes| && !Live(fs, j)
    ensures j < |Run(fs, ops).inodes| && !Live(Run(fs, ops), j)
    decreases ops
  {
    hide Inv, Live, Do, Legal;
    if ops != [] {
      StepKeeps(fs, ops[0]);
      StepStaysDead(fs, ops[0], j);
      NeverReborn(Do(fs, ops[0]), ops[1..], j);
    }
  }

  lemma {:induction false} FdStays(fs: Fs, op: Op, f: Fd)
    requires Inv(fs) && Legal(fs, op) && f in fs.fds && op != OpClose(f)
    ensures f in Do(fs, op).fds && Do(fs, op).fds[f].ino == fs.fds[f].ino
  {
    hide Inv, Walk, Parent, FreeFd, FreeBlock, HasRoom, RoomFor, Splice;
    if op.OpClose? && op.f in fs.fds { FdFacts(fs, op.f); }
  }

  /** Descriptor f is not closed, and its file not written to. */
  ghost predicate Quiet(fs: Fs, ops: seq<Op>, f: Fd)
    requires LegalRun(fs, ops)
    decreases ops
  {
    f in fs.fds &&
    (ops != [] ==>
       ops[0] != OpClose(f) && !WritesTo(fs, ops[0], fs.fds[f].ino) && Quiet(Do(fs, ops[0]), ops[1..], f))
  }

  lemma {:induction false} QuietKeeps(fs: Fs, ops: seq<Op>, f: Fd)
    requires Inv(fs) && LegalRun(fs, ops) && Quiet(fs, ops, f) && Usable(fs, f)
    ensures var gs := Run(fs, ops);
      && Usable(gs, f) && gs.fds[f].ino == fs.fds[f].ino && Contents(gs, fs.fds[f].ino) == Contents(fs, fs.fds[f].ino)
    decreases ops
  {
    hide Inv, Live, Links, Refs, Do, Legal, Contents, NodeOk, WritesTo;
    if ops != [] {
      var gs := Do(fs, ops[0]);
      StepKeeps(fs, ops[0]);
      FdFacts(fs, f);
      FdStays(fs, ops[0], f);
      FdFacts(gs, f);
      KeepsItsBlock(fs, ops[0], fs.fds[f].ino);
      QuietKeeps(gs, ops[1..], f);
    }
  }

  /** A file held open stays readable as it is, whatever else happens to it or to
      others, its last name unlinked included. */
  lemma {:induction false} OpenFileStays(n: nat, past: seq<Op>, ops: seq<Op>, f: Fd)
    requires n >= 2 && LegalRun(Initial(n), past)
    requires LegalRun(Run(Initial(n), past), ops) && Quiet(Run(Initial(n), past), ops, f)
    ensures var fs := Run(Initial(n), past); var gs := Run(fs, ops);
      && Usable(fs, f) && Usable(gs, f) && gs.fds[f].ino == fs.fds[f].ino
      && Contents(gs, fs.fds[f].ino) == Contents(fs, fs.fds[f].ino)
  {
    hide Inv, Run, LegalRun, Contents, Live, Links, Refs, NodeOk, Initial;
    InitialInv(n);
    RunKeeps(Initial(n), past);
    var fs := Run(Initial(n), past);
    FdFacts(fs, f);
    QuietKeeps(fs, ops, f);
  }
}
