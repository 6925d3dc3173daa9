/** The contents of a file over whole runs: the writes made to it, replayed on an empty
    POSIX-like file. */
module FsReplay {
  import opened Options
  import opened Bytes
  import opened FsModel
  import opened FsInv
  import opened FsOps
  import opened FsRuns
  import OsFiles

  /** What a call makes of contents c of inode j: a write through a descriptor of j that
      fits in the block overwrites them. */
  function ReplayStep(fs: Fs, op: Op, j: nat, c: seq<Byte>): seq<Byte> {
    if WritesTo(fs, op, j) && fs.fds[op.f].offset + |op.buf| <= DATA
    then OsFiles.Overwrite(c, fs.fds[op.f].offset, op.buf) else c
  }

  /** The writes of a run, replayed in order. */
  function Replay(fs: Fs, ops: seq<Op>, j: nat, c: seq<Byte>): seq<Byte>
    requires LegalRun(fs, ops)
    decreases ops
  {
    if ops == [] then c else Replay(Do(fs, ops[0]), ops[1..], j, ReplayStep(fs, ops[0], j, c))
  }

  /** A file in use. */
  ghost predicate InUse(fs: Fs, j: nat) {
    j < |fs.inodes| && Live(fs, j) && fs.inodes[j].kind == FILE
  }

  /** Its bytes; none for what is no file in use. */
  ghost function Held(fs: Fs, j: nat): seq<Byte> {
    if InUse(fs, j) && 0 <= fs.inodes[j].file < |fs.blocks|
       && fs.inodes[j].size <= |fs.blocks[fs.inodes[j].file].data|
    then Contents(fs, j) else []
  }

  lemma {:induction false} HeldIs(fs: Fs, j: nat)
    requires Inv(fs) && InUse(fs, j)
    ensures 0 <= fs.inodes[j].file < |fs.blocks| && fs.inodes[j].size <= |fs.blocks[fs.inodes[j].file].data|
    ensures Held(fs, j) == Contents(fs, j)
  {
    hide Inv, Live, Links, Refs;
    LiveNode(fs, j);
  }

  /** A call never changes what kind of inode there is, and creates files empty. */
  lemma {:induction false} Kinds(fs: Fs, op: Op, j: nat)
    requires Inv(fs) && Legal(fs, op)
    ensures |fs.inodes| <= |Do(fs, op).inodes|
    ensures j < |fs.inodes| ==> Do(fs, op).inodes[j].kind == fs.inodes[j].kind
  {
    hide Inv, Live, Do, Legal;
    var i, w := StepTouches(fs, op);
    if j < |fs.inodes| && j != i { assert SameNode(fs, Do(fs, op), j); }
  }

  lemma {:induction false} NewIsEmpty(fs: Fs, op: Op, j: nat)
    requires Legal(fs, op) && |fs.inodes| <= j < |Do(fs, op).inodes| && Do(fs, op).inodes[j].kind == FILE
    ensures Do(fs, op).inodes[j].size == 0
  {
    hide Walk, Parent, FreeFd, FreeBlock, HasRoom, RoomFor, Splice;
  }

  /** Nothing writes to an inode that is not there yet. */
  lemma {:induction false} NoWriteYet(fs: Fs, op: Op, j: nat, c: seq<Byte>)
    requires Inv(fs) && j >= |fs.inodes|
    ensures ReplayStep(fs, op, j, c) == c
  {
    hide NodesOk, Apart, BlocksOk, Shape;
  }

  lemma {:induction false} ReplayOne(fs: Fs, op: Op, j: nat)
    requires Inv(fs) && Legal(fs, op) && InUse(Do(fs, op), j)
    ensures Held(Do(fs, op), j) == ReplayStep(fs, op, j, Held(fs, j))
  {
    hide Inv, Live, Links, Refs, Do, Legal, Held, Contents, NodeOk;
    StepKeeps(fs, op);
    Kinds(fs, op, j);
    HeldIs(Do(fs, op), j);
    if j >= |fs.inodes| {
      NewIsEmpty(fs, op, j);
      NoWriteYet(fs, op, j, Held(fs, j));
      EmptyHeld(fs, Do(fs, op), j);
    } else {
      if !Live(fs, j) { StepStaysDead(fs, op, j); }
      HeldIs(fs, j);
      KeepsItsBlock(fs, op, j);
      if WritesTo(fs, op, j) { ReplayWrite(fs, op, j); }
    }
  }

  lemma {:induction false} EmptyHeld(fs: Fs, gs: Fs, j: nat)
    requires j >= |fs.inodes| && InUse(gs, j) && gs.inodes[j].size == 0
    ensures Held(fs, j) == [] && Held(gs, j) == []
  {
  }

  lemma {:induction false} ReplayWrite(fs: Fs, op: Op, j: nat)
    requires Inv(fs) && Legal(fs, op) && WritesTo(fs, op, j) && InUse(fs, j) && InUse(Do(fs, op), j)
    ensures Held(Do(fs, op), j) == ReplayStep(fs, op, j, Held(fs, j))
  {
    hide Inv, Live, Links, Refs, Held, Contents, NodeOk, Write, OsFiles.Overwrite;
    FdFacts(fs, op.f);
    StepKeeps(fs, op);
    HeldIs(fs, j);
    HeldIs(Do(fs, op), j);
    WriteIs(fs, op.f, op.buf);
    if fs.fds[op.f].offset + |op.buf| <= DATA { WriteOverwrites(fs, op.f, op.buf); }
  }

  lemma {:induction false} ReplayRun(fs: Fs, ops: seq<Op>, j: nat)
    requires Inv(fs) && LegalRun(fs, ops) && InUse(Run(fs, ops), j)
    ensures Held(Run(fs, ops), j) == Replay(fs, ops, j, Held(fs, j))
    decreases ops
  {
    hide Inv, Live, Do, Legal, Held, ReplayStep;
    if ops != [] {
      var gs := Do(fs, ops[0]);
      StepKeeps(fs, ops[0]);
      ReplayRun(gs, ops[1..], j);
      if j < |gs.inodes| {
        if !Live(gs, j) { NeverReborn(gs, ops[1..], j); }
        KindsOverRun(gs, ops[1..], j);
        ReplayOne(fs, ops[0], j);
      } else {
        Kinds(fs, ops[0], j);
        NoWriteYet(fs, ops[0], j, Held(fs, j));
        NotThere(fs, gs, j);
      }
    }
  }

  lemma {:induction false} NotThere(fs: Fs, gs: Fs, j: nat)
    requires j >= |fs.inodes| && j >= |gs.inodes|
    ensures Held(fs, j) == Held(gs, j) == []
  {
  }

  lemma {:induction false} KindsOverRun(fs: Fs, ops: seq<Op>, j: nat)
    requires Inv(fs) && LegalRun(fs, ops) && j < |fs.inodes|
    ensures j < |Run(fs, ops).inodes| && Run(fs, ops).inodes[j].kind == fs.inodes[j].kind
    decreases ops
  {
    hide Inv, Do, Legal;
    if ops != [] {
      StepKeeps(fs, ops[0]);
      Kinds(fs, ops[0], j);
      KindsOverRun(Do(fs, ops[0]), ops[1..], j);
    }
  }

  /** After any run from an empty device the bytes of a file in use are those of the
      writes made to it, replayed in order on an empty file: no other call, no other
      file and no earlier owner of its block shows in them. */
  lemma {:induction false} ContentsAreReplay(n: nat, ops: seq<Op>, j: nat)
    requires n >= 2 && LegalRun(Initial(n), ops) && InUse(Run(Initial(n), ops), j)
    ensures var fs := Run(Initial(n), ops);
      && 0 <= fs.inodes[j].file < |fs.blocks| && fs.inodes[j].size <= |fs.blocks[fs.inodes[j].file].data|
      && Contents(fs, j) == Replay(Initial(n), ops, j, [])
  {
    hide Inv, Run, LegalRun, Contents, Live, Held, Replay;
    InitialInv(n);
    RunKeeps(Initial(n), ops);
    ReplayRun(Initial(n), ops, j);
    HeldIs(Run(Initial(n), ops), j);
    NoFilesYet(n, j);
  }

  lemma {:induction false} NoFilesYet(n: nat, j: nat)
    requires n >= 2
    ensures Held(Initial(n), j) == []
  {
  }

  /** So a read delivers the latest bytes written, and zeroes where a seek left a gap. */
  lemma {:induction false} ReadsAreReplay(n: nat, ops: seq<Op>, f: Fd, nbyte: nat)
    requires n >= 2 && LegalRun(Initial(n), ops) && f in Run(Initial(n), ops).fds
    requires Legal(Run(Initial(n), ops), OpRead(f, nbyte))
    ensures var fs := Run(Initial(n), ops);
      && Usable(fs, f) && fs.fds[f].offset <= fs.inodes[fs.fds[f].ino].size
      && Read(fs, f, nbyte).1 ==
         OsFiles.Readable(Replay(Initial(n), ops, fs.fds[f].ino, []), fs.fds[f].offset, nbyte)
  {
    hide Inv, Run, LegalRun, Contents, Live, Links, Refs, NodeOk, Replay, Initial, Read, OsFiles.Readable;
    InitialInv(n);
    RunKeeps(Initial(n), ops);
    var fs := Run(Initial(n), ops);
    FdFacts(fs, f);
    ContentsAreReplay(n, ops, fs.fds[f].ino);
    ReadDelivers(fs, f, nbyte);
  }
}
