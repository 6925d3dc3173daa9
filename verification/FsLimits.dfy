/** Calls on which the counts or the offset of the block file system go wrong, each on a
    state a caller reaches from an empty device. */
module FsLimits {
  import opened Options
  import opened Bytes
  import opened FsModel
  import opened FsInv
  import opened FsOps
  import opened FsRuns
  import opened FsPaths

  const USED := BLANK.(occupied := true)
  const ROOT := Inode(0, 0, false, DIR, DIR_SIZE, ROOT_BLOCK)

  /** Three blocks, the file "/a" with k descriptors of task 0, all open on it. */
  function OpenTimes(k: nat): Fs {
    Fs([ROOT, Inode(k, 1, false, FILE, 0, 2)], [USED, USED.(sons := [Entry(1, "a")]), USED],
       map j | 0 <= j < k :: (0, j) := File(1, 0))
  }

  const OPEN_A := OpOpen(0, ["a"], true)

  lemma {:induction false} FirstOpen()
    ensures Legal(Initial(3), OPEN_A) && Do(Initial(3), OPEN_A) == OpenTimes(1)
  {
    var fs := Initial(3);
    assert fs.blocks == [USED, USED, BLANK];
    assert Walk(fs, ROOT_BLOCK, ["a"], false) == Missing(ROOT_BLOCK, true);
    hide Walk;
    assert FreeFd(fs.fds, 0, 0) == 0;
    hide FreeFd;
    assert FreeBlock(fs.blocks, 2) == 2 && FreeBlock(fs.blocks, 1) == 2 && FreeBlock(fs.blocks, 0) == 2;
    hide FreeBlock;
    var gs := Do(fs, OPEN_A);
    assert gs.inodes == OpenTimes(1).inodes;
    assert fs.blocks[1].sons + [Entry(1, "a")] == [Entry(1, "a")];
    assert gs.blocks == OpenTimes(1).blocks;
    assert gs.fds == OpenTimes(1).fds;
  }

  lemma {:induction false} WalkA(k: nat)
    ensures Walk(OpenTimes(k), ROOT_BLOCK, ["a"], false) == Found(ROOT_BLOCK, 0, 1)
  {
  }

  lemma {:induction false} FreeSlot(k: nat, j: nat)
    requires j <= k <= NR_FILE
    ensures FreeFd(OpenTimes(k).fds, 0, j) == k
    decreases k - j
  {
    if j < k { FreeSlot(k, j + 1); }
  }

  lemma {:induction false} NextOpen(k: nat)
    requires 1 <= k < NR_FILE
    ensures Legal(OpenTimes(k), OPEN_A) && Do(OpenTimes(k), OPEN_A) == OpenTimes(k + 1)
  {
    hide Walk, FreeFd, FreeBlock, Open, Exhausted;
    WalkA(k);
    FreeSlot(k, 0);
    OpenIs(OpenTimes(k), 0, ["a"], true);
    OneMore(k);
    hide Opened, OpenTimes;
  }

  lemma {:induction false} OneMore(k: nat)
    ensures Opened(OpenTimes(k), 1, (0, k)) == OpenTimes(k + 1)
  {
    assert Opened(OpenTimes(k), 1, (0, k)).inodes == OpenTimes(k + 1).inodes;
    assert Opened(OpenTimes(k), 1, (0, k)).fds == OpenTimes(k + 1).fds;
  }

  function Repeat(op: Op, n: nat): seq<Op> {
    if n == 0 then [] else [op] + Repeat(op, n - 1)
  }

  lemma {:induction false} OpensRun(k: nat, n: nat)
    requires 1 <= k && k + n <= NR_FILE
    ensures LegalRun(OpenTimes(k), Repeat(OPEN_A, n)) && Run(OpenTimes(k), Repeat(OPEN_A, n)) == OpenTimes(k + n)
    decreases n
  {
    hide OpenTimes, Legal, Do;
    if n > 0 {
      NextOpen(k);
      OpensRun(k + 1, n - 1);
      assert Repeat(OPEN_A, n)[1..] == Repeat(OPEN_A, n - 1);
    }
  }

  /** n opens of "/a" from the empty device. */
  lemma {:induction false} OpensFromStart(n: nat)
    requires 1 <= n <= NR_FILE
    ensures LegalRun(Initial(3), Repeat(OPEN_A, n)) && Run(Initial(3), Repeat(OPEN_A, n)) == OpenTimes(n)
  {
    hide OpenTimes, Legal, Do, Initial;
    FirstOpen();
    OpensRun(1, n - 1);
    assert Repeat(OPEN_A, n)[1..] == Repeat(OPEN_A, n - 1);
  }

  lemma {:induction false} OpenedInv(n: nat)
    requires 1 <= n <= NR_FILE
    ensures Inv(OpenTimes(n))
  {
    hide OpenTimes, Inv, Initial, Repeat;
    InitialInv(3);
    OpensFromStart(n);
    RunKeeps(Initial(3), Repeat(OPEN_A, n));
  }

  /** A task that opened a file 256 times and opens it once more. */
  lemma {:induction false} FullTableBreaksOpen()
    ensures var ops := Repeat(OPEN_A, NR_FILE);
      && LegalRun(Initial(3), ops)
      && var fs := Run(Initial(3), ops);
         Inv(fs) && Open(fs, 0, ["a"], true).1 == Some(FAIL) && !Inv(Open(fs, 0, ["a"], true).0)
  {
    hide Inv, Initial, Repeat;
    OpensFromStart(NR_FILE);
    OpenedInv(NR_FILE);
    WalkA(NR_FILE);
    FreeSlot(NR_FILE, 0);
    hide Walk, FreeFd;
    OpenKeepsIff(OpenTimes(NR_FILE), 0, ["a"], true);
  }

  /** A new file linked into a directory that is not there. */
  lemma {:induction false} MissingDirectoryBreaksLink()
    ensures LegalRun(Initial(3), [OPEN_A])
    ensures var fs := Run(Initial(3), [OPEN_A]);
      Inv(fs) && Link(fs, ["a"], ["d", "b"]).1 == FAIL && !Inv(Link(fs, ["a"], ["d", "b"]).0)
  {
    hide Inv, Initial;
    var fs := OpenTimes(1);
    OpensFromStart(1);
    assert Repeat(OPEN_A, 1) == [OPEN_A];
    OpenedInv(1);
    WalkA(1);
    assert Walk(fs, ROOT_BLOCK, ["d", "b"], false) == Missing(ROOT_BLOCK, false);
    assert ["d", "b"][..1] == ["d"];
    assert Walk(fs, ROOT_BLOCK, ["d"], true) == Missing(ROOT_BLOCK, true);
    hide Walk;
    LinkKeepsIff(fs, ["a"], ["d", "b"]);
  }

  /** A seek to one below zero from the current offset. */
  lemma {:induction false} SeekBelowZero()
    ensures LegalRun(Initial(3), [OPEN_A])
    ensures var fs := Run(Initial(3), [OPEN_A]); var f: Fd := (0, 0);
      && Inv(fs) && Usable(fs, f)
      && var gs := Lseek(fs, f, -1, SeekCur).0; f in gs.fds && gs.fds[f].offset == TWO64 - 1 && !Inv(gs)
  {
    hide Inv, Initial;
    var fs := OpenTimes(1);
    OpensFromStart(1);
    assert Repeat(OPEN_A, 1) == [OPEN_A];
    OpenedInv(1);
    FdFacts(fs, (0, 0));
    hide Links, Refs, Live, NodeOk;
    LseekIs(fs, (0, 0), -1, SeekCur);
    LseekKeepsIff(fs, (0, 0), -1, SeekCur);
  }

  lemma {:induction false} TwoSteps(fs: Fs, a: Op, b: Op)
    requires Legal(fs, a) && Legal(Do(fs, a), b)
    ensures LegalRun(fs, [a, b]) && Run(fs, [a, b]) == Do(Do(fs, a), b)
  {
    hide Legal, Do;
    var gs := Do(fs, a);
    assert [a, b][1..] == [b] && [b][1..] == [];
    assert LegalRun(Do(gs, b), []) && Run(Do(gs, b), []) == Do(gs, b);
    assert LegalRun(gs, [b]) && Run(gs, [b]) == Do(gs, b);
  }

  lemma {:induction false} SeekToOne()
    ensures var seek := OpLseek((0, 0), 1, SeekSet);
      && Legal(OpenTimes(1), seek)
      && var gs := Do(OpenTimes(1), seek);
         gs.inodes == OpenTimes(1).inodes && gs.fds == map[(0, 0) := File(1, 1)] && Usable(gs, (0, 0))
  {
  }

  /** A seek past the end of a new file leaves a read that runs out of the block. */
  lemma {:induction false} ReadPastEnd()
    ensures var ops := [OPEN_A, OpLseek((0, 0), 1, SeekSet)];
      && LegalRun(Initial(3), ops)
      && var fs := Run(Initial(3), ops); var f: Fd := (0, 0);
         && Usable(fs, f) && fs.fds[f].offset == 1 && fs.inodes[fs.fds[f].ino].size == 0
         && 1 + ReadCount(0, 1, 1) > DATA
  {
    FirstOpen();
    SeekToOne();
    hide Legal, Do, Initial, LegalRun, Run;
    TwoSteps(Initial(3), OPEN_A, OpLseek((0, 0), 1, SeekSet));
    ReadStaysInsideIff(0, 1, 1);
  }

  const MKDIR_D := OpMkdir(["d"])

  lemma {:induction false} OpenOnFour()
    ensures Legal(Initial(4), OPEN_A) && Open(Initial(4), 0, ["a"], true).1 == Some(0)
    ensures var fs := Do(Initial(4), OPEN_A);
      && |fs.inodes| == 2 && |fs.blocks| == 4 && !fs.blocks[3].occupied && fs.blocks[1].sons == [Entry(1, "a")]
  {
    var fs := Initial(4);
    assert Walk(fs, ROOT_BLOCK, ["a"], false) == Missing(ROOT_BLOCK, true);
    hide Walk;
    assert FreeFd(fs.fds, 0, 0) == 0;
    hide FreeFd;
    assert FreeBlock(fs.blocks, 2) == 2 && FreeBlock(fs.blocks, 1) == 2 && FreeBlock(fs.blocks, 0) == 2;
    hide FreeBlock;
    assert fs.blocks[1].sons + [Entry(1, "a")] == [Entry(1, "a")];
  }

  lemma {:induction false} MkdirAfterOpen(fs: Fs)
    requires Inv(fs) && |fs.inodes| == 2 && |fs.blocks| == 4 && !fs.blocks[3].occupied
    requires fs.blocks[1].sons == [Entry(1, "a")]
    ensures Legal(fs, MKDIR_D)
    ensures var gs := Mkdir(fs, ["d"]).0;
      Walk(gs, ROOT_BLOCK, ["d"], true).Found? && |gs.blocks| == 4 && |gs.blocks[1].sons| == 2
  {
    assert Walk(fs, ROOT_BLOCK, ["d"], true) == Missing(ROOT_BLOCK, true);
    hide Inv, Walk, Mkdir;
    MadeDirectory(fs, ["d"]);
    var d, es := MkdirGrows(fs, ["d"]);
    ExhaustedIs(fs);
    assert SonsGrow(fs.blocks[1].sons, Mkdir(fs, ["d"]).0.blocks[1].sons, 1, NOWHERE, es);
  }

  /** A name that leads to a directory leads to no file. */
  lemma {:induction false} NotAFile(fs: Fs, name: string)
    requires Inv(fs) && Walk(fs, ROOT_BLOCK, [name], true).Found?
    ensures Walk(fs, ROOT_BLOCK, [name], false) == Refused
  {
    hide DirBlock, Live, Links, Slot, Walk;
    RootIsDir(fs);
    SlotFacts(fs, ROOT_BLOCK, name);
    WalkLast(fs, ROOT_BLOCK, [name], true);
    WalkLast(fs, ROOT_BLOCK, [name], false);
  }

  /** A directory "d" and a file "a" linked to "/d": the call returns 0 and counts the link, and
      "/d" leads to no file. */
  lemma {:induction false} LinkOntoDirectory()
    ensures var ops := [OPEN_A, MKDIR_D];
      && LegalRun(Initial(4), ops)
      && var fs := Run(Initial(4), ops); var (gs, ret) := Link(fs, ["a"], ["d"]);
         ret == 0 && Inv(gs) && !Walk(gs, ROOT_BLOCK, ["d"], false).Found?
  {
    hide Inv, Walk, Initial, Open, Mkdir, Link, LegalRun, Run, RoomFor, Legal;
    var fs := Initial(4);
    InitialInv(4);
    OpenOnFour();
    StepKeeps(fs, OPEN_A);
    OpenedPath(fs, 0, ["a"], true);
    var gs := Do(fs, OPEN_A);
    MkdirAfterOpen(gs);
    StepKeeps(gs, MKDIR_D);
    PathsStay(gs, MKDIR_D, ["a"], false);
    TwoSteps(fs, OPEN_A, MKDIR_D);
    var hs := Do(gs, MKDIR_D);
    NotAFile(hs, "d");
    LinkedPath(hs, ["a"], ["d"]);
    LinkKeepsIff(hs, ["a"], ["d"]);
  }
}