/** Every call of the block file system keeps its invariant. */
module FsInv {
  import opened Options
  import opened FsModel

  // ---- what the calls do to links and references ----

  lemma {:induction false} LinksSame(fs: Fs, gs: Fs, i: int)
    requires |gs.blocks| == |fs.blocks| && forall b :: 0 <= b < |fs.blocks| ==> gs.blocks[b].sons == fs.blocks[b].sons
    ensures Links(gs, i) == Links(fs, i)
  {
  }

  lemma {:induction false} LinksAdded(fs: Fs, d: nat, e: Entry, i: int)
    requires d < |fs.blocks|
    ensures (d, |fs.blocks[d].sons|) !in Links(fs, i)
    ensures Links(AddEntry(fs, d, e), i) ==
            if e.ino == i then Links(fs, i) + {(d, |fs.blocks[d].sons|)} else Links(fs, i)
  {
  }

  lemma {:induction false} LinksDropped(fs: Fs, d: nat, s: nat, i: int)
    requires d < |fs.blocks| && s < |fs.blocks[d].sons| && i >= 0
    ensures Links(DropEntry(fs, d, s), i) == Links(fs, i) - {(d, s)}
    ensures (d, s) in Links(fs, i) <==> fs.blocks[d].sons[s].ino == i
  {
  }

  lemma {:induction false} RefsAdded(fs: Fs, f: Fd, file: File, i: int)
    requires f !in fs.fds
    ensures f !in Refs(fs, i)
    ensures Refs(fs.(fds := fs.fds[f := file]), i) == if file.ino == i then Refs(fs, i) + {f} else Refs(fs, i)
  {
  }

  lemma {:induction false} RefsDropped(fs: Fs, f: Fd, i: int)
    requires f in fs.fds
    ensures Refs(fs.(fds := fs.fds - {f}), i) == Refs(fs, i) - {f}
    ensures f in Refs(fs, i) <==> fs.fds[f].ino == i
  {
  }

  // ---- blocks ----

  /** Block d is a live directory's. */
  ghost predicate DirBlock(fs: Fs, d: nat) {
    exists p :: 0 <= p < |fs.inodes| && Live(fs, p) && fs.inodes[p].kind == DIR && fs.inodes[p].file == d
  }

  lemma {:induction false} OwnBlocks(fs: Fs, i: nat, j: nat)
    requires Inv(fs) && i < |fs.inodes| && j < |fs.inodes| && i != j && Live(fs, i) && Live(fs, j)
    ensures fs.inodes[i].file != fs.inodes[j].file
  {
    hide Live;
  }

  lemma {:induction false} LiveBlock(fs: Fs, i: nat)
    requires Inv(fs) && i < |fs.inodes| && Live(fs, i)
    ensures 0 < fs.inodes[i].file < |fs.blocks| && fs.blocks[fs.inodes[i].file].occupied
  {
    hide Live;
    assert NodeOk(fs, i);
  }

  lemma {:induction false} FileIsNotDir(fs: Fs, i: nat, d: nat)
    requires Inv(fs) && i < |fs.inodes| && Live(fs, i) && fs.inodes[i].kind == FILE && DirBlock(fs, d)
    ensures fs.inodes[i].file != d
  {
    hide Live;
    var p :| 0 <= p < |fs.inodes| && Live(fs, p) && fs.inodes[p].kind == DIR && fs.inodes[p].file == d;
    OwnBlocks(fs, i, p);
  }

  lemma {:induction false} DirBlockOk(fs: Fs, d: nat)
    requires Inv(fs) && DirBlock(fs, d)
    ensures 0 < d < |fs.blocks| && fs.blocks[d].occupied
  {
    hide Live;
    var p :| 0 <= p < |fs.inodes| && Live(fs, p) && fs.inodes[p].kind == DIR && fs.inodes[p].file == d;
    LiveBlock(fs, p);
  }

  lemma RootIsDir(fs: Fs)
    requires Inv(fs)
    ensures DirBlock(fs, ROOT_BLOCK)
  {
    assert Live(fs, 0);
  }

  /** The same block up to its directory slots. */
  ghost predicate SameBytes(b: Block, c: Block) {
    c.occupied == b.occupied && c.data == b.data
  }

  // ---- a step that touches one inode ----

  /** From fs to gs only inode i changes, and who names it. */
  ghost predicate Touches(fs: Fs, gs: Fs, i: nat) {
    && i < |fs.inodes| == |gs.inodes| && |gs.blocks| == |fs.blocks|
    && (forall j :: 0 <= j < |fs.inodes| && j != i ==> SameNode(fs, gs, j))
  }

  ghost predicate SameNode(fs: Fs, gs: Fs, j: nat)
    requires j < |fs.inodes| && j < |gs.inodes|
  {
    gs.inodes[j] == fs.inodes[j] && Links(gs, j) == Links(fs, j) && Refs(gs, j) == Refs(fs, j)
  }

  lemma {:induction false} OtherNode(fs: Fs, gs: Fs, j: nat)
    requires j < |fs.inodes| <= |gs.inodes| && |gs.blocks| == |fs.blocks| && SameNode(fs, gs, j) && NodeOk(fs, j)
    requires Live(fs, j) && 0 < fs.inodes[j].file < |fs.blocks| ==>
      && SameBytes(fs.blocks[fs.inodes[j].file], gs.blocks[fs.inodes[j].file])
      && (fs.inodes[j].kind == FILE ==> gs.blocks[fs.inodes[j].file].sons == fs.blocks[fs.inodes[j].file].sons)
    ensures NodeOk(gs, j) && (Live(gs, j) <==> Live(fs, j))
  {
    hide Links, Refs;
  }

  /** Blocks other than b keep their bytes, and other than directory d their slots. */
  ghost predicate SameBlocks(fs: Fs, gs: Fs, b: int, d: nat) {
    && |gs.blocks| == |fs.blocks|
    && (forall k :: 0 <= k < |fs.blocks| && k != b ==> SameBytes(fs.blocks[k], gs.blocks[k]))
    && (forall k :: 0 <= k < |fs.blocks| && k != b && k != d ==> gs.blocks[k].sons == fs.blocks[k].sons)
  }

  /** Inodes other than i are the same and as live. */
  ghost predicate SameButOne(fs: Fs, gs: Fs, i: nat) {
    && i < |fs.inodes| == |gs.inodes|
    && (forall j :: 0 <= j < |fs.inodes| && j != i ==>
          gs.inodes[j] == fs.inodes[j] && (Live(gs, j) <==> Live(fs, j)))
  }

  /** All inodes but i, when inode i's block is b. */
  lemma {:induction false} OtherNodes(fs: Fs, gs: Fs, i: nat, d: nat)
    requires Inv(fs) && Touches(fs, gs, i) && Live(fs, i) && DirBlock(fs, d)
    requires SameBlocks(fs, gs, fs.inodes[i].file, d)
    ensures SameButOne(fs, gs, i)
    ensures forall j :: 0 <= j < |fs.inodes| && j != i ==> NodeOk(gs, j)
  {
    hide Live;
    forall j | 0 <= j < |fs.inodes| && j != i
      ensures NodeOk(gs, j) && (Live(gs, j) <==> Live(fs, j)) && gs.inodes[j] == fs.inodes[j]
    {
      assert NodeOk(fs, j) && SameNode(fs, gs, j);
      if Live(fs, j) {
        OwnBlocks(fs, i, j);
        if fs.inodes[j].kind == FILE { FileIsNotDir(fs, j, d); }
      }
      hide NodeOk, DirBlock, NodesOk, Apart, BlocksOk;
      OtherNode(fs, gs, j);
    }
  }

  /** Inodes are live in the same blocks. */
  ghost predicate SameOwners(fs: Fs, gs: Fs) {
    && |gs.inodes| == |fs.inodes| && |gs.blocks| == |fs.blocks|
    && (forall j :: 0 <= j < |fs.inodes| ==> (Live(gs, j) <==> Live(fs, j)) && gs.inodes[j].file == fs.inodes[j].file)
  }

  lemma {:induction false} OwnersApart(fs: Fs, gs: Fs)
    requires Apart(fs) && SameOwners(fs, gs)
    ensures Apart(gs)
  {
    hide Live;
  }

  lemma {:induction false} OwnersKept(fs: Fs, gs: Fs, b: nat)
    requires Owned(fs, b) && SameOwners(fs, gs)
    ensures Owned(gs, b)
  {
    hide Live;
  }

  lemma {:induction false} OwnersBlocks(fs: Fs, gs: Fs)
    requires BlocksOk(fs) && SameOwners(fs, gs) && |gs.blocks| == |fs.blocks|
    requires forall b :: 0 <= b < |fs.blocks| ==>
      && gs.blocks[b].occupied == fs.blocks[b].occupied
      && (!fs.blocks[b].occupied ==> gs.blocks[b] == fs.blocks[b])
    ensures BlocksOk(gs)
  {
    hide SameOwners;
    forall b | 0 <= b < |gs.blocks| ensures if gs.blocks[b].occupied then Owned(gs, b) else gs.blocks[b] == BLANK {
      assert gs.blocks[b].occupied == fs.blocks[b].occupied;
      if fs.blocks[b].occupied { OwnersKept(fs, gs, b); }
      hide Owned;
    }
  }

  /** A step on a live inode that stays live in its block keeps the invariant. */
  lemma {:induction false} NodeStep(fs: Fs, gs: Fs, i: nat, d: nat)
    requires Inv(fs) && Touches(fs, gs, i) && |gs.inodes| == |fs.inodes| && Live(fs, i) && DirBlock(fs, d)
    requires SameBlocks(fs, gs, fs.inodes[i].file, d) && gs.inodes[i].file == fs.inodes[i].file
    requires NodeOk(gs, i) && Live(gs, i) && Shape(gs) && NamesOk(gs)
    ensures Inv(gs)
  {
    LiveBlock(fs, i);
    LiveBlockOk(gs, i);
    DirBlockOk(fs, d);
    OtherNodes(fs, gs, i, d);
    hide Live, NodeOk, DirBlock, NamesOk, Shape, BlocksOk, Apart;
    hide SameNode;
    assert SameOwners(fs, gs);
    OwnersApart(fs, gs);
    forall b | 0 <= b < |fs.blocks|
      ensures gs.blocks[b].occupied == fs.blocks[b].occupied
      ensures !fs.blocks[b].occupied ==> gs.blocks[b] == fs.blocks[b]
    {
      if b != fs.inodes[i].file { assert SameBytes(fs.blocks[b], gs.blocks[b]); }
    }
    OwnersBlocks(fs, gs);
  }

  lemma {:induction false} LiveBlockOk(gs: Fs, i: nat)
    requires i < |gs.inodes| && NodeOk(gs, i) && Live(gs, i)
    ensures 0 < gs.inodes[i].file < |gs.blocks| && gs.blocks[gs.inodes[i].file].occupied
  {
    hide Live;
  }

  /** The death of inode i: nobody names it any more and its block is wiped. */
  lemma {:induction false} DeathStep(fs: Fs, gs: Fs, i: nat, d: nat)
    requires Inv(fs) && Touches(fs, gs, i) && |gs.inodes| == |fs.inodes| && 0 < i && Live(fs, i) && DirBlock(fs, d)
    requires SameBlocks(fs, gs, fs.inodes[i].file, d) && d != fs.inodes[i].file
    requires 0 < fs.inodes[i].file < |fs.blocks| && gs.blocks[fs.inodes[i].file] == BLANK && !Live(gs, i)
    requires Shape(gs) && NamesOk(gs)
    ensures Inv(gs)
  {
    DirBlockOk(fs, d);
    OtherNodes(fs, gs, i, d);
    assert NodeOk(gs, i);
    hide Live, NodeOk, DirBlock, NamesOk, Shape, SameNode, Touches, SameBlocks;
    DeathApart(fs, gs, i);
    hide Apart, SameButOne;
    DeathBlocks(fs, gs, i, d);
  }

  lemma {:induction false} DeathBlocks(fs: Fs, gs: Fs, i: nat, d: nat)
    requires i < |fs.inodes| && BlocksOk(fs) && SameButOne(fs, gs, i) && SameBlocks(fs, gs, fs.inodes[i].file, d)
    requires 0 < fs.inodes[i].file < |fs.blocks| && gs.blocks[fs.inodes[i].file] == BLANK
    requires d < |fs.blocks| && fs.blocks[d].occupied
    ensures BlocksOk(gs)
  {
    hide SameButOne;
    forall b | 0 <= b < |gs.blocks| ensures if gs.blocks[b].occupied then Owned(gs, b) else gs.blocks[b] == BLANK {
      assert if fs.blocks[b].occupied then Owned(fs, b) else fs.blocks[b] == BLANK;
      if b != fs.inodes[i].file {
        assert SameBytes(fs.blocks[b], gs.blocks[b]);
        if fs.blocks[b].occupied { DeathOwned(fs, gs, i, b); }
        hide Owned;
      }
    }
  }

  lemma {:induction false} DeathApart(fs: Fs, gs: Fs, i: nat)
    requires Apart(fs) && SameButOne(fs, gs, i) && !Live(gs, i)
    ensures Apart(gs)
  {
    hide Live;
  }

  lemma {:induction false} DeathOwned(fs: Fs, gs: Fs, i: nat, b: nat)
    requires SameButOne(fs, gs, i) && Owned(fs, b) && b != fs.inodes[i].file
    ensures Owned(gs, b)
  {
    hide Live;
  }

  /** The birth of an inode in a free block. */
  ghost predicate Birth(fs: Fs, gs: Fs, n: Inode, b: nat, d: nat) {
    && b < |fs.blocks| && !fs.blocks[b].occupied && gs.inodes == fs.inodes + [n] && n.file == b
    && SameBlocks(fs, gs, b, d) && gs.blocks[b] == BLANK.(occupied := true)
    && (forall j :: 0 <= j < |fs.inodes| ==> SameNode(fs, gs, j))
  }

  lemma {:induction false} BirthNode(fs: Fs, gs: Fs, n: Inode, b: nat, d: nat, j: nat)
    requires Inv(fs) && Birth(fs, gs, n, b, d) && DirBlock(fs, d) && j < |fs.inodes|
    ensures NodeOk(gs, j) && (Live(gs, j) <==> Live(fs, j)) && gs.inodes[j] == fs.inodes[j]
    ensures Live(fs, j) ==> fs.inodes[j].file != b
  {
    hide Live;
    assert NodeOk(fs, j) && SameNode(fs, gs, j);
    if Live(fs, j) {
      LiveBlock(fs, j);
      if fs.inodes[j].kind == FILE { FileIsNotDir(fs, j, d); }
    }
    hide NodeOk, DirBlock, NodesOk, Apart, BlocksOk;
    OtherNode(fs, gs, j);
  }

  /** The old inodes are the same, as live, and not in block b. */
  ghost predicate OldNodes(fs: Fs, gs: Fs, b: nat) {
    && |fs.inodes| <= |gs.inodes|
    && (forall j :: 0 <= j < |fs.inodes| ==>
          (Live(gs, j) <==> Live(fs, j)) && gs.inodes[j] == fs.inodes[j] && (Live(fs, j) ==> fs.inodes[j].file != b))
  }

  lemma {:induction false} BirthNodes(fs: Fs, gs: Fs, n: Inode, b: nat, d: nat)
    requires Inv(fs) && Birth(fs, gs, n, b, d) && DirBlock(fs, d) && |gs.inodes| == |fs.inodes| + 1
    requires NodeOk(gs, |fs.inodes|)
    ensures OldNodes(fs, gs, b) && NodesOk(gs)
  {
    hide Live, NodeOk, DirBlock, Birth, Inv;
    forall j | 0 <= j < |fs.inodes|
      ensures NodeOk(gs, j) && (Live(gs, j) <==> Live(fs, j)) && gs.inodes[j] == fs.inodes[j]
      ensures Live(fs, j) ==> fs.inodes[j].file != b
    {
      BirthNode(fs, gs, n, b, d, j);
    }
  }

  lemma {:induction false} BirthStep(fs: Fs, gs: Fs, n: Inode, b: nat, d: nat)
    requires Inv(fs) && Birth(fs, gs, n, b, d) && DirBlock(fs, d)
    requires NodeOk(gs, |fs.inodes|) && Live(gs, |fs.inodes|) && Shape(gs) && NamesOk(gs)
    ensures Inv(gs)
  {
    BirthNodes(fs, gs, n, b, d);
    hide Live, NodeOk, DirBlock, NamesOk, Shape, OldNodes, NodesOk, SameNode, SameBlocks;
    BirthApart(fs, gs, n, b);
    BirthBlocks(fs, gs, n, b, d);
  }

  lemma {:induction false} BirthBlocks(fs: Fs, gs: Fs, n: Inode, b: nat, d: nat)
    requires Inv(fs) && Birth(fs, gs, n, b, d) && DirBlock(fs, d)
    requires OldNodes(fs, gs, b) && Live(gs, |fs.inodes|)
    ensures BlocksOk(gs)
  {
    DirBlockOk(fs, d);
    hide Live, DirBlock, SameNode, OldNodes, NodesOk, Shape, NamesOk, Apart;
    forall k | 0 <= k < |gs.blocks| ensures if gs.blocks[k].occupied then Owned(gs, k) else gs.blocks[k] == BLANK {
      if k == b {
        NewOwned(fs, gs, n, b);
      } else {
        assert if fs.blocks[k].occupied then Owned(fs, k) else fs.blocks[k] == BLANK;
        assert SameBytes(fs.blocks[k], gs.blocks[k]);
        if fs.blocks[k].occupied { BirthOwned(fs, gs, b, k); }
      }
      hide Owned;
    }
  }

  lemma {:induction false} NewOwned(fs: Fs, gs: Fs, n: Inode, b: nat)
    requires gs.inodes == fs.inodes + [n] && n.file == b && Live(gs, |fs.inodes|)
    ensures Owned(gs, b)
  {
    hide Live;
    assert Live(gs, |fs.inodes|) && gs.inodes[|fs.inodes|].file == b;
  }

  lemma {:induction false} BirthApart(fs: Fs, gs: Fs, n: Inode, b: nat)
    requires Apart(fs) && gs.inodes == fs.inodes + [n] && n.file == b && OldNodes(fs, gs, b)
    ensures Apart(gs)
  {
    hide Live;
  }

  lemma {:induction false} BirthOwned(fs: Fs, gs: Fs, b: nat, k: nat)
    requires Owned(fs, k) && OldNodes(fs, gs, b)
    ensures Owned(gs, k)
  {
    hide Live;
  }

  // ---- the walk ----

  lemma {:induction false} EntryLive(fs: Fs, d: nat, s: nat)
    requires Inv(fs) && d < |fs.blocks| && s < |fs.blocks[d].sons| && fs.blocks[d].sons[s].ino != GONE
    ensures var i := fs.blocks[d].sons[s].ino;
      0 < i < |fs.inodes| && (d, s) in Links(fs, i) && Live(fs, i)
  {
    assert (d, s) in Links(fs, fs.blocks[d].sons[s].ino);
  }

  /** What the slot found for a name leads to. */
  lemma {:induction false} SlotFacts(fs: Fs, d: nat, name: string)
    requires Inv(fs) && DirBlock(fs, d)
    ensures d < |fs.blocks|
    ensures var s := Slot(fs.blocks[d].sons, name, 0);
      s < |fs.blocks[d].sons| ==>
        var i := fs.blocks[d].sons[s].ino;
        && fs.blocks[d].sons[s].name == name && 0 < i < |fs.inodes| && Live(fs, i) && (d, s) in Links(fs, i)
        && 0 < fs.inodes[i].file < |fs.blocks| && (fs.inodes[i].kind == DIR ==> DirBlock(fs, fs.inodes[i].file))
  {
    DirBlockOk(fs, d);
    var s := Slot(fs.blocks[d].sons, name, 0);
    if s < |fs.blocks[d].sons| {
      EntryLive(fs, d, s);
      LiveBlock(fs, fs.blocks[d].sons[s].ino);
      hide Live, Links, Inv, Slot;
    }
  }

  /** What the walk finds is there. */
  ghost predicate LookOk(fs: Fs, r: Look, name: string, kind: Kind) {
    && (r.Missing? ==> DirBlock(fs, r.dir) && r.dir < |fs.blocks|)
    && (r.Found? ==>
          && DirBlock(fs, r.dir) && r.dir < |fs.blocks| && r.slot < |fs.blocks[r.dir].sons|
          && fs.blocks[r.dir].sons[r.slot] == Entry(r.ino, name) && r.slot == Slot(fs.blocks[r.dir].sons, name, 0)
          && 0 < r.ino < |fs.inodes| && Live(fs, r.ino) && (r.dir, r.slot) in Links(fs, r.ino)
          && fs.inodes[r.ino].kind == kind)
  }

  lemma {:induction false} WalkLast(fs: Fs, d: nat, path: seq<string>, dirFlag: bool)
    requires |path| == 1 && d < |fs.blocks|
    ensures var s := Slot(fs.blocks[d].sons, path[0], 0); var r := Walk(fs, d, path, dirFlag);
      && (s == |fs.blocks[d].sons| ==> r == Missing(d, true))
      && (s < |fs.blocks[d].sons| ==>
            var i := fs.blocks[d].sons[s].ino;
            var wanted := if dirFlag then DIR else FILE;
            0 <= i < |fs.inodes| ==> r == if fs.inodes[i].kind == wanted then Found(d, s, i) else Refused)
  {
  }

  lemma {:induction false} WalkDown(fs: Fs, d: nat, path: seq<string>, dirFlag: bool)
    requires |path| > 1 && d < |fs.blocks|
    ensures var s := Slot(fs.blocks[d].sons, path[0], 0); var r := Walk(fs, d, path, dirFlag);
      && (s == |fs.blocks[d].sons| ==> r == Missing(d, false))
      && (s < |fs.blocks[d].sons| ==>
            var i := fs.blocks[d].sons[s].ino;
            0 <= i < |fs.inodes| && fs.inodes[i].file >= 0 ==>
              r == if fs.inodes[i].kind == FILE then Refused else Walk(fs, fs.inodes[i].file, path[1..], dirFlag))
  {
  }

  lemma {:induction false} WalkOk(fs: Fs, d: nat, path: seq<string>, dirFlag: bool)
    requires Inv(fs) && DirBlock(fs, d) && path != []
    ensures LookOk(fs, Walk(fs, d, path, dirFlag), path[|path| - 1], if dirFlag then DIR else FILE)
    decreases |path|
  {
    hide Live, Links, Inv, Slot, DirBlock, Walk, LookOk;
    SlotFacts(fs, d, path[0]);
    if |path| == 1 {
      LastOk(fs, d, path, dirFlag);
    } else {
      WalkDown(fs, d, path, dirFlag);
      var s := Slot(fs.blocks[d].sons, path[0], 0);
      if s < |fs.blocks[d].sons| {
        var i := fs.blocks[d].sons[s].ino;
        if fs.inodes[i].kind == DIR {
          WalkOk(fs, fs.inodes[i].file, path[1..], dirFlag);
          assert path[1..][|path| - 2] == path[|path| - 1];
        } else {
          RefusedOk(fs, path[|path| - 1], if dirFlag then DIR else FILE);
        }
      } else {
        MissingOk(fs, d, path[|path| - 1], if dirFlag then DIR else FILE);
      }
    }
  }

  lemma RefusedOk(fs: Fs, name: string, kind: Kind)
    ensures LookOk(fs, Refused, name, kind)
  {
  }

  lemma MissingOk(fs: Fs, d: nat, name: string, kind: Kind)
    requires DirBlock(fs, d) && d < |fs.blocks|
    ensures LookOk(fs, Missing(d, false), name, kind)
  {
  }

  lemma {:induction false} LastOk(fs: Fs, d: nat, path: seq<string>, dirFlag: bool)
    requires Inv(fs) && DirBlock(fs, d) && |path| == 1
    ensures LookOk(fs, Walk(fs, d, path, dirFlag), path[0], if dirFlag then DIR else FILE)
  {
    hide Live, Links, Inv, Slot, DirBlock, Walk;
    SlotFacts(fs, d, path[0]);
    WalkLast(fs, d, path, dirFlag);
  }

  /** The directory a path ends in is found again by its own walk. */
  lemma {:induction false} WalkPrefix(fs: Fs, d: nat, path: seq<string>)
    requires Inv(fs) && DirBlock(fs, d) && |path| > 1
    ensures var r := Walk(fs, d, path, false); var q := Walk(fs, d, path[..|path| - 1], true);
      (r.Found? || (r.Missing? && r.last) ==>
        q.Found? && q.ino < |fs.inodes| && fs.inodes[q.ino].file == r.dir > 0)
    decreases |path|
  {
    hide Live, Links, Inv, Slot, DirBlock, Walk;
    SlotFacts(fs, d, path[0]);
    WalkDown(fs, d, path, false);
    var s := Slot(fs.blocks[d].sons, path[0], 0);
    var front := path[..|path| - 1];
    assert front[0] == path[0];
    if s < |fs.blocks[d].sons| {
      var i := fs.blocks[d].sons[s].ino;
      if fs.inodes[i].kind == DIR && |path| > 2 {
        WalkDown(fs, d, front, true);
        WalkPrefix(fs, fs.inodes[i].file, path[1..]);
        assert path[1..][..|path| - 2] == front[1..];
      } else if fs.inodes[i].kind == DIR {
        SlotFacts(fs, fs.inodes[i].file, path[1..][0]);
        WalkLast(fs, d, front, true);
        WalkLast(fs, fs.inodes[i].file, path[1..], false);
      }
    }
  }

  lemma {:induction false} ParentIs(fs: Fs, path: seq<string>)
    requires Inv(fs) && path != []
    ensures var r := Walk(fs, ROOT_BLOCK, path, false);
      r.Found? || (r.Missing? && r.last) ==> Parent(fs, path) == Some(r.dir)
  {
    RootIsDir(fs);
    if |path| > 1 { WalkPrefix(fs, ROOT_BLOCK, path); }
    hide Inv;
  }

  lemma {:induction false} ParentOk(fs: Fs, path: seq<string>)
    requires Inv(fs) && path != []
    ensures var p := Parent(fs, path); p.Some? ==> DirBlock(fs, p.value) && p.value < |fs.blocks|
  {
    RootIsDir(fs);
    if |path| > 1 {
      WalkOk(fs, ROOT_BLOCK, path[..|path| - 1], true);
      var r := Walk(fs, ROOT_BLOCK, path[..|path| - 1], true);
      if r.Found? { LiveBlock(fs, r.ino); }
      hide Live, Walk, Inv;
    }
  }
}
