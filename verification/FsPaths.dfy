/** Where paths lead before and after each call: a new name leads to what was entered
    under it, a dropped one nowhere, and every other path where it led before. */
module FsPaths {
  import opened Options
  import opened Bytes
  import opened FsModel
  import opened FsInv
  import opened FsOps
  import opened FsRuns

  // ---- the walk, name by name ----

  ghost predicate NoneNamed(sons: seq<Entry>, name: string) {
    forall k :: 0 <= k < |sons| ==> sons[k].ino == GONE || sons[k].name != name
  }

  /** Slot s is the first in use with that name. */
  ghost predicate FirstNamed(sons: seq<Entry>, name: string, s: nat) {
    && s < |sons| && sons[s].ino != GONE && sons[s].name == name
    && forall k :: 0 <= k < s ==> sons[k].ino == GONE || sons[k].name != name
  }

  lemma {:induction false} SlotNamed(sons: seq<Entry>, name: string, s: nat)
    ensures NoneNamed(sons, name) <==> Slot(sons, name, 0) == |sons|
    ensures FirstNamed(sons, name, s) <==> s < |sons| && Slot(sons, name, 0) == s
  {
    var k := Slot(sons, name, 0);
    assert k < |sons| ==> !NoneNamed(sons, name);
  }

  /** One name of a path: a walk stops where no slot in use has the name, goes down into the
      directory of the first that has, and ends at the last name, if that is of the kind asked for. */
  lemma {:induction false} WalkStep(fs: Fs, d: nat, path: seq<string>, dirFlag: bool, s: nat)
    requires d < |fs.blocks| && path != []
    ensures NoneNamed(fs.blocks[d].sons, path[0]) ==> Walk(fs, d, path, dirFlag) == Missing(d, |path| == 1)
    ensures var sons := fs.blocks[d].sons;
      FirstNamed(sons, path[0], s) && 0 <= sons[s].ino < |fs.inodes| ==>
        var n := fs.inodes[sons[s].ino]; var r := Walk(fs, d, path, dirFlag);
        var wanted := if dirFlag then DIR else FILE;
        && (|path| == 1 ==> r == if n.kind == wanted then Found(d, s, sons[s].ino) else Refused)
        && (|path| > 1 && n.kind == FILE ==> r == Refused)
        && (|path| > 1 && n.kind == DIR && n.file >= 0 ==> r == Walk(fs, n.file, path[1..], dirFlag))
  {
    hide Slot, NoneNamed, FirstNamed;
    SlotNamed(fs.blocks[d].sons, path[0], s);
  }

  /** A walk along a front that ends in a directory goes on from there. */
  lemma {:induction false} WalkThrough(fs: Fs, d: nat, path: seq<string>, dirFlag: bool)
    requires Inv(fs) && DirBlock(fs, d) && |path| > 1
    requires Walk(fs, d, path[..|path| - 1], true).Found?
    ensures var q := Walk(fs, d, path[..|path| - 1], true).ino;
      q < |fs.inodes| && fs.inodes[q].file > 0
      && Walk(fs, d, path, dirFlag) == Walk(fs, fs.inodes[q].file, [path[|path| - 1]], dirFlag)
    decreases |path|
  {
    hide Live, Links, Inv, Slot, DirBlock, Walk;
    SlotFacts(fs, d, path[0]);
    var front := path[..|path| - 1];
    assert front[0] == path[0];
    WalkDown(fs, d, path, dirFlag);
    if |path| > 2 {
      WalkDown(fs, d, front, true);
      assert path[1..][..|path| - 2] == front[1..];
      WalkThrough(fs, fs.inodes[fs.blocks[d].sons[Slot(fs.blocks[d].sons, path[0], 0)].ino].file, path[1..], dirFlag);
    } else {
      WalkLast(fs, d, front, true);
      assert path[1..] == [path[|path| - 1]];
    }
  }

  // ---- what a call does to the directories ----

  /** No slot: block 0 is no directory. */
  const NOWHERE: (nat, nat) := (0, 0)

  /** The slots of directory block b after a step that drops slot `hole` and enters `es` in d. */
  ghost predicate SonsGrow(before: seq<Entry>, now: seq<Entry>, b: nat, hole: (nat, nat), es: seq<Entry>) {
    && |now| == |before| + |es|
    && (forall s :: 0 <= s < |before| ==> now[s] == if (b, s) == hole then before[s].(ino := GONE) else before[s])
    && (forall k :: 0 <= k < |es| ==> now[|before| + k] == es[k])
  }

  ghost predicate Grows(fs: Fs, gs: Fs, hole: (nat, nat), d: nat, es: seq<Entry>) {
    && |gs.blocks| == |fs.blocks| && |fs.inodes| <= |gs.inodes|
    && (forall b :: 0 <= b < |fs.blocks| ==>
          SonsGrow(fs.blocks[b].sons, gs.blocks[b].sons, b, hole, if b == d then es else []))
    && (forall i :: 0 <= i < |fs.inodes| ==>
          && gs.inodes[i].kind == fs.inodes[i].kind
          && (fs.inodes[i].kind == DIR ==> gs.inodes[i].file == fs.inodes[i].file))
  }

  /** The slot dropped, if any, names a file. */
  predicate FileSlot(fs: Fs, hole: (nat, nat)) {
    hole.0 < |fs.blocks| && hole.1 < |fs.blocks[hole.0].sons| ==>
      var i := fs.blocks[hole.0].sons[hole.1].ino; 0 <= i < |fs.inodes| && fs.inodes[i].kind == FILE
  }

  lemma {:induction false} FirstStays(before: seq<Entry>, now: seq<Entry>, b: nat, hole: (nat, nat),
                                      es: seq<Entry>, name: string)
    requires SonsGrow(before, now, b, hole, es)
    ensures var s := Slot(before, name, 0);
      && (s < |before| && (b, s) != hole ==> Slot(now, name, 0) == s < |now| && now[s] == before[s])
      && (s == |before| && es == [] ==> Slot(now, name, 0) == |now|)
      && (s == |before| && es != [] && es[0].name == name && es[0].ino >= 0 ==>
            Slot(now, name, 0) == s < |now| && now[s] == es[0])
  {
    var s := Slot(before, name, 0);
    if s < |before| {
      SlotNamed(now, name, s);
    } else {
      assert es != [] ==> now[|before| + 0] == es[0];
      SlotNamed(now, name, s);
    }
  }

  /** One step of a walk before and after. */
  lemma {:induction false} SonStays(fs: Fs, gs: Fs, hole: (nat, nat), d: nat, es: seq<Entry>, b: nat, name: string)
    requires Inv(fs) && Grows(fs, gs, hole, d, es) && FileSlot(fs, hole) && DirBlock(fs, b) && b < |fs.blocks|
    requires var s := Slot(fs.blocks[b].sons, name, 0); s < |fs.blocks[b].sons| && (b, s) != hole
    ensures var s := Slot(fs.blocks[b].sons, name, 0); var i := fs.blocks[b].sons[s].ino;
      && b < |gs.blocks| && Slot(gs.blocks[b].sons, name, 0) == s < |gs.blocks[b].sons|
      && gs.blocks[b].sons[s] == fs.blocks[b].sons[s] && 0 < i < |fs.inodes| <= |gs.inodes|
      && gs.inodes[i].kind == fs.inodes[i].kind
      && (fs.inodes[i].kind == DIR ==>
            var f := fs.inodes[i].file; gs.inodes[i].file == f && 0 < f < |fs.blocks| && DirBlock(fs, f))
  {
    hide Inv, DirBlock, Live, Links, Slot, SonsGrow;
    SlotFacts(fs, b, name);
    FirstStays(fs.blocks[b].sons, gs.blocks[b].sons, b, hole, if b == d then es else [], name);
  }

  /** A walk that does not end at the dropped slot ends where it did. */
  lemma {:induction false} WalkStays(fs: Fs, gs: Fs, hole: (nat, nat), d: nat, es: seq<Entry>,
                                     b: nat, path: seq<string>, dirFlag: bool)
    requires Inv(fs) && Grows(fs, gs, hole, d, es) && FileSlot(fs, hole) && DirBlock(fs, b) && path != []
    requires var r := Walk(fs, b, path, dirFlag); r.Found? && (r.dir, r.slot) != hole
    ensures Walk(gs, b, path, dirFlag) == Walk(fs, b, path, dirFlag)
    decreases |path|
  {
    hide Inv, DirBlock, Live, Links, Slot, Grows, Walk;
    DirBlockOk(fs, b);
    GrowsShape(fs, gs, hole, d, es);
    var s := Slot(fs.blocks[b].sons, path[0], 0);
    SlotFacts(fs, b, path[0]);
    if |path| == 1 {
      WalkLast(fs, b, path, dirFlag);
      SonStays(fs, gs, hole, d, es, b, path[0]);
      WalkLast(gs, b, path, dirFlag);
    } else {
      WalkDown(fs, b, path, dirFlag);
      SonStays(fs, gs, hole, d, es, b, path[0]);
      WalkDown(gs, b, path, dirFlag);
      WalkStays(fs, gs, hole, d, es, fs.inodes[fs.blocks[b].sons[s].ino].file, path[1..], dirFlag);
    }
  }

  lemma {:induction false} GrowsShape(fs: Fs, gs: Fs, hole: (nat, nat), d: nat, es: seq<Entry>)
    requires Grows(fs, gs, hole, d, es)
    ensures |gs.blocks| == |fs.blocks| && |fs.inodes| <= |gs.inodes|
  {
  }

  /** A walk that misses its last name finds it once it is entered where it was missed. */
  lemma {:induction false} WalkFinds(fs: Fs, gs: Fs, d: nat, e: Entry, b: nat, path: seq<string>, dirFlag: bool)
    requires Inv(fs) && Grows(fs, gs, NOWHERE, d, [e]) && DirBlock(fs, b) && path != [] && d < |fs.blocks|
    requires Walk(fs, b, path, dirFlag) == Missing(d, true) && e.name == path[|path| - 1]
    requires 0 <= e.ino < |gs.inodes| && gs.inodes[e.ino].kind == (if dirFlag then DIR else FILE)
    ensures Walk(gs, b, path, dirFlag) == Found(d, |fs.blocks[d].sons|, e.ino)
    decreases |path|
  {
    hide Inv, DirBlock, Live, Links, Slot, Grows, Walk;
    DirBlockOk(fs, b);
    NowhereIsFile(fs);
    GrowsShape(fs, gs, NOWHERE, d, [e]);
    SlotFacts(fs, b, path[0]);
    if |path| == 1 {
      WalkLast(fs, b, path, dirFlag);
      NewSon(fs, gs, d, e);
      WalkLast(gs, b, path, dirFlag);
    } else {
      WalkDown(fs, b, path, dirFlag);
      SonStays(fs, gs, NOWHERE, d, [e], b, path[0]);
      WalkDown(gs, b, path, dirFlag);
      var i := fs.blocks[b].sons[Slot(fs.blocks[b].sons, path[0], 0)].ino;
      WalkFinds(fs, gs, d, e, fs.inodes[i].file, path[1..], dirFlag);
    }
  }

  lemma {:induction false} NewSon(fs: Fs, gs: Fs, d: nat, e: Entry)
    requires Grows(fs, gs, NOWHERE, d, [e]) && d < |fs.blocks| && e.ino >= 0
    requires Slot(fs.blocks[d].sons, e.name, 0) == |fs.blocks[d].sons|
    ensures d < |gs.blocks|
    ensures var s := |fs.blocks[d].sons|; var sons := gs.blocks[d].sons;
      s < |sons| && Slot(sons, e.name, 0) == s && sons[s] == e
  {
    hide Slot, SonsGrow;
    FirstStays(fs.blocks[d].sons, gs.blocks[d].sons, d, NOWHERE, [e], e.name);
  }

  lemma {:induction false} NowhereIsFile(fs: Fs)
    requires Inv(fs)
    ensures FileSlot(fs, NOWHERE)
  {
  }

  // ---- how each call changes the directories ----

  lemma {:induction false} NothingGrows(fs: Fs, gs: Fs)
    requires |gs.blocks| == |fs.blocks| && forall b :: 0 <= b < |fs.blocks| ==> gs.blocks[b].sons == fs.blocks[b].sons
    requires fs.blocks != [] && fs.blocks[0].sons == [] && |gs.inodes| == |fs.inodes|
    requires forall i :: 0 <= i < |fs.inodes| ==>
      gs.inodes[i].kind == fs.inodes[i].kind && (fs.inodes[i].kind == DIR ==> gs.inodes[i].file == fs.inodes[i].file)
    ensures Grows(fs, gs, NOWHERE, 0, [])
  {
  }

  lemma {:induction false} CreateGrows(fs: Fs, d: nat, name: string, kind: Kind, refcnt: nat)
    requires Shape(fs) && 0 < d < |fs.blocks| && fs.blocks[d].occupied && !Exhausted(fs)
    ensures Grows(fs, Create(fs, d, name, kind, refcnt), NOWHERE, d, [Entry(|fs.inodes|, name)])
  {
    hide FreeBlock;
    var gs := Create(fs, d, name, kind, refcnt);
    var e := Entry(|fs.inodes|, name);
    forall b | 0 <= b < |fs.blocks|
      ensures SonsGrow(fs.blocks[b].sons, gs.blocks[b].sons, b, NOWHERE, if b == d then [e] else [])
    {
    }
  }

  lemma {:induction false} LinkedGrows(fs: Fs, i: nat, d: nat, name: string)
    requires Shape(fs) && i < |fs.inodes| && 0 < d < |fs.blocks|
    ensures Grows(fs, Linked(fs, i, d, name), NOWHERE, d, [Entry(i, name)])
  {
    var gs := Linked(fs, i, d, name);
    forall b | 0 <= b < |fs.blocks|
      ensures SonsGrow(fs.blocks[b].sons, gs.blocks[b].sons, b, NOWHERE, if b == d then [Entry(i, name)] else [])
    {
    }
  }

  lemma {:induction false} UnlinkedGrows(fs: Fs, i: nat, d: nat, s: nat)
    requires Shape(fs) && i < |fs.inodes| && d < |fs.blocks| && s < |fs.blocks[d].sons|
    ensures Grows(fs, Unlinked(fs, i, d, s), (d, s), 0, [])
  {
    var gs := Unlinked(fs, i, d, s);
    forall b | 0 <= b < |fs.blocks| ensures SonsGrow(fs.blocks[b].sons, gs.blocks[b].sons, b, (d, s), []) {
    }
  }

  lemma {:induction false} RemovedGrows(fs: Fs, i: nat, d: nat, s: nat)
    requires Shape(fs) && i < |fs.inodes| && d < |fs.blocks| && s < |fs.blocks[d].sons|
    requires 0 <= fs.inodes[i].file < |fs.blocks| && fs.blocks[fs.inodes[i].file].sons == []
    ensures Grows(fs, Removed(fs, i, d, s), (d, s), 0, [])
  {
    var gs := Removed(fs, i, d, s);
    forall b | 0 <= b < |fs.blocks| ensures SonsGrow(fs.blocks[b].sons, gs.blocks[b].sons, b, (d, s), []) {
    }
  }

  lemma {:induction false} DroppedGrows(fs: Fs, f: Fd)
    requires Shape(fs) && f in fs.fds && fs.fds[f].ino < |fs.inodes|
    requires var n := fs.inodes[fs.fds[f].ino];
      n.kind == FILE && 0 <= n.file < |fs.blocks| && fs.blocks[n.file].sons == []
    ensures Grows(fs, Dropped(fs, f), NOWHERE, 0, [])
  {
    NothingGrows(fs, Dropped(fs, f));
  }

  lemma {:induction false} WrittenGrows(fs: Fs, f: Fd, buf: seq<Byte>)
    requires Shape(fs) && Usable(fs, f) && fs.fds[f].offset + |buf| <= DATA
    ensures Grows(fs, Written(fs, f, buf), NOWHERE, 0, [])
  {
    hide Splice;
    NothingGrows(fs, Written(fs, f, buf));
  }

  lemma {:induction false} FileSons(fs: Fs, i: nat)
    requires Inv(fs) && i < |fs.inodes| && Live(fs, i) && fs.inodes[i].kind == FILE
    ensures 0 < fs.inodes[i].file < |fs.blocks| && fs.blocks[fs.inodes[i].file].sons == []
  {
    hide Live, Links, Refs;
    assert NodeOk(fs, i);
  }

  /** Where a call may enter a name: no slot in use has it, or the first that has names a directory. */
  ghost predicate NameOpen(fs: Fs, d: nat, name: string) {
    d < |fs.blocks| &&
    var s := Slot(fs.blocks[d].sons, name, 0);
    s == |fs.blocks[d].sons| ||
    var i := fs.blocks[d].sons[s].ino; 0 <= i < |fs.inodes| && fs.inodes[i].kind == DIR
  }

  predicate EndsAt(r: Look, at: (nat, nat)) {
    r.Found? && (r.dir, r.slot) == at
  }

  /** What a call did to the directories: it dropped the slot an unlinked path ended at, or
      entered one name that was open, or neither. */
  ghost predicate OpGrows(fs: Fs, op: Op, hole: (nat, nat), d: nat, es: seq<Entry>)
    requires Legal(fs, op)
  {
    && Grows(fs, Do(fs, op), hole, d, es) && FileSlot(fs, hole)
    && (hole != NOWHERE ==> op.OpUnlink? && EndsAt(Walk(fs, ROOT_BLOCK, op.path, false), hole))
    && (es != [] ==> |es| == 1 && NameOpen(fs, d, es[0].name) && 0 < es[0].ino < |Do(fs, op).inodes|)
  }

  lemma {:induction false} OpenGrows(fs: Fs, task: nat, path: seq<string>, create: bool)
    returns (d: nat, es: seq<Entry>)
    requires Inv(fs) && path != []
    ensures var r := Walk(fs, ROOT_BLOCK, path, false); var gs := Open(fs, task, path, create).0;
      && Grows(fs, gs, NOWHERE, d, es)
      && (if r.Missing? && Opens(fs, path, create)
          then d == r.dir && es == [Entry(|fs.inodes|, path[|path| - 1])] && |gs.inodes| == |fs.inodes| + 1
               && gs.inodes[|fs.inodes|].kind == FILE
          else es == [])
  {
    hide Inv, Live, Links, DirBlock, Open, Walk, FreeFd, FreeBlock, Exhausted, Grows, Create;
    RootIsDir(fs);
    WalkOk(fs, ROOT_BLOCK, path, false);
    OpenIs(fs, task, path, create);
    ShapeOf(fs);
    var r := Walk(fs, ROOT_BLOCK, path, false);
    var k := FreeFd(fs.fds, task, 0);
    d, es := 0, [];
    if r.Found? {
      NothingGrows(fs, Opened(fs, r.ino, (task, k)));
      NothingGrows(fs, SetInode(fs, r.ino, fs.inodes[r.ino].(refcnt := fs.inodes[r.ino].refcnt + 1)));
    } else if Opens(fs, path, create) {
      d, es := r.dir, [Entry(|fs.inodes|, path[|path| - 1])];
      DirBlockOk(fs, d);
      CreateGrows(fs, d, path[|path| - 1], FILE, 1);
      CreateInode(fs, d, path[|path| - 1], FILE, 1);
      BoundGrows(fs, Create(fs, d, path[|path| - 1], FILE, 1), d, es, (task, k), File(|fs.inodes|, 0));
    } else {
      NothingGrows(fs, fs);
    }
  }

  lemma {:induction false} ShapeOf(fs: Fs)
    requires Inv(fs)
    ensures Shape(fs)
  {
  }

  lemma {:induction false} CreateInode(fs: Fs, d: nat, name: string, kind: Kind, refcnt: nat)
    requires d < |fs.blocks| && !Exhausted(fs)
    ensures var gs := Create(fs, d, name, kind, refcnt); var b := FreeBlock(fs.blocks, 0);
      && gs.inodes == fs.inodes + [Inode(refcnt, 1, false, kind, if kind == DIR then DIR_SIZE else 0, b)]
      && gs.fds == fs.fds
  {
    hide FreeBlock;
  }

  lemma {:induction false} BoundGrows(fs: Fs, gs: Fs, d: nat, es: seq<Entry>, f: Fd, file: File)
    requires Grows(fs, gs, NOWHERE, d, es)
    ensures Grows(fs, gs.(fds := gs.fds[f := file]), NOWHERE, d, es)
  {
    hide SonsGrow;
  }

  lemma {:induction false} MkdirGrows(fs: Fs, path: seq<string>) returns (d: nat, es: seq<Entry>)
    requires Inv(fs) && path != []
    ensures var r := Walk(fs, ROOT_BLOCK, path, true); var gs := Mkdir(fs, path).0;
      && Grows(fs, gs, NOWHERE, d, es)
      && (if r.Missing? && r.last && !Exhausted(fs)
          then d == r.dir && es == [Entry(|fs.inodes|, path[|path| - 1])] && |gs.inodes| == |fs.inodes| + 1
               && gs.inodes[|fs.inodes|].kind == DIR
          else es == [] && gs == fs)
  {
    hide Inv, Live, Links, DirBlock, Walk, FreeBlock, Exhausted, Grows, Create;
    RootIsDir(fs);
    WalkOk(fs, ROOT_BLOCK, path, true);
    ShapeOf(fs);
    var r := Walk(fs, ROOT_BLOCK, path, true);
    d, es := 0, [];
    if r.Missing? && r.last && !Exhausted(fs) {
      d, es := r.dir, [Entry(|fs.inodes|, path[|path| - 1])];
      DirBlockOk(fs, d);
      CreateGrows(fs, d, path[|path| - 1], DIR, 0);
      CreateInode(fs, d, path[|path| - 1], DIR, 0);
    } else {
      NothingGrows(fs, fs);
    }
  }

  lemma {:induction false} LinkGrows(fs: Fs, path: seq<string>, newPath: seq<string>) returns (d: nat, es: seq<Entry>)
    requires Inv(fs) && path != [] && newPath != []
    ensures var r := Walk(fs, ROOT_BLOCK, path, false); var gs := Link(fs, path, newPath).0;
      && Grows(fs, gs, NOWHERE, d, es) && |gs.inodes| == |fs.inodes|
      && (if WouldLink(fs, path, newPath) && HasRoom(fs, newPath)
          then Parent(fs, newPath) == Some(d) && r.ino < |fs.inodes| && es == [Entry(r.ino, newPath[|newPath| - 1])]
          else es == [])
  {
    hide Inv, Live, Links, DirBlock, Walk, Link, Parent, Grows;
    RootIsDir(fs);
    WalkOk(fs, ROOT_BLOCK, path, false);
    ParentOk(fs, newPath);
    LinkIs(fs, path, newPath);
    ShapeOf(fs);
    var r := Walk(fs, ROOT_BLOCK, path, false);
    d, es := 0, [];
    if WouldLink(fs, path, newPath) {
      if HasRoom(fs, newPath) {
        d, es := Parent(fs, newPath).value, [Entry(r.ino, newPath[|newPath| - 1])];
        DirBlockOk(fs, d);
        LinkedGrows(fs, r.ino, d, newPath[|newPath| - 1]);
      } else {
        NothingGrows(fs, Link(fs, path, newPath).0);
      }
    } else {
      NothingGrows(fs, fs);
    }
  }

  lemma {:induction false} UnlinkGrows(fs: Fs, path: seq<string>)
    requires Inv(fs) && path != []
    ensures var r := Walk(fs, ROOT_BLOCK, path, false); var gs := Unlink(fs, path).0;
      && (r.Found? ==> Grows(fs, gs, (r.dir, r.slot), 0, []) && FileSlot(fs, (r.dir, r.slot)))
      && (!r.Found? ==> gs == fs)
  {
    hide Inv, Live, Links, DirBlock, Walk, Unlink, Unlinked, Removed, Grows;
    RootIsDir(fs);
    WalkOk(fs, ROOT_BLOCK, path, false);
    UnlinkIs(fs, path);
    ShapeOf(fs);
    var r := Walk(fs, ROOT_BLOCK, path, false);
    if r.Found? {
      FileSons(fs, r.ino);
      UnlinkedGrows(fs, r.ino, r.dir, r.slot);
      RemovedGrows(fs, r.ino, r.dir, r.slot);
    }
  }

  lemma {:induction false} CloseGrows(fs: Fs, f: Fd)
    requires Inv(fs)
    ensures Grows(fs, Close(fs, f).0, NOWHERE, 0, [])
  {
    hide Inv, Live, Links, Refs, NodeOk, Close, Dropped, Grows;
    ShapeOf(fs);
    if f in fs.fds {
      FdFacts(fs, f);
      CloseIs(fs, f);
      if LastClose(fs, f) {
        FileSons(fs, fs.fds[f].ino);
        DroppedGrows(fs, f);
      } else {
        NothingGrows(fs, Closed(fs, f));
      }
    } else {
      CloseIs(fs, f);
      NothingGrows(fs, fs);
    }
  }

  // ---- where a name may be entered ----

  /** A walk that misses its last name has looked at the whole directory. */
  lemma {:induction false} MissedName(fs: Fs, b: nat, path: seq<string>, dirFlag: bool)
    requires Inv(fs) && DirBlock(fs, b) && path != []
    requires var r := Walk(fs, b, path, dirFlag); r.Missing? && r.last
    ensures var r := Walk(fs, b, path, dirFlag);
      r.dir < |fs.blocks| && Slot(fs.blocks[r.dir].sons, path[|path| - 1], 0) == |fs.blocks[r.dir].sons|
    decreases |path|
  {
    hide Inv, DirBlock, Live, Links, Slot, Walk;
    SlotFacts(fs, b, path[0]);
    if |path| == 1 {
      WalkLast(fs, b, path, dirFlag);
    } else {
      WalkDown(fs, b, path, dirFlag);
      MissedName(fs, fs.inodes[fs.blocks[b].sons[Slot(fs.blocks[b].sons, path[0], 0)].ino].file, path[1..], dirFlag);
    }
  }

  /** With the directory of a path at hand, its walk is that of the last name there. */
  lemma {:induction false} WalkFromParent(fs: Fs, path: seq<string>, dirFlag: bool)
    requires Inv(fs) && path != [] && Parent(fs, path).Some?
    ensures Walk(fs, ROOT_BLOCK, path, dirFlag) == Walk(fs, Parent(fs, path).value, [path[|path| - 1]], dirFlag)
  {
    hide Inv, DirBlock, Live, Links, Walk;
    RootIsDir(fs);
    if |path| > 1 {
      WalkThrough(fs, ROOT_BLOCK, path, dirFlag);
    } else {
      assert path == [path[0]];
    }
  }

  /** A path that leads to no file, in a directory that is there, is missing or names a directory. */
  lemma {:induction false} ParentOpen(fs: Fs, path: seq<string>)
    requires Inv(fs) && path != [] && Parent(fs, path).Some? && !Walk(fs, ROOT_BLOCK, path, false).Found?
    ensures var d := Parent(fs, path).value; var r := Walk(fs, ROOT_BLOCK, path, false);
      && NameOpen(fs, d, path[|path| - 1])
      && (r == Missing(d, true) || r == Refused)
      && (r.Missing? <==> Slot(fs.blocks[d].sons, path[|path| - 1], 0) == |fs.blocks[d].sons|)
  {
    hide Inv, DirBlock, Live, Links, Walk, Parent, Slot;
    var d := Parent(fs, path).value;
    ParentOk(fs, path);
    WalkFromParent(fs, path, false);
    SlotFacts(fs, d, path[|path| - 1]);
    WalkLast(fs, d, [path[|path| - 1]], false);
  }

  /** What a call did to the directories, whatever call it was. */
  lemma {:induction false} StepGrows(fs: Fs, op: Op) returns (hole: (nat, nat), d: nat, es: seq<Entry>)
    requires Inv(fs) && Legal(fs, op)
    ensures OpGrows(fs, op, hole, d, es)
  {
    hide Inv, DirBlock, Live, Links, Walk, Parent, Slot, Grows, FileSlot, NameOpen;
    hide Open, Mkdir, Link, Unlink, Close, Read, Write, Lseek, FreeFd, WouldLink, HasRoom, RoomFor, Exhausted;
    hole, d, es := NOWHERE, 0, [];
    NowhereIsFile(fs);
    RootIsDir(fs);
    match op
    case OpOpen(task, path, create) =>
      d, es := OpenGrows(fs, task, path, create);
      EnteredOpen(fs, path, false);
    case OpMkdir(path) =>
      d, es := MkdirGrows(fs, path);
      EnteredOpen(fs, path, true);
    case OpLink(path, newPath) =>
      d, es := LinkGrows(fs, path, newPath);
      if es != [] { LinkedOpen(fs, path, newPath); }
    case OpUnlink(path) =>
      UnlinkGrows(fs, path);
      var r := Walk(fs, ROOT_BLOCK, path, false);
      if r.Found? { hole := (r.dir, r.slot); } else { SameGrows(fs); }
    case OpClose(f) => CloseGrows(fs, f);
    case OpRead(f, n) =>
      SameGrows(fs);
      if Usable(fs, f) {
        ReadDelivers(fs, f, n);
        MovedGrows(fs, f, fs.fds[f].offset + |Read(fs, f, n).1|);
      }
    case OpWrite(f, buf) =>
      SameGrows(fs);
      if Usable(fs, f) {
        WriteIs(fs, f, buf);
        ShapeOf(fs);
        if fs.fds[f].offset + |buf| <= DATA { WrittenGrows(fs, f, buf); }
      }
    case OpLseek(f, offset, whence) =>
      SameGrows(fs);
      if Usable(fs, f) {
        LseekIs(fs, f, offset, whence);
        var t := Target(fs, f, offset, whence);
        if t.Some? { MovedGrows(fs, f, t.value); }
      }
  }

  lemma {:induction false} SameGrows(fs: Fs)
    requires Inv(fs)
    ensures Grows(fs, fs, NOWHERE, 0, [])
  {
    ShapeOf(fs);
    hide Inv;
    NothingGrows(fs, fs);
  }

  lemma {:induction false} MovedGrows(fs: Fs, f: Fd, offset: nat)
    requires Inv(fs) && f in fs.fds
    ensures Grows(fs, Moved(fs, f, offset), NOWHERE, 0, [])
  {
    ShapeOf(fs);
    hide Inv;
    NothingGrows(fs, Moved(fs, f, offset));
  }

  lemma {:induction false} EnteredOpen(fs: Fs, path: seq<string>, dirFlag: bool)
    requires Inv(fs) && path != []
    ensures var r := Walk(fs, ROOT_BLOCK, path, dirFlag);
      r.Missing? && r.last ==> NameOpen(fs, r.dir, path[|path| - 1]) && 0 < |fs.inodes|
  {
    hide DirBlock, Live, Links, Walk, Slot;
    RootIsDir(fs);
    var r := Walk(fs, ROOT_BLOCK, path, dirFlag);
    if r.Missing? && r.last { MissedName(fs, ROOT_BLOCK, path, dirFlag); }
  }

  lemma {:induction false} LinkedOpen(fs: Fs, path: seq<string>, newPath: seq<string>)
    requires Inv(fs) && path != [] && newPath != [] && WouldLink(fs, path, newPath) && HasRoom(fs, newPath)
    ensures NameOpen(fs, Parent(fs, newPath).value, newPath[|newPath| - 1])
    ensures Walk(fs, ROOT_BLOCK, path, false).ino > 0
  {
    hide Inv, DirBlock, Live, Links, Walk, Parent, NameOpen;
    RootIsDir(fs);
    WalkOk(fs, ROOT_BLOCK, path, false);
    ParentOpen(fs, newPath);
  }

  // ---- where paths lead after a call ----

  /** A path leads where it led, unless the call unlinked the very slot it ended at. */
  lemma {:induction false} PathsStay(fs: Fs, op: Op, path: seq<string>, dirFlag: bool)
    requires Inv(fs) && Legal(fs, op) && path != [] && Walk(fs, ROOT_BLOCK, path, dirFlag).Found?
    requires var r := Walk(fs, ROOT_BLOCK, path, dirFlag);
      op.OpUnlink? ==> !EndsAt(Walk(fs, ROOT_BLOCK, op.path, false), (r.dir, r.slot))
    ensures Walk(Do(fs, op), ROOT_BLOCK, path, dirFlag) == Walk(fs, ROOT_BLOCK, path, dirFlag)
  {
    hide Inv, DirBlock, Live, Links, Walk, Slot, Grows, FileSlot, NameOpen, Do, Legal;
    RootIsDir(fs);
    WalkOk(fs, ROOT_BLOCK, path, dirFlag);
    var hole, d, es := StepGrows(fs, op);
    var r := Walk(fs, ROOT_BLOCK, path, dirFlag);
    assert (r.dir, r.slot) != hole by {
      if (r.dir, r.slot) == NOWHERE { DirBlockOk(fs, r.dir); }
    }
    WalkStays(fs, Do(fs, op), hole, d, es, ROOT_BLOCK, path, dirFlag);
  }

  /** An open that returns a descriptor leaves its path leading to the inode of that
      descriptor: the one found, or the one created. */
  lemma {:induction false} OpenedPath(fs: Fs, task: nat, path: seq<string>, create: bool)
    requires Inv(fs) && path != []
    ensures var (gs, fd) := Open(fs, task, path, create); var r := Walk(gs, ROOT_BLOCK, path, false);
      fd.Some? && fd.value >= 0 ==> (task, fd.value) in gs.fds && r.Found? && r.ino == gs.fds[(task, fd.value)].ino
  {
    hide Inv, DirBlock, Live, Links, Walk, Slot, Grows, FileSlot, Create, FreeFd, Exhausted;
    RootIsDir(fs);
    WalkOk(fs, ROOT_BLOCK, path, false);
    var r := Walk(fs, ROOT_BLOCK, path, false);
    var (gs, fd) := Open(fs, task, path, create);
    var d, es := OpenGrows(fs, task, path, create);
    hide Open;
    NowhereIsFile(fs);
    OpenBinds(fs, task, path, create);
    if r.Found? {
      DirBlockOk(fs, r.dir);
      WalkStays(fs, gs, NOWHERE, d, es, ROOT_BLOCK, path, false);
    } else if r.Missing? && Opens(fs, path, create) {
      WalkFinds(fs, gs, d, es[0], ROOT_BLOCK, path, false);
    }
  }

  /** The descriptor an open returns is the lowest free one of the task, bound to the inode
      found or created, at the start; there is one unless all 256 are in use. */
  lemma {:induction false} OpenBinds(fs: Fs, task: nat, path: seq<string>, create: bool)
    requires Inv(fs) && path != []
    ensures var r := Walk(fs, ROOT_BLOCK, path, false); var (gs, fd) := Open(fs, task, path, create);
      var creates := r.Missing? && r.last && create;
      var full := forall b :: 0 <= b < |fs.blocks| ==> fs.blocks[b].occupied;
      && (fd == None <==> creates && (full || |fs.inodes| >= 110))
      && (!r.Found? && !creates ==> fd == Some(-1) && gs == fs)
      && (fd.Some? && fd.value >= 0 ==>
            && fd.value < 256 && (task, fd.value) !in fs.fds
            && (forall k :: 0 <= k < fd.value ==> (task, k) in fs.fds)
            && gs.fds == fs.fds[(task, fd.value) := File(if r.Found? then r.ino else |fs.inodes|, 0)])
      && (fd.Some? && fd.value < 0 ==>
            && fd.value == -1 && gs.fds == fs.fds
            && (r.Found? || creates ==> forall k :: 0 <= k < 256 ==> (task, k) in fs.fds))
  {
    hide Inv, DirBlock, Live, Links, Walk, Slot;
    RootIsDir(fs);
    WalkOk(fs, ROOT_BLOCK, path, false);
    var r := Walk(fs, ROOT_BLOCK, path, false);
    ExhaustedIs(fs);
    if r.Missing? && r.last && create && !Exhausted(fs) {
      CreateInode(fs, r.dir, path[|path| - 1], FILE, 1);
    }
    hide Create, Exhausted;
  }

  /** Nothing is left to create with when every block is occupied or 110 inodes exist. */
  lemma {:induction false} ExhaustedIs(fs: Fs)
    ensures Exhausted(fs) <==> (forall b :: 0 <= b < |fs.blocks| ==> fs.blocks[b].occupied) || |fs.inodes| >= 110
  {
  }

  /** A mkdir returns 1 exactly when its path leads to a directory afterwards, one found or
      one created; 0 when it does nothing; and does not return when it has nothing to create with. */
  lemma {:induction false} MadeDirectory(fs: Fs, path: seq<string>)
    requires Inv(fs) && path != []
    ensures var r := Walk(fs, ROOT_BLOCK, path, true); var (gs, ret) := Mkdir(fs, path);
      var creates := r.Missing? && r.last;
      var full := forall b :: 0 <= b < |fs.blocks| ==> fs.blocks[b].occupied;
      && (ret == None <==> creates && (full || |fs.inodes| >= 110))
      && (ret == Some(0) <==> !r.Found? && !creates)
      && (ret == Some(1) <==> Walk(gs, ROOT_BLOCK, path, true).Found?)
      && (ret == None || ret == Some(0) || ret == Some(1)) && (ret != Some(1) || r.Found? ==> gs == fs)
  {
    hide Inv, DirBlock, Live, Links, Walk, Slot, Grows, FileSlot, Create;
    RootIsDir(fs);
    WalkOk(fs, ROOT_BLOCK, path, true);
    ExhaustedIs(fs);
    hide Exhausted;
    var r := Walk(fs, ROOT_BLOCK, path, true);
    if r.Missing? && r.last && !Exhausted(fs) {
      var d, es := MkdirGrows(fs, path);
      WalkFinds(fs, Mkdir(fs, path).0, d, es[0], ROOT_BLOCK, path, true);
    }
  }

  /** A link returns 0 exactly when the old path leads to a file, the new one to none, and the
      directory of the new one is there. The new path then leads to the inode of the old one if
      and only if it led nowhere before and the directory has a free slot: where it named a
      directory, that comes first. */
  lemma {:induction false} LinkedPath(fs: Fs, path: seq<string>, newPath: seq<string>)
    requires Inv(fs) && path != [] && newPath != []
    ensures var r, q := Walk(fs, ROOT_BLOCK, path, false), Walk(fs, ROOT_BLOCK, newPath, false);
      var (gs, ret) := Link(fs, path, newPath); var p := Parent(fs, newPath);
      && (ret == 0 || ret == -1) && (ret == 0 <==> r.Found? && !q.Found? && p.Some?)
      && (ret == 0 && p.value < |fs.blocks| ==>
            && Walk(gs, ROOT_BLOCK, path, false) == r
            && var now := Walk(gs, ROOT_BLOCK, newPath, false);
               && (now.Found? <==> q.Missing? && |fs.blocks[p.value].sons| < 64)
               && (now.Found? ==> now.ino == r.ino))
  {
    hide Inv, DirBlock, Live, Links, Walk, Slot, Grows, FileSlot, Parent;
    RootIsDir(fs);
    WalkOk(fs, ROOT_BLOCK, path, false);
    ParentOk(fs, newPath);
    var r := Walk(fs, ROOT_BLOCK, path, false);
    var (gs, ret) := Link(fs, path, newPath);
    if ret == 0 {
      var d, es := LinkGrows(fs, path, newPath);
      hide Link;
      NowhereIsFile(fs);
      DirBlockOk(fs, r.dir);
      WalkStays(fs, gs, NOWHERE, d, es, ROOT_BLOCK, path, false);
      NewPath(fs, gs, newPath, d, es, r.ino);
    }
  }

  /** Where the new path of a link leads. */
  lemma {:induction false} NewPath(fs: Fs, gs: Fs, path: seq<string>, d: nat, es: seq<Entry>, i: nat)
    requires Inv(fs) && Grows(fs, gs, NOWHERE, d, es) && path != [] && Parent(fs, path).Some?
    requires !Walk(fs, ROOT_BLOCK, path, false).Found? && i < |fs.inodes| && fs.inodes[i].kind == FILE
    requires es == [] || (es == [Entry(i, path[|path| - 1])] && Parent(fs, path) == Some(d))
    ensures var q, now := Walk(fs, ROOT_BLOCK, path, false), Walk(gs, ROOT_BLOCK, path, false);
      (now.Found? <==> q.Missing? && es != []) && (now.Found? ==> now.ino == i)
  {
    hide Inv, DirBlock, Live, Links, Walk, Slot, Grows, FileSlot, Parent;
    RootIsDir(fs);
    ParentOk(fs, path);
    ParentOpen(fs, path);
    GrowsShape(fs, gs, NOWHERE, d, es);
    var q := Walk(fs, ROOT_BLOCK, path, false);
    if q.Missing? && es != [] {
      GrowsKind(fs, gs, NOWHERE, d, es, i);
      WalkFinds(fs, gs, d, es[0], ROOT_BLOCK, path, false);
    } else {
      WalkStaysOut(fs, gs, d, es, ROOT_BLOCK, path);
    }
  }

  lemma {:induction false} GrowsKind(fs: Fs, gs: Fs, hole: (nat, nat), d: nat, es: seq<Entry>, i: nat)
    requires Grows(fs, gs, hole, d, es) && i < |fs.inodes|
    ensures i < |gs.inodes| && gs.inodes[i].kind == fs.inodes[i].kind
  {
  }

  /** A walk to a file that is refused, or that misses with nothing entered, finds none afterwards. */
  lemma {:induction false} WalkStaysOut(fs: Fs, gs: Fs, d: nat, es: seq<Entry>, b: nat, path: seq<string>)
    requires Inv(fs) && Grows(fs, gs, NOWHERE, d, es) && DirBlock(fs, b) && path != []
    requires var r := Walk(fs, b, path, false); r.Refused? || (r.Missing? && es == [])
    ensures !Walk(gs, b, path, false).Found?
    decreases |path|
  {
    hide Inv, DirBlock, Live, Links, Slot, Grows, Walk;
    DirBlockOk(fs, b);
    NowhereIsFile(fs);
    GrowsShape(fs, gs, NOWHERE, d, es);
    SlotFacts(fs, b, path[0]);
    var s := Slot(fs.blocks[b].sons, path[0], 0);
    if |path| == 1 { WalkLast(fs, b, path, false); } else { WalkDown(fs, b, path, false); }
    if |path| == 1 { WalkLast(gs, b, path, false); } else { WalkDown(gs, b, path, false); }
    if s < |fs.blocks[b].sons| {
      SonStays(fs, gs, NOWHERE, d, es, b, path[0]);
      var i := fs.blocks[b].sons[s].ino;
      if |path| > 1 && fs.inodes[i].kind == DIR { WalkStaysOut(fs, gs, d, es, fs.inodes[i].file, path[1..]); }
      if |path| > 1 && fs.inodes[i].kind == FILE { NotThrough(gs, b, path); }
    } else {
      StillNone(fs, gs, d, b, path[0]);
    }
  }

  lemma {:induction false} NotThrough(fs: Fs, b: nat, path: seq<string>)
    requires |path| > 1 && b < |fs.blocks|
    requires Slot(fs.blocks[b].sons, path[0], 0) < |fs.blocks[b].sons|
    requires var i := fs.blocks[b].sons[Slot(fs.blocks[b].sons, path[0], 0)].ino;
      0 <= i < |fs.inodes| && fs.inodes[i].kind == FILE
    ensures !Walk(fs, b, path, false).Found?
  {
  }

  lemma {:induction false} StillNone(fs: Fs, gs: Fs, d: nat, b: nat, name: string)
    requires Grows(fs, gs, NOWHERE, d, []) && b < |fs.blocks|
    requires Slot(fs.blocks[b].sons, name, 0) == |fs.blocks[b].sons|
    ensures b < |gs.blocks| && Slot(gs.blocks[b].sons, name, 0) == |gs.blocks[b].sons|
  {
    hide Slot, SonsGrow;
    FirstStays(fs.blocks[b].sons, gs.blocks[b].sons, b, NOWHERE, [], name);
  }

  // ---- what an unlinked path leads to ----

  /** Slot k is in use and names a directory. */
  predicate DirSlot(fs: Fs, sons: seq<Entry>, k: nat) {
    k < |sons| && 0 <= sons[k].ino < |fs.inodes| && fs.inodes[sons[k].ino].kind == DIR
  }

  /** Two slots in use share a name only behind one that names a directory. */
  ghost predicate SonsOk(fs: Fs, sons: seq<Entry>) {
    forall s, u :: 0 <= s < u < |sons| && sons[s].ino != GONE && sons[u].ino != GONE && sons[s].name == sons[u].name ==>
      exists k: nat :: k <= s && DirSlot(fs, sons, k) && sons[k].name == sons[s].name
  }

  ghost predicate FirstWins(fs: Fs) {
    forall b :: 0 <= b < |fs.blocks| ==> SonsOk(fs, fs.blocks[b].sons)
  }

  /** The slot that shadows a name two slots share after a call. */
  lemma {:induction false} Shadow(fs: Fs, gs: Fs, hole: (nat, nat), d: nat, es: seq<Entry>, b: nat, s: nat, u: nat)
    returns (k: nat)
    requires Grows(fs, gs, hole, d, es) && FileSlot(fs, hole) && b < |fs.blocks| && SonsOk(fs, fs.blocks[b].sons)
    requires es != [] ==> |es| == 1 && NameOpen(fs, d, es[0].name)
    requires b < |gs.blocks| && s < u < |gs.blocks[b].sons|
    requires var now := gs.blocks[b].sons; now[s].ino != GONE && now[u].ino != GONE && now[s].name == now[u].name
    ensures var now := gs.blocks[b].sons; k <= s && DirSlot(gs, now, k) && now[k].name == now[s].name
  {
    var before, now := fs.blocks[b].sons, gs.blocks[b].sons;
    assert SonsGrow(before, now, b, hole, if b == d then es else []);
    assert s < |before| && before[s] == now[s];
    if u < |before| {
      assert before[u] == now[u];
      k :| k <= s && DirSlot(fs, before, k) && before[k].name == before[s].name;
    } else {
      assert b == d && now[u] == es[0];
      k := Slot(before, es[0].name, 0);
      assert k <= s;
    }
    assert (b, k) != hole;
    assert now[k] == before[k];
  }

  lemma {:induction false} SonsOkStep(fs: Fs, gs: Fs, hole: (nat, nat), d: nat, es: seq<Entry>, b: nat)
    requires Grows(fs, gs, hole, d, es) && FileSlot(fs, hole) && b < |fs.blocks| && SonsOk(fs, fs.blocks[b].sons)
    requires es != [] ==> |es| == 1 && NameOpen(fs, d, es[0].name)
    ensures b < |gs.blocks| && SonsOk(gs, gs.blocks[b].sons)
  {
    hide Grows, FileSlot, NameOpen, DirSlot;
    GrowsShape(fs, gs, hole, d, es);
    var now := gs.blocks[b].sons;
    forall s: nat, u: nat | s < u < |now| && now[s].ino != GONE && now[u].ino != GONE && now[s].name == now[u].name
      ensures exists k: nat :: k <= s && DirSlot(gs, now, k) && now[k].name == now[s].name
    {
      var k := Shadow(fs, gs, hole, d, es, b, s, u);
    }
  }

  lemma {:induction false} FirstWinsStep(fs: Fs, op: Op)
    requires Inv(fs) && FirstWins(fs) && Legal(fs, op)
    ensures FirstWins(Do(fs, op))
  {
    hide Inv, Do, Legal, Grows, FileSlot, NameOpen, SonsOk;
    var hole, d, es := StepGrows(fs, op);
    GrowsShape(fs, Do(fs, op), hole, d, es);
    forall b | 0 <= b < |fs.blocks| ensures SonsOk(Do(fs, op), Do(fs, op).blocks[b].sons) {
      SonsOkStep(fs, Do(fs, op), hole, d, es, b);
    }
  }

  lemma {:induction false} RunFirstWins(fs: Fs, ops: seq<Op>)
    requires Inv(fs) && FirstWins(fs) && LegalRun(fs, ops)
    ensures FirstWins(Run(fs, ops))
    decreases ops
  {
    hide Inv, FirstWins, Legal, Do;
    if ops != [] {
      StepKeeps(fs, ops[0]);
      FirstWinsStep(fs, ops[0]);
      RunFirstWins(Do(fs, ops[0]), ops[1..]);
    }
  }

  lemma {:induction false} InitialFirstWins(n: nat)
    requires n >= 2
    ensures FirstWins(Initial(n))
  {
  }

  /** The first slot of a name drops, and none of that name is left. */
  lemma {:induction false} LastOfName(fs: Fs, gs: Fs, b: nat, s: nat)
    requires b < |fs.blocks| && SonsOk(fs, fs.blocks[b].sons) && Grows(fs, gs, (b, s), 0, [])
    requires var sons := fs.blocks[b].sons;
      && s < |sons| && Slot(sons, sons[s].name, 0) == s
      && 0 <= sons[s].ino < |fs.inodes| && fs.inodes[sons[s].ino].kind == FILE
    ensures b < |gs.blocks| && Slot(gs.blocks[b].sons, fs.blocks[b].sons[s].name, 0) == |gs.blocks[b].sons|
  {
    var sons, now := fs.blocks[b].sons, gs.blocks[b].sons;
    var name := sons[s].name;
    assert SonsGrow(sons, now, b, (b, s), []);
    assert !exists k: nat :: k <= s && DirSlot(fs, sons, k) && sons[k].name == name;
    forall u: nat | u < |now| ensures now[u].ino == GONE || now[u].name != name {
      assert u != s ==> now[u] == sons[u];
    }
    SlotNamed(now, name, 0);
  }

  /** A walk to the dropped slot misses its last name. */
  lemma {:induction false} WalkLoses(fs: Fs, gs: Fs, b: nat, path: seq<string>)
    requires Inv(fs) && FirstWins(fs) && DirBlock(fs, b) && path != []
    requires var r := Walk(fs, b, path, false);
      r.Found? && Grows(fs, gs, (r.dir, r.slot), 0, []) && FileSlot(fs, (r.dir, r.slot))
    ensures Walk(gs, b, path, false) == Missing(Walk(fs, b, path, false).dir, true)
    decreases |path|
  {
    hide Inv, DirBlock, Live, Links, Slot, Grows, Walk, SonsOk;
    DirBlockOk(fs, b);
    var r := Walk(fs, b, path, false);
    var hole := (r.dir, r.slot);
    GrowsShape(fs, gs, hole, 0, []);
    SlotFacts(fs, b, path[0]);
    if |path| == 1 {
      WalkLast(fs, b, path, false);
      LastOfName(fs, gs, b, r.slot);
      WalkLast(gs, b, path, false);
    } else {
      WalkDown(fs, b, path, false);
      SonStays(fs, gs, hole, 0, [], b, path[0]);
      WalkDown(gs, b, path, false);
      WalkLoses(fs, gs, fs.inodes[fs.blocks[b].sons[Slot(fs.blocks[b].sons, path[0], 0)].ino].file, path[1..]);
    }
  }

  /** An unlink returns 0 exactly when its path leads to a file, takes that one name away from
      its inode and no other, and the path leads nowhere then. */
  lemma {:induction false} UnlinkedPath(fs: Fs, path: seq<string>)
    requires Inv(fs) && FirstWins(fs) && path != []
    ensures var r := Walk(fs, ROOT_BLOCK, path, false); var (gs, ret) := Unlink(fs, path);
      && (if r.Found? then ret == 0 && Walk(gs, ROOT_BLOCK, path, false) == Missing(r.dir, true)
          else ret == -1 && gs == fs)
      && (r.Found? ==> forall j: nat :: Links(gs, j) == Links(fs, j) - {(r.dir, r.slot)} && Refs(gs, j) == Refs(fs, j))
  {
    hide Inv, DirBlock, Live, Links, Refs, Walk, Slot, Grows, FileSlot, FirstWins, Removed, Unlinked;
    RootIsDir(fs);
    WalkOk(fs, ROOT_BLOCK, path, false);
    UnlinkGrows(fs, path);
    UnlinkIs(fs, path);
    var r := Walk(fs, ROOT_BLOCK, path, false);
    if r.Found? {
      WalkLoses(fs, Unlink(fs, path).0, ROOT_BLOCK, path);
      forall j: nat
        ensures var gs := Unlink(fs, path).0;
          Links(gs, j) == Links(fs, j) - {(r.dir, r.slot)} && Refs(gs, j) == Refs(fs, j)
      {
        LinksRemoved(fs, r.ino, r.dir, r.slot, j);
        LinksUnlinked(fs, r.ino, r.dir, r.slot, j);
      }
    }
  }

  // ---- over whole runs ----

  /** No call of the run unlinks the slot `at`. */
  predicate NeverUnlinked(fs: Fs, ops: seq<Op>, at: (nat, nat))
    requires LegalRun(fs, ops)
    decreases ops
  {
    ops != [] ==>
      && (ops[0].OpUnlink? ==> !EndsAt(Walk(fs, ROOT_BLOCK, ops[0].path, false), at))
      && NeverUnlinked(Do(fs, ops[0]), ops[1..], at)
  }

  lemma {:induction false} PathStaysOver(fs: Fs, ops: seq<Op>, path: seq<string>, dirFlag: bool)
    requires Inv(fs) && LegalRun(fs, ops) && path != []
    requires var r := Walk(fs, ROOT_BLOCK, path, dirFlag); r.Found? && NeverUnlinked(fs, ops, (r.dir, r.slot))
    ensures Walk(Run(fs, ops), ROOT_BLOCK, path, dirFlag) == Walk(fs, ROOT_BLOCK, path, dirFlag)
    decreases ops
  {
    hide Inv, Walk, Legal, Do;
    if ops != [] {
      StepKeeps(fs, ops[0]);
      PathsStay(fs, ops[0], path, dirFlag);
      PathStaysOver(Do(fs, ops[0]), ops[1..], path, dirFlag);
    }
  }

  /** A path found after any run from an empty device leads to the same inode after any further
      run, as long as no unlink takes away the slot it ends at. */
  lemma {:induction false} PathsLast(n: nat, past: seq<Op>, ops: seq<Op>, path: seq<string>, dirFlag: bool)
    requires n >= 2 && LegalRun(Initial(n), past) && LegalRun(Run(Initial(n), past), ops) && path != []
    requires var fs := Run(Initial(n), past); var r := Walk(fs, ROOT_BLOCK, path, dirFlag);
      r.Found? && NeverUnlinked(fs, ops, (r.dir, r.slot))
    ensures var fs := Run(Initial(n), past);
      Walk(Run(fs, ops), ROOT_BLOCK, path, dirFlag) == Walk(fs, ROOT_BLOCK, path, dirFlag)
  {
    hide Inv, Walk, Run, LegalRun, NeverUnlinked, Initial;
    InitialInv(n);
    RunKeeps(Initial(n), past);
    PathStaysOver(Run(Initial(n), past), ops, path, dirFlag);
  }

  /** After any run from an empty device, a path just unlinked leads nowhere, although the slots
      of its directory may have held the name more than once. */
  lemma {:induction false} UnlinkedIsGone(n: nat, ops: seq<Op>, path: seq<string>)
    requires n >= 2 && LegalRun(Initial(n), ops) && path != []
    ensures var fs := Run(Initial(n), ops); var (gs, ret) := Unlink(fs, path);
      && (ret == 0 <==> Walk(fs, ROOT_BLOCK, path, false).Found?)
      && (ret == 0 ==> Walk(gs, ROOT_BLOCK, path, false).Missing?)
  {
    hide Inv, FirstWins, Walk, Run, LegalRun, Initial, Unlink, Links, Refs;
    InitialInv(n);
    InitialFirstWins(n);
    RunKeeps(Initial(n), ops);
    RunFirstWins(Initial(n), ops);
    UnlinkedPath(Run(Initial(n), ops), path);
  }
}
