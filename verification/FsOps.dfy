/** The calls of the block file system against its invariant, and the two that can
    break it: exactly when they do. */
module FsOps {
  import opened Options
  import opened Bytes
  import opened FsModel
  import opened FsInv
  import OsFiles

  // ---- opening ----

  /** Inode i gains the descriptor f. */
  function Opened(fs: Fs, i: nat, f: Fd): Fs
    requires i < |fs.inodes|
  {
    var n := fs.inodes[i];
    var up := SetInode(fs, i, n.(refcnt := n.refcnt + 1));
    up.(fds := up.fds[f := File(i, 0)])
  }

  lemma {:induction false} RefsOpened(fs: Fs, i: nat, f: Fd, j: int)
    requires i < |fs.inodes| && f !in fs.fds
    ensures f !in Refs(fs, j)
    ensures Refs(Opened(fs, i, f), j) == if i == j then Refs(fs, j) + {f} else Refs(fs, j)
    ensures Links(Opened(fs, i, f), j) == Links(fs, j)
  {
    LinksSame(fs, Opened(fs, i, f), j);
    hide Links;
  }

  lemma {:induction false} OpenedNode(fs: Fs, i: nat, f: Fd)
    requires i < |fs.inodes| && NodeOk(fs, i) && Live(fs, i) && fs.inodes[i].kind == FILE && f !in fs.fds
    ensures var gs := Opened(fs, i, f); NodeOk(gs, i) && Live(gs, i) && Touches(fs, gs, i)
  {
    var gs := Opened(fs, i, f);
    forall j | 0 <= j < |fs.inodes| && j != i ensures SameNode(fs, gs, j) { RefsOpened(fs, i, f, j); }
    RefsOpened(fs, i, f, i);
    hide Links, Refs, SameNode;
    assert f in Refs(gs, i);
  }

  lemma {:induction false} OpenedShape(fs: Fs, i: nat, f: Fd)
    requires Shape(fs) && NamesOk(fs) && 0 < i < |fs.inodes| && fs.inodes[i].kind == FILE
    ensures var gs := Opened(fs, i, f); Shape(gs) && NamesOk(gs)
  {
  }

  lemma {:induction false} OpenedKeeps(fs: Fs, i: nat, f: Fd)
    requires Inv(fs) && 0 < i < |fs.inodes| && Live(fs, i) && fs.inodes[i].kind == FILE && f !in fs.fds
    ensures Inv(Opened(fs, i, f))
  {
    hide Live, DirBlock, NodeOk, Touches;
    RootIsDir(fs);
    OpenedNode(fs, i, f);
    OpenedShape(fs, i, f);
    hide Inv, Shape, NamesOk;
    NodeStep(fs, Opened(fs, i, f), i, ROOT_BLOCK);
  }

  /** Bumping a count without a descriptor or an entry breaks the invariant. */
  lemma {:induction false} BumpBreaks(fs: Fs, i: nat, n: Inode)
    requires Inv(fs) && i < |fs.inodes| && Live(fs, i) && fs.inodes[i].kind == FILE == n.kind
    requires n.refcnt == fs.inodes[i].refcnt + 1 || n.linkcnt == fs.inodes[i].linkcnt + 1
    ensures !Inv(SetInode(fs, i, n))
  {
    var gs := SetInode(fs, i, n);
    LinksSame(fs, gs, i);
    assert Refs(gs, i) == Refs(fs, i);
    hide Links, Refs;
    assert NodeOk(fs, i) && !NodeOk(gs, i);
    hide NodeOk;
  }

  // ---- creating ----

  lemma {:induction false} Created(fs: Fs, d: nat, name: string, kind: Kind, refcnt: nat) returns (n: Inode, b: nat)
    requires Inv(fs) && DirBlock(fs, d) && d < |fs.blocks| && !Exhausted(fs)
    ensures b == FreeBlock(fs.blocks, 0) && n == Inode(refcnt, 1, false, kind, if kind == DIR then DIR_SIZE else 0, b)
    ensures Birth(fs, Create(fs, d, name, kind, refcnt), n, b, d)
  {
    hide Inv, FreeBlock, DirBlock, Links, Refs, Create;
    DirBlockOk(fs, d);
    b := FreeBlock(fs.blocks, 0);
    n := Inode(refcnt, 1, false, kind, if kind == DIR then DIR_SIZE else 0, b);
    var gs := Create(fs, d, name, kind, refcnt);
    FreeIsBlank(fs, b);
    CreatedBlocks(fs, d, name, kind, refcnt);
    forall j | 0 <= j < |fs.inodes| ensures SameNode(fs, gs, j) {
      CreateLinks(fs, d, name, kind, refcnt, j);
    }
    hide SameNode;
  }

  lemma {:induction false} FreeIsBlank(fs: Fs, b: nat)
    requires Inv(fs) && b < |fs.blocks| && !fs.blocks[b].occupied
    ensures fs.blocks[b] == BLANK
  {
  }

  lemma {:induction false} CreatedBlocks(fs: Fs, d: nat, name: string, kind: Kind, refcnt: nat)
    requires d < |fs.blocks| && fs.blocks[d].occupied && !Exhausted(fs)
    ensures var gs := Create(fs, d, name, kind, refcnt); var b := FreeBlock(fs.blocks, 0);
      && SameBlocks(fs, gs, b, d) && gs.blocks[b] == fs.blocks[b].(occupied := true)
      && gs.inodes == fs.inodes + [Inode(refcnt, 1, false, kind, if kind == DIR then DIR_SIZE else 0, b)]
  {
    hide FreeBlock;
  }

  lemma {:induction false} CreateLinks(fs: Fs, d: nat, name: string, kind: Kind, refcnt: nat, j: nat)
    requires d < |fs.blocks| && !Exhausted(fs)
    ensures var gs := Create(fs, d, name, kind, refcnt); var at := (d, |fs.blocks[d].sons|);
      && Links(gs, j) == (if j == |fs.inodes| then Links(fs, j) + {at} else Links(fs, j)) && at !in Links(fs, j)
      && Refs(gs, j) == Refs(fs, j)
  {
    var b := FreeBlock(fs.blocks, 0);
    var mid := Fs(fs.inodes, fs.blocks[b := fs.blocks[b].(occupied := true)], fs.fds);
    LinksSame(fs, mid, j);
    LinksAdded(mid, d, Entry(|fs.inodes|, name), j);
    var gs := Create(fs, d, name, kind, refcnt);
    hide FreeBlock;
    LinksSame(AddEntry(mid, d, Entry(|fs.inodes|, name)), gs, j);
  }

  lemma {:induction false} FreshUnnamed(fs: Fs)
    requires NamesOk(fs)
    ensures Links(fs, |fs.inodes|) == {} && Refs(fs, |fs.inodes|) == {}
  {
    assert GONE != |fs.inodes|;
  }

  lemma {:induction false} CreatedShape(fs: Fs, d: nat, name: string, kind: Kind, refcnt: nat)
    requires Shape(fs) && NamesOk(fs) && 0 < d < |fs.blocks| && !Exhausted(fs)
    ensures var gs := Create(fs, d, name, kind, refcnt); Shape(gs) && NamesOk(gs)
  {
    hide FreeBlock;
    var gs := Create(fs, d, name, kind, refcnt);
    forall b, s | 0 <= b < |gs.blocks| && 0 <= s < |gs.blocks[b].sons|
      ensures gs.blocks[b].sons[s].ino == GONE || 0 < gs.blocks[b].sons[s].ino < |gs.inodes|
    {
      if s < |fs.blocks[b].sons| { assert gs.blocks[b].sons[s] == fs.blocks[b].sons[s]; }
    }
  }

  /** A new directory. */
  lemma {:induction false} MkdirKeeps(fs: Fs, d: nat, name: string)
    requires Inv(fs) && DirBlock(fs, d) && d < |fs.blocks| && !Exhausted(fs)
    ensures Inv(Create(fs, d, name, DIR, 0))
  {
    var gs := Create(fs, d, name, DIR, 0);
    DirBlockOk(fs, d);
    CreatedShape(fs, d, name, DIR, 0);
    var n, b := Created(fs, d, name, DIR, 0);
    CreateLinks(fs, d, name, DIR, 0, |fs.inodes|);
    BirthOccupied(fs, gs, n, b, d);
    assert (d, |fs.blocks[d].sons|) in Links(gs, |fs.inodes|);
    hide Inv, Shape, NamesOk, Create, DirBlock, Birth, Links;
    assert NodeOk(gs, |fs.inodes|) && Live(gs, |fs.inodes|);
    BirthStep(fs, gs, n, b, d);
  }

  lemma {:induction false} BirthOccupied(fs: Fs, gs: Fs, n: Inode, b: nat, d: nat)
    requires Inv(fs) && Birth(fs, gs, n, b, d)
    ensures b > 0 && |gs.inodes| == |fs.inodes| + 1 && gs.inodes[|fs.inodes|] == n && |gs.blocks| == |fs.blocks|
    ensures b < |gs.blocks| && gs.blocks[b] == BLANK.(occupied := true)
  {
  }

  /** A new file with the descriptor that created it. */
  function CreatedOpen(fs: Fs, d: nat, name: string, f: Fd): Fs
    requires d < |fs.blocks| && !Exhausted(fs)
  {
    var gs := Create(fs, d, name, FILE, 1);
    gs.(fds := gs.fds[f := File(|fs.inodes|, 0)])
  }

  lemma {:induction false} CreatedOpenNode(fs: Fs, d: nat, name: string, f: Fd)
    requires Inv(fs) && DirBlock(fs, d) && d < |fs.blocks| && !Exhausted(fs) && f !in fs.fds
    ensures var gs := CreatedOpen(fs, d, name, f); var i := |fs.inodes|;
      i < |gs.inodes| && |Links(gs, i)| == 1 && |Refs(gs, i)| == 1
    ensures var gs := CreatedOpen(fs, d, name, f);
      forall j :: 0 <= j < |fs.inodes| ==> Links(gs, j) == Links(fs, j) && Refs(gs, j) == Refs(fs, j)
  {
    var mid := Create(fs, d, name, FILE, 1);
    var gs := CreatedOpen(fs, d, name, f);
    FreshUnnamed(fs);
    forall j | 0 <= j <= |fs.inodes|
      ensures Links(gs, j) == (if j == |fs.inodes| then Links(fs, j) + {(d, |fs.blocks[d].sons|)} else Links(fs, j))
      ensures Refs(gs, j) == if j == |fs.inodes| then Refs(fs, j) + {f} else Refs(fs, j)
    {
      CreateLinks(fs, d, name, FILE, 1, j);
      LinksSame(mid, gs, j);
      RefsAdded(mid, f, File(|fs.inodes|, 0), j);
    }
    hide Links, Refs, Inv, Create, DirBlock;
  }

  lemma {:induction false} CreatedOpenShape(fs: Fs, d: nat, name: string, f: Fd)
    requires Shape(fs) && NamesOk(fs) && 0 < d < |fs.blocks| && !Exhausted(fs)
    ensures var gs := CreatedOpen(fs, d, name, f); Shape(gs) && NamesOk(gs)
  {
    CreatedShape(fs, d, name, FILE, 1);
    var mid := Create(fs, d, name, FILE, 1);
    assert mid.fds == fs.fds && mid.inodes[|fs.inodes|].kind == FILE && |mid.inodes| == |fs.inodes| + 1;
    hide Create, FreeBlock;
  }

  lemma {:induction false} SameBytesBlocks(fs: Fs, mid: Fs, gs: Fs, b: int, d: nat)
    requires SameBlocks(fs, mid, b, d) && gs.blocks == mid.blocks
    ensures SameBlocks(fs, gs, b, d)
  {
  }

  lemma {:induction false} CreatedOpenBirth(fs: Fs, d: nat, name: string, f: Fd) returns (n: Inode, b: nat)
    requires Inv(fs) && DirBlock(fs, d) && d < |fs.blocks| && !Exhausted(fs) && f !in fs.fds
    ensures var gs := CreatedOpen(fs, d, name, f);
      && Birth(fs, gs, n, b, d) && 0 < b < |gs.blocks| && gs.blocks[b] == BLANK.(occupied := true)
      && |gs.inodes| == |fs.inodes| + 1 && gs.inodes[|fs.inodes|] == n == Inode(1, 1, false, FILE, 0, b)
  {
    hide Create, FreeBlock, Exhausted, Links, Refs, Inv, DirBlock, SameBlocks;
    var mid := Create(fs, d, name, FILE, 1);
    var gs := CreatedOpen(fs, d, name, f);
    n, b := Created(fs, d, name, FILE, 1);
    CreatedOpenNode(fs, d, name, f);
    BirthOccupied(fs, mid, n, b, d);
    assert gs.inodes == mid.inodes && gs.blocks == mid.blocks;
    hide CreatedOpen;
    SameBytesBlocks(fs, mid, gs, b, d);
  }

  lemma {:induction false} CreateOpenKeeps(fs: Fs, d: nat, name: string, f: Fd)
    requires Inv(fs) && DirBlock(fs, d) && d < |fs.blocks| && !Exhausted(fs) && f !in fs.fds
    ensures Inv(CreatedOpen(fs, d, name, f))
  {
    var gs := CreatedOpen(fs, d, name, f);
    DirBlockOk(fs, d);
    CreatedOpenShape(fs, d, name, f);
    CreatedOpenNode(fs, d, name, f);
    var n, b := CreatedOpenBirth(fs, d, name, f);
    hide Inv, Shape, NamesOk, DirBlock, Links, Refs, CreatedOpen, FreeBlock, Exhausted, Birth;
    assert NodeOk(gs, |fs.inodes|) && Live(gs, |fs.inodes|);
    BirthStep(fs, gs, n, b, d);
  }

  /** A new file whose creator gets no descriptor has one reference too many. */
  lemma {:induction false} UnboundBreaks(fs: Fs, d: nat, name: string)
    requires Inv(fs) && DirBlock(fs, d) && d < |fs.blocks| && !Exhausted(fs)
    ensures !Inv(Create(fs, d, name, FILE, 1))
  {
    var gs := Create(fs, d, name, FILE, 1);
    FreshUnnamed(fs);
    CreateLinks(fs, d, name, FILE, 1, |fs.inodes|);
    assert (d, |fs.blocks[d].sons|) in Links(gs, |fs.inodes|);
    hide Links, Refs;
    assert !NodeOk(gs, |fs.inodes|);
    hide NodeOk;
  }

  // ---- vfs_open ----

  /** The path leads to a file, or `create` makes one. */
  predicate Opens(fs: Fs, path: seq<string>, create: bool)
    requires path != []
  {
    var r := Walk(fs, ROOT_BLOCK, path, false);
    r.Found? || (r.Missing? && create && r.last && !Exhausted(fs))
  }

  /** The four outcomes of an open that changes something. */
  lemma {:induction false} OpenIs(fs: Fs, task: nat, path: seq<string>, create: bool)
    requires path != []
    ensures var r := Walk(fs, ROOT_BLOCK, path, false); var k := FreeFd(fs.fds, task, 0);
      var gs := Open(fs, task, path, create).0;
      && (!Opens(fs, path, create) ==> gs == fs)
      && (r.Found? && r.ino < |fs.inodes| ==>
            gs == if k < NR_FILE then Opened(fs, r.ino, (task, k))
            else SetInode(fs, r.ino, fs.inodes[r.ino].(refcnt := fs.inodes[r.ino].refcnt + 1)))
      && (r.Missing? && Opens(fs, path, create) && r.dir < |fs.blocks| ==>
            gs == if k < NR_FILE then CreatedOpen(fs, r.dir, path[|path| - 1], (task, k))
            else Create(fs, r.dir, path[|path| - 1], FILE, 1))
  {
    hide Walk, FreeFd, FreeBlock;
  }

  /** The reference of an open that gets no descriptor. */
  lemma {:induction false} BumpedRef(fs: Fs, i: nat)
    requires Inv(fs) && i < |fs.inodes| && Live(fs, i) && fs.inodes[i].kind == FILE
    ensures !Inv(SetInode(fs, i, fs.inodes[i].(refcnt := fs.inodes[i].refcnt + 1)))
  {
    hide Inv, Live, SetInode;
    BumpBreaks(fs, i, fs.inodes[i].(refcnt := fs.inodes[i].refcnt + 1));
  }

  /** What an open of a path comes to, once the walk is done. */
  lemma {:induction false} OpenFoundIff(fs: Fs, task: nat, i: nat, k: nat)
    requires Inv(fs) && 0 < i < |fs.inodes| && Live(fs, i) && fs.inodes[i].kind == FILE
    requires k < NR_FILE ==> (task, k) !in fs.fds
    ensures var bumped := SetInode(fs, i, fs.inodes[i].(refcnt := fs.inodes[i].refcnt + 1));
      Inv(if k < NR_FILE then Opened(fs, i, (task, k)) else bumped) <==> k < NR_FILE
  {
    hide Inv, Live, SetInode, Opened;
    if k < NR_FILE { OpenedKeeps(fs, i, (task, k)); } else { BumpedRef(fs, i); }
  }

  lemma {:induction false} OpenCreateIff(fs: Fs, task: nat, d: nat, name: string, k: nat)
    requires Inv(fs) && DirBlock(fs, d) && d < |fs.blocks| && !Exhausted(fs)
    requires k < NR_FILE ==> (task, k) !in fs.fds
    ensures var unbound := Create(fs, d, name, FILE, 1);
      Inv(if k < NR_FILE then CreatedOpen(fs, d, name, (task, k)) else unbound) <==> k < NR_FILE
  {
    hide Inv, DirBlock, Create, CreatedOpen, Exhausted;
    if k < NR_FILE { CreateOpenKeeps(fs, d, name, (task, k)); } else { UnboundBreaks(fs, d, name); }
  }

  /** `vfs_open` keeps the counts exact if and only if the task has a free descriptor
      for what it opens: the reference is counted before one is looked for. */
  lemma {:induction false} OpenKeepsIff(fs: Fs, task: nat, path: seq<string>, create: bool)
    requires Inv(fs) && path != []
    ensures Inv(Open(fs, task, path, create).0) <==> (Opens(fs, path, create) ==> FreeFd(fs.fds, task, 0) < NR_FILE)
  {
    hide Walk, Inv, Live, Links, DirBlock, FreeFd, Exhausted, FreeBlock, Open, Opened, Create, CreatedOpen, SetInode;
    RootIsDir(fs);
    WalkOk(fs, ROOT_BLOCK, path, false);
    OpenIs(fs, task, path, create);
    var r := Walk(fs, ROOT_BLOCK, path, false);
    var k := FreeFd(fs.fds, task, 0);
    if r.Found? {
      OpenFoundIff(fs, task, r.ino, k);
    } else if Opens(fs, path, create) {
      OpenCreateIff(fs, task, r.dir, path[|path| - 1], k);
    }
  }

  // ---- vfs_link ----

  /** Inode i gains an entry in directory d. */
  function Linked(fs: Fs, i: nat, d: nat, name: string): Fs
    requires i < |fs.inodes| && d < |fs.blocks|
  {
    AddEntry(SetInode(fs, i, fs.inodes[i].(linkcnt := fs.inodes[i].linkcnt + 1)), d, Entry(i, name))
  }

  lemma {:induction false} LinksLinked(fs: Fs, i: nat, d: nat, name: string, j: int)
    requires i < |fs.inodes| && d < |fs.blocks|
    ensures var gs := Linked(fs, i, d, name); var at := (d, |fs.blocks[d].sons|);
      && Links(gs, j) == (if j == i then Links(fs, j) + {at} else Links(fs, j)) && at !in Links(fs, j)
      && Refs(gs, j) == Refs(fs, j)
  {
    var mid := SetInode(fs, i, fs.inodes[i].(linkcnt := fs.inodes[i].linkcnt + 1));
    LinksSame(fs, mid, j);
    LinksAdded(mid, d, Entry(i, name), j);
  }

  lemma {:induction false} LinkedNode(fs: Fs, i: nat, d: nat, name: string)
    requires i < |fs.inodes| && d < |fs.blocks| && NodeOk(fs, i) && Live(fs, i) && fs.inodes[i].kind == FILE
    requires fs.inodes[i].file != d && Links(fs, i) != {}
    ensures var gs := Linked(fs, i, d, name); NodeOk(gs, i) && Live(gs, i) && Touches(fs, gs, i)
  {
    var gs := Linked(fs, i, d, name);
    forall j | 0 <= j < |fs.inodes| && j != i ensures SameNode(fs, gs, j) { LinksLinked(fs, i, d, name, j); }
    LinksLinked(fs, i, d, name, i);
    hide Links, Refs, SameNode;
  }

  lemma {:induction false} LinkedShape(fs: Fs, i: nat, d: nat, name: string)
    requires Shape(fs) && NamesOk(fs) && 0 < i < |fs.inodes| && 0 < d < |fs.blocks| && fs.inodes[i].kind == FILE
    ensures var gs := Linked(fs, i, d, name); Shape(gs) && NamesOk(gs) && SameBlocks(fs, gs, fs.inodes[i].file, d)
  {
    var gs := Linked(fs, i, d, name);
    forall b, s | 0 <= b < |gs.blocks| && 0 <= s < |gs.blocks[b].sons|
      ensures gs.blocks[b].sons[s].ino == GONE || 0 < gs.blocks[b].sons[s].ino < |gs.inodes|
    {
      if s < |fs.blocks[b].sons| { assert gs.blocks[b].sons[s] == fs.blocks[b].sons[s]; }
    }
  }

  lemma {:induction false} LinkedKeeps(fs: Fs, i: nat, d: nat, name: string)
    requires Inv(fs) && 0 < i < |fs.inodes| && Live(fs, i) && fs.inodes[i].kind == FILE && Links(fs, i) != {}
    requires DirBlock(fs, d) && d < |fs.blocks|
    ensures Inv(Linked(fs, i, d, name))
  {
    assert NodeOk(fs, i);
    hide Live, DirBlock, NodeOk, Touches, SameBlocks, Links;
    DirBlockOk(fs, d);
    FileIsNotDir(fs, i, d);
    LinkedNode(fs, i, d, name);
    LinkedShape(fs, i, d, name);
    hide Inv, Shape, NamesOk;
    NodeStep(fs, Linked(fs, i, d, name), i, d);
  }

  /** The new path leads to no file, though maybe to a directory, and the old one leads
      to a file. */
  predicate WouldLink(fs: Fs, path: seq<string>, newPath: seq<string>)
    requires path != [] && newPath != []
  {
    !Walk(fs, ROOT_BLOCK, newPath, false).Found? && Walk(fs, ROOT_BLOCK, path, false).Found?
  }

  /** The directory of the path is there and has a slot left. */
  predicate HasRoom(fs: Fs, path: seq<string>)
    requires path != []
  {
    var d := Parent(fs, path);
    d.Some? && d.value < |fs.blocks| && |fs.blocks[d.value].sons| < MAX_SONS
  }

  lemma {:induction false} LinkIs(fs: Fs, path: seq<string>, newPath: seq<string>)
    requires path != [] && newPath != []
    ensures var gs := Link(fs, path, newPath).0; var r := Walk(fs, ROOT_BLOCK, path, false);
      && (!WouldLink(fs, path, newPath) ==> gs == fs)
      && (WouldLink(fs, path, newPath) && r.ino < |fs.inodes| ==>
            gs == if HasRoom(fs, newPath) then Linked(fs, r.ino, Parent(fs, newPath).value, newPath[|newPath| - 1])
            else SetInode(fs, r.ino, fs.inodes[r.ino].(linkcnt := fs.inodes[r.ino].linkcnt + 1)))
  {
    hide Walk, Parent;
  }

  lemma {:induction false} BumpedLink(fs: Fs, i: nat)
    requires Inv(fs) && i < |fs.inodes| && Live(fs, i) && fs.inodes[i].kind == FILE
    ensures !Inv(SetInode(fs, i, fs.inodes[i].(linkcnt := fs.inodes[i].linkcnt + 1)))
  {
    hide Inv, Live, SetInode;
    BumpBreaks(fs, i, fs.inodes[i].(linkcnt := fs.inodes[i].linkcnt + 1));
  }

  /** `vfs_link` keeps the counts exact if and only if the directory of the new name is
      there and has a slot left: the count goes up before either is looked at. */
  lemma {:induction false} LinkKeepsIff(fs: Fs, path: seq<string>, newPath: seq<string>)
    requires Inv(fs) && path != [] && newPath != []
    ensures Inv(Link(fs, path, newPath).0) <==> (WouldLink(fs, path, newPath) ==> HasRoom(fs, newPath))
  {
    hide Walk, Inv, Live, Links, DirBlock, Link, Linked, SetInode, Parent;
    RootIsDir(fs);
    WalkOk(fs, ROOT_BLOCK, path, false);
    ParentOk(fs, newPath);
    LinkIs(fs, path, newPath);
    var r := Walk(fs, ROOT_BLOCK, path, false);
    if WouldLink(fs, path, newPath) {
      if HasRoom(fs, newPath) {
        LinkedKeeps(fs, r.ino, Parent(fs, newPath).value, newPath[|newPath| - 1]);
      } else {
        BumpedLink(fs, r.ino);
      }
    }
  }

  // ---- vfs_unlink ----

  /** Inode i loses the entry in slot s of directory d, and lives on. */
  function Unlinked(fs: Fs, i: nat, d: nat, s: nat): Fs
    requires i < |fs.inodes| && d < |fs.blocks| && s < |fs.blocks[d].sons|
  {
    var n := fs.inodes[i];
    DropEntry(SetInode(fs, i, n.(linkcnt := n.linkcnt - 1, unlink := n.unlink || n.linkcnt == 1)), d, s)
  }

  lemma {:induction false} LinksUnlinked(fs: Fs, i: nat, d: nat, s: nat, j: nat)
    requires i < |fs.inodes| && d < |fs.blocks| && s < |fs.blocks[d].sons| && fs.blocks[d].sons[s].ino == i
    ensures var gs := Unlinked(fs, i, d, s);
      && Links(gs, j) == Links(fs, j) - {(d, s)} && ((d, s) in Links(fs, j) <==> i == j) && Refs(gs, j) == Refs(fs, j)
  {
    var n := fs.inodes[i];
    var mid := SetInode(fs, i, n.(linkcnt := n.linkcnt - 1, unlink := n.unlink || n.linkcnt == 1));
    LinksSame(fs, mid, j);
    LinksDropped(mid, d, s, j);
  }

  lemma {:induction false} UnlinkedNode(fs: Fs, i: nat, d: nat, s: nat)
    requires i < |fs.inodes| && d < |fs.blocks| && s < |fs.blocks[d].sons| && fs.blocks[d].sons[s].ino == i
    requires NodeOk(fs, i) && Live(fs, i) && fs.inodes[i].kind == FILE && fs.inodes[i].file != d
    requires fs.inodes[i].refcnt != 0 || fs.inodes[i].linkcnt != 1
    ensures var gs := Unlinked(fs, i, d, s); NodeOk(gs, i) && Live(gs, i) && Touches(fs, gs, i)
  {
    var gs := Unlinked(fs, i, d, s);
    forall j | 0 <= j < |fs.inodes| && j != i ensures SameNode(fs, gs, j) { LinksUnlinked(fs, i, d, s, j); }
    LinksUnlinked(fs, i, d, s, i);
    hide Links, Refs, SameNode;
  }

  lemma {:induction false} UnlinkedShape(fs: Fs, i: nat, d: nat, s: nat)
    requires Shape(fs) && NamesOk(fs) && 0 < i < |fs.inodes| && fs.inodes[i].kind == FILE
    requires 0 < d < |fs.blocks| && s < |fs.blocks[d].sons|
    ensures var gs := Unlinked(fs, i, d, s); Shape(gs) && NamesOk(gs) && SameBlocks(fs, gs, fs.inodes[i].file, d)
  {
  }

  lemma {:induction false} UnlinkedKeeps(fs: Fs, i: nat, d: nat, s: nat)
    requires Inv(fs) && 0 < i < |fs.inodes| && Live(fs, i) && fs.inodes[i].kind == FILE
    requires DirBlock(fs, d) && d < |fs.blocks| && s < |fs.blocks[d].sons| && fs.blocks[d].sons[s].ino == i
    requires fs.inodes[i].refcnt != 0 || fs.inodes[i].linkcnt != 1
    ensures Inv(Unlinked(fs, i, d, s))
  {
    assert NodeOk(fs, i);
    hide Live, DirBlock, NodeOk, Touches, SameBlocks, Links;
    DirBlockOk(fs, d);
    FileIsNotDir(fs, i, d);
    UnlinkedNode(fs, i, d, s);
    UnlinkedShape(fs, i, d, s);
    hide Inv, Shape, NamesOk;
    NodeStep(fs, Unlinked(fs, i, d, s), i, d);
  }

  /** Inode i loses its last entry with nobody holding it open. */
  function Removed(fs: Fs, i: nat, d: nat, s: nat): Fs
    requires i < |fs.inodes| && d < |fs.blocks| && s < |fs.blocks[d].sons|
  {
    Wipe(DropEntry(fs, d, s), fs.inodes[i].file)
  }

  lemma {:induction false} LinksRemoved(fs: Fs, i: nat, d: nat, s: nat, j: nat)
    requires Inv(fs) && i < |fs.inodes| && Live(fs, i) && fs.inodes[i].kind == FILE && DirBlock(fs, d)
    requires d < |fs.blocks| && s < |fs.blocks[d].sons| && fs.blocks[d].sons[s].ino == i
    ensures var gs := Removed(fs, i, d, s);
      && Links(gs, j) == Links(fs, j) - {(d, s)} && ((d, s) in Links(fs, j) <==> i == j) && Refs(gs, j) == Refs(fs, j)
  {
    assert NodeOk(fs, i);
    FileIsNotDir(fs, i, d);
    LinksDropped(fs, d, s, j);
    hide Inv, Live, DirBlock, Links;
    LinksSame(DropEntry(fs, d, s), Removed(fs, i, d, s), j);
  }

  lemma {:induction false} RemovedKeeps(fs: Fs, i: nat, d: nat, s: nat)
    requires Inv(fs) && 0 < i < |fs.inodes| && Live(fs, i) && fs.inodes[i].kind == FILE
    requires DirBlock(fs, d) && d < |fs.blocks| && s < |fs.blocks[d].sons| && fs.blocks[d].sons[s].ino == i
    requires fs.inodes[i].refcnt == 0 && fs.inodes[i].linkcnt == 1
    ensures Inv(Removed(fs, i, d, s)) && !Live(Removed(fs, i, d, s), i)
  {
    var gs := Removed(fs, i, d, s);
    RemovedNode(fs, i, d, s);
    DirBlockOk(fs, d);
    FileIsNotDir(fs, i, d);
    LiveBlock(fs, i);
    hide Live, DirBlock, Touches, Links, NodesOk, BlocksOk, Apart;
    RemovedShape(fs, i, d, s);
    hide Inv, Shape, NamesOk, SameBlocks;
    DeathStep(fs, gs, i, d);
  }

  lemma {:induction false} RemovedNode(fs: Fs, i: nat, d: nat, s: nat)
    requires Inv(fs) && 0 < i < |fs.inodes| && Live(fs, i) && fs.inodes[i].kind == FILE
    requires DirBlock(fs, d) && d < |fs.blocks| && s < |fs.blocks[d].sons| && fs.blocks[d].sons[s].ino == i
    requires fs.inodes[i].refcnt == 0 && fs.inodes[i].linkcnt == 1
    ensures var gs := Removed(fs, i, d, s); !Live(gs, i) && Touches(fs, gs, i)
  {
    var gs := Removed(fs, i, d, s);
    assert NodeOk(fs, i);
    hide Inv, DirBlock;
    forall j | 0 <= j < |fs.inodes| && j != i ensures SameNode(fs, gs, j) { LinksRemoved(fs, i, d, s, j); }
    LinksRemoved(fs, i, d, s, i);
    hide Links, Refs, SameNode;
    OneLess(Links(fs, i), (d, s));
  }

  lemma OneLess<T>(s: set<T>, x: T)
    requires x in s && |s| == 1
    ensures s - {x} == {}
  {
    assert |s - {x}| == 0;
  }

  lemma {:induction false} RemovedShape(fs: Fs, i: nat, d: nat, s: nat)
    requires Shape(fs) && NamesOk(fs) && 0 < i < |fs.inodes|
    requires 0 < d < |fs.blocks| && s < |fs.blocks[d].sons| && 0 < fs.inodes[i].file < |fs.blocks|
    requires fs.inodes[i].file != d
    ensures var gs := Removed(fs, i, d, s); Shape(gs) && NamesOk(gs)
    ensures var gs := Removed(fs, i, d, s); var b := fs.inodes[i].file;
      SameBlocks(fs, gs, b, d) && gs.blocks[b] == BLANK
  {
  }

  lemma {:induction false} UnlinkIs(fs: Fs, path: seq<string>)
    requires path != []
    ensures var gs := Unlink(fs, path).0; var r := Walk(fs, ROOT_BLOCK, path, false);
      && (!r.Found? ==> gs == fs)
      && (r.Found? && r.ino < |fs.inodes| && r.dir < |fs.blocks| && r.slot < |fs.blocks[r.dir].sons| ==>
            var n := fs.inodes[r.ino];
            gs == if n.refcnt == 0 && n.linkcnt == 1 then Removed(fs, r.ino, r.dir, r.slot)
            else Unlinked(fs, r.ino, r.dir, r.slot))
  {
    hide Walk;
  }

  lemma {:induction false} UnlinkKeeps(fs: Fs, path: seq<string>)
    requires Inv(fs) && path != []
    ensures Inv(Unlink(fs, path).0)
  {
    hide Walk, Inv, Live, Links, DirBlock, Unlink, Unlinked, Removed;
    RootIsDir(fs);
    WalkOk(fs, ROOT_BLOCK, path, false);
    UnlinkIs(fs, path);
    var r := Walk(fs, ROOT_BLOCK, path, false);
    if r.Found? {
      if fs.inodes[r.ino].refcnt == 0 && fs.inodes[r.ino].linkcnt == 1 {
        RemovedKeeps(fs, r.ino, r.dir, r.slot);
      } else {
        UnlinkedKeeps(fs, r.ino, r.dir, r.slot);
      }
    }
  }

  /** `vfs_unlink` ends a file's use, and frees its block, if and only if the name was
      its last and nobody has it open. */
  lemma {:induction false} UnlinkEndsIff(fs: Fs, path: seq<string>)
    requires Inv(fs) && path != []
    ensures var r := Walk(fs, ROOT_BLOCK, path, false); var gs := Unlink(fs, path).0;
      r.Found? ==>
        && r.ino < |fs.inodes| && |gs.blocks| == |fs.blocks| && 0 < fs.inodes[r.ino].file < |fs.blocks|
        && (!Live(gs, r.ino) <==> |Links(fs, r.ino)| == 1 && |Refs(fs, r.ino)| == 0)
        && (!Live(gs, r.ino) <==> !gs.blocks[fs.inodes[r.ino].file].occupied)
  {
    hide Walk, Inv, Live, Links, Refs, DirBlock, Unlink, Unlinked, Removed, NodeOk, SameBlocks, Touches;
    RootIsDir(fs);
    WalkOk(fs, ROOT_BLOCK, path, false);
    UnlinkIs(fs, path);
    var r := Walk(fs, ROOT_BLOCK, path, false);
    if r.Found? {
      Counts(fs, r.ino);
      LiveBlock(fs, r.ino);
      FileIsNotDir(fs, r.ino, r.dir);
      if fs.inodes[r.ino].refcnt == 0 && fs.inodes[r.ino].linkcnt == 1 {
        RemovedNode(fs, r.ino, r.dir, r.slot);
        RemovedBlock(fs, r.ino, r.dir, r.slot);
      } else {
        UnlinkedNode(fs, r.ino, r.dir, r.slot);
        UnlinkedBlock(fs, r.ino, r.dir, r.slot);
      }
    }
  }

  lemma {:induction false} Counts(fs: Fs, i: nat)
    requires Inv(fs) && i < |fs.inodes| && Live(fs, i) && fs.inodes[i].kind == FILE
    ensures var n := fs.inodes[i];
      NodeOk(fs, i) && n.linkcnt == |Links(fs, i)| && n.refcnt == |Refs(fs, i)| && (n.unlink <==> n.linkcnt == 0)
  {
    hide Live, Links, Refs;
    assert NodeOk(fs, i);
  }

  lemma {:induction false} RemovedBlock(fs: Fs, i: nat, d: nat, s: nat)
    requires i < |fs.inodes| && d < |fs.blocks| && s < |fs.blocks[d].sons| && 0 < fs.inodes[i].file < |fs.blocks|
    ensures var gs := Removed(fs, i, d, s); |gs.blocks| == |fs.blocks| && !gs.blocks[fs.inodes[i].file].occupied
  {
  }

  lemma {:induction false} UnlinkedBlock(fs: Fs, i: nat, d: nat, s: nat)
    requires i < |fs.inodes| && d < |fs.blocks| && s < |fs.blocks[d].sons| && 0 < fs.inodes[i].file < |fs.blocks|
    ensures var gs := Unlinked(fs, i, d, s); var b := fs.inodes[i].file;
      |gs.blocks| == |fs.blocks| && gs.blocks[b].occupied == fs.blocks[b].occupied
  {
  }

  // ---- vfs_close ----

  /** Inode i loses the descriptor f, and lives on. */
  function Closed(fs: Fs, f: Fd): Fs
    requires f in fs.fds && fs.fds[f].ino < |fs.inodes|
  {
    var i := fs.fds[f].ino;
    SetInode(fs.(fds := fs.fds - {f}), i, fs.inodes[i].(refcnt := fs.inodes[i].refcnt - 1))
  }

  /** The unlinked inode i loses its last descriptor f. */
  function Dropped(fs: Fs, f: Fd): Fs
    requires f in fs.fds && fs.fds[f].ino < |fs.inodes|
  {
    var i := fs.fds[f].ino;
    var n := fs.inodes[i];
    Wipe(SetInode(fs.(fds := fs.fds - {f}), i, n.(refcnt := n.refcnt - 1, file := GONE)), n.file)
  }

  /** This close is the last of an unlinked file. */
  predicate LastClose(fs: Fs, f: Fd)
    requires f in fs.fds && fs.fds[f].ino < |fs.inodes|
  {
    var n := fs.inodes[fs.fds[f].ino];
    n.unlink && n.linkcnt == 0 && n.refcnt == 1
  }

  lemma {:induction false} FdFacts(fs: Fs, f: Fd)
    requires Inv(fs) && f in fs.fds
    ensures var i := fs.fds[f].ino;
      && 0 < i < |fs.inodes| && f in Refs(fs, i) && Live(fs, i) && NodeOk(fs, i) && fs.inodes[i].kind == FILE
      && fs.fds[f].offset <= DATA && Usable(fs, f)
  {
    assert f in Refs(fs, fs.fds[f].ino);
    assert NodeOk(fs, fs.fds[f].ino);
    hide Links, Refs;
  }

  lemma {:induction false} RefsClosed(fs: Fs, f: Fd, j: int)
    requires f in fs.fds && fs.fds[f].ino < |fs.inodes|
    ensures Links(Closed(fs, f), j) == Links(fs, j) && Refs(Closed(fs, f), j) == Refs(fs, j) - {f}
    ensures f in Refs(fs, j) <==> fs.fds[f].ino == j
  {
    LinksSame(fs, Closed(fs, f), j);
    RefsDropped(fs, f, j);
    assert Closed(fs, f).fds == fs.fds - {f};
  }

  lemma {:induction false} ClosedNode(fs: Fs, f: Fd)
    requires Inv(fs) && f in fs.fds && fs.fds[f].ino < |fs.inodes| && !LastClose(fs, f)
    ensures var gs := Closed(fs, f); var i := fs.fds[f].ino; NodeOk(gs, i) && Live(gs, i) && Touches(fs, gs, i)
  {
    var gs := Closed(fs, f);
    var i := fs.fds[f].ino;
    FdFacts(fs, f);
    hide Inv;
    forall j | 0 <= j < |fs.inodes| && j != i ensures SameNode(fs, gs, j) { RefsClosed(fs, f, j); }
    RefsClosed(fs, f, i);
    hide Links, Refs, SameNode;
  }

  lemma {:induction false} ClosedShape(fs: Fs, f: Fd)
    requires Shape(fs) && NamesOk(fs) && f in fs.fds
    ensures var gs := Closed(fs, f); Shape(gs) && NamesOk(gs)
  {
  }

  lemma {:induction false} ClosedKeeps(fs: Fs, f: Fd)
    requires Inv(fs) && f in fs.fds && fs.fds[f].ino < |fs.inodes| && !LastClose(fs, f)
    ensures Inv(Closed(fs, f))
  {
    hide Live, DirBlock, NodeOk, Touches, Links, Refs;
    FdFacts(fs, f);
    RootIsDir(fs);
    ClosedNode(fs, f);
    ClosedShape(fs, f);
    hide Inv, Shape, NamesOk;
    NodeStep(fs, Closed(fs, f), fs.fds[f].ino, ROOT_BLOCK);
  }

  lemma {:induction false} RefsDroppedLast(fs: Fs, f: Fd, j: int)
    requires Inv(fs) && f in fs.fds
    ensures Links(Dropped(fs, f), j) == Links(fs, j) && Refs(Dropped(fs, f), j) == Refs(fs, j) - {f}
    ensures f in Refs(fs, j) <==> fs.fds[f].ino == j
  {
    FdFacts(fs, f);
    hide Inv, Live;
    RefsDropped(fs, f, j);
    assert Dropped(fs, f).fds == fs.fds - {f};
    LinksSame(fs, Dropped(fs, f), j);
  }

  lemma {:induction false} DroppedNode(fs: Fs, f: Fd)
    requires Inv(fs) && f in fs.fds && fs.fds[f].ino < |fs.inodes| && LastClose(fs, f)
    ensures var gs := Dropped(fs, f); var i := fs.fds[f].ino; !Live(gs, i) && Touches(fs, gs, i)
  {
    var gs := Dropped(fs, f);
    var i := fs.fds[f].ino;
    FdFacts(fs, f);
    forall j | 0 <= j < |fs.inodes| && j != i ensures SameNode(fs, gs, j) { RefsDroppedLast(fs, f, j); }
    RefsDroppedLast(fs, f, i);
    hide Links, Refs, SameNode, Inv;
    OneLess(Refs(fs, i), f);
  }

  lemma {:induction false} DroppedShape(fs: Fs, f: Fd)
    requires Shape(fs) && NamesOk(fs) && f in fs.fds
    requires 0 < fs.inodes[fs.fds[f].ino].file < |fs.blocks|
    ensures var gs := Dropped(fs, f); var b := fs.inodes[fs.fds[f].ino].file;
      Shape(gs) && NamesOk(gs) && SameBlocks(fs, gs, b, ROOT_BLOCK) && gs.blocks[b] == BLANK
  {
  }

  lemma {:induction false} DroppedKeeps(fs: Fs, f: Fd)
    requires Inv(fs) && f in fs.fds && fs.fds[f].ino < |fs.inodes| && LastClose(fs, f)
    ensures Inv(Dropped(fs, f)) && !Live(Dropped(fs, f), fs.fds[f].ino)
  {
    hide Live, DirBlock, NodeOk, Touches, Links, Refs, SameBlocks;
    var i := fs.fds[f].ino;
    FdFacts(fs, f);
    RootIsDir(fs);
    LiveBlock(fs, i);
    FileIsNotDir(fs, i, ROOT_BLOCK);
    DroppedNode(fs, f);
    DroppedShape(fs, f);
    hide Inv, Shape, NamesOk;
    DeathStep(fs, Dropped(fs, f), i, ROOT_BLOCK);
  }

  lemma {:induction false} CloseIs(fs: Fs, f: Fd)
    requires f in fs.fds ==> fs.fds[f].ino < |fs.inodes|
    ensures Close(fs, f).0 ==
      if f !in fs.fds then fs else if LastClose(fs, f) then Dropped(fs, f) else Closed(fs, f)
  {
  }

  lemma {:induction false} CloseKeeps(fs: Fs, f: Fd)
    requires Inv(fs)
    ensures Inv(Close(fs, f).0)
  {
    hide Live, Links, Refs, NodeOk, Inv;
    if f in fs.fds {
      FdFacts(fs, f);
      CloseIs(fs, f);
      hide Close, Closed, Dropped;
      if LastClose(fs, f) { DroppedKeeps(fs, f); } else { ClosedKeeps(fs, f); }
    }
  }

  /** `vfs_close` ends a file's use, and frees its block, if and only if it has no name
      and the descriptor was its last. */
  lemma {:induction false} CloseEndsIff(fs: Fs, f: Fd)
    requires Inv(fs) && f in fs.fds
    ensures var i := fs.fds[f].ino; var gs := Close(fs, f).0;
      && i < |fs.inodes| && |gs.blocks| == |fs.blocks| && 0 < fs.inodes[i].file < |fs.blocks|
      && (!Live(gs, i) <==> |Links(fs, i)| == 0 && |Refs(fs, i)| == 1)
      && (!Live(gs, i) <==> !gs.blocks[fs.inodes[i].file].occupied)
  {
    hide Inv, Live, Links, Refs, Close, Closed, Dropped, NodeOk, Touches;
    var i := fs.fds[f].ino;
    FdFacts(fs, f);
    CloseIs(fs, f);
    Counts(fs, i);
    LiveBlock(fs, i);
    if LastClose(fs, f) {
      DroppedNode(fs, f);
      DroppedBlock(fs, f);
    } else {
      ClosedNode(fs, f);
      ClosedBlock(fs, f);
    }
  }

  lemma {:induction false} DroppedBlock(fs: Fs, f: Fd)
    requires f in fs.fds && fs.fds[f].ino < |fs.inodes| && 0 < fs.inodes[fs.fds[f].ino].file < |fs.blocks|
    ensures var gs := Dropped(fs, f); |gs.blocks| == |fs.blocks| && !gs.blocks[fs.inodes[fs.fds[f].ino].file].occupied
  {
  }

  lemma {:induction false} ClosedBlock(fs: Fs, f: Fd)
    requires f in fs.fds && fs.fds[f].ino < |fs.inodes|
    ensures Closed(fs, f).blocks == fs.blocks
  {
  }

  // ---- reading, writing, seeking ----

  /** Descriptor f moves to another offset. */
  function Moved(fs: Fs, f: Fd, offset: nat): Fs
    requires f in fs.fds
  {
    fs.(fds := fs.fds[f := fs.fds[f].(offset := offset)])
  }

  lemma {:induction false} NamesMoved(fs: Fs, f: Fd, offset: nat, j: int)
    requires f in fs.fds
    ensures var gs := Moved(fs, f, offset); Links(gs, j) == Links(fs, j) && Refs(gs, j) == Refs(fs, j)
  {
    LinksSame(fs, Moved(fs, f, offset), j);
    hide Links;
  }

  lemma {:induction false} MovedNode(fs: Fs, f: Fd, offset: nat)
    requires Inv(fs) && f in fs.fds && offset <= DATA
    ensures var gs := Moved(fs, f, offset); var i := fs.fds[f].ino;
      i < |fs.inodes| && NodeOk(gs, i) && Live(gs, i) && Touches(fs, gs, i)
  {
    var gs := Moved(fs, f, offset);
    hide Links, Refs, Live, NodeOk, Inv;
    FdFacts(fs, f);
    forall j | 0 <= j < |fs.inodes| ensures SameNode(fs, gs, j) { NamesMoved(fs, f, offset, j); }
    OtherNode(fs, gs, fs.fds[f].ino);
  }

  lemma {:induction false} MovedShape(fs: Fs, f: Fd, offset: nat)
    requires Shape(fs) && NamesOk(fs) && f in fs.fds && offset <= DATA
    ensures Shape(Moved(fs, f, offset)) && NamesOk(Moved(fs, f, offset))
  {
  }

  lemma {:induction false} MovedKeepsIff(fs: Fs, f: Fd, offset: nat)
    requires Inv(fs) && f in fs.fds
    ensures Inv(Moved(fs, f, offset)) <==> offset <= DATA
  {
    var gs := Moved(fs, f, offset);
    FdFacts(fs, f);
    hide Links, Refs, DirBlock, NodeOk, Live, Touches;
    if offset <= DATA {
      RootIsDir(fs);
      MovedNode(fs, f, offset);
      MovedShape(fs, f, offset);
      assert SameBlocks(fs, gs, fs.inodes[fs.fds[f].ino].file, ROOT_BLOCK);
      hide Inv, Shape, NamesOk, SameBlocks;
      NodeStep(fs, gs, fs.fds[f].ino, ROOT_BLOCK);
    } else {
      assert f in gs.fds && gs.fds[f].offset > DATA;
      hide Shape, NodesOk, Apart, BlocksOk;
    }
  }

  lemma UnsignedSum(x: int)
    requires -TWO64 <= x < TWO64
    ensures x % TWO64 == if x < 0 then x + TWO64 else x
  {
  }

  /** The offset a seek sets, if it sets one. */
  function Target(fs: Fs, f: Fd, offset: int, whence: Whence): Option<nat>
    requires f in fs.fds && fs.fds[f].ino < |fs.inodes| && fs.fds[f].offset <= DATA
  {
    var x := if whence == SeekSet then offset
             else if whence == SeekCur then fs.fds[f].offset + offset
             else fs.inodes[fs.fds[f].ino].size + offset;
    if whence == Bad || x > DATA then None
    else if x >= 0 then Some(x)
    else if whence == SeekCur && x + HEADER >= 0 then Some(x + TWO64)
    else None
  }

  lemma {:induction false} LseekIs(fs: Fs, f: Fd, offset: int, whence: Whence)
    requires Usable(fs, f) && -TWO64 < 2 * offset < TWO64
    ensures var t := Target(fs, f, offset, whence);
      Lseek(fs, f, offset, whence).0 == if t.Some? then Moved(fs, f, t.value) else fs
  {
    if whence == SeekCur {
      UnsignedSum(fs.fds[f].offset + offset);
      UnsignedSum(fs.fds[f].offset + offset + HEADER);
    }
  }

  /** A seek leaves the offset in range, unless SEEK_CUR goes below zero by at most a
      header's length. */
  lemma {:induction false} LseekKeepsIff(fs: Fs, f: Fd, offset: int, whence: Whence)
    requires Inv(fs) && f in fs.fds && Usable(fs, f) && -TWO64 < 2 * offset < TWO64
    ensures Inv(Lseek(fs, f, offset, whence).0) <==>
      !(whence == SeekCur && 0 <= fs.fds[f].offset + offset + HEADER < HEADER)
  {
    hide Inv, Lseek, Moved;
    LseekIs(fs, f, offset, whence);
    var t := Target(fs, f, offset, whence);
    if t.Some? { MovedKeepsIff(fs, f, t.value); }
  }

  /** Bytes written through descriptor f. */
  function Written(fs: Fs, f: Fd, buf: seq<Byte>): Fs
    requires Usable(fs, f) && fs.fds[f].offset + |buf| <= DATA
  {
    var i := fs.fds[f].ino;
    var n := fs.inodes[i];
    var end := fs.fds[f].offset + |buf|;
    Fs(fs.inodes[i := n.(size := if end > n.size then end else n.size)],
       fs.blocks[n.file := fs.blocks[n.file].(data := Splice(fs.blocks[n.file].data, fs.fds[f].offset, buf))],
       fs.fds[f := File(i, end)])
  }

  lemma {:induction false} WriteIs(fs: Fs, f: Fd, buf: seq<Byte>)
    requires Usable(fs, f)
    ensures Write(fs, f, buf) ==
      if fs.fds[f].offset + |buf| > DATA then (fs, 0) else (Written(fs, f, buf), |buf|)
  {
  }

  lemma {:induction false} NamesWritten(fs: Fs, f: Fd, buf: seq<Byte>, j: int)
    requires Usable(fs, f) && fs.fds[f].offset + |buf| <= DATA
    ensures var gs := Written(fs, f, buf); Links(gs, j) == Links(fs, j) && Refs(gs, j) == Refs(fs, j)
  {
    hide Splice;
    LinksSame(fs, Written(fs, f, buf), j);
    hide Links;
  }

  lemma SpliceZero(d: seq<Byte>, at: nat, buf: seq<Byte>, n: nat, m: nat)
    requires at + |buf| <= |d| && ZeroFrom(d, n) && m >= n && m >= at + |buf|
    ensures |Splice(d, at, buf)| == |d| && ZeroFrom(Splice(d, at, buf), m)
  {
  }

  lemma {:induction false} WrittenNode(fs: Fs, f: Fd, buf: seq<Byte>)
    requires Inv(fs) && f in fs.fds && Usable(fs, f) && fs.fds[f].offset + |buf| <= DATA
    ensures var gs := Written(fs, f, buf); var i := fs.fds[f].ino; NodeOk(gs, i) && Live(gs, i) && Touches(fs, gs, i)
  {
    var gs := Written(fs, f, buf);
    var i := fs.fds[f].ino;
    var n := fs.inodes[i];
    hide Links, Refs, Splice, Inv;
    FdFacts(fs, f);
    forall j | 0 <= j < |fs.inodes| && j != i ensures SameNode(fs, gs, j) { NamesWritten(fs, f, buf, j); }
    NamesWritten(fs, f, buf, i);
    SpliceZero(fs.blocks[n.file].data, fs.fds[f].offset, buf, n.size, gs.inodes[i].size);
    hide SameNode;
  }

  lemma {:induction false} WrittenShape(fs: Fs, f: Fd, buf: seq<Byte>)
    requires Shape(fs) && NamesOk(fs) && Usable(fs, f) && fs.fds[f].offset + |buf| <= DATA
    requires 0 < fs.inodes[fs.fds[f].ino].file
    ensures var gs := Written(fs, f, buf);
      Shape(gs) && NamesOk(gs) && SameBlocks(fs, gs, fs.inodes[fs.fds[f].ino].file, ROOT_BLOCK)
  {
  }

  lemma {:induction false} WrittenKeeps(fs: Fs, f: Fd, buf: seq<Byte>)
    requires Inv(fs) && f in fs.fds && Usable(fs, f) && fs.fds[f].offset + |buf| <= DATA
    ensures Inv(Written(fs, f, buf))
  {
    hide Live, DirBlock, NodeOk, Touches, Links, Refs, SameBlocks, Written;
    FdFacts(fs, f);
    RootIsDir(fs);
    LiveBlock(fs, fs.fds[f].ino);
    WrittenNode(fs, f, buf);
    WrittenShape(fs, f, buf);
    WrittenSame(fs, f, buf);
    hide Inv, Shape, NamesOk;
    NodeStep(fs, Written(fs, f, buf), fs.fds[f].ino, ROOT_BLOCK);
  }

  lemma WrittenSame(fs: Fs, f: Fd, buf: seq<Byte>)
    requires Usable(fs, f) && fs.fds[f].offset + |buf| <= DATA
    ensures var gs := Written(fs, f, buf); var i := fs.fds[f].ino;
      |gs.inodes| == |fs.inodes| && gs.inodes[i].file == fs.inodes[i].file
  {
  }

  // ---- contents ----

  /** The block file behaves as the file of OsFiles: a write overwrites it, padding a gap
      with zeroes. A write of no bytes beyond the end pads too, which POSIX would not. */
  lemma {:induction false} WriteOverwrites(fs: Fs, f: Fd, buf: seq<Byte>)
    requires Inv(fs) && f in fs.fds && Usable(fs, f) && fs.fds[f].offset + |buf| <= DATA
    ensures Write(fs, f, buf).1 == |buf| && Usable(Write(fs, f, buf).0, f)
    ensures var i := fs.fds[f].ino; var gs := Write(fs, f, buf).0;
      Contents(gs, i) == OsFiles.Overwrite(Contents(fs, i), fs.fds[f].offset, buf)
  {
    var i := fs.fds[f].ino;
    var n := fs.inodes[i];
    FdFacts(fs, f);
    WriteIs(fs, f, buf);
    hide Live, Links, Refs, Inv, Write;
    var gs := Written(fs, f, buf);
    assert Usable(gs, f);
    SpliceIsOverwrite(fs.blocks[n.file].data, n.size, fs.fds[f].offset, buf);
  }

  lemma {:induction false} SpliceIsOverwrite(d: seq<Byte>, size: nat, at: nat, buf: seq<Byte>)
    requires size <= |d| && at + |buf| <= |d| && ZeroFrom(d, size)
    ensures var end := if at + |buf| > size then at + |buf| else size;
      Splice(d, at, buf)[..end] == OsFiles.Overwrite(d[..size], at, buf)
  {
    assert OsFiles.Padded(d[..size], at) == d[..if at > size then at else size];
  }

  /** The length of a read stays inside the block if and only if the offset is at or
      before the end of file; beyond it the difference wraps around. */
  lemma ReadStaysInsideIff(size: nat, offset: nat, nbyte: nat)
    requires size <= DATA && offset <= DATA
    ensures offset + ReadCount(size, offset, nbyte) <= DATA <==> offset <= size
  {
  }

  /** And a read delivers what a read of that file does. */
  lemma {:induction false} ReadDelivers(fs: Fs, f: Fd, nbyte: nat)
    requires Usable(fs, f) && fs.fds[f].offset <= fs.inodes[fs.fds[f].ino].size
    ensures var (gs, bytes) := Read(fs, f, nbyte); var off := fs.fds[f].offset;
      && bytes == OsFiles.Readable(Contents(fs, fs.fds[f].ino), off, nbyte)
      && gs == Moved(fs, f, off + |bytes|) && off + |bytes| <= DATA
  {
    var off := fs.fds[f].offset;
    var n := fs.inodes[fs.fds[f].ino];
    var d := fs.blocks[n.file].data;
    var count := ReadCount(n.size, off, nbyte);
    hide Usable;
    SliceOfContents(d, n.size, off, off + count);
    assert Read(fs, f, nbyte).1 == d[off..off + count];
    hide Read;
    assert OsFiles.Readable(d[..n.size], off, nbyte) == d[..n.size][off..off + count];
  }

  lemma SliceOfContents(d: seq<Byte>, size: nat, from: nat, to: nat)
    requires from <= to <= size <= |d|
    ensures d[..size][from..to] == d[from..to] && |d[from..to]| == to - from
  {
  }

  lemma {:induction false} ReadKeeps(fs: Fs, f: Fd, nbyte: nat)
    requires Inv(fs) && Usable(fs, f) && fs.fds[f].offset <= fs.inodes[fs.fds[f].ino].size
    ensures Inv(Read(fs, f, nbyte).0)
  {
    hide Inv, Contents, OsFiles.Readable, Moved;
    ReadDelivers(fs, f, nbyte);
    var bytes := Read(fs, f, nbyte).1;
    hide Read;
    MovedKeepsIff(fs, f, fs.fds[f].offset + |bytes|);
  }
}
