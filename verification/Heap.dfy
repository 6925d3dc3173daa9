/** The allocator: its globals, the headers in memory, and the bytes it zeroes. */
module Heap {
  import opened Options
  import opened HeapView
  import opened HeapLinks

  class Pmm {
    const pmStart: int
    const pmEnd: int
    var hdr: Memory                // the block headers in memory, by address
    const smallHead: array<int>
    var freeBlock: int
    const mem: array<int>          // payload bytes, by address
    ghost var view: View

    ghost predicate Valid()
      reads this, smallHead
    {
      && 0 < pmStart && pmStart + INFO <= pmEnd < TWO31
      && smallHead.Length == NCPU && mem.Length == pmEnd && smallHead != mem
      && 0 !in hdr
      && view != [] && WellFormed(view, pmStart, pmEnd)
      && Rep(view, hdr, smallHead[..])
      && freeBlock == Last(view).addr
    }

    /** `pmm_init`. */
    constructor (pmStart: int, pmEnd: int)
      requires 0 < pmStart && pmStart + INFO <= pmEnd < TWO31
      ensures Valid() && this.pmStart == pmStart && this.pmEnd == pmEnd
      ensures view == Initial(pmStart, pmEnd)
    {
      this.pmStart, this.pmEnd := pmStart, pmEnd;
      smallHead := new int[NCPU](_ => 0);
      freeBlock := pmStart;
      hdr := map[pmStart := Header(pmStart, pmEnd - pmStart - INFO, 0, 0, MAGIC, true)];
      mem := new int[pmEnd];
      view := Initial(pmStart, pmEnd);
      new;
      InitialRep(pmStart, pmEnd, hdr, smallHead[..]);
    }

    /** `divide_small`, on the block at index i of the view. */
    method DivideSmall(cur: int, size: nat, ghost i: nat)
      requires Valid() && i < |view| - 1 && view[i].addr == cur && size % 8 == 0
      modifies this`hdr, this`view
      ensures Valid() && view == Split(old(view), i, size) && cur in hdr
    {
      CellIsOk(view, hdr, smallHead[..], i);
      hide Insert, SplitHeaders, WellFormed, NextAddr, PrevAddr, Rep;
      if hdr[cur].size < size + INFO + IGNORE_MM {
        return;
      }
      SplitFacts(view, pmStart, pmEnd, hdr, smallHead[..], i, size);
      Cut(cur, size, view[i].(size := size), Rest(view[i], size));
      view := Split(view, i, size);
      hide *;
    }

    /** The writes of `divide_small`, making the block at a.addr a and the rest b. */
    method Cut(cur: int, size: nat, ghost a: Cell, ghost b: Cell)
      requires CutReady(hdr, a, b) && a.addr == cur == hdr[cur].start && a.size == size
      requires b.addr == cur + INFO + size && b.size == hdr[cur].size - INFO - size
      modifies this`hdr
      ensures hdr == SplitHeaders(old(hdr), a, b)
    {
      ghost var before := hdr;
      var newBlock := hdr[cur].start + INFO + size;
      var next := hdr[cur].next;
      hdr := hdr[newBlock := Header(newBlock, hdr[cur].size - INFO - size, next, cur, MAGIC, true)];
      if next != 0 {
        hdr := hdr[next := hdr[next].(prev := newBlock)];
      }
      hdr := hdr[cur := hdr[cur].(next := newBlock)];
      hdr := hdr[newBlock := hdr[newBlock].(free := true)];
      hdr := hdr[cur := hdr[cur].(size := size)];
      SplitHeadersAre(before, hdr, a, b);
    }

    /** `new_small_block`: carve a block from the tail for CPU c and append it to its
        list, whose last block is prevLast or null. Not ok where the source halts. */
    method NewSmallBlock(c: int, prevLast: int, size: nat) returns (ok: bool)
      requires Valid() && 0 <= c < NCPU && size < TWO32 && size % 8 == 0
      requires prevLast == PrevOf(view, |view| - 1, c)
      modifies this`hdr, this`view, this`freeBlock, smallHead
      ensures Valid() && ok == (Last(old(view)).size >= CarveSize(size) + INFO)
      ensures ok ==> view == Carve(old(view), c, CarveSize(size))
      ensures !ok ==> view == old(view)
    {
      hide WellFormed, Rep, PrevOf, CarveReady, CarveHeaders, Carve;
      TailHeader(view, hdr, smallHead[..]);
      var sz := if size < TWO31 then size else size - TWO32;
      if sz < 4096 {
        sz := 4096;
      }
      CarveSizeAligned(size);
      assert sz == CarveSize(size);
      hide CarveSize;
      if hdr[freeBlock].size < sz + INFO {
        return false;
      }
      CarveFacts(view, pmStart, pmEnd, hdr, smallHead[..], c, sz);
      CarveBlock(c, prevLast, sz);
      view := Carve(view, c, sz);
      ok := true;
      hide *;
    }

    /** The writes of `new_small_block`. */
    method CarveBlock(c: int, prevLast: int, sz: nat)
      requires freeBlock in hdr && smallHead.Length == NCPU && 0 <= c < NCPU && hdr[freeBlock].start == freeBlock
      requires CarveReady(hdr, freeBlock, freeBlock + sz + INFO, prevLast)
      modifies this`hdr, this`freeBlock, smallHead
      ensures old(freeBlock) in old(hdr) && freeBlock == old(freeBlock) + sz + INFO
      ensures var rest := old(hdr[freeBlock].size) - INFO - sz;
        hdr == CarveHeaders(old(hdr), old(freeBlock), freeBlock, sz, rest, prevLast)
      ensures smallHead[..] == if prevLast == 0 then old(smallHead[..])[c := old(freeBlock)] else old(smallHead[..])
    {
      var newFree := hdr[freeBlock].start + sz + INFO;
      hdr := hdr[newFree := Header(newFree, hdr[freeBlock].size - INFO - sz, 0, 0, MAGIC, true)];
      hdr := hdr[freeBlock := hdr[freeBlock].(size := sz)];
      if prevLast != 0 {
        assert hdr[prevLast].next == 0;
        hdr := hdr[freeBlock := hdr[freeBlock].(prev := prevLast)];
        hdr := hdr[prevLast := hdr[prevLast].(next := freeBlock)];
      } else {
        assert hdr[freeBlock].next == 0;
        assert hdr[freeBlock].prev == 0;
        smallHead[c] := freeBlock;
      }
      freeBlock := newFree;
    }

    /** Mark the block at index i of the view used. */
    method TakeBlock(cur: int, ghost i: nat)
      requires Valid() && i < |view| - 1 && view[i].addr == cur
      modifies this`hdr, this`view
      ensures Valid() && view == old(view)[i := old(view)[i].(free := false)]
      ensures cur in hdr && hdr[cur].start == cur && hdr[cur].magic == MAGIC
    {
      hide WellFormed, Rep;
      TakeFacts(view, pmStart, pmEnd, hdr, smallHead[..], i);
      hdr := hdr[cur := hdr[cur].(free := false)];
      view := view[i := view[i].(free := false)];
    }

    /** The assertions of `find_small` on the links of a block, which assign: they
        write the value that is there. */
    method AssertLinks(cur: int)
      requires cur in hdr
      requires hdr[cur].prev != 0 ==> hdr[cur].prev in hdr && hdr[hdr[cur].prev].next == cur
      requires hdr[cur].next != 0 ==> hdr[cur].next in hdr && hdr[hdr[cur].next].prev == cur
      modifies this`hdr
      ensures hdr == old(hdr)
    {
      if hdr[cur].prev != 0 {
        hdr := hdr[hdr[cur].prev := hdr[hdr[cur].prev].(next := cur)];
      }
      if hdr[cur].next != 0 {
        hdr := hdr[hdr[cur].next := hdr[hdr[cur].next].(prev := cur)];
      }
    }

    /** `find_small`: walk the list of CPU c for the first block that fits, cut it and
        take it; with none, carve one and look again. None where the source halts. */
    method FindSmall(c: int, size: nat) returns (r: Option<int>)
      requires Valid() && 0 <= c < NCPU && size < TWO32 && size % 8 == 0
      modifies this`hdr, this`view, this`freeBlock, smallHead
      ensures Valid()
      ensures r.Some? <==> Find(old(view), c, size).Some?
      ensures r.Some? ==>
        var (w, i) := Find(old(view), c, size).value; view == w && i < |w| && r.value == w[i].addr + INFO
      decreases Last(view).size
    {
      hide WellFormed, Rep, Carve, Split, Nxt, PrevOf, CarveSize, Find, FirstFit;
      HeadFacts(view, hdr, smallHead[..], c);
      var cur := smallHead[c];
      var last := 0;
      ghost var i := Nxt(view, 0, c);
      while cur != 0 && !(hdr[cur].free && hdr[cur].size >= size)
        invariant Valid() && hdr == old(hdr)
        invariant i < |view| && cur == AddrOrNull(view, i) && last == PrevOf(view, i, c)
        invariant i < |view| - 1 ==> HeaderIs(hdr, view[i]) && view[i].owner == c
        invariant forall j :: 0 <= j < i ==> !Fits(view[j], c, size)
        decreases |view| - i
        modifies this`hdr
      {
        LinkFacts(view, hdr, smallHead[..], i, c);
        assert hdr[cur].magic == MAGIC;
        AssertLinks(cur);
        last := cur;
        cur := hdr[cur].next;
        i := Nxt(view, i + 1, c);
        if cur == 0 {
          break;
        }
      }
      FindIs(view, c, size, i);
      if cur != 0 {
        SplitLength(view, i, size);
        DivideSmall(cur, size, i);
        TakeBlock(cur, i);
        return Some(hdr[cur].start + INFO);
      }
      CarveShrinks(view, c, CarveSize(size));
      var ok := NewSmallBlock(c, last, size);
      if !ok {
        return None;
      }
      r := FindSmall(c, size);
    }

    /** `kalloc`: an aligned region of zeroes in a new block, every other live payload
        as it was. None where the source halts. */
    method Kalloc(c: int, size: nat) returns (r: Option<int>)
      requires Valid() && 0 <= c < NCPU && size < TWO32 - 8
      modifies this`hdr, this`view, this`freeBlock, smallHead, mem
      ensures Valid()
      ensures r.Some? <==> Find(old(view), c, Align(size)).Some?
      ensures r.Some? ==>
        var (w, i) := Find(old(view), c, Align(size)).value;
        && view == w && i < |w| && r.value == w[i].addr + INFO && (r.value - pmStart) % 8 == 0
        && pmStart <= r.value && r.value + size < r.value + w[i].size <= pmEnd
        && (forall a :: r.value <= a < r.value + size ==> mem[a] == 0)
      ensures PayloadsKept(old(view), old(mem[..]), mem[..])
    {
      hide WellFormed, Rep, Find;
      r := FindSmall(c, Align(size));
      if r.Some? {
        ghost var i := Find(old(view), c, Align(size)).value.1;
        AllocFacts(old(view), pmStart, pmEnd, c, Align(size));
        var k := 0;
        while k < size
          invariant k <= size
          invariant forall a :: r.value <= a < r.value + k ==> mem[a] == 0
          invariant forall a :: 0 <= a < mem.Length && !(r.value <= a < r.value + k) ==> mem[a] == old(mem[a])
          modifies mem
        {
          mem[r.value + k] := 0;
          k := k + 1;
        }
        KeptOutside(old(view), pmStart, pmEnd, c, Align(size), old(mem[..]), mem[..]);
      }
    }

    /** `merge_small`, on the block at index i of the view and its successor. */
    method MergeSmall(b1: int, b2: int, ghost i: nat)
      requires Valid() && (b1 != 0 ==> i < |view| - 1 && view[i].addr == b1 && b1 in hdr && hdr[b1].next == b2)
      modifies this`hdr, this`view
      ensures Valid() && view == if b1 == 0 then old(view) else MergeAt(old(view), i)
    {
      hide WellFormed, Rep, MergeAt, JoinHeaders, Nxt;
      if b1 == 0 || b2 == 0 {
        NoMergeAtEnd(view, hdr, smallHead[..], i, b1);
        return;
      }
      PairFacts(view, pmStart, pmEnd, hdr, smallHead[..], i);
      if hdr[b1].start + hdr[b1].size + INFO != hdr[b2].start {
        return;
      }
      hdr := hdr[b1 := hdr[b1].(next := b2)];
      hdr := hdr[b2 := hdr[b2].(prev := b1)];
      assert hdr == old(hdr);
      if !hdr[b1].free || !hdr[b2].free {
        return;
      }
      if hdr[b1].size + hdr[b2].size + INFO > 4096 {
        return;
      }
      JoinFacts(view, pmStart, pmEnd, hdr, smallHead[..], i);
      Swallow(b1, b2);
      view := MergeAt(view, i);
    }

    /** The writes of `merge_small`. */
    method Swallow(b1: int, b2: int)
      requires b1 in hdr && b2 in hdr && b1 != b2 && hdr[b2].next != b1 && hdr[b2].next != b2 && 0 !in hdr
      requires hdr[b2].next != 0 ==> hdr[b2].next in hdr
      modifies this`hdr
      ensures hdr == JoinHeaders(old(hdr), b1, b2)
    {
      hdr := hdr[b1 := hdr[b1].(size := hdr[b1].size + hdr[b2].size + INFO)];
      hdr := hdr[b2 := hdr[b2].(magic := 0)];
      if hdr[b2].next != 0 {
        hdr := hdr[hdr[b2].next := hdr[hdr[b2].next].(prev := b1)];
      }
      hdr := hdr[b1 := hdr[b1].(next := hdr[b2].next)];
      hdr := hdr[b2 := hdr[b2].(magic := 0)];
    }

    /** `kfree`. With no header of the allocator before the pointer, `other` is what the
        memory there reads as; it must not look like a block in use. */
    method Kfree(ptr: int, other: Header)
      requires Valid() && (ptr - INFO == 0 || ptr - INFO in hdr || other.magic != MAGIC || other.free)
      modifies this`hdr, this`view
      ensures Valid() && view == Free(old(view), ptr)
    {
      hide WellFormed, Rep, MergeAt, Nxt, Prv;
      var b := ptr - INFO;
      BlockFacts(view, pmStart, pmEnd, hdr, smallHead[..], b);
      if b == 0 {
        return;
      }
      var head := if b in hdr then hdr[b] else other;
      if head.magic != MAGIC || head.free {
        return;
      }
      ghost var i := IndexAt(view, b, 0);
      ReleaseFacts(view, pmStart, pmEnd, hdr, smallHead[..], i);
      hdr := hdr[b := hdr[b].(free := true)];
      view := view[i := view[i].(free := true)];
      CellIsOk(view, hdr, smallHead[..], i);
      hide IndexAt;
      MergeIndex(view, i);
      MergeSmall(b, hdr[b].next, i);
      ghost var k := Prv(view, i, view[i].owner);
      PrevFacts(view, pmStart, pmEnd, hdr, smallHead[..], i);
      MergeSmall(hdr[b].prev, b, if k < 0 then 0 else k);
    }
  }

  lemma {:induction false} NoMergeAtEnd(v: View, hdr: Memory, heads: seq<int>, i: nat, b1: int)
    requires Rep(v, hdr, heads) && 0 !in hdr
    requires b1 != 0 ==> i < |v| - 1 && v[i].addr == b1 && b1 in hdr && hdr[b1].next == 0
    ensures b1 != 0 ==> MergeAt(v, i) == v
  {
    if b1 != 0 {
      CellIsOk(v, hdr, heads, i);
      CellIsOk(v, hdr, heads, Nxt(v, i + 1, v[i].owner));
    }
  }

  /** A block and its successor: the merge conditions read off the headers. */
  lemma {:induction false} PairFacts(v: View, lo: int, hi: int, hdr: Memory, heads: seq<int>, i: nat)
    requires lo > 0 && WellFormed(v, lo, hi) && Rep(v, hdr, heads) && 0 !in hdr && i < |v| - 1
    requires v[i].addr in hdr && hdr[v[i].addr].next != 0
    ensures var b1 := v[i].addr; var b2 := hdr[b1].next;
      && b2 in hdr && b1 != b2 && hdr[b2].prev == b1
      && (MergeAt(v, i) != v ==> Mergeable(v, i))
      && (Mergeable(v, i) <==>
            && hdr[b1].start + hdr[b1].size + INFO == hdr[b2].start
            && hdr[b1].free && hdr[b2].free && hdr[b1].size + hdr[b2].size + INFO <= LARGE)
  {
    var c := v[i].owner;
    var j := Nxt(v, i + 1, c);
    CellIsOk(v, hdr, heads, i);
    CellIsOk(v, hdr, heads, j);
    assert j < |v| - 1;
    PrvIs(v, j, c, i);
    Ordered(v, lo, hi, i, j);
    assert v[i + 1].addr == v[i].addr + INFO + v[i].size;
    if j > i + 1 { Ordered(v, lo, hi, i + 1, j); }
    hide Nxt, Prv, Rep;
  }

  lemma {:induction false} JoinFacts(v: View, lo: int, hi: int, hdr: Memory, heads: seq<int>, i: nat)
    requires lo > 0 && WellFormed(v, lo, hi) && Rep(v, hdr, heads) && 0 !in hdr && i < |v| - 1
    requires Mergeable(v, i)
    ensures var b1, b2 := v[i].addr, v[i + 1].addr; var w := MergeAt(v, i);
      && b1 in hdr && b2 in hdr && hdr[b1].next == b2
      && hdr[b2].next != b1 && hdr[b2].next != b2 && (hdr[b2].next != 0 ==> hdr[b2].next in hdr)
      && w != [] && WellFormed(w, lo, hi) && Last(w) == Last(v) && Rep(w, JoinHeaders(hdr, b1, b2), heads)
      && 0 !in JoinHeaders(hdr, b1, b2)
  {
    TilesDistinct(v, lo, hi);
    MergeKeeps(v, lo, hi, i);
    NextInHeaders(v, hdr, heads, i);
    NextInHeaders(v, hdr, heads, i + 1);
    SuccessorIs(v, i);
    NotBack(v, hdr, heads, i);
    hide WellFormed, Rep, Distinct, Nxt;
    JoinRep(v, hdr, heads, i);
    JoinHeadersAt(hdr, v[i].addr, v[i + 1].addr, 0);
    hide JoinHeaders;
  }

  /** What the pointer given to `kfree` can be. */
  lemma {:induction false} BlockFacts(v: View, lo: int, hi: int, hdr: Memory, heads: seq<int>, b: int)
    requires lo > 0 && WellFormed(v, lo, hi) && Rep(v, hdr, heads) && 0 !in hdr
    ensures v != []
    ensures var i := IndexAt(v, b, 0);
      && (i < |v| - 1 ==> b != 0 && b in hdr && hdr[b].magic == MAGIC && hdr[b].free == v[i].free)
      && (i == |v| - 1 && b in hdr ==> hdr[b].magic != MAGIC || hdr[b].free)
  {
    hide Nxt, NextAddr, PrevAddr;
    var i := IndexAt(v, b, 0);
    CellIsOk(v, hdr, heads, i);
    if i == |v| - 1 && b != v[i].addr {
      assert forall j :: 0 <= j < |v| ==> v[j].addr != b;
    }
  }

  lemma {:induction false} ReleaseFacts(v: View, lo: int, hi: int, hdr: Memory, heads: seq<int>, i: nat)
    requires lo > 0 && WellFormed(v, lo, hi) && Rep(v, hdr, heads) && i < |v| - 1
    ensures var a := v[i].addr; var w := v[i := v[i].(free := true)];
      && a in hdr && WellFormed(w, lo, hi) && Last(w) == Last(v)
      && Rep(w, hdr[a := hdr[a].(free := true)], heads)
  {
    TilesDistinct(v, lo, hi);
    hide Rep, Tiles, Distinct;
    SetFree(v, lo, hi, i, true);
    FlagRep(v, hdr, heads, i, true);
  }

  /** The predecessor of a block, and what merging with it comes to. */
  lemma {:induction false} PrevFacts(v: View, lo: int, hi: int, hdr: Memory, heads: seq<int>, i: nat)
    requires lo > 0 && WellFormed(v, lo, hi) && Rep(v, hdr, heads) && 0 !in hdr && i < |v| - 1
    ensures var k := Prv(v, i, v[i].owner); var b := v[i].addr;
      && b in hdr && hdr[b].prev == (if k < 0 then 0 else v[k].addr)
      && (k >= 0 ==> v[k].addr != 0 && v[k].addr in hdr && hdr[v[k].addr].next == b)
      && (if k < 0 then v else MergeAt(v, k)) == (if i > 0 then MergeAt(v, i - 1) else v)
  {
    var c := v[i].owner;
    var k := Prv(v, i, c);
    CellIsOk(v, hdr, heads, i);
    if k >= 0 {
      CellIsOk(v, hdr, heads, k);
      NxtIs(v, k + 1, c, i);
    }
    hide Rep, Nxt, Prv, Join;
    if k < i - 1 {
      assert v[i - 1].owner != c;
      assert k >= 0 ==> v[k + 1].owner != c;
    }
  }

  lemma {:induction false} MergeIndex(v: View, i: nat)
    requires i < |v| - 1
    ensures var w := MergeAt(v, i); i < |w| - 1 && w[i].addr == v[i].addr && w[i].owner == v[i].owner
  {
  }

  lemma {:induction false} SuccessorIs(v: View, i: nat)
    requires Mergeable(v, i)
    ensures Nxt(v, i + 1, v[i].owner) == i + 1
  {
  }

  lemma {:induction false} NotBack(v: View, hdr: Memory, heads: seq<int>, i: nat)
    requires Rep(v, hdr, heads) && Distinct(v) && i + 1 < |v| - 1
    ensures v[i + 1].addr in hdr && hdr[v[i + 1].addr].next != v[i].addr
  {
    NextInHeaders(v, hdr, heads, i + 1);
    var j := Nxt(v, i + 2, v[i + 1].owner);
    hide Rep, Nxt, Distinct;
    DistinctAt(v, i, j);
  }

  /** The bytes of every live payload are the same. */
  ghost predicate PayloadsKept(v: View, before: seq<int>, after: seq<int>) {
    && |before| == |after|
    && (forall x, a {:trigger Live(v, x), after[a]} ::
          Live(v, x) && x.addr + INFO <= a < x.addr + INFO + x.size && 0 <= a < |after| ==> after[a] == before[a])
  }

  lemma {:induction false} AllocFacts(v: View, lo: int, hi: int, c: int, n: nat)
    requires v != [] && WellFormed(v, lo, hi) && 0 <= c < NCPU && n % 8 == 0 && Find(v, c, n).Some?
    ensures var (w, i) := Find(v, c, n).value;
      && WellFormed(w, lo, hi) && i < |w| - 1 && w[i].size >= n && lo <= w[i].addr
      && w[i].addr + INFO + w[i].size <= hi && (w[i].addr + INFO - lo) % 8 == 0
  {
    hide Find;
    var (w, i) := Find(v, c, n).value;
    FindKeeps(v, lo, hi, c, n);
    FindContract(v, lo, hi, c, n, w[i]);
    Below(w, lo, hi, i);
    Aligned(w, lo, hi, i);
    hide WellFormed;
  }

  /** Writes inside the block handed out reach no payload live before. */
  lemma {:induction false} KeptOutside(v: View, lo: int, hi: int, c: int, n: nat, before: seq<int>, after: seq<int>)
    requires v != [] && WellFormed(v, lo, hi) && 0 <= c < NCPU && n % 8 == 0 && Find(v, c, n).Some?
    requires |before| == |after|
    requires var (w, i) := Find(v, c, n).value;
      i < |w| ==>
        forall a :: 0 <= a < |after| && !(w[i].addr + INFO <= a < w[i].addr + INFO + w[i].size) ==>
          after[a] == before[a]
    ensures PayloadsKept(v, before, after)
  {
    hide Find, WellFormed;
    var (w, i) := Find(v, c, n).value;
    FindKeeps(v, lo, hi, c, n);
    forall x, a {:trigger Live(v, x), after[a]} |
      Live(v, x) && x.addr + INFO <= a < x.addr + INFO + x.size && 0 <= a < |after|
      ensures after[a] == before[a]
    {
      FindContract(v, lo, hi, c, n, x);
      OtherCell(w, lo, hi, i, x, a);
    }
  }

  lemma {:induction false} OtherCell(w: View, lo: int, hi: int, i: nat, x: Cell, a: int)
    requires WellFormed(w, lo, hi) && i < |w| && Live(w, x) && x != w[i]
    requires x.addr + INFO <= a < x.addr + INFO + x.size
    ensures !(w[i].addr <= a < w[i].addr + INFO + w[i].size)
  {
    var k :| 0 <= k < |w| && w[k] == x;
    PayloadsDisjoint(w, lo, hi, k, i, a);
  }

  lemma {:induction false} TakeFacts(v: View, lo: int, hi: int, hdr: Memory, heads: seq<int>, i: nat)
    requires lo > 0 && Rep(v, hdr, heads) && WellFormed(v, lo, hi) && i < |v| - 1
    ensures var a := v[i].addr; var w := v[i := v[i].(free := false)];
      && a in hdr && hdr[a].start == a && hdr[a].magic == MAGIC
      && WellFormed(w, lo, hi) && Last(w) == Last(v)
      && Rep(w, hdr[a := hdr[a].(free := false)], heads)
  {
    CellIsOk(v, hdr, heads, i);
    TilesDistinct(v, lo, hi);
    hide Rep, Tiles, Distinct, NextAddr, PrevAddr;
    SetFree(v, lo, hi, i, false);
    FlagRep(v, hdr, heads, i, false);
  }

  lemma {:induction false} SplitLength(v: View, i: nat, n: nat)
    requires i < |v| - 1
    ensures var w := Split(v, i, n);
      i < |w| - 1 && w[i].addr == v[i].addr && w[i].owner == v[i].owner && w[i].free == v[i].free
  {
  }

  lemma {:induction false} FirstFitIs(v: View, c: int, n: nat, i: nat)
    requires i < |v| && (i == |v| - 1 || Fits(v[i], c, n))
    requires forall j :: 0 <= j < i ==> !Fits(v[j], c, n)
    ensures FirstFit(v, c, n, 0) == i
  {
  }

  /** Finding a block, once the first that fits is known. */
  lemma {:induction false} FindIs(v: View, c: int, n: nat, i: nat)
    requires i < |v| && (i == |v| - 1 || Fits(v[i], c, n))
    requires forall j :: 0 <= j < i ==> !Fits(v[j], c, n)
    ensures i < |v| - 1 ==> Find(v, c, n) == Some((Take(v, i, n), i))
    ensures i == |v| - 1 ==>
      Find(v, c, n) == if Last(v).size < CarveSize(n) + INFO then None else Find(Carve(v, c, CarveSize(n)), c, n)
  {
    FirstFitIs(v, c, n, i);
    hide FirstFit, Take, Carve, CarveSize;
  }

  /** Where the walk along the list of CPU c starts. */
  lemma {:induction false} HeadFacts(v: View, hdr: Memory, heads: seq<int>, c: int)
    requires Rep(v, hdr, heads) && 0 <= c < NCPU && 0 !in hdr
    ensures var i := Nxt(v, 0, c);
      && heads[c] == AddrOrNull(v, i) && PrevOf(v, i, c) == 0
      && (i < |v| - 1 ==> HeaderIs(hdr, v[i]))
  {
    var i := Nxt(v, 0, c);
    CellIsOk(v, hdr, heads, i);
    PrvIs(v, i, c, -1);
  }

  /** One step of the walk: the links back and forth agree with the block, and the
      next one comes after it. */
  lemma {:induction false} LinkFacts(v: View, hdr: Memory, heads: seq<int>, i: nat, c: int)
    requires Rep(v, hdr, heads) && i < |v| - 1 && v[i].owner == c && 0 !in hdr
    ensures var a := v[i].addr; var j := Nxt(v, i + 1, c);
      && a in hdr && hdr[a].magic == MAGIC
      && (hdr[a].prev != 0 ==> hdr[a].prev in hdr && hdr[hdr[a].prev].next == a)
      && (hdr[a].next != 0 ==> hdr[a].next in hdr && hdr[hdr[a].next].prev == a)
      && hdr[a].next == AddrOrNull(v, j) && PrevOf(v, j, c) == a
      && (j < |v| - 1 ==> HeaderIs(hdr, v[j]))
  {
    var j := Nxt(v, i + 1, c);
    var k := Prv(v, i, c);
    CellIsOk(v, hdr, heads, i);
    CellIsOk(v, hdr, heads, j);
    if k >= 0 {
      CellIsOk(v, hdr, heads, k);
      NxtIs(v, k + 1, c, i);
    }
    PrvIs(v, j, c, i);
    hide Rep, Nxt, Prv;
  }

  ghost predicate HeaderIs(hdr: Memory, x: Cell) {
    && x.addr in hdr && x.addr != 0 && hdr[x.addr].start == x.addr
    && hdr[x.addr].size == x.size && hdr[x.addr].free == x.free
  }

  ghost predicate CarveReady(hdr: Memory, fb: int, rest: int, prevLast: int) {
    && fb in hdr && hdr[fb].next == 0 && hdr[fb].prev == 0
    && fb != rest && fb != prevLast && rest != prevLast
    && (prevLast != 0 ==> prevLast in hdr && hdr[prevLast].next == 0)
  }

  lemma {:induction false} CarveFacts(v: View, lo: int, hi: int, hdr: Memory, heads: seq<int>, c: int, sz: nat)
    requires lo > 0 && Rep(v, hdr, heads) && WellFormed(v, lo, hi) && 0 !in hdr
    requires 0 <= c < NCPU && sz % 8 == 0 && Last(v).size >= sz + INFO
    ensures var t := Last(v); var p := PrevOf(v, |v| - 1, c); var w := Carve(v, c, sz);
      && CarveReady(hdr, t.addr, t.addr + sz + INFO, p)
      && 0 !in CarveHeaders(hdr, t.addr, t.addr + sz + INFO, sz, t.size - INFO - sz, p)
      && w != [] && WellFormed(w, lo, hi) && Last(w) == Cell(t.addr + sz + INFO, t.size - INFO - sz, true, TAIL)
      && Rep(w, CarveHeaders(hdr, t.addr, Last(w).addr, sz, Last(w).size, p),
             if p == 0 then heads[c := t.addr] else heads)
  {
    var w := Carve(v, c, sz);
    CarveKeeps(v, lo, hi, c, sz);
    TilesDistinct(v, lo, hi);
    TilesDistinct(w, lo, hi);
    CarveIsReady(v, hdr, heads, c, w);
    CarveHeadersAt(hdr, Last(v).addr, Last(w).addr, sz, Last(w).size, PrevOf(v, |v| - 1, c), 0);
    hide Distinct, Rep, Nxt, CarveReady, PrevOf, CarveHeaders;
    CarveRep(v, hdr, heads, c, sz);
  }

  lemma {:induction false} TailHeader(v: View, hdr: Memory, heads: seq<int>)
    requires Rep(v, hdr, heads)
    ensures var t := Last(v); t.addr in hdr && hdr[t.addr].start == t.addr && hdr[t.addr].size == t.size
  {
    CellIsOk(v, hdr, heads, |v| - 1);
  }

  lemma {:induction false} CarveIsReady(v: View, hdr: Memory, heads: seq<int>, c: int, w: View)
    requires Rep(v, hdr, heads) && Carved(v, w, c) && Distinct(w)
    ensures CarveReady(hdr, Last(v).addr, Last(w).addr, PrevOf(v, |v| - 1, c))
  {
    var n := |v| - 1;
    var k := Prv(v, n, c);
    CellIsOk(v, hdr, heads, n);
    if k >= 0 {
      CellIsOk(v, hdr, heads, k);
      NextIs(v, k);
      NxtIs(v, k + 1, c, n);
    }
    hide Rep, Distinct, Nxt, Prv, NextAddr, PrevAddr;
    assert k >= 0 ==> w[k] == v[k];
    if k >= 0 {
      DistinctAt(w, k, n);
      DistinctAt(w, k, n + 1);
    }
    DistinctAt(w, n, n + 1);
  }

  /** What cutting a block needs, and what it establishes. */
  lemma {:induction false} SplitFacts(v: View, lo: int, hi: int, hdr: Memory, heads: seq<int>, i: nat, n: nat)
    requires lo > 0 && Rep(v, hdr, heads) && WellFormed(v, lo, hi) && i < |v| - 1 && n % 8 == 0 && 0 !in hdr
    requires v[i].size >= n + INFO + IGNORE_MM
    ensures var a, b := v[i].(size := n), Rest(v[i], n); var w := Split(v, i, n);
      && CutReady(hdr, a, b) && w != [] && WellFormed(w, lo, hi) && Last(w) == Last(v)
      && Rep(w, SplitHeaders(hdr, a, b), heads)
  {
    hide Insert, SplitHeaders, WellFormed, Distinct, Rep, Nxt, CutReady, Split;
    var a, b := v[i].(size := n), Rest(v[i], n);
    SplitIsInsert(v, i, n);
    SplitValid(v, lo, hi, i, n);
    assert Distinct(v) by { WellFormedDistinct(v, lo, hi); }
    SplitRep(v, hdr, heads, i, a, b);
    CutIsReady(v, hdr, heads, i, a, b);
  }

  lemma {:induction false} SplitIsInsert(v: View, i: nat, n: nat)
    requires i < |v| && v[i].size >= n + INFO + IGNORE_MM
    ensures Split(v, i, n) == Insert(v, i, v[i].(size := n), Rest(v[i], n))
  {
    hide Insert;
  }

  lemma {:induction false} WellFormedDistinct(v: View, lo: int, hi: int)
    requires WellFormed(v, lo, hi) && lo > 0
    ensures Distinct(v)
  {
    TilesDistinct(v, lo, hi);
  }

  function Rest(x: Cell, n: nat): Cell {
    Cell(x.addr + INFO + n, x.size - INFO - n, true, x.owner)
  }

  ghost predicate CutReady(hdr: Memory, a: Cell, b: Cell) {
    && a.addr in hdr && 0 !in hdr && b.addr != a.addr && b.addr > 0 && b.free
    && var next := hdr[a.addr].next; next != a.addr && next != b.addr && (next != 0 ==> next in hdr)
  }

  lemma {:induction false} CutIsReady(v: View, hdr: Memory, heads: seq<int>, i: nat, a: Cell, b: Cell)
    requires i < |v| - 1 && Rep(v, hdr, heads) && Distinct(v) && Distinct(Insert(v, i, a, b))
    requires a.addr == v[i].addr && b.free && 0 !in hdr
    ensures CutReady(hdr, a, b)
  {
    NextInSplit(v, i, a, b);
    NextInHeaders(v, hdr, heads, i);
    hide Rep, Nxt, Insert, Distinct;
    assert Insert(v, i, a, b)[i] == a && Insert(v, i, a, b)[i + 1] == b;
    DistinctAt(Insert(v, i, a, b), i, i + 1);
  }

  lemma {:induction false} DistinctAt(v: View, i: nat, j: nat)
    requires Distinct(v) && i < j < |v|
    ensures v[i].addr != v[j].addr && v[i].addr > 0 && v[j].addr > 0
  {
  }

  lemma {:induction false} NextInSplit(v: View, i: nat, a: Cell, b: Cell)
    requires i < |v| - 1 && Distinct(Insert(v, i, a, b))
    ensures b.addr > 0 && AddrOrNull(v, Nxt(v, i + 1, v[i].owner)) != b.addr
  {
    hide Insert, Nxt, Distinct;
    var w := Insert(v, i, a, b);
    var j := Nxt(v, i + 1, v[i].owner);
    assert w[j + 1] == v[j] && w[i + 1] == b;
    DistinctAt(w, i + 1, j + 1);
  }

  /** The writes of `divide_small` make the headers of a split. */
  lemma {:induction false} SplitHeadersAre(before: Memory, after: Memory, a: Cell, b: Cell)
    requires CutReady(before, a, b)
    requires
      var next := before[a.addr].next;
      var h1 := before[b.addr := Header(b.addr, b.size, next, a.addr, MAGIC, true)];
      var h2 := if next != 0 then h1[next := h1[next].(prev := b.addr)] else h1;
      after == h2[a.addr := h2[a.addr].(next := b.addr, size := a.size)]
    ensures after == SplitHeaders(before, a, b)
  {
  }

  lemma {:induction false} InitialRep(lo: int, hi: int, hdr: Memory, heads: seq<int>)
    requires 0 < lo && lo + INFO <= hi && hdr == map[lo := Header(lo, hi - lo - INFO, 0, 0, MAGIC, true)]
    requires |heads| == NCPU && forall c :: 0 <= c < NCPU ==> heads[c] == 0
    ensures Rep(Initial(lo, hi), hdr, heads)
  {
    var v := Initial(lo, hi);
    assert v[0].addr == lo;
    assert CellOk(v, hdr, 0);
  }

  lemma {:induction false} CellIsOk(v: View, hdr: Memory, heads: seq<int>, i: nat)
    requires Rep(v, hdr, heads) && i < |v|
    ensures CellOk(v, hdr, i)
  {
  }

  /** A successor is null or the address of a header. */
  lemma {:induction false} NextInHeaders(v: View, hdr: Memory, heads: seq<int>, i: nat)
    requires Rep(v, hdr, heads) && i < |v| - 1 && Distinct(v)
    ensures v[i].addr in hdr && hdr[v[i].addr].start == v[i].addr && hdr[v[i].addr].size == v[i].size
    ensures var next := hdr[v[i].addr].next;
      next == AddrOrNull(v, Nxt(v, i + 1, v[i].owner)) && (next != 0 ==> next in hdr) && next != v[i].addr
  {
    assert CellOk(v, hdr, i);
    var j := Nxt(v, i + 1, v[i].owner);
    assert CellOk(v, hdr, j);
  }

  lemma {:induction false} SplitValid(v: View, lo: int, hi: int, i: nat, n: nat)
    requires WellFormed(v, lo, hi) && i < |v| - 1 && n % 8 == 0 && lo > 0
    ensures Split(v, i, n) != [] && WellFormed(Split(v, i, n), lo, hi) && Distinct(Split(v, i, n))
    ensures Last(Split(v, i, n)) == Last(v)
  {
    hide Insert, Tiles;
    var x := v[i];
    var w := Split(v, i, n);
    if x.size >= n + INFO + IGNORE_MM {
      var a, b := x.(size := n), Cell(x.addr + INFO + n, x.size - INFO - n, true, x.owner);
      assert 0 <= x.owner < NCPU && b.size % 8 == 0;
      InsertTiles(v, lo, hi, i, a, b);
      OwnedInsert(v, i, a, b);
    }
    TilesDistinct(w, lo, hi);
  }
}
