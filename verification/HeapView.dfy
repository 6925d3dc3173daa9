/** The heap as the sequence of its blocks in address order, and what allocation
    and freeing do to it. The last cell is the uncarved tail. */
module HeapView {
  import opened Options

  const TWO31 := 0x8000_0000
  const TWO32 := 0x1_0000_0000
  const NCPU := 4
  const LARGE := 4096
  const IGNORE_MM := 128

  /** The `align` macro: the next multiple of eight, strictly above s. */
  function Align(s: nat): nat {
    (s / 8 + 1) * 8
  }

  const INFO: nat := 32  // Align(24): four words and two ints on the 32-bit target

  const TAIL := -1

  /** A block: its address, payload size, whether it is free, and the CPU in whose
      list it is. */
  datatype Cell = Cell(addr: int, size: int, free: bool, owner: int)

  type View = seq<Cell>

  function Last(v: View): Cell
    requires v != []
  {
    v[|v| - 1]
  }

  /** The blocks cover lo..hi without gap or overlap. */
  ghost predicate Tiles(v: View, lo: int, hi: int) {
    && v != [] && v[0].addr == lo && Last(v).addr + INFO + Last(v).size == hi
    && (forall i :: 0 <= i < |v| ==> v[i].size >= 0)
    && (forall i :: 0 <= i < |v| - 1 ==> v[i + 1].addr == v[i].addr + INFO + v[i].size)
  }

  ghost predicate Owned(v: View) {
    && v != [] && Last(v).owner == TAIL && Last(v).free
    && (forall i :: 0 <= i < |v| - 1 ==> 0 <= v[i].owner < NCPU && v[i].size % 8 == 0)
  }

  ghost predicate WellFormed(v: View, lo: int, hi: int) {
    Tiles(v, lo, hi) && Owned(v)
  }

  lemma {:induction false} Ordered(v: View, lo: int, hi: int, i: nat, j: nat)
    requires Tiles(v, lo, hi) && i < j < |v|
    ensures v[i].addr + INFO + v[i].size <= v[j].addr
    decreases j
  {
    if i + 1 < j {
      Ordered(v, lo, hi, i, j - 1);
      assert v[j - 1 + 1].addr == v[j - 1].addr + INFO + v[j - 1].size;
    } else {
      assert v[i + 1].addr == v[i].addr + INFO + v[i].size;
    }
  }

  lemma {:induction false} Below(v: View, lo: int, hi: int, i: nat)
    requires Tiles(v, lo, hi) && i < |v|
    ensures lo <= v[i].addr && v[i].addr + INFO + v[i].size <= hi
  {
    if i > 0 { Ordered(v, lo, hi, 0, i); }
    if i < |v| - 1 { Ordered(v, lo, hi, i, |v| - 1); }
  }

  /** Payloads are pairwise disjoint, cover no header, and stay inside the heap. */
  lemma {:induction false} PayloadsDisjoint(v: View, lo: int, hi: int, i: nat, j: nat, a: int)
    requires Tiles(v, lo, hi) && i < |v| && j < |v|
    requires v[i].addr + INFO <= a < v[i].addr + INFO + v[i].size
    ensures lo <= a < hi
    ensures v[j].addr <= a < v[j].addr + INFO + v[j].size ==> i == j && a >= v[j].addr + INFO
  {
    Below(v, lo, hi, i);
    if i < j { Ordered(v, lo, hi, i, j); }
    if j < i { Ordered(v, lo, hi, j, i); }
  }

  // ---- allocation ----

  predicate Fits(x: Cell, c: int, n: nat) {
    x.owner == c && x.free && x.size >= n
  }

  /** The first block of CPU c that fits, from index i on; the tail index if none. */
  function FirstFit(v: View, c: int, n: nat, i: nat): (k: nat)
    requires i < |v|
    ensures i <= k < |v|
    ensures k < |v| - 1 ==> Fits(v[k], c, n)
    ensures forall j :: i <= j < k ==> !Fits(v[j], c, n)
    decreases |v| - i
  {
    if i == |v| - 1 || Fits(v[i], c, n) then i else FirstFit(v, c, n, i + 1)
  }

  /** Cell i replaced by two. */
  function Insert(v: View, i: nat, a: Cell, b: Cell): (w: View)
    requires i < |v|
    ensures |w| == |v| + 1 && w[i] == a && w[i + 1] == b
    ensures forall k :: 0 <= k < i ==> w[k] == v[k]
    ensures forall k :: i + 2 <= k < |w| ==> w[k] == v[k - 1]
  {
    v[..i] + [a, b] + v[i + 1..]
  }

  lemma {:induction false} InsertTiles(v: View, lo: int, hi: int, i: nat, a: Cell, b: Cell)
    requires Tiles(v, lo, hi) && i < |v| && a.size >= 0 && b.size >= 0
    requires a.addr == v[i].addr && b.addr == a.addr + INFO + a.size
    requires a.size + INFO + b.size == v[i].size
    ensures Tiles(Insert(v, i, a, b), lo, hi)
  {
    hide Insert;
    var w := Insert(v, i, a, b);
    assert forall k :: 0 <= k < |w| ==> w[k].size >= 0;
    forall k | 0 <= k < |w| - 1 ensures w[k + 1].addr == w[k].addr + INFO + w[k].size {
      InsertAdjacent(v, lo, hi, i, a, b, k);
    }
  }

  lemma {:induction false} InsertAdjacent(v: View, lo: int, hi: int, i: nat, a: Cell, b: Cell, k: nat)
    requires Tiles(v, lo, hi) && i < |v|
    requires a.addr == v[i].addr && b.addr == a.addr + INFO + a.size
    requires a.size + INFO + b.size == v[i].size && k < |v|
    ensures var w := Insert(v, i, a, b); w[k + 1].addr == w[k].addr + INFO + w[k].size
  {
    hide Insert;
    var w := Insert(v, i, a, b);
    if k < i {
      assert v[k + 1].addr == v[k].addr + INFO + v[k].size;
    } else if k >= i + 1 {
      assert w[k + 1] == v[k];
      assert v[k - 1 + 1].addr == v[k - 1].addr + INFO + v[k - 1].size;
    }
  }

  /** `divide_small`: cut off the rest when it is worth a block. */
  function Split(v: View, i: nat, n: nat): View
    requires i < |v|
  {
    var x := v[i];
    if x.size < n + INFO + IGNORE_MM then v
    else Insert(v, i, x.(size := n), Cell(x.addr + INFO + n, x.size - INFO - n, true, x.owner))
  }

  function Take(v: View, i: nat, n: nat): View
    requires i < |v|
  {
    var w := Split(v, i, n);
    w[i := w[i].(free := false)]
  }

  /** The size `new_small_block` carves; the request passes through an `int`. */
  function CarveSize(n: nat): nat {
    var sz := if n % TWO32 < TWO31 then n % TWO32 else n % TWO32 - TWO32;
    if sz < LARGE then LARGE else sz
  }

  function Carve(v: View, c: int, sz: nat): View
    requires v != []
  {
    var t := Last(v);
    Insert(v, |v| - 1, t.(size := sz, owner := c), Cell(t.addr + sz + INFO, t.size - INFO - sz, true, TAIL))
  }

  /** `find_small`: the heap and the index of the block it hands out, or nothing
      when the tail is exhausted and the source halts. */
  function Find(v: View, c: int, n: nat): Option<(View, nat)>
    requires v != []
    decreases if Last(v).size < 0 then 0 else Last(v).size
  {
    var i := FirstFit(v, c, n, 0);
    if i < |v| - 1 then Some((Take(v, i, n), i))
    else if Last(v).size < CarveSize(n) + INFO then None
    else Find(Carve(v, c, CarveSize(n)), c, n)
  }

  lemma {:induction false} SplitKeeps(v: View, lo: int, hi: int, i: nat, n: nat)
    requires WellFormed(v, lo, hi) && i < |v| - 1 && n % 8 == 0
    ensures WellFormed(Take(v, i, n), lo, hi)
  {
    hide Insert, Tiles;
    var x := v[i];
    var w := Split(v, i, n);
    if x.size >= n + INFO + IGNORE_MM {
      var a, b := x.(size := n), Cell(x.addr + INFO + n, x.size - INFO - n, true, x.owner);
      assert 0 <= x.owner < NCPU && b.size % 8 == 0;
      InsertTiles(v, lo, hi, i, a, b);
      OwnedInsert(v, i, a, b);
    }
    hide Owned;
    SetFree(w, lo, hi, i, false);
  }

  lemma {:induction false} OwnedInsert(v: View, i: nat, a: Cell, b: Cell)
    requires Owned(v) && i < |v| - 1
    requires 0 <= a.owner < NCPU && 0 <= b.owner < NCPU && a.size % 8 == 0 && b.size % 8 == 0
    ensures Owned(Insert(v, i, a, b))
  {
    hide Insert;
    var w := Insert(v, i, a, b);
    assert Last(w) == Last(v);
  }

  lemma {:induction false} SetFree(v: View, lo: int, hi: int, i: nat, free: bool)
    requires WellFormed(v, lo, hi) && i < |v| - 1
    ensures WellFormed(v[i := v[i].(free := free)], lo, hi)
  {
    var w := v[i := v[i].(free := free)];
    forall k | 0 <= k < |w| - 1 ensures w[k + 1].addr == w[k].addr + INFO + w[k].size {
      assert v[k + 1].addr == v[k].addr + INFO + v[k].size;
    }
  }

  lemma {:induction false} CarveKeeps(v: View, lo: int, hi: int, c: int, sz: nat)
    requires WellFormed(v, lo, hi) && 0 <= c < NCPU && sz % 8 == 0 && Last(v).size >= sz + INFO
    ensures WellFormed(Carve(v, c, sz), lo, hi)
  {
    var t := Last(v);
    var rest := Cell(t.addr + sz + INFO, t.size - INFO - sz, true, TAIL);
    InsertTiles(v, lo, hi, |v| - 1, t.(size := sz, owner := c), rest);
    hide Insert;
  }

  lemma {:induction false} CarveSizeAligned(n: nat)
    requires n % 8 == 0
    ensures CarveSize(n) % 8 == 0
    ensures n < TWO31 ==> CarveSize(n) >= n
  {
  }

  lemma {:induction false} FindKeeps(v: View, lo: int, hi: int, c: int, n: nat)
    requires v != [] && WellFormed(v, lo, hi) && 0 <= c < NCPU && n % 8 == 0
    ensures var r := Find(v, c, n);
      r.Some? ==> WellFormed(r.value.0, lo, hi) && r.value.1 < |r.value.0| - 1
    decreases if Last(v).size < 0 then 0 else Last(v).size
  {
    hide Take, Carve, Owned;
    var i := FirstFit(v, c, n, 0);
    var sz := CarveSize(n);
    if i < |v| - 1 {
      SplitKeeps(v, lo, hi, i, n);
      TakeLength(v, i, n);
    } else if Last(v).size >= sz + INFO {
      CarveSizeAligned(n);
      CarveKeeps(v, lo, hi, c, sz);
      CarveShrinks(v, c, sz);
      FindKeeps(Carve(v, c, sz), lo, hi, c, n);
    }
  }

  lemma {:induction false} TakeLength(v: View, i: nat, n: nat)
    requires i < |v| - 1
    ensures i < |Take(v, i, n)| - 1
  {
  }

  lemma {:induction false} CarveShrinks(v: View, c: int, sz: nat)
    requires v != []
    ensures Last(Carve(v, c, sz)).size == Last(v).size - INFO - sz
  {
  }

  // ---- freeing ----

  predicate Mergeable(v: View, i: nat) {
    && i + 1 < |v| - 1 && v[i].owner == v[i + 1].owner && v[i].free && v[i + 1].free
    && v[i].size + v[i + 1].size + INFO <= LARGE
  }

  /** Cells i and i + 1 made one. */
  function Join(v: View, i: nat): (w: View)
    requires i + 1 < |v|
    ensures |w| == |v| - 1 && w[i] == v[i].(size := v[i].size + v[i + 1].size + INFO)
    ensures forall k :: 0 <= k < i ==> w[k] == v[k]
    ensures forall k :: i < k < |w| ==> w[k] == v[k + 1]
  {
    v[..i] + [v[i].(size := v[i].size + v[i + 1].size + INFO)] + v[i + 2..]
  }

  /** `merge_small` on cell i and the cell after it. */
  function MergeAt(v: View, i: nat): View {
    if Mergeable(v, i) then Join(v, i) else v
  }

  /** The carved cell at address a, or the tail index. */
  function IndexAt(v: View, a: int, i: nat): (k: nat)
    requires i < |v|
    ensures i <= k < |v|
    ensures k < |v| - 1 ==> v[k].addr == a
    ensures forall j :: i <= j < k ==> v[j].addr != a
    decreases |v| - i
  {
    if i == |v| - 1 || v[i].addr == a then i else IndexAt(v, a, i + 1)
  }

  /** `kfree`: a pointer that is no live block is ignored. */
  function Free(v: View, p: int): View
    requires v != []
  {
    var i := IndexAt(v, p - INFO, 0);
    if i == |v| - 1 || v[i].free then v
    else
      var w := MergeAt(v[i := v[i].(free := true)], i);
      if i > 0 then MergeAt(w, i - 1) else w
  }

  lemma {:induction false} JoinKeeps(v: View, lo: int, hi: int, i: nat)
    requires WellFormed(v, lo, hi) && i + 1 < |v| - 1
    ensures WellFormed(Join(v, i), lo, hi)
  {
    hide Join;
    var w := Join(v, i);
    assert Last(w) == Last(v);
    forall k | 0 <= k < |w| - 1 ensures w[k + 1].addr == w[k].addr + INFO + w[k].size {
      if k < i {
        assert v[k + 1].addr == v[k].addr + INFO + v[k].size;
      } else {
        assert v[k + 1 + 1].addr == v[k + 1].addr + INFO + v[k + 1].size;
        assert v[k + 1].addr == v[k].addr + INFO + v[k].size;
      }
    }
  }

  lemma {:induction false} MergeKeeps(v: View, lo: int, hi: int, i: nat)
    requires WellFormed(v, lo, hi)
    ensures WellFormed(MergeAt(v, i), lo, hi)
  {
    if Mergeable(v, i) { JoinKeeps(v, lo, hi, i); }
  }

  lemma {:induction false} FreeKeeps(v: View, lo: int, hi: int, p: int)
    requires v != [] && WellFormed(v, lo, hi)
    ensures WellFormed(Free(v, p), lo, hi)
  {
    hide WellFormed, MergeAt;
    var i := IndexAt(v, p - INFO, 0);
    if i < |v| - 1 && !v[i].free {
      var u := v[i := v[i].(free := true)];
      SetFree(v, lo, hi, i, true);
      MergeKeeps(u, lo, hi, i);
      if i > 0 { MergeKeeps(MergeAt(u, i), lo, hi, i - 1); }
    }
  }

  // ---- what allocation promises ----

  /** A live block: a cell that is not free. */
  predicate Live(v: View, x: Cell) {
    x in v && !x.free
  }

  lemma {:induction false} InsertMembers(v: View, i: nat, a: Cell, b: Cell, x: Cell)
    requires i < |v|
    ensures x in Insert(v, i, a, b) <==> x == a || x == b || x in v[..i] || x in v[i + 1..]
    ensures x in v <==> x == v[i] || x in v[..i] || x in v[i + 1..]
  {
    assert v == v[..i] + [v[i]] + v[i + 1..];
  }

  lemma {:induction false} UpdateMembers(v: View, i: nat, y: Cell, x: Cell)
    requires i < |v|
    ensures x in v[i := y] <==> x == y || x in v[..i] || x in v[i + 1..]
    ensures x in v <==> x == v[i] || x in v[..i] || x in v[i + 1..]
  {
    assert v == v[..i] + [v[i]] + v[i + 1..];
    assert v[i := y] == v[..i] + [y] + v[i + 1..];
  }

  predicate Unique(v: View, i: nat)
    requires i < |v|
  {
    forall k :: 0 <= k < |v| && k != i ==> v[k].addr != v[i].addr
  }

  lemma {:induction false} TilesUnique(v: View, lo: int, hi: int, i: nat)
    requires Tiles(v, lo, hi) && i < |v|
    ensures Unique(v, i)
  {
    forall k | 0 <= k < |v| && k != i ensures v[k].addr != v[i].addr {
      if k < i { Ordered(v, lo, hi, k, i); } else { Ordered(v, lo, hi, i, k); }
    }
  }

  /** Splitting changes no live block. */
  lemma {:induction false} LiveAfterSplit(v: View, i: nat, n: nat, x: Cell)
    requires i < |v| && v[i].free
    ensures Live(Split(v, i, n), x) <==> Live(v, x)
  {
    var y := v[i];
    InsertMembers(v, i, y.(size := n), Cell(y.addr + INFO + n, y.size - INFO - n, true, y.owner), x);
  }

  lemma {:induction false} LiveAfterTake(v: View, lo: int, hi: int, i: nat, n: nat, x: Cell)
    requires Tiles(v, lo, hi) && i < |v| && v[i].free
    ensures Live(Take(v, i, n), x) <==> Live(v, x) || x == Take(v, i, n)[i]
  {
    hide Split;
    LiveAfterSplit(v, i, n, x);
    var w := SplitAt(v, i, n);
    UpdateMembers(w, i, w[i].(free := false), x);
  }

  lemma {:induction false} SplitAt(v: View, i: nat, n: nat) returns (w: View)
    requires i < |v|
    ensures w == Split(v, i, n) && i < |w| && w[i].free == v[i].free
  {
    w := Split(v, i, n);
  }

  lemma {:induction false} LiveAfterCarve(v: View, c: int, sz: nat, x: Cell)
    requires v != [] && Last(v).free
    ensures Live(Carve(v, c, sz), x) <==> Live(v, x)
  {
    var t := Last(v);
    InsertMembers(v, |v| - 1, t.(size := sz, owner := c), Cell(t.addr + sz + INFO, t.size - INFO - sz, true, TAIL), x);
  }

  lemma {:induction false} TakenIsNew(v: View, lo: int, hi: int, i: nat, x: Cell)
    requires Tiles(v, lo, hi) && i < |v| && v[i].free && x.addr == v[i].addr
    ensures !Live(v, x)
  {
    TilesUnique(v, lo, hi, i);
  }

  /** Allocation hands out one new live block, of the asked CPU, big enough but
      not much bigger, and leaves every other live block as it was. */
  lemma {:induction false} FindContract(v: View, lo: int, hi: int, c: int, n: nat, x: Cell)
    requires v != [] && WellFormed(v, lo, hi) && 0 <= c < NCPU && n % 8 == 0 && Find(v, c, n).Some?
    ensures var (w, i) := Find(v, c, n).value;
      && i < |w| - 1 && w[i].owner == c && !w[i].free && n <= w[i].size < n + INFO + IGNORE_MM
      && (Live(w, x) <==> Live(v, x) || x == w[i]) && !Live(v, w[i])
    decreases if Last(v).size < 0 then 0 else Last(v).size
  {
    hide Take, Carve, Live;
    var i := FirstFit(v, c, n, 0);
    var sz := CarveSize(n);
    if i < |v| - 1 {
      LiveAfterTake(v, lo, hi, i, n, x);
      TakeShape(v, i, n);
      TakenIsNew(v, lo, hi, i, Take(v, i, n)[i]);
    } else {
      CarveSizeAligned(n);
      CarveKeeps(v, lo, hi, c, sz);
      CarveShrinks(v, c, sz);
      LiveAfterCarve(v, c, sz, x);
      var (w, k) := Find(v, c, n).value;
      FindKeeps(v, lo, hi, c, n);
      LiveAfterCarve(v, c, sz, w[k]);
      FindContract(Carve(v, c, sz), lo, hi, c, n, x);
    }
  }

  lemma {:induction false} TakeShape(v: View, i: nat, n: nat)
    requires i < |v| - 1 && v[i].size >= n
    ensures var w := Take(v, i, n);
      && i < |w| - 1
      && w[i] == v[i].(size := w[i].size, free := false) && n <= w[i].size < n + INFO + IGNORE_MM
  {
  }

  /** Every block, hence every payload, has the alignment of the heap start. */
  lemma {:induction false} Aligned(v: View, lo: int, hi: int, i: nat)
    requires WellFormed(v, lo, hi) && i < |v|
    ensures (v[i].addr - lo) % 8 == 0
    decreases i
  {
    if i > 0 {
      Aligned(v, lo, hi, i - 1);
      assert v[i - 1 + 1].addr == v[i - 1].addr + INFO + v[i - 1].size;
    }
  }

  /** Below 2 GiB one carve is enough: the second scan finds the carved block. */
  lemma {:induction false} CarvesAtMostOnce(v: View, c: int, n: nat)
    requires v != [] && n < TWO31 && n % 8 == 0 && Last(v).size >= CarveSize(n) + INFO && Last(v).free
    requires FirstFit(v, c, n, 0) == |v| - 1
    ensures var w := Carve(v, c, CarveSize(n)); FirstFit(w, c, n, 0) == |v| - 1 < |w| - 1
  {
    CarveSizeAligned(n);
    var w := Carve(v, c, CarveSize(n));
    assert Fits(w[|v| - 1], c, n);
    forall k | 0 <= k < |v| - 1 ensures !Fits(w[k], c, n) {
      assert w[k] == v[k];
    }
  }

  // ---- what freeing promises ----

  lemma {:induction false} JoinMembers(v: View, i: nat, x: Cell)
    requires i + 1 < |v|
    ensures x in Join(v, i) <==> x == Join(v, i)[i] || x in v[..i] || x in v[i + 2..]
    ensures x in v <==> x == v[i] || x == v[i + 1] || x in v[..i] || x in v[i + 2..]
  {
    assert v == v[..i] + [v[i]] + [v[i + 1]] + v[i + 2..];
  }

  lemma {:induction false} LiveAfterMerge(v: View, i: nat, x: Cell)
    ensures Live(MergeAt(v, i), x) <==> Live(v, x)
  {
    if Mergeable(v, i) { JoinMembers(v, i, x); }
  }

  lemma {:induction false} LiveAfterRelease(v: View, lo: int, hi: int, i: nat, x: Cell)
    requires Tiles(v, lo, hi) && i < |v| && !v[i].free
    ensures Live(v[i := v[i].(free := true)], x) <==> Live(v, x) && x.addr != v[i].addr
  {
    TilesUnique(v, lo, hi, i);
    UpdateMembers(v, i, v[i].(free := true), x);
    if x in v[..i] { var k :| 0 <= k < i && v[k] == x; }
    if x in v[i + 1..] { var k :| i < k < |v| && v[k] == x; }
  }

  /** Freeing takes away the live block at the pointer, if there is one, and
      leaves every other live block as it was. */
  lemma {:induction false} FreeContract(v: View, lo: int, hi: int, p: int, x: Cell)
    requires v != [] && WellFormed(v, lo, hi)
    ensures Live(Free(v, p), x) <==> Live(v, x) && x.addr + INFO != p
  {
    hide Join, Mergeable;
    var i := IndexAt(v, p - INFO, 0);
    if i < |v| - 1 && !v[i].free {
      hide Live, MergeAt;
      var u := v[i := v[i].(free := true)];
      LiveAfterRelease(v, lo, hi, i, x);
      LiveAfterMerge(u, i, x);
      if i > 0 { LiveAfterMerge(MergeAt(u, i), i - 1, x); }
    } else {
      TilesUnique(v, lo, hi, i);
      assert forall k :: 0 <= k < |v| && v[k].addr == p - INFO ==> v[k].free;
    }
  }

  /** Freeing twice is freeing once. */
  lemma {:induction false} FreeTwice(v: View, lo: int, hi: int, p: int)
    requires v != [] && WellFormed(v, lo, hi)
    ensures Free(v, p) != [] && Free(Free(v, p), p) == Free(v, p)
  {
    FreeKeeps(v, lo, hi, p);
    hide Free;
    var w := Free(v, p);
    var i := IndexAt(w, p - INFO, 0);
    FreeContract(v, lo, hi, p, w[i]);
    FreeIgnores(w, p);
  }

  lemma {:induction false} FreeIgnores(w: View, p: int)
    requires w != []
    requires var i := IndexAt(w, p - INFO, 0); i == |w| - 1 || w[i].free
    ensures Free(w, p) == w
  {
  }

  /** The size of a cell is one the address had before, or at most LARGE: merging
      makes no block larger than that. */
  predicate OldOrSmall(v: View, x: Cell) {
    x.size <= LARGE || exists k :: 0 <= k < |v| && v[k].addr == x.addr && v[k].size == x.size
  }

  lemma {:induction false} MergeCapped(v: View, w: View, i: nat, j: nat)
    requires forall k :: 0 <= k < |w| ==> OldOrSmall(v, w[k])
    requires j < |MergeAt(w, i)|
    ensures OldOrSmall(v, MergeAt(w, i)[j])
  {
  }

  lemma {:induction false} FreeCapped(v: View, p: int, j: nat)
    requires v != [] && j < |Free(v, p)|
    ensures OldOrSmall(v, Free(v, p)[j])
  {
    hide MergeAt, OldOrSmall;
    var i := IndexAt(v, p - INFO, 0);
    var u := if i == |v| - 1 then v else v[i := v[i].(free := true)];
    forall k | 0 <= k < |v| ensures OldOrSmall(v, v[k]) && OldOrSmall(v, u[k]) {
      OwnSize(v, u, k);
    }
    if i < |v| - 1 && !v[i].free {
      var w := MergeAt(u, i);
      forall k | 0 <= k < |w| ensures OldOrSmall(v, w[k]) { MergeCapped(v, u, i, k); }
      if i > 0 {
        MergeCapped(v, w, i - 1, j);
      }
    }
  }

  lemma {:induction false} OwnSize(v: View, u: View, k: nat)
    requires k < |v| == |u| && u[k].addr == v[k].addr && u[k].size == v[k].size
    ensures OldOrSmall(v, u[k]) && OldOrSmall(v, v[k])
  {
  }

  /** A fitting free block of CPU c, before the tail. */
  predicate HasFit(v: View, c: int, n: nat) {
    exists k :: 0 <= k < |v| - 1 && Fits(v[k], c, n)
  }

  lemma {:induction false} MergeKeepsFit(v: View, i: nat, k: nat, c: int, n: nat)
    requires k < |v| - 1 && Fits(v[k], c, n) && (forall j :: 0 <= j < |v| ==> v[j].size >= 0)
    ensures HasFit(MergeAt(v, i), c, n)
  {
    var w := MergeAt(v, i);
    if Mergeable(v, i) {
      var k' := if k <= i then k else k - 1;
      assert Fits(w[k'], c, n);
    } else {
      assert Fits(w[k], c, n);
    }
  }

  /** Asking again for as much on the owning CPU right after a free is served
      from its list, never from the tail. */
  lemma {:induction false} ReallocNeverCarves(v: View, lo: int, hi: int, i: nat, n: nat)
    requires v != [] && WellFormed(v, lo, hi) && i < |v| - 1 && !v[i].free && v[i].size >= n
    ensures var w := Free(v, v[i].addr + INFO); w != [] && FirstFit(w, v[i].owner, n, 0) < |w| - 1
  {
    hide Join;
    var c := v[i].owner;
    TilesUnique(v, lo, hi, i);
    var u := v[i := v[i].(free := true)];
    assert IndexAt(v, v[i].addr, 0) == i;
    MergeKeepsFit(u, i, i, c, n);
    SetFree(v, lo, hi, i, true);
    MergeKeeps(u, lo, hi, i);
    var w := MergeAt(u, i);
    hide MergeAt;
    if i > 0 {
      var k :| 0 <= k < |w| - 1 && Fits(w[k], c, n);
      MergeKeepsFit(w, i - 1, k, c, n);
    }
    FitFound(Free(v, v[i].addr + INFO), c, n);
  }

  lemma {:induction false} FitFound(w: View, c: int, n: nat)
    requires HasFit(w, c, n)
    ensures FirstFit(w, c, n, 0) < |w| - 1
  {
  }

  // ---- runs ----

  datatype Op = OpAlloc(cpu: int, size: nat) | OpFree(ptr: int)

  predicate ValidOp(op: Op) {
    op.OpAlloc? ==> 0 <= op.cpu < NCPU
  }

  function Initial(lo: int, hi: int): View {
    [Cell(lo, hi - lo - INFO, true, TAIL)]
  }

  /** One call; nothing where the source halts for lack of memory. */
  function Step(v: View, op: Op): Option<View>
    requires v != []
  {
    match op
    case OpAlloc(c, n) =>
      var r := Find(v, c, Align(n));
      if r.Some? then Some(r.value.0) else None
    case OpFree(p) => Some(Free(v, p))
  }

  /** The blocks handed out and not freed, from the history of the calls. */
  ghost function LiveStep(v: View, op: Op, live: iset<Cell>): iset<Cell>
    requires v != []
  {
    match op
    case OpAlloc(c, n) =>
      var r := Find(v, c, Align(n));
      if r.Some? && r.value.1 < |r.value.0| then live + iset{r.value.0[r.value.1]} else live
    case OpFree(p) => iset x | x in live && x.addr + INFO != p
  }

  ghost predicate Sound(v: View, lo: int, hi: int, live: iset<Cell>) {
    v != [] && WellFormed(v, lo, hi) && forall x :: x in live <==> Live(v, x)
  }

  lemma {:induction false} StepSound(v: View, lo: int, hi: int, live: iset<Cell>, op: Op)
    requires Sound(v, lo, hi, live) && ValidOp(op) && Step(v, op).Some?
    ensures Sound(Step(v, op).value, lo, hi, LiveStep(v, op, live))
  {
    hide Live, WellFormed, Find, Free;
    match op
    case OpAlloc(c, n) =>
      FindKeeps(v, lo, hi, c, Align(n));
      forall x ensures x in LiveStep(v, op, live) <==> Live(Step(v, op).value, x) {
        FindContract(v, lo, hi, c, Align(n), x);
      }
    case OpFree(p) =>
      FreeKeeps(v, lo, hi, p);
      forall x ensures x in LiveStep(v, op, live) <==> Live(Step(v, op).value, x) {
        FreeContract(v, lo, hi, p, x);
      }
      FreeNonempty(v, p);
  }

  lemma {:induction false} FreeNonempty(v: View, p: int)
    requires v != []
    ensures Free(v, p) != []
  {
  }

  ghost predicate RunSound(v: View, lo: int, hi: int, live: iset<Cell>, ops: seq<Op>)
    decreases ops
  {
    && Sound(v, lo, hi, live)
    && (ops != [] && Step(v, ops[0]).Some? ==>
          RunSound(Step(v, ops[0]).value, lo, hi, LiveStep(v, ops[0], live), ops[1..]))
  }

  lemma {:induction false} RunKeepsSound(v: View, lo: int, hi: int, live: iset<Cell>, ops: seq<Op>)
    requires Sound(v, lo, hi, live) && forall op :: op in ops ==> ValidOp(op)
    ensures RunSound(v, lo, hi, live, ops)
    decreases ops
  {
    hide WellFormed, Live, Step, LiveStep;
    if ops != [] && Step(v, ops[0]).Some? {
      assert ops[0] in ops;
      StepSound(v, lo, hi, live, ops[0]);
      RunKeepsSound(Step(v, ops[0]).value, lo, hi, LiveStep(v, ops[0], live), ops[1..]);
    }
  }

  lemma {:induction false} InitialSound(lo: int, hi: int)
    requires lo + INFO <= hi
    ensures Sound(Initial(lo, hi), lo, hi, iset{})
  {
  }

  /** From the heap of `pmm_init` on, after any interleaving of calls from the four CPUs
      the blocks tile the heap, and the live ones are exactly those handed out and not
      freed since. */
  lemma {:induction false} HeapPartition(lo: int, hi: int, ops: seq<Op>)
    requires lo + INFO <= hi && forall op :: op in ops ==> ValidOp(op)
    ensures RunSound(Initial(lo, hi), lo, hi, iset{}, ops)
  {
    hide Sound, RunSound, Initial;
    InitialSound(lo, hi);
    RunKeepsSound(Initial(lo, hi), lo, hi, iset{}, ops);
  }
}
