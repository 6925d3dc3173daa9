/** What one allocation and one free make of the heap, block by block: the places, sizes
    and owners after the call, from those before it. */
module HeapLaws {
  import opened Options
  import opened HeapView

  /** The next multiple of eight, even after a multiple. */
  lemma AlignIs(s: nat)
    ensures Align(s) % 8 == 0 && s < Align(s) <= s + 8
  {
  }

  /** What is carved for a request: the larger of it and 4096 bytes, and 4096 for one that
      turns negative in an `int`. */
  lemma CarveSizeIs(n: nat)
    requires n < 0x1_0000_0000
    ensures CarveSize(n) == if 4096 < n < 0x8000_0000 then n else 4096
  {
  }

  // ---- allocation ----

  /** The two blocks, or the one, that a free block x of CPU c becomes when n bytes of it are
      taken: the rest is a block if it has 128 bytes after its header. */
  function Parts(x: Cell, c: int, n: nat): View {
    if x.size >= n + 32 + 128 then
      [Cell(x.addr, n, false, c), Cell(x.addr + 32 + n, x.size - 32 - n, true, c)]
    else
      [Cell(x.addr, x.size, false, c)]
  }

  lemma {:induction false} TakeIs(v: View, i: nat, n: nat)
    requires i < |v| && v[i].free
    ensures Take(v, i, n) == v[..i] + Parts(v[i], v[i].owner, n) + v[i + 1..]
  {
    var x := v[i];
    if x.size < n + INFO + IGNORE_MM {
      assert v[i := x.(free := false)] == v[..i] + [x.(free := false)] + v[i + 1..];
    } else {
      var a, b := x.(size := n), Cell(x.addr + INFO + n, x.size - INFO - n, true, x.owner);
      assert Insert(v, i, a, b)[i := a.(free := false)] == v[..i] + [a.(free := false), b] + v[i + 1..];
    }
  }

  lemma {:induction false} FirstFitIs(v: View, c: int, n: nat, from: nat, i: nat)
    requires from <= i < |v|
    requires forall j :: from <= j < i ==> !(v[j].owner == c && v[j].free && v[j].size >= n)
    requires i < |v| - 1 ==> v[i].owner == c && v[i].free && v[i].size >= n
    ensures FirstFit(v, c, n, from) == i
  {
  }

  /** The lowest free block of the CPU that is large enough is served, and only it changes. */
  lemma {:induction false} LowestFitServed(v: View, c: int, n: nat, i: nat)
    requires i < |v| - 1 && v[i].owner == c && v[i].free && v[i].size >= n
    requires forall j :: 0 <= j < i ==> !(v[j].owner == c && v[j].free && v[j].size >= n)
    ensures Find(v, c, n) == Some((v[..i] + Parts(v[i], c, n) + v[i + 1..], i))
  {
    hide Take, Parts;
    FirstFitIs(v, c, n, 0, i);
    TakeIs(v, i, n);
  }

  lemma {:induction false} CarveIs(v: View, c: int, sz: nat)
    requires v != [] && Last(v).free
    ensures var t := Last(v);
      Carve(v, c, sz) ==
        v[..|v| - 1] + [Cell(t.addr, sz, true, c), Cell(t.addr + sz + 32, t.size - 32 - sz, true, TAIL)]
  {
    assert v[|v| - 1 + 1..] == [];
  }

  /** With no fitting block, the front of the tail is served: 4096 bytes of it, or as many as
      asked for when that is more, and the source halts when the tail is too short. */
  lemma {:induction false} ElseTailServed(v: View, c: int, n: nat)
    requires v != [] && Last(v).free && n < 0x8000_0000 && n % 8 == 0
    requires forall j :: 0 <= j < |v| - 1 ==> !(v[j].owner == c && v[j].free && v[j].size >= n)
    ensures var t := Last(v); var sz := if n > 4096 then n else 4096;
      Find(v, c, n) ==
        if t.size < sz + 32 then None
        else Some((v[..|v| - 1] + Parts(Cell(t.addr, sz, true, c), c, n)
                   + [Cell(t.addr + sz + 32, t.size - 32 - sz, true, TAIL)], |v| - 1))
  {
    hide Parts, Carve, Take, CarveSize;
    var t := Last(v);
    var sz := if n > 4096 then n else 4096;
    CarveSizeIs(n);
    FirstFitIs(v, c, n, 0, |v| - 1);
    if t.size >= sz + 32 {
      var w := Carve(v, c, sz);
      CarveIs(v, c, sz);
      assert w[..|v| - 1] == v[..|v| - 1];
      assert w[|v| - 1 + 1..] == [Cell(t.addr + sz + 32, t.size - 32 - sz, true, TAIL)];
      LowestFitServed(w, c, n, |v| - 1);
    }
  }

  /** A request of 2 GiB or more that no block fits is never served: the source carves the
      tail away in blocks of 4096 bytes and halts. */
  lemma {:induction false} HugeNeverServed(v: View, c: int, n: nat)
    requires v != [] && Last(v).free && 0x8000_0000 <= n < 0x1_0000_0000
    requires forall j :: 0 <= j < |v| - 1 ==> !(v[j].owner == c && v[j].free && v[j].size >= n)
    ensures Find(v, c, n) == None
    decreases if Last(v).size < 0 then 0 else Last(v).size
  {
    hide Carve, CarveSize;
    CarveSizeIs(n);
    FirstFitIs(v, c, n, 0, |v| - 1);
    if Last(v).size >= 4096 + 32 {
      CarveIs(v, c, 4096);
      CarveShrinks(v, c, 4096);
      HugeNeverServed(Carve(v, c, 4096), c, n);
    }
  }

  // ---- freeing ----

  /** The block after block i is carved, free and of the same CPU, and fits with it in 4096 bytes. */
  predicate NextJoins(v: View, i: nat)
    requires i < |v|
  {
    i + 1 < |v| - 1 && v[i + 1].free && v[i + 1].owner == v[i].owner && v[i].size + v[i + 1].size + 32 <= 4096
  }

  /** The size of block i once it has taken in the block after it, where it can. */
  function Grown(v: View, i: nat): int
    requires i < |v|
  {
    if NextJoins(v, i) then v[i].size + v[i + 1].size + 32 else v[i].size
  }

  /** The block before block i is free and of the same CPU, and fits in 4096 bytes with block
      i so grown. */
  predicate PrevJoins(v: View, i: nat)
    requires i < |v|
  {
    i > 0 && v[i - 1].free && v[i - 1].owner == v[i].owner && v[i - 1].size + Grown(v, i) + 32 <= 4096
  }

  lemma {:induction false} MergeNext(v: View, i: nat)
    requires i < |v| - 1 && !v[i].free
    ensures MergeAt(v[i := v[i].(free := true)], i) ==
      v[..i] + [v[i].(free := true, size := Grown(v, i))] + v[if NextJoins(v, i) then i + 2 else i + 1..]
  {
  }

  lemma {:induction false} MergePrev(w: View, i: nat)
    requires 0 < i < |w| - 1 && w[i].free
    ensures MergeAt(w, i - 1) ==
      if w[i - 1].free && w[i - 1].owner == w[i].owner && w[i - 1].size + w[i].size + 32 <= 4096
      then w[..i - 1] + [w[i - 1].(size := w[i - 1].size + w[i].size + 32)] + w[i + 1..]
      else w
  {
  }

  /** Freeing a live block joins it with the free block after it and then the one before it,
      as far as the sizes allow, into one free block of the summed size; the blocks before and
      after are untouched. */
  lemma {:induction false} FreeMerges(v: View, lo: int, hi: int, i: nat)
    requires WellFormed(v, lo, hi) && i < |v| - 1 && !v[i].free
    ensures var first := if PrevJoins(v, i) then i - 1 else i;
      var after := if NextJoins(v, i) then i + 2 else i + 1;
      var size := Grown(v, i) + if PrevJoins(v, i) then v[i - 1].size + 32 else 0;
      Free(v, v[i].addr + 32) == v[..first] + [v[first].(free := true, size := size)] + v[after..]
  {
    hide Free, MergeAt, WellFormed, Grown, NextJoins, PrevJoins;
    FreeIs(v, lo, hi, i);
    MergeNext(v, i);
    JoinsInside(v, i);
    var after := if NextJoins(v, i) then i + 2 else i + 1;
    var a, x, b := v[..i], v[i].(free := true, size := Grown(v, i)), v[after..];
    var w := a + [x] + b;
    if i > 0 {
      MergePrev(w, i);
      PrevIs(v, i, w);
      Around(a, x, b);
      assert a[..i - 1] == v[..i - 1];
    }
  }

  lemma Around(a: View, x: Cell, b: View)
    ensures var w := a + [x] + b; w[|a|] == x && w[|a| + 1..] == b && forall k :: 0 <= k <= |a| ==> w[..k] == a[..k]
  {
  }

  lemma PrevIs(v: View, i: nat, w: View)
    requires 0 < i < |v| && i < |w| && w[i - 1] == v[i - 1] && w[i] == v[i].(free := true, size := Grown(v, i))
    ensures PrevJoins(v, i) <==>
      w[i - 1].free && w[i - 1].owner == w[i].owner && w[i - 1].size + w[i].size + 32 <= 4096
  {
  }

  lemma {:induction false} FreeIs(v: View, lo: int, hi: int, i: nat)
    requires WellFormed(v, lo, hi) && i < |v| - 1 && !v[i].free
    ensures var w := MergeAt(v[i := v[i].(free := true)], i);
      Free(v, v[i].addr + 32) == if i > 0 then MergeAt(w, i - 1) else w
  {
    hide MergeAt;
    TilesUnique(v, lo, hi, i);
    assert IndexAt(v, v[i].addr, 0) == i;
  }

  ghost predicate BlockAt(v: View, a: int) {
    exists k :: 0 <= k < |v| && v[k].addr == a
  }

  /** Which blocks a free makes vanish: the block after, exactly when it joins, and the freed
      block itself, exactly when it joins the one before. */
  lemma {:induction false} MergesIff(v: View, lo: int, hi: int, i: nat)
    requires WellFormed(v, lo, hi) && i < |v| - 1 && !v[i].free
    ensures var w := Free(v, v[i].addr + 32);
      && (BlockAt(w, v[i + 1].addr) <==> !NextJoins(v, i))
      && (BlockAt(w, v[i].addr) <==> !PrevJoins(v, i))
  {
    hide Free, Grown, NextJoins, PrevJoins;
    FreeMerges(v, lo, hi, i);
    var w := Free(v, v[i].addr + 32);
    var first := if PrevJoins(v, i) then i - 1 else i;
    var after := if NextJoins(v, i) then i + 2 else i + 1;
    assert PrevJoins(v, i) ==> i > 0 by { JoinsInside(v, i); }
    assert NextJoins(v, i) ==> i + 2 < |v| by { JoinsInside(v, i); }
    assert w[first].addr == v[first].addr;
    assert forall k :: 0 <= k < |w| && k != first ==> w[k] == v[if k < first then k else after + (k - first - 1)];
    TilesUnique(v, lo, hi, i);
    TilesUnique(v, lo, hi, i + 1);
    if !NextJoins(v, i) { assert w[first + 1] == v[i + 1]; }
  }

  lemma JoinsInside(v: View, i: nat)
    requires i < |v|
    ensures (PrevJoins(v, i) ==> i > 0) && (NextJoins(v, i) ==> i + 2 < |v|)
  {
  }

  /** A pointer at which no block is live is ignored. */
  lemma {:induction false} FreeElse(v: View, p: int)
    requires v != [] && forall k :: 0 <= k < |v| - 1 && v[k].addr + 32 == p ==> v[k].free
    ensures Free(v, p) == v
  {
  }

  /** Asking again for no more than was freed, on the owning CPU, right after the free, is
      served from its list: the tail stays as it was. */
  lemma {:induction false} ReallocKeepsTail(v: View, lo: int, hi: int, i: nat, n: nat)
    requires WellFormed(v, lo, hi) && i < |v| - 1 && !v[i].free && v[i].size >= n
    ensures var w := Free(v, v[i].addr + 32);
      && w != [] && Last(w) == Last(v)
      && Find(w, v[i].owner, n).Some? && var (u, k) := Find(w, v[i].owner, n).value; u != [] && Last(u) == Last(v)
  {
    hide Free, Grown, NextJoins, PrevJoins, WellFormed, Find, Parts;
    FreeMerges(v, lo, hi, i);
    ReallocNeverCarves(v, lo, hi, i, n);
    JoinsInside(v, i);
    var w := Free(v, v[i].addr + 32);
    LowestFitServed(w, v[i].owner, n, FirstFit(w, v[i].owner, n, 0));
  }
}
