/** How the doubly linked lists of the four CPUs, kept in block headers, represent
    the sequence of blocks. */
module HeapLinks {
  import opened HeapView

  const MAGIC := 777

  /** `struct Block`, found at its own address; address 0 is the null pointer. */
  datatype Header = Header(start: int, size: int, next: int, prev: int, magic: int, free: bool)

  type Memory = map<int, Header>

  /** The first block of CPU c from index i on, or the tail index. */
  function Nxt(v: View, i: nat, c: int): (k: nat)
    requires i < |v|
    ensures i <= k < |v|
    ensures k < |v| - 1 ==> v[k].owner == c
    ensures forall j :: i <= j < k ==> v[j].owner != c
    decreases |v| - i
  {
    if i == |v| - 1 || v[i].owner == c then i else Nxt(v, i + 1, c)
  }

  /** The last block of CPU c before index i, or -1. */
  function Prv(v: View, i: nat, c: int): (k: int)
    requires i <= |v|
    ensures -1 <= k < i
    ensures k >= 0 ==> v[k].owner == c
    ensures forall j :: k < j < i ==> v[j].owner != c
  {
    if i == 0 then -1 else if v[i - 1].owner == c then i - 1 else Prv(v, i - 1, c)
  }

  function AddrOrNull(v: View, k: nat): int
    requires k < |v|
  {
    if k == |v| - 1 then 0 else v[k].addr
  }

  function NextAddr(v: View, i: nat): int
    requires i < |v| - 1
  {
    AddrOrNull(v, Nxt(v, i + 1, v[i].owner))
  }

  function PrevOf(v: View, i: nat, c: int): int
    requires i <= |v|
  {
    var k := Prv(v, i, c);
    if k < 0 then 0 else v[k].addr
  }

  function PrevAddr(v: View, i: nat): int
    requires i < |v|
  {
    PrevOf(v, i, v[i].owner)
  }

  function HeadAddr(v: View, c: int): int
    requires v != []
  {
    AddrOrNull(v, Nxt(v, 0, c))
  }

  ghost predicate CellOk(v: View, hdr: Memory, i: nat)
    requires i < |v|
  {
    var x := v[i];
    x.addr in hdr && hdr[x.addr] == Header(x.addr, x.size,
      if i == |v| - 1 then 0 else NextAddr(v, i),
      if i == |v| - 1 then 0 else PrevAddr(v, i), MAGIC, x.free)
  }

  /** Headers that are no block any more carry magic 0. */
  ghost predicate StaleOk(v: View, hdr: Memory) {
    forall a :: a in hdr && (forall i :: 0 <= i < |v| ==> v[i].addr != a) ==> hdr[a].magic == 0
  }

  ghost predicate Rep(v: View, hdr: Memory, heads: seq<int>) {
    && v != [] && |heads| == NCPU
    && (forall i :: 0 <= i < |v| ==> CellOk(v, hdr, i))
    && (forall c :: 0 <= c < NCPU ==> heads[c] == HeadAddr(v, c))
    && StaleOk(v, hdr)
  }

  // ---- neighbours ----

  lemma {:induction false} NxtIs(v: View, i: nat, c: int, k: nat)
    requires i <= k < |v| && (k < |v| - 1 ==> v[k].owner == c)
    requires forall j :: i <= j < k ==> v[j].owner != c
    ensures Nxt(v, i, c) == k
  {
  }

  lemma {:induction false} PrvIs(v: View, i: nat, c: int, k: int)
    requires -1 <= k < i <= |v| && (k >= 0 ==> v[k].owner == c)
    requires forall j :: k < j < i ==> v[j].owner != c
    ensures Prv(v, i, c) == k
  {
  }

  /** The next and previous block of a list are inverse. */
  lemma {:induction false} NextThenPrev(v: View, i: nat, j: nat)
    requires i < j < |v| - 1 && v[i].owner == v[j].owner
    ensures Nxt(v, i + 1, v[i].owner) == j <==> Prv(v, j, v[j].owner) == i
  {
    var c := v[i].owner;
    if Nxt(v, i + 1, c) == j { PrvIs(v, j, c, i); }
    if Prv(v, j, c) == i { NxtIs(v, i + 1, c, j); }
  }

  // ---- a block inserted after one of the same list, and the reverse ----

  /** w is v with cell i replaced by two of the same owner. */
  ghost predicate Inserted(v: View, w: View, i: nat) {
    && i < |v| - 1 && |w| == |v| + 1 && w[i].owner == w[i + 1].owner == v[i].owner && w[i].addr == v[i].addr
    && (forall k :: 0 <= k < i ==> w[k] == v[k])
    && (forall k :: i < k < |v| ==> w[k + 1] == v[k])
  }

  lemma {:induction false} NxtInserted(v: View, w: View, i: nat, k: nat, c: int)
    requires Inserted(v, w, i) && k < |v|
    ensures k <= i ==> var m := Nxt(v, k, c); Nxt(w, k, c) == if m <= i then m else m + 1
    ensures k > i ==> Nxt(w, k + 1, c) == Nxt(v, k, c) + 1
    ensures Nxt(w, i + 1, v[i].owner) == i + 1
  {
    var m := Nxt(v, k, c);
    if k <= i {
      if m > i {
        forall j | k <= j < m + 1 ensures w[j].owner != c {
          if j > i + 1 { assert w[j - 1 + 1] == v[j - 1]; }
        }
      }
      assert m > i ==> w[m + 1] == v[m];
      NxtIs(w, k, c, if m <= i then m else m + 1);
    } else {
      assert w[m + 1] == v[m];
      forall j | k + 1 <= j < m + 1 ensures w[j].owner != c { assert w[j - 1 + 1] == v[j - 1]; }
      NxtIs(w, k + 1, c, m + 1);
    }
    NxtIs(w, i + 1, v[i].owner, i + 1);
  }

  lemma {:induction false} PrvInserted(v: View, w: View, i: nat, k: nat, c: int)
    requires Inserted(v, w, i) && k < |v|
    ensures k <= i ==> Prv(w, k, c) == Prv(v, k, c)
    ensures k > i ==> var m := Prv(v, k, c); Prv(w, k + 1, c) == if m < i then m else m + 1
    ensures Prv(w, i + 1, v[i].owner) == i
  {
    var m := Prv(v, k, c);
    if k <= i {
      PrvIs(w, k, c, m);
    } else {
      var m' := if m < i then m else m + 1;
      forall j | m' < j < k + 1 ensures w[j].owner != c {
        if j > i + 1 { assert w[j - 1 + 1] == v[j - 1]; }
      }
      assert m > i ==> w[m + 1] == v[m];
      PrvIs(w, k + 1, c, m');
    }
    PrvIs(w, i + 1, v[i].owner, i);
  }

  /** The links of w in terms of those of v. */
  lemma {:induction false} LinksInserted(v: View, w: View, i: nat, k: nat)
    requires Inserted(v, w, i) && k < |v| - 1
    ensures k < i ==> NextAddr(w, k) == NextAddr(v, k) && PrevAddr(w, k) == PrevAddr(v, k)
    ensures k > i ==> NextAddr(w, k + 1) == NextAddr(v, k)
    ensures k > i ==> PrevAddr(w, k + 1) == if Nxt(v, i + 1, v[i].owner) == k then w[i + 1].addr else PrevAddr(v, k)
  {
    hide Nxt, Prv;
    var c := v[k].owner;
    if k + 1 < |v| { NxtInserted(v, w, i, k + 1, c); }
    PrvInserted(v, w, i, k, c);
    if k > i {
      assert w[k + 1] == v[k];
      if c == v[i].owner { NextThenPrev(v, i, k); }
      var m := Prv(v, k, c);
      if m >= 0 && m > i { assert w[m + 1] == v[m]; }
      var j := Nxt(v, k + 1, c);
      assert w[j + 1] == v[j];
    } else if k < i {
      var j := Nxt(v, k + 1, c);
      if j > i { assert w[j + 1] == v[j]; }
    }
  }

  lemma {:induction false} LinksAtInserted(v: View, w: View, i: nat)
    requires Inserted(v, w, i)
    ensures NextAddr(w, i) == w[i + 1].addr && PrevAddr(w, i) == PrevAddr(v, i)
    ensures NextAddr(w, i + 1) == NextAddr(v, i) && PrevAddr(w, i + 1) == w[i].addr
  {
    var c := v[i].owner;
    NxtInserted(v, w, i, i + 1, c);
    PrvInserted(v, w, i, i, c);
    var j := Nxt(v, i + 1, c);
    assert w[j + 1] == v[j];
  }

  lemma {:induction false} HeadsInserted(v: View, w: View, i: nat, c: int)
    requires Inserted(v, w, i)
    ensures HeadAddr(w, c) == HeadAddr(v, c)
  {
    NxtInserted(v, w, i, 0, c);
    var j := Nxt(v, 0, c);
    if j > i { assert w[j + 1] == v[j]; }
  }

  // ---- a block carved from the tail ----

  ghost predicate Carved(v: View, w: View, c: int) {
    && v != [] && |w| == |v| + 1 && 0 <= c < NCPU && w[|v| - 1].owner == c
    && w[|v| - 1].addr == Last(v).addr
    && (forall k :: 0 <= k < |v| - 1 ==> w[k] == v[k])
  }

  lemma {:induction false} NxtCarved(v: View, w: View, c: int, k: nat, d: int)
    requires Carved(v, w, c) && k < |v|
    ensures var m := Nxt(v, k, d);
      Nxt(w, k, d) == if m < |v| - 1 then m else if d == c then |v| - 1 else |v|
  {
    var m := Nxt(v, k, d);
    NxtIs(w, k, d, if m < |v| - 1 then m else if d == c then |v| - 1 else |v|);
  }

  lemma {:induction false} PrvCarved(v: View, w: View, c: int, k: nat, d: int)
    requires Carved(v, w, c) && k < |v|
    ensures Prv(w, k, d) == Prv(v, k, d)
  {
    PrvIs(w, k, d, Prv(v, k, d));
  }

  /** Only the last block of the list gets a new successor. */
  lemma {:induction false} LinksCarved(v: View, w: View, c: int, k: nat)
    requires Carved(v, w, c) && k < |v| - 1
    ensures NextAddr(w, k) == if Prv(v, |v| - 1, c) == k then w[|v| - 1].addr else NextAddr(v, k)
    ensures PrevAddr(w, k) == PrevAddr(v, k)
  {
    var d := v[k].owner;
    NxtCarved(v, w, c, k + 1, d);
    PrvCarved(v, w, c, k, d);
    if d == c {
      if Nxt(v, k + 1, c) == |v| - 1 { PrvIs(v, |v| - 1, c, k); }
      else { assert Prv(v, |v| - 1, c) >= Nxt(v, k + 1, c); }
    }
  }

  lemma {:induction false} LinksAtCarved(v: View, w: View, c: int)
    requires Carved(v, w, c)
    ensures NextAddr(w, |v| - 1) == 0
    ensures PrevAddr(w, |v| - 1) == PrevOf(v, |v| - 1, c)
  {
    PrvCarved(v, w, c, |v| - 1, c);
    NxtIs(w, |v|, c, |v|);
  }

  lemma {:induction false} HeadsCarved(v: View, w: View, c: int, d: int)
    requires Carved(v, w, c)
    ensures HeadAddr(w, d) == if d == c && Nxt(v, 0, c) == |v| - 1 then w[|v| - 1].addr else HeadAddr(v, d)
  {
    NxtCarved(v, w, c, 0, d);
  }

  // ---- a change of sizes or free flags only ----

  ghost predicate SameOwners(v: View, w: View) {
    |w| == |v| && forall k :: 0 <= k < |v| ==> w[k].owner == v[k].owner && w[k].addr == v[k].addr
  }

  lemma {:induction false} LinksSame(v: View, w: View, k: nat)
    requires SameOwners(v, w) && k < |v| - 1
    ensures NextAddr(w, k) == NextAddr(v, k) && PrevAddr(w, k) == PrevAddr(v, k)
  {
    NxtIs(w, k + 1, v[k].owner, Nxt(v, k + 1, v[k].owner));
    PrvIs(w, k, v[k].owner, Prv(v, k, v[k].owner));
  }

  lemma {:induction false} HeadsSame(v: View, w: View, c: int)
    requires SameOwners(v, w) && v != []
    ensures HeadAddr(w, c) == HeadAddr(v, c)
  {
    NxtIs(w, 0, c, Nxt(v, 0, c));
  }

  // ---- header writes ----

  /** Distinct, non-null addresses, as tiling gives them. */
  ghost predicate Distinct(v: View) {
    && (forall i :: 0 <= i < |v| ==> v[i].addr > 0)
    && (forall i, j :: 0 <= i < j < |v| ==> v[i].addr != v[j].addr)
  }

  lemma {:induction false} TilesDistinct(v: View, lo: int, hi: int)
    requires Tiles(v, lo, hi) && lo > 0
    ensures Distinct(v)
  {
    forall i | 0 <= i < |v| ensures v[i].addr > 0 { Below(v, lo, hi, i); }
    forall i, j | 0 <= i < j < |v| ensures v[i].addr != v[j].addr { Ordered(v, lo, hi, i, j); }
  }

  lemma {:induction false} FlagRep(v: View, hdr: Memory, heads: seq<int>, i: nat, free: bool)
    requires Rep(v, hdr, heads) && Distinct(v) && i < |v| - 1
    ensures var a := v[i].addr;
      a in hdr && Rep(v[i := v[i].(free := free)], hdr[a := hdr[a].(free := free)], heads)
  {
    var a := v[i].addr;
    var w := v[i := v[i].(free := free)];
    assert CellOk(v, hdr, i);
    var hdr' := hdr[a := hdr[a].(free := free)];
    hide NextAddr, PrevAddr, HeadAddr;
    forall k | 0 <= k < |w| ensures CellOk(w, hdr', k) {
      assert CellOk(v, hdr, k);
      if k < |v| - 1 { LinksSame(v, w, k); }
    }
    forall c | 0 <= c < NCPU ensures heads[c] == HeadAddr(w, c) { HeadsSame(v, w, c); }
    assert forall k :: 0 <= k < |v| ==> v[k].addr == w[k].addr;
  }

  /** The headers after cell i is cut in a and b. */
  function SplitHeaders(hdr: Memory, a: Cell, b: Cell): Memory
    requires a.addr in hdr
  {
    var next := hdr[a.addr].next;
    var h1 := hdr[b.addr := Header(b.addr, b.size, next, a.addr, MAGIC, b.free)];
    var h2 := if next in h1 then h1[next := h1[next].(prev := b.addr)] else h1;
    if a.addr in h2 then h2[a.addr := h2[a.addr].(next := b.addr, size := a.size)] else h2
  }

  lemma {:induction false} NextIs(v: View, i: nat)
    requires i < |v| - 1
    ensures NextAddr(v, i) == AddrOrNull(v, Nxt(v, i + 1, v[i].owner))
  {
  }

  /** What the headers hold after the cut, address by address. */
  lemma {:induction false} SplitHeadersAt(hdr: Memory, a: Cell, b: Cell, x: int)
    requires a.addr in hdr && a.addr != b.addr
    requires var next := hdr[a.addr].next; next != a.addr && next != b.addr
    ensures var next := hdr[a.addr].next; var h := SplitHeaders(hdr, a, b);
      && (x in h <==> x in hdr || x == b.addr)
      && (x in h ==>
            h[x] == (if x == a.addr then hdr[x].(next := b.addr, size := a.size)
            else if x == b.addr then Header(b.addr, b.size, next, a.addr, MAGIC, b.free)
            else if x == next then hdr[x].(prev := b.addr)
            else hdr[x]))
  {
  }

  /** The setting of a cut: v before, w after, cell i cut in a and b, and the
      index j of the old successor of cell i. */
  ghost predicate Cut(v: View, w: View, hdr: Memory, i: nat, a: Cell, b: Cell, j: nat) {
    && Inserted(v, w, i) && w[i] == a && w[i + 1] == b && a.free == v[i].free
    && j == Nxt(v, i + 1, v[i].owner)
    && Distinct(v) && Distinct(w) && 0 !in hdr
    && (forall k :: 0 <= k < |v| ==> CellOk(v, hdr, k))
    && a.addr in hdr && hdr[a.addr].next == AddrOrNull(v, j)
  }

  lemma {:induction false} CutFacts(v: View, w: View, hdr: Memory, i: nat, a: Cell, b: Cell, j: nat)
    requires Cut(v, w, hdr, i, a, b, j)
    ensures i < j < |v| && w[j + 1] == v[j]
    ensures a.addr in hdr && a.addr != b.addr && b.addr > 0
    ensures AddrOrNull(v, j) != a.addr && AddrOrNull(v, j) != b.addr
  {
    assert CellOk(v, hdr, i);
    assert w[j + 1] == v[j];
  }

  lemma {:induction false} CutBefore(v: View, w: View, hdr: Memory, i: nat, a: Cell, b: Cell, j: nat, k: nat)
    requires Cut(v, w, hdr, i, a, b, j) && k < i
    ensures a.addr in hdr && CellOk(w, SplitHeaders(hdr, a, b), k)
  {
    CutFacts(v, w, hdr, i, a, b, j);
    assert CellOk(v, hdr, k);
    LinksInserted(v, w, i, k);
    hide NextAddr, PrevAddr, SplitHeaders, Nxt;
    SplitHeadersAt(hdr, a, b, w[k].addr);
  }

  lemma {:induction false} CutHere(v: View, w: View, hdr: Memory, i: nat, a: Cell, b: Cell, j: nat)
    requires Cut(v, w, hdr, i, a, b, j)
    ensures a.addr in hdr && CellOk(w, SplitHeaders(hdr, a, b), i) && CellOk(w, SplitHeaders(hdr, a, b), i + 1)
  {
    CutFacts(v, w, hdr, i, a, b, j);
    assert CellOk(v, hdr, i);
    LinksAtInserted(v, w, i);
    NextIs(v, i);
    hide NextAddr, PrevAddr, SplitHeaders, Nxt;
    SplitHeadersAt(hdr, a, b, a.addr);
    SplitHeadersAt(hdr, a, b, b.addr);
  }

  lemma {:induction false} CutAfter(v: View, w: View, hdr: Memory, i: nat, a: Cell, b: Cell, j: nat, k: nat)
    requires Cut(v, w, hdr, i, a, b, j) && i < k < |v|
    ensures a.addr in hdr && CellOk(w, SplitHeaders(hdr, a, b), k + 1)
  {
    CutFacts(v, w, hdr, i, a, b, j);
    assert CellOk(v, hdr, k);
    assert w[k + 1] == v[k];
    if k < |v| - 1 { LinksInserted(v, w, i, k); }
    hide NextAddr, PrevAddr, SplitHeaders, Nxt;
    SplitHeadersAt(hdr, a, b, w[k + 1].addr);
  }

  lemma {:induction false} CutStale(v: View, w: View, hdr: Memory, i: nat, a: Cell, b: Cell, j: nat)
    requires Cut(v, w, hdr, i, a, b, j) && StaleOk(v, hdr)
    ensures a.addr in hdr && StaleOk(w, SplitHeaders(hdr, a, b))
  {
    CutFacts(v, w, hdr, i, a, b, j);
    hide SplitHeaders, CellOk, Nxt;
    var h := SplitHeaders(hdr, a, b);
    forall x | x in h && (forall k :: 0 <= k < |w| ==> w[k].addr != x) ensures h[x].magic == 0 {
      forall k | 0 <= k < |v| ensures v[k].addr != x {
        assert w[if k <= i then k else k + 1].addr == v[k].addr;
      }
      assert w[i].addr != x && w[i + 1].addr != x;
      SplitHeadersAt(hdr, a, b, x);
    }
  }

  lemma {:induction false} SplitRep(v: View, hdr: Memory, heads: seq<int>, i: nat, a: Cell, b: Cell)
    requires Rep(v, hdr, heads) && Distinct(v) && i < |v| - 1 && 0 !in hdr
    requires a.owner == b.owner == v[i].owner && a.addr == v[i].addr && a.free == v[i].free
    requires Distinct(Insert(v, i, a, b))
    ensures a.addr in hdr && Rep(Insert(v, i, a, b), SplitHeaders(hdr, a, b), heads)
  {
    hide NextAddr, PrevAddr, HeadAddr, Insert, SplitHeaders, Nxt;
    var w := Insert(v, i, a, b);
    var j := Nxt(v, i + 1, v[i].owner);
    assert CellOk(v, hdr, i);
    NextIs(v, i);
    assert Cut(v, w, hdr, i, a, b, j);
    forall k | 0 <= k < |w| ensures CellOk(w, SplitHeaders(hdr, a, b), k) {
      if k < i { CutBefore(v, w, hdr, i, a, b, j, k); }
      else if k <= i + 1 { CutHere(v, w, hdr, i, a, b, j); }
      else { CutAfter(v, w, hdr, i, a, b, j, k - 1); }
    }
    forall c | 0 <= c < NCPU ensures heads[c] == HeadAddr(w, c) { HeadsInserted(v, w, i, c); }
    CutStale(v, w, hdr, i, a, b, j);
  }

  // ---- merging: the reverse of a cut ----

  /** The headers after the block at a2 is swallowed by the one at a1. */
  function JoinHeaders(hdr: Memory, a1: int, a2: int): Memory
    requires a1 in hdr && a2 in hdr
  {
    var next := hdr[a2].next;
    var h1 := hdr[a1 := hdr[a1].(size := hdr[a1].size + hdr[a2].size + INFO)];
    var h2 := h1[a2 := h1[a2].(magic := 0)];
    var h3 := if next in h2 then h2[next := h2[next].(prev := a1)] else h2;
    h3[a1 := h3[a1].(next := next)]
  }

  lemma {:induction false} JoinHeadersAt(hdr: Memory, a1: int, a2: int, x: int)
    requires a1 in hdr && a2 in hdr && a1 != a2 && hdr[a2].next != a1 && hdr[a2].next != a2
    ensures var next := hdr[a2].next; var h := JoinHeaders(hdr, a1, a2);
      && (x in h <==> x in hdr)
      && (x in h ==>
            h[x] == (if x == a1 then hdr[x].(next := next, size := hdr[x].size + hdr[a2].size + INFO)
            else if x == a2 then hdr[x].(magic := 0)
            else if x == next then hdr[x].(prev := a1)
            else hdr[x]))
  {
  }

  /** v with cells i and i + 1 joined gives w; j is the index in w of the old
      successor of cell i + 1. */
  ghost predicate Glue(v: View, w: View, hdr: Memory, i: nat, j: nat) {
    && i + 1 < |v| - 1 && Inserted(w, v, i) && w[i] == v[i].(size := v[i].size + v[i + 1].size + INFO)
    && j == Nxt(w, i + 1, w[i].owner)
    && Distinct(v) && 0 !in hdr
    && (forall k :: 0 <= k < |v| ==> CellOk(v, hdr, k))
  }

  lemma {:induction false} GlueFacts(v: View, w: View, hdr: Memory, i: nat, j: nat)
    requires Glue(v, w, hdr, i, j)
    ensures i < j < |w| && v[j + 1] == w[j]
    ensures var a1, a2 := v[i].addr, v[i + 1].addr;
      && a1 in hdr && a2 in hdr && a1 != a2 && a1 > 0 && a2 > 0
      && hdr[a1].size == v[i].size && hdr[a2].size == v[i + 1].size
      && hdr[a2].next == AddrOrNull(w, j) && hdr[a2].next != a1 && hdr[a2].next != a2
  {
    assert CellOk(v, hdr, i) && CellOk(v, hdr, i + 1);
    assert v[j + 1] == w[j];
    LinksAtInserted(w, v, i);
    NextIs(w, i);
  }

  lemma {:induction false} GlueBefore(v: View, w: View, hdr: Memory, i: nat, j: nat, k: nat)
    requires Glue(v, w, hdr, i, j) && k < i
    ensures v[i].addr in hdr && v[i + 1].addr in hdr && CellOk(w, JoinHeaders(hdr, v[i].addr, v[i + 1].addr), k)
  {
    GlueFacts(v, w, hdr, i, j);
    assert CellOk(v, hdr, k);
    LinksInserted(w, v, i, k);
    hide NextAddr, PrevAddr, JoinHeaders, Nxt;
    JoinHeadersAt(hdr, v[i].addr, v[i + 1].addr, w[k].addr);
  }

  lemma {:induction false} GlueHere(v: View, w: View, hdr: Memory, i: nat, j: nat)
    requires Glue(v, w, hdr, i, j)
    ensures v[i].addr in hdr && v[i + 1].addr in hdr && CellOk(w, JoinHeaders(hdr, v[i].addr, v[i + 1].addr), i)
  {
    GlueFacts(v, w, hdr, i, j);
    assert CellOk(v, hdr, i);
    LinksAtInserted(w, v, i);
    NextIs(w, i);
    hide NextAddr, PrevAddr, JoinHeaders, Nxt;
    JoinHeadersAt(hdr, v[i].addr, v[i + 1].addr, w[i].addr);
  }

  lemma {:induction false} GlueAfter(v: View, w: View, hdr: Memory, i: nat, j: nat, k: nat)
    requires Glue(v, w, hdr, i, j) && i < k < |w|
    ensures v[i].addr in hdr && v[i + 1].addr in hdr && CellOk(w, JoinHeaders(hdr, v[i].addr, v[i + 1].addr), k)
  {
    GlueFacts(v, w, hdr, i, j);
    assert CellOk(v, hdr, k + 1);
    assert v[k + 1] == w[k];
    if k < |w| - 1 { LinksInserted(w, v, i, k); }
    hide NextAddr, PrevAddr, JoinHeaders, Nxt;
    JoinHeadersAt(hdr, v[i].addr, v[i + 1].addr, w[k].addr);
  }

  lemma {:induction false} GlueStale(v: View, w: View, hdr: Memory, i: nat, j: nat)
    requires Glue(v, w, hdr, i, j) && StaleOk(v, hdr)
    ensures v[i].addr in hdr && v[i + 1].addr in hdr && StaleOk(w, JoinHeaders(hdr, v[i].addr, v[i + 1].addr))
  {
    GlueFacts(v, w, hdr, i, j);
    hide JoinHeaders, CellOk, Nxt;
    var h := JoinHeaders(hdr, v[i].addr, v[i + 1].addr);
    forall x | x in h && (forall k :: 0 <= k < |w| ==> w[k].addr != x) ensures h[x].magic == 0 {
      JoinHeadersAt(hdr, v[i].addr, v[i + 1].addr, x);
      if x != v[i + 1].addr {
        forall k | 0 <= k < |v| ensures v[k].addr != x {
          if k <= i { assert w[k].addr == v[k].addr; }
          else if k > i + 1 { assert w[k - 1].addr == v[k].addr; }
        }
        assert w[i].addr != x && w[j].addr != x;
      }
    }
  }

  lemma {:induction false} JoinRep(v: View, hdr: Memory, heads: seq<int>, i: nat)
    requires Rep(v, hdr, heads) && Distinct(v) && i + 1 < |v| - 1 && 0 !in hdr && v[i].owner == v[i + 1].owner
    ensures v[i].addr in hdr && v[i + 1].addr in hdr
    ensures Rep(Join(v, i), JoinHeaders(hdr, v[i].addr, v[i + 1].addr), heads)
  {
    hide NextAddr, PrevAddr, HeadAddr, Join, JoinHeaders, Nxt, CellOk, StaleOk;
    var w := Join(v, i);
    assert Inserted(w, v, i);
    var j := Nxt(w, i + 1, w[i].owner);
    assert Glue(v, w, hdr, i, j);
    GlueFacts(v, w, hdr, i, j);
    var h := JoinHeaders(hdr, v[i].addr, v[i + 1].addr);
    forall k | 0 <= k < |w| ensures CellOk(w, h, k) {
      if k < i { GlueBefore(v, w, hdr, i, j, k); }
      else if k == i { GlueHere(v, w, hdr, i, j); }
      else { GlueAfter(v, w, hdr, i, j, k); }
    }
    forall c | 0 <= c < NCPU ensures heads[c] == HeadAddr(w, c) { HeadsInserted(w, v, i, c); }
    GlueStale(v, w, hdr, i, j);
  }

  // ---- carving ----

  /** The headers after a block of size sz is carved from the tail at `fb`, its new
      tail at `rest`, appended to the list whose last block is `old` (or null). */
  function CarveHeaders(hdr: Memory, fb: int, rest: int, sz: int, restSize: int, prevLast: int): Memory
    requires fb in hdr
  {
    var h1 := hdr[rest := Header(rest, restSize, 0, 0, MAGIC, true)];
    var h2 := if fb in h1 then h1[fb := h1[fb].(size := sz)] else h1;
    if prevLast != 0 && prevLast in h2 then
      var h3 := if fb in h2 then h2[fb := h2[fb].(prev := prevLast)] else h2;
      if prevLast in h3 then h3[prevLast := h3[prevLast].(next := fb)] else h3
    else h2
  }

  lemma {:induction false} CarveHeadersAt(hdr: Memory, fb: int, rest: int, sz: int, restSize: int, prevLast: int,
                                          x: int)
    requires fb in hdr && fb != rest && fb != prevLast && rest != prevLast && (prevLast != 0 ==> prevLast in hdr)
    ensures var h := CarveHeaders(hdr, fb, rest, sz, restSize, prevLast);
      && (x in h <==> x in hdr || x == rest)
      && (x in h ==>
            h[x] == (if x == rest then Header(rest, restSize, 0, 0, MAGIC, true)
            else if x == fb then hdr[x].(size := sz, prev := if prevLast != 0 then prevLast else hdr[x].prev)
            else if x == prevLast && prevLast != 0 then hdr[x].(next := fb)
            else hdr[x]))
  {
  }

  /** Cells n and n + 1 are the last two, and differ in address from those before; of
      these only cell p has the address of cell p. */
  lemma {:induction false} CarvedApart(w: View, n: nat, p: int)
    requires Distinct(w) && |w| == n + 2 && -1 <= p < n
    ensures w[n].addr > 0 && w[n + 1].addr > 0 && w[n].addr != w[n + 1].addr
    ensures forall k :: 0 <= k < n ==>
      && w[k].addr > 0 && w[k].addr != w[n].addr && w[k].addr != w[n + 1].addr
      && (p >= 0 ==> (w[k].addr == w[p].addr <==> k == p))
  {
  }

  /** The setting of a carving: v before, w after, p the last block of the list. */
  ghost predicate Carving(v: View, w: View, hdr: Memory, c: int, sz: int, p: int) {
    && Carved(v, w, c) && Last(v).free && p == Prv(v, |v| - 1, c) && 0 !in hdr
    && w[|v| - 1] == Last(v).(size := sz, owner := c) && Last(w).free
    && (forall k :: 0 <= k < |v| ==> CellOk(v, hdr, k)) && Distinct(w)
  }

  function CarvedHeaders(v: View, w: View, hdr: Memory, c: int, sz: int): Memory
    requires v != [] && w != [] && Last(v).addr in hdr
  {
    CarveHeaders(hdr, Last(v).addr, Last(w).addr, sz, Last(w).size, PrevOf(v, |v| - 1, c))
  }

  /** What the headers hold at cell k after the carving. */
  lemma {:induction false} CarvedHeaderAt(v: View, w: View, hdr: Memory, c: int, sz: int, p: int, x: int)
    requires Carving(v, w, hdr, c, sz, p)
    ensures var fb, rest := Last(v).addr, Last(w).addr;
      && fb in hdr && fb != rest && fb > 0 && rest > 0
      && (p >= 0 ==> v[p].addr in hdr && v[p].addr > 0)
      && var h := CarvedHeaders(v, w, hdr, c, sz);
         && (x in h <==> x in hdr || x == rest)
         && (x in h ==>
               h[x] == (if x == rest then Header(rest, Last(w).size, 0, 0, MAGIC, true)
               else if x == fb then hdr[x].(size := sz, prev := if p >= 0 then v[p].addr else hdr[x].prev)
               else if p >= 0 && x == v[p].addr then hdr[x].(next := fb)
               else hdr[x]))
  {
    hide NextAddr, PrevAddr, CarveHeaders, Nxt, Prv;
    assert CellOk(v, hdr, |v| - 1);
    if p >= 0 { assert CellOk(v, hdr, p) && w[p] == v[p]; }
    CarvedApart(w, |v| - 1, p);
    hide Distinct, CellOk;
    CarveHeadersAt(hdr, Last(v).addr, Last(w).addr, sz, Last(w).size, PrevOf(v, |v| - 1, c), x);
  }

  lemma {:induction false} CarvedCell(v: View, w: View, hdr: Memory, c: int, sz: int, p: int, k: nat)
    requires Carving(v, w, hdr, c, sz, p) && k < |v| - 1
    ensures Last(v).addr in hdr && CellOk(w, CarvedHeaders(v, w, hdr, c, sz), k)
  {
    hide NextAddr, PrevAddr, CarvedHeaders, Nxt, Prv;
    assert CellOk(v, hdr, k) && w[k] == v[k];
    LinksCarved(v, w, c, k);
    CarvedApart(w, |v| - 1, p);
    if p >= 0 { assert w[p] == v[p]; }
    hide Distinct;
    CarvedHeaderAt(v, w, hdr, c, sz, p, w[k].addr);
  }

  lemma {:induction false} CarvedEnd(v: View, w: View, hdr: Memory, c: int, sz: int, p: int)
    requires Carving(v, w, hdr, c, sz, p)
    ensures Last(v).addr in hdr
    ensures var h := CarvedHeaders(v, w, hdr, c, sz); CellOk(w, h, |v| - 1) && CellOk(w, h, |v|)
  {
    hide NextAddr, PrevAddr, CarvedHeaders, Nxt, Prv;
    assert CellOk(v, hdr, |v| - 1);
    LinksAtCarved(v, w, c);
    hide Distinct;
    CarvedHeaderAt(v, w, hdr, c, sz, p, w[|v| - 1].addr);
    CarvedHeaderAt(v, w, hdr, c, sz, p, w[|v|].addr);
  }

  lemma {:induction false} CarvedStale(v: View, w: View, hdr: Memory, c: int, sz: int, p: int)
    requires Carving(v, w, hdr, c, sz, p) && StaleOk(v, hdr)
    ensures Last(v).addr in hdr && StaleOk(w, CarvedHeaders(v, w, hdr, c, sz))
  {
    hide CellOk, CarvedHeaders, Distinct, Prv;
    CarvedHeaderAt(v, w, hdr, c, sz, p, 0);
    var h := CarvedHeaders(v, w, hdr, c, sz);
    forall x | x in h && (forall k :: 0 <= k < |w| ==> w[k].addr != x) ensures h[x].magic == 0 {
      forall k | 0 <= k < |v| ensures v[k].addr != x { assert w[k].addr == v[k].addr; }
      assert w[|w| - 1].addr != x;
      CarvedHeaderAt(v, w, hdr, c, sz, p, x);
    }
  }

  lemma {:induction false} CarvedHeads(v: View, w: View, hdr: Memory, heads: seq<int>, c: int, sz: int, p: int, d: int)
    requires Carving(v, w, hdr, c, sz, p) && |heads| == NCPU && 0 <= d < NCPU && heads[d] == HeadAddr(v, d)
    ensures (if PrevOf(v, |v| - 1, c) == 0 then heads[c := Last(v).addr] else heads)[d] == HeadAddr(w, d)
  {
    hide Nxt, Prv, HeadAddr, CellOk, Distinct;
    CarvedHeaderAt(v, w, hdr, c, sz, p, 0);
    HeadsCarved(v, w, c, d);
    HeadIffNone(v, c);
  }

  lemma {:induction false} CarveRep(v: View, hdr: Memory, heads: seq<int>, c: int, sz: nat)
    requires Rep(v, hdr, heads) && Distinct(v) && 0 <= c < NCPU && 0 !in hdr && Last(v).free
    requires Distinct(Carve(v, c, sz))
    ensures var t := Last(v); var prevLast := PrevOf(v, |v| - 1, c); var w := Carve(v, c, sz);
      && t.addr in hdr
      && Rep(w, CarveHeaders(hdr, t.addr, Last(w).addr, sz, Last(w).size, prevLast),
             if prevLast == 0 then heads[c := t.addr] else heads)
  {
    hide Nxt, Prv, NextAddr, PrevAddr, HeadAddr, CellOk, StaleOk, CarveHeaders, Distinct, PrevOf;
    var w := Carve(v, c, sz);
    var p := Prv(v, |v| - 1, c);
    assert Carving(v, w, hdr, c, sz, p);
    hide Carving, Carve;
    CarvedEnd(v, w, hdr, c, sz, p);
    forall k | 0 <= k < |w| ensures CellOk(w, CarvedHeaders(v, w, hdr, c, sz), k) {
      if k < |v| - 1 { CarvedCell(v, w, hdr, c, sz, p, k); }
    }
    forall d | 0 <= d < NCPU
      ensures (if PrevOf(v, |v| - 1, c) == 0 then heads[c := Last(v).addr] else heads)[d] == HeadAddr(w, d)
    {
      CarvedHeads(v, w, hdr, heads, c, sz, p, d);
    }
    CarvedStale(v, w, hdr, c, sz, p);
  }

  /** A list is empty from the front exactly when it is from the back. */
  lemma {:induction false} HeadIffNone(v: View, c: int)
    requires v != []
    ensures Nxt(v, 0, c) == |v| - 1 <==> Prv(v, |v| - 1, c) < 0
  {
    if Prv(v, |v| - 1, c) < 0 { NxtIs(v, 0, c, |v| - 1); }
    if Nxt(v, 0, c) == |v| - 1 { PrvIs(v, |v| - 1, c, -1); }
  }
}
