/** The chain of trap handlers: kept sorted by in-place insertion, called in order. */
module TrapChain {
  import opened Options

  const MAX_HANDLERS := 10
  const EVENT_NULL := 0
  const INT_MIN := -0x8000_0000
  const INT_MAX := 0x7fff_ffff

  /** A handler function is named by an id; what it returns is a parameter. */
  datatype Handler = Handler(seqNo: int, event: int, id: int)

  /** What handler `id` returns for an event and a context; None is the null pointer. */
  type Calls = (int, int, int) -> Option<int>

  type Chain = seq<Handler>

  /** The first handler from i on that is not before sequence number n. */
  function Position(hs: Chain, n: int, i: nat): (k: nat)
    requires i <= |hs|
    ensures i <= k <= |hs|
    ensures forall j :: i <= j < k ==> hs[j].seqNo < n
    ensures k < |hs| ==> n <= hs[k].seqNo
    decreases |hs| - i
  {
    if i == |hs| || n <= hs[i].seqNo then i else Position(hs, n, i + 1)
  }

  function Insert(hs: Chain, h: Handler): Chain {
    var i := Position(hs, h.seqNo, 0);
    hs[..i] + [h] + hs[i..]
  }

  predicate Matches(h: Handler, ev: int) {
    h.event == EVENT_NULL || h.event == ev
  }

  /** The handlers a trap calls, in order. */
  function Called(hs: Chain, ev: int): seq<int> {
    if hs == [] then []
    else Called(hs[..|hs| - 1], ev) + if Matches(hs[|hs| - 1], ev) then [hs[|hs| - 1].id] else []
  }

  /** The last context a called handler returned. */
  function LastReturned(ids: seq<int>, ev: int, ctx: int, call: Calls): Option<int> {
    if ids == [] then None
    else
      var r := call(ids[|ids| - 1], ev, ctx);
      if r.Some? then r else LastReturned(ids[..|ids| - 1], ev, ctx, call)
  }

  class Os {
    const handlers: array<Handler>
    var nrHandlers: nat

    ghost predicate Valid()
      reads this
    {
      handlers.Length == MAX_HANDLERS && nrHandlers < MAX_HANDLERS
    }

    function Contents(): Chain
      requires nrHandlers <= handlers.Length
      reads this, handlers
    {
      handlers[..nrHandlers]
    }

    constructor ()
      ensures Valid() && Contents() == []
    {
      handlers := new Handler[MAX_HANDLERS](_ => Handler(0, 0, 0));
      nrHandlers := 0;
    }

    /** `os_on_irq`: the tenth registration is entered and then halts the machine. */
    method OnIrq(seqNo: int, event: int, handler: int) returns (ok: bool)
      requires Valid()
      modifies this`nrHandlers, handlers
      ensures nrHandlers <= handlers.Length
      ensures Contents() == Insert(old(Contents()), Handler(seqNo, event, handler))
      ensures ok == (|old(Contents())| + 1 < MAX_HANDLERS) && (ok ==> Valid())
    {
      ghost var hs := Contents();
      var i := 0;
      while i < nrHandlers
        invariant i <= nrHandlers
        invariant forall j :: 0 <= j < i ==> hs[j].seqNo < seqNo
      {
        if seqNo <= handlers[i].seqNo {
          break;
        }
        i := i + 1;
      }
      InsertIs(hs, Handler(seqNo, event, handler), i);
      hide Insert;
      Shift(i);
      handlers[i] := Handler(seqNo, event, handler);
      nrHandlers := nrHandlers + 1;
      ok := nrHandlers < MAX_HANDLERS;
    }

    /** Make room at index i: move the handlers from there on up by one. */
    method Shift(i: nat)
      requires Valid() && i <= nrHandlers
      modifies handlers
      ensures forall k :: 0 <= k < i ==> handlers[k] == old(handlers[k])
      ensures forall k :: i < k <= nrHandlers ==> handlers[k] == old(handlers[k - 1])
    {
      var j := nrHandlers;
      while j > i
        invariant i <= j <= nrHandlers
        invariant forall k :: 0 <= k < j ==> handlers[k] == old(handlers[k])
        invariant forall k :: j < k <= nrHandlers ==> handlers[k] == old(handlers[k - 1])
      {
        handlers[j] := handlers[j - 1];
        j := j - 1;
      }
    }

    /** `os_trap`: call every matching handler in order and keep the last context. The ids of
        the handlers called are recorded in `calls`. */
    method Trap(ev: int, ctx: int, call: Calls) returns (ret: Option<int>, calls: seq<int>)
      requires Valid()
      ensures ret == LastReturned(Called(Contents(), ev), ev, ctx, call)
      ensures calls == Called(Contents(), ev)
    {
      ret, calls := None, [];
      var i := 0;
      while i < nrHandlers
        invariant i <= nrHandlers && calls == Called(handlers[..i], ev)
        invariant ret == LastReturned(calls, ev, ctx, call)
      {
        assert handlers[..i + 1] == handlers[..i] + [handlers[i]];
        CalledMore(handlers[..i], handlers[i], ev);
        hide Called, LastReturned;
        if handlers[i].event == EVENT_NULL || handlers[i].event == ev {
          var next := call(handlers[i].id, ev, ctx);
          LastReturnedMore(calls, handlers[i].id, ev, ctx, call);
          calls := calls + [handlers[i].id];
          if next.Some? {
            ret := next;
          }
        }
        i := i + 1;
      }
    }
  }

  lemma {:induction false} PositionIs(hs: Chain, n: int, k: nat)
    requires k <= |hs| && (forall j :: 0 <= j < k ==> hs[j].seqNo < n) && (k < |hs| ==> n <= hs[k].seqNo)
    ensures Position(hs, n, 0) == k
  {
  }

  /** Insertion, place by place. */
  lemma {:induction false} InsertIs(hs: Chain, h: Handler, i: nat)
    requires i <= |hs| && (forall j :: 0 <= j < i ==> hs[j].seqNo < h.seqNo) && (i < |hs| ==> h.seqNo <= hs[i].seqNo)
    ensures var w := Insert(hs, h);
      && |w| == |hs| + 1 && w[i] == h
      && (forall k :: 0 <= k < i ==> w[k] == hs[k])
      && (forall k :: i < k < |w| ==> w[k] == hs[k - 1])
  {
    PositionIs(hs, h.seqNo, i);
  }

  lemma {:induction false} CalledMore(hs: Chain, h: Handler, ev: int)
    ensures Called(hs + [h], ev) == if Matches(h, ev) then Called(hs, ev) + [h.id] else Called(hs, ev)
  {
    assert (hs + [h])[..|hs|] == hs;
  }

  lemma {:induction false} LastReturnedMore(ids: seq<int>, id: int, ev: int, ctx: int, call: Calls)
    ensures LastReturned(ids + [id], ev, ctx, call) ==
            if call(id, ev, ctx).Some? then call(id, ev, ctx) else LastReturned(ids, ev, ctx, call)
  {
    assert (ids + [id])[..|ids|] == ids;
  }

  /** `at` are the places, in table order, of the handlers for every event and for event ev,
      and `ids` their ids. */
  ghost predicate InTableOrder(hs: Chain, ev: int, at: seq<nat>, ids: seq<int>) {
    && |at| == |ids|
    && (forall k :: 0 <= k < |at| ==>
          at[k] < |hs| && hs[at[k]].id == ids[k] && (hs[at[k]].event == EVENT_NULL || hs[at[k]].event == ev))
    && (forall j, k :: 0 <= j < k < |at| ==> at[j] < at[k])
    && (forall i :: 0 <= i < |hs| && (hs[i].event == EVENT_NULL || hs[i].event == ev) ==> i in at)
  }

  lemma {:induction false} InTableOrderMore(hs: Chain, h: Handler, ev: int, at: seq<nat>, ids: seq<int>)
    requires InTableOrder(hs, ev, at, ids)
    ensures !Matches(h, ev) ==> InTableOrder(hs + [h], ev, at, ids)
    ensures Matches(h, ev) ==> InTableOrder(hs + [h], ev, at + [|hs|], ids + [h.id])
  {
    var w := hs + [h];
    assert forall i :: 0 <= i < |hs| ==> w[i] == hs[i];
    assert w[|hs|] == h;
    if Matches(h, ev) {
      var at', ids' := at + [|hs|], ids + [h.id];
      forall k | 0 <= k < |at'|
        ensures at'[k] < |w| && w[at'[k]].id == ids'[k] && (w[at'[k]].event == EVENT_NULL || w[at'[k]].event == ev)
      {
        if k < |at| { assert at'[k] == at[k] && ids'[k] == ids[k]; }
      }
      forall j, k | 0 <= j < k < |at'| ensures at'[j] < at'[k] {
        assert at'[j] == at[j];
        if k < |at| { assert at'[k] == at[k]; }
      }
      forall i | 0 <= i < |w| && (w[i].event == EVENT_NULL || w[i].event == ev) ensures i in at' {
        if i < |hs| { assert hs[i] == w[i] && i in at; } else { assert at'[|at|] == i; }
      }
    }
  }

  /** A trap calls the handlers of every event and of its own event, all of them and no
      others, in table order. */
  lemma {:induction false} CalledInOrder(hs: Chain, ev: int) returns (at: seq<nat>)
    ensures InTableOrder(hs, ev, at, Called(hs, ev))
  {
    hide Called, Matches, InTableOrder;
    if hs == [] {
      at := [];
      CalledNone(ev);
    } else {
      var before, h := hs[..|hs| - 1], hs[|hs| - 1];
      at := CalledInOrder(before, ev);
      CalledMore(before, h, ev);
      assert hs == before + [h];
      InTableOrderMore(before, h, ev, at, Called(before, ev));
      if Matches(h, ev) {
        at := at + [|before|];
      }
    }
  }

  lemma {:induction false} CalledNone(ev: int)
    ensures Called([], ev) == [] && InTableOrder([], ev, [], [])
  {
  }

  /** What a trap returns: the context of call k, the last to return one, or the null
      pointer when none did (k is -1). */
  lemma {:induction false} LastReturnedIs(ids: seq<int>, ev: int, ctx: int, call: Calls, k: int)
    requires -1 <= k < |ids| && (k >= 0 ==> call(ids[k], ev, ctx) != None)
    requires forall j :: k < j < |ids| ==> call(ids[j], ev, ctx) == None
    ensures LastReturned(ids, ev, ctx, call) == if k >= 0 then call(ids[k], ev, ctx) else None
  {
    if k < |ids| - 1 { LastReturnedIs(ids[..|ids| - 1], ev, ctx, call, k); }
  }

  // ---- the chain over all registrations ----

  /** The chain after the registrations rs, in order of time. */
  function After(rs: seq<Handler>): Chain {
    if rs == [] then [] else Insert(After(rs[..|rs| - 1]), rs[|rs| - 1])
  }

  ghost predicate Sorted(hs: Chain) {
    forall i, j :: 0 <= i < j < |hs| ==> hs[i].seqNo <= hs[j].seqNo
  }

  lemma {:induction false} InsertSorted(hs: Chain, h: Handler)
    requires Sorted(hs)
    ensures Sorted(Insert(hs, h))
  {
    var i := Position(hs, h.seqNo, 0);
    InsertIs(hs, h, i);
    hide Insert;
    var w := Insert(hs, h);
    hide Position;
    forall a, b | 0 <= a < b < |w| ensures w[a].seqNo <= w[b].seqNo {
      var a' := if a < i then a else a - 1;
      var b' := if b < i then b else b - 1;
      if a != i && b != i { assert hs[a'].seqNo <= hs[b'].seqNo; }
      else if a == i { assert hs[i].seqNo <= hs[b'].seqNo; }
      else { assert hs[a].seqNo < h.seqNo; }
    }
  }

  lemma {:induction false} InsertHolds(hs: Chain, h: Handler)
    ensures multiset(Insert(hs, h)) == multiset(hs) + multiset{h}
  {
    hide Position;
    var i := Position(hs, h.seqNo, 0);
    assert hs == hs[..i] + hs[i..];
  }

  /** The table is sorted and holds exactly the handlers registered. */
  lemma {:induction false} SortedExactly(rs: seq<Handler>)
    ensures Sorted(After(rs)) && multiset(After(rs)) == multiset(rs)
  {
    if rs != [] {
      var before := rs[..|rs| - 1];
      SortedExactly(before);
      InsertSorted(After(before), rs[|rs| - 1]);
      InsertHolds(After(before), rs[|rs| - 1]);
      hide Insert;
      assert rs == before + [rs[|rs| - 1]];
    }
  }

  /** The ids of the handlers registered for every event or for event ev. */
  function IdsFor(rs: seq<Handler>, ev: int): multiset<int> {
    if rs == [] then multiset{}
    else
      (if rs[0].event == EVENT_NULL || rs[0].event == ev then multiset{rs[0].id} else multiset{})
      + IdsFor(rs[1..], ev)
  }

  lemma {:induction false} IdsForConcat(a: seq<Handler>, b: seq<Handler>, ev: int)
    ensures IdsFor(a + b, ev) == IdsFor(a, ev) + IdsFor(b, ev)
  {
    if a == [] {
      assert a + b == b;
    } else {
      assert (a + b)[1..] == a[1..] + b;
      IdsForConcat(a[1..], b, ev);
    }
  }

  lemma {:induction false} InsertIds(hs: Chain, h: Handler, ev: int)
    ensures IdsFor(Insert(hs, h), ev) == IdsFor(hs + [h], ev)
  {
    hide Position, IdsFor;
    var i := Position(hs, h.seqNo, 0);
    assert hs == hs[..i] + hs[i..];
    IdsForConcat(hs[..i] + [h], hs[i..], ev);
    IdsForConcat(hs[..i], [h], ev);
    IdsForConcat(hs[..i], hs[i..], ev);
    IdsForConcat(hs, [h], ev);
  }

  lemma {:induction false} OneId(h: Handler, ev: int)
    ensures IdsFor([h], ev) == if h.event == EVENT_NULL || h.event == ev then multiset{h.id} else multiset{}
  {
    assert [h][1..] == [];
  }

  lemma {:induction false} CalledIds(hs: Chain, ev: int)
    ensures multiset(Called(hs, ev)) == IdsFor(hs, ev)
  {
    if hs != [] {
      var before, h := hs[..|hs| - 1], hs[|hs| - 1];
      CalledIds(before, ev);
      CalledMore(before, h, ev);
      OneId(h, ev);
      hide Called, IdsFor;
      assert hs == before + [h];
      IdsForConcat(before, [h], ev);
    }
  }

  lemma {:induction false} AfterIds(rs: seq<Handler>, ev: int)
    ensures IdsFor(After(rs), ev) == IdsFor(rs, ev)
  {
    hide Insert, IdsFor;
    if rs != [] {
      var before, h := rs[..|rs| - 1], rs[|rs| - 1];
      AfterIds(before, ev);
      InsertIds(After(before), h, ev);
      IdsForConcat(After(before), [h], ev);
      IdsForConcat(before, [h], ev);
      assert rs == before + [h];
    }
  }

  /** After any registrations, a trap calls the handlers registered for its event and for
      every event, each as often as it was registered, and no others. */
  lemma {:induction false} CalledExactly(rs: seq<Handler>, ev: int)
    ensures multiset(Called(After(rs), ev)) == IdsFor(rs, ev)
  {
    hide *;
    CalledIds(After(rs), ev);
    AfterIds(rs, ev);
  }

  /** The handlers with sequence number n, in chain order. */
  function With(hs: seq<Handler>, n: int): seq<Handler> {
    if hs == [] then [] else (if hs[0].seqNo == n then [hs[0]] else []) + With(hs[1..], n)
  }

  function Reverse(hs: seq<Handler>): seq<Handler> {
    if hs == [] then [] else Reverse(hs[1..]) + [hs[0]]
  }

  lemma {:induction false} WithConcat(a: seq<Handler>, b: seq<Handler>, n: int)
    ensures With(a + b, n) == With(a, n) + With(b, n)
  {
    if a == [] {
      assert a + b == b;
    } else {
      assert (a + b)[1..] == a[1..] + b;
      var here := if a[0].seqNo == n then [a[0]] else [];
      assert With(a + b, n) == here + With(a[1..] + b, n) && With(a, n) == here + With(a[1..], n);
      hide With;
      WithConcat(a[1..], b, n);
      assert here + (With(a[1..], n) + With(b, n)) == (here + With(a[1..], n)) + With(b, n);
    }
  }

  lemma {:induction false} WithNone(hs: seq<Handler>, n: int)
    requires forall i :: 0 <= i < |hs| ==> hs[i].seqNo != n
    ensures With(hs, n) == []
  {
    if hs != [] { WithNone(hs[1..], n); }
  }

  lemma {:induction false} ReverseMore(hs: seq<Handler>, h: Handler)
    ensures Reverse(hs + [h]) == [h] + Reverse(hs)
  {
    if hs != [] {
      ReverseMore(hs[1..], h);
      assert (hs + [h])[1..] == hs[1..] + [h];
    }
  }

  lemma {:induction false} InsertWith(hs: Chain, h: Handler, n: int)
    ensures With(Insert(hs, h), n) == (if h.seqNo == n then [h] else []) + With(hs, n)
  {
    var i := Position(hs, h.seqNo, 0);
    var a, b := hs[..i], hs[i..];
    assert hs == a + b;
    WithConcat(a, b, n);
    WithConcat(a + [h], b, n);
    WithConcat(a, [h], n);
    if h.seqNo == n { WithNone(a, n); }
    assert With([h], n) == if h.seqNo == n then [h] else [];
  }

  /** Among handlers of one sequence number the later registered comes first. With
      SortedExactly this fixes the table. */
  lemma {:induction false} LaterFirst(rs: seq<Handler>, n: int)
    ensures With(After(rs), n) == Reverse(With(rs, n))
  {
    if rs != [] {
      var before, h := rs[..|rs| - 1], rs[|rs| - 1];
      LaterFirst(before, n);
      InsertWith(After(before), h, n);
      hide Insert;
      assert rs == before + [h];
      WithConcat(before, [h], n);
      assert With([h], n) == if h.seqNo == n then [h] else [];
      hide With, Reverse;
      assert With(before, n) + [] == With(before, n);
      if h.seqNo == n { ReverseMore(With(before, n), h); }
    }
  }

  // ---- context save first, context switch last ----

  const SAVE := Handler(INT_MIN, EVENT_NULL, 0)
  const SWITCH := Handler(INT_MAX, EVENT_NULL, 1)

  predicate InRange(rs: seq<Handler>) {
    forall i :: 0 <= i < |rs| ==> INT_MIN <= rs[i].seqNo <= INT_MAX
  }

  /** No later registration asks for the sequence number of the context save. */
  predicate AboveSave(rs: seq<Handler>) {
    forall i :: 0 <= i < |rs| ==> rs[i].seqNo > INT_MIN
  }

  lemma {:induction false} InsertEnds(hs: Chain, h: Handler)
    requires |hs| >= 2 && InRange(hs) && hs[|hs| - 1] == SWITCH
    requires INT_MIN <= h.seqNo <= INT_MAX && h != SAVE
    ensures var w := Insert(hs, h);
      && |w| == |hs| + 1 && InRange(w) && w[|w| - 1] == SWITCH
      && (w[0] == SAVE <==> hs[0] == SAVE && h.seqNo > INT_MIN)
  {
    var i := Position(hs, h.seqNo, 0);
    InsertIs(hs, h, i);
    hide Insert;
    hide Position;
    assert i < |hs|;
    assert i > 0 ==> hs[0].seqNo < h.seqNo;
  }

  /** One registration after another. */
  lemma {:induction false} AfterMore(rs: seq<Handler>, h: Handler)
    ensures After(rs + [h]) == Insert(After(rs), h)
  {
    assert (rs + [h])[..|rs|] == rs;
  }

  lemma AfterInit()
    ensures After([SAVE, SWITCH]) == [SAVE, SWITCH]
  {
    AfterMore([], SAVE);
    AfterMore([SAVE], SWITCH);
    assert [] + [SAVE] == [SAVE] && [SAVE] + [SWITCH] == [SAVE, SWITCH];
    assert After([]) == [];
  }

  /** After the two registrations of `init` and any more, the switch is last; the
      save is first exactly when no other handler asks for its number. */
  lemma {:induction false} SaveFirstSwitchLast(rs: seq<Handler>)
    requires InRange(rs) && SAVE !in rs
    ensures var hs := After([SAVE, SWITCH] + rs);
      && |hs| == |rs| + 2 && InRange(hs) && hs[|hs| - 1] == SWITCH
      && (hs[0] == SAVE <==> AboveSave(rs))
  {
    hide After, Insert;
    if rs == [] {
      AfterInit();
      assert [SAVE, SWITCH] + rs == [SAVE, SWITCH];
    } else {
      var before, h := rs[..|rs| - 1], rs[|rs| - 1];
      SaveFirstSwitchLast(before);
      assert [SAVE, SWITCH] + rs == ([SAVE, SWITCH] + before) + [h];
      AfterMore([SAVE, SWITCH] + before, h);
      InsertEnds(After([SAVE, SWITCH] + before), h);
      assert AboveSave(rs) <==> AboveSave(before) && h.seqNo > INT_MIN by {
        assert rs == before + [h];
      }
    }
  }

  lemma {:induction false} CalledEnds(hs: Chain, ev: int)
    requires |hs| >= 2 && Matches(hs[0], ev) && Matches(hs[|hs| - 1], ev)
    ensures var ids := Called(hs, ev);
      && |ids| >= 2 && ids[0] == hs[0].id && ids[|ids| - 1] == hs[|hs| - 1].id
  {
    CalledHead(hs[..|hs| - 1], ev);
  }

  lemma {:induction false} CalledHead(hs: Chain, ev: int)
    requires |hs| >= 1 && Matches(hs[0], ev)
    ensures |Called(hs, ev)| >= 1 && Called(hs, ev)[0] == hs[0].id
  {
    if |hs| > 1 {
      CalledHead(hs[..|hs| - 1], ev);
    } else {
      assert hs[..0] == [];
    }
  }

  /** Every trap saves the context first and switches last, and returns the context
      the scheduler chose. */
  lemma EveryTrapSwitches(rs: seq<Handler>, ev: int, ctx: int, call: Calls)
    requires InRange(rs) && AboveSave(rs) && call(SWITCH.id, ev, ctx).Some?
    ensures var ids := Called(After([SAVE, SWITCH] + rs), ev);
      && |ids| >= 2 && ids[0] == SAVE.id && ids[|ids| - 1] == SWITCH.id
      && LastReturned(ids, ev, ctx, call) == call(SWITCH.id, ev, ctx)
  {
    SaveFirstSwitchLast(rs);
    hide After, Called;
    CalledEnds(After([SAVE, SWITCH] + rs), ev);
  }
}
