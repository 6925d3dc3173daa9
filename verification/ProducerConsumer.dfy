/** Any number of producers and consumers over the semaphores `empty` and `fill`:
    the parentheses they print. */
module ProducerConsumer {
  import opened KmtModel

  const SLOTS := 3

  /** Where a thread of either kind stands in its loop. */
  datatype Point = Waits | Prints | Signals

  datatype State = State(empty: Sem<nat>, fill: Sem<nat>, producers: seq<Point>, consumers: seq<Point>, out: string)

  /** The next locked section, or print, of one thread. */
  datatype Step = Producer(i: nat) | Consumer(i: nat)

  function Following(p: Point): Point {
    match p
    case Waits => Prints
    case Prints => Signals
    case Signals => Waits
  }

  predicate Enabled(st: State, step: Step) {
    match step
    case Producer(i) => i < |st.producers|
    case Consumer(i) => i < |st.consumers|
  }

  function Next(st: State, step: Step): State
    requires Enabled(st, step)
  {
    match step
    case Producer(i) =>
      (match st.producers[i]
       case Waits => st.(empty := WaitPass(st.empty, i),
                         producers := if st.empty.value > 0 then st.producers[i := Prints] else st.producers)
       case Prints => st.(out := st.out + ['('], producers := st.producers[i := Signals])
       case Signals => st.(fill := SignalPass(st.fill), producers := st.producers[i := Waits]))
    case Consumer(i) =>
      (match st.consumers[i]
       case Waits => st.(fill := WaitPass(st.fill, i),
                         consumers := if st.fill.value > 0 then st.consumers[i := Prints] else st.consumers)
       case Prints => st.(out := st.out + [')'], consumers := st.consumers[i := Signals])
       case Signals => st.(empty := SignalPass(st.empty), consumers := st.consumers[i := Waits]))
  }

  ghost predicate Init(st: State) {
    && st.empty == Sem(SLOTS, []) && st.fill == Sem(0, []) && st.out == []
    && (forall i :: 0 <= i < |st.producers| ==> st.producers[i] == Waits)
    && (forall i :: 0 <= i < |st.consumers| ==> st.consumers[i] == Waits)
  }

  ghost function Run(st: State, steps: seq<Step>): State
    decreases steps
  {
    if steps == [] then st
    else Run(if Enabled(st, steps[0]) then Next(st, steps[0]) else st, steps[1..])
  }

  function Count(ps: seq<Point>, p: Point): nat {
    if ps == [] then 0 else (if ps[0] == p then 1 else 0) + Count(ps[1..], p)
  }

  lemma {:induction false} CountUpdate(ps: seq<Point>, i: nat, q: Point, p: Point)
    requires i < |ps|
    ensures Count(ps[i := q], p) == Count(ps, p) - (if ps[i] == p then 1 else 0) + (if q == p then 1 else 0)
  {
    if i > 0 {
      assert ps[i := q][1..] == ps[1..][i - 1 := q];
      CountUpdate(ps[1..], i - 1, q, p);
    } else {
      assert ps[i := q][1..] == ps[1..];
    }
  }

  lemma {:induction false} CountNone(ps: seq<Point>, p: Point)
    requires forall i :: 0 <= i < |ps| ==> ps[i] != p
    ensures Count(ps, p) == 0
  {
    if ps != [] { CountNone(ps[1..], p); }
  }

  /** Opening minus closing parentheses. */
  function Depth(s: string): int {
    if s == [] then 0
    else Depth(s[..|s| - 1]) + (if s[|s| - 1] == '(' then 1 else if s[|s| - 1] == ')' then -1 else 0)
  }

  /** Every slot is somewhere: free, filled, or in the hands of one thread. */
  ghost predicate Inv(st: State) {
    && st.empty.value >= 0 && st.fill.value >= 0
    && st.empty.value + st.fill.value
       + Count(st.producers, Prints) + Count(st.producers, Signals)
       + Count(st.consumers, Prints) + Count(st.consumers, Signals) == SLOTS
    && Depth(st.out) == st.fill.value + Count(st.producers, Signals) + Count(st.consumers, Prints)
    && (forall n :: 0 <= n <= |st.out| ==> 0 <= Depth(st.out[..n]) <= SLOTS)
  }

  lemma PrintKeepsPrefixes(out: string, c: char)
    requires forall n :: 0 <= n <= |out| ==> 0 <= Depth(out[..n]) <= SLOTS
    requires 0 <= Depth(out + [c]) <= SLOTS
    ensures forall n :: 0 <= n <= |out + [c]| ==> 0 <= Depth((out + [c])[..n]) <= SLOTS
  {
    forall n | 0 <= n <= |out + [c]| ensures 0 <= Depth((out + [c])[..n]) <= SLOTS {
      if n <= |out| {
        assert (out + [c])[..n] == out[..n];
      } else {
        assert (out + [c])[..n] == out + [c];
      }
    }
  }

  lemma DepthPrint(out: string, c: char)
    ensures Depth(out + [c]) == Depth(out) + (if c == '(' then 1 else if c == ')' then -1 else 0)
  {
    assert (out + [c])[..|out|] == out;
  }

  lemma StepKeeps(st: State, step: Step)
    requires Inv(st) && Enabled(st, step)
    ensures Inv(Next(st, step))
  {
    hide Depth, Count;
    match step
    case Producer(i) =>
      var q := Following(st.producers[i]);
      CountUpdate(st.producers, i, q, Prints);
      CountUpdate(st.producers, i, q, Signals);
      DepthPrint(st.out, '(');
      if st.producers[i] == Prints { PrintKeepsPrefixes(st.out, '('); }
    case Consumer(i) =>
      var q := Following(st.consumers[i]);
      CountUpdate(st.consumers, i, q, Prints);
      CountUpdate(st.consumers, i, q, Signals);
      DepthPrint(st.out, ')');
      if st.consumers[i] == Prints { PrintKeepsPrefixes(st.out, ')'); }
  }

  lemma {:induction false} RunKeeps(st: State, steps: seq<Step>)
    requires Inv(st)
    ensures Inv(Run(st, steps))
    decreases steps
  {
    hide Inv, Next;
    if steps != [] {
      if Enabled(st, steps[0]) { StepKeeps(st, steps[0]); }
      RunKeeps(if Enabled(st, steps[0]) then Next(st, steps[0]) else st, steps[1..]);
    }
  }

  lemma {:induction false} DepthIs(s: string)
    ensures Depth(s) + multiset(s)[')'] == multiset(s)['(']
  {
    if s != [] {
      var n := |s| - 1;
      DepthIs(s[..n]);
      assert s == s[..n] + [s[n]];
    }
  }

  lemma {:induction false} CountIs(ps: seq<Point>, p: Point)
    ensures Count(ps, p) == multiset(ps)[p]
  {
    if ps != [] {
      CountIs(ps[1..], p);
      assert ps == [ps[0]] + ps[1..];
    }
  }

  lemma InitInv(st: State)
    requires Init(st)
    ensures Inv(st)
  {
    CountNone(st.producers, Prints);
    CountNone(st.producers, Signals);
    CountNone(st.consumers, Prints);
    CountNone(st.consumers, Signals);
  }

  /** In every interleaving of any number of threads, every prefix of the output
      has at most three more opening than closing parentheses, and never fewer. */
  lemma BalancedOutput(st: State, steps: seq<Step>, n: nat)
    requires Init(st) && n <= |Run(st, steps).out|
    ensures var prefix := multiset(Run(st, steps).out[..n]);
      prefix[')'] <= prefix['('] <= prefix[')'] + 3
  {
    hide Run;
    InitInv(st);
    RunKeeps(st, steps);
    DepthIs(Run(st, steps).out[..n]);
  }

  /** What a step prints: one parenthesis at each turn of a thread at its print. */
  function PrintedAt(st: State, step: Step): string
    requires Enabled(st, step)
  {
    match step
    case Producer(i) => if st.producers[i] == Prints then "(" else ""
    case Consumer(i) => if st.consumers[i] == Prints then ")" else ""
  }

  ghost function Printed(st: State, steps: seq<Step>): string
    decreases steps
  {
    if steps == [] then []
    else if !Enabled(st, steps[0]) then Printed(st, steps[1..])
    else PrintedAt(st, steps[0]) + Printed(Next(st, steps[0]), steps[1..])
  }

  lemma {:induction false} StepPrints(st: State, step: Step)
    requires Enabled(st, step)
    ensures Next(st, step).out == st.out + PrintedAt(st, step)
  {
    hide WaitPass, SignalPass;
    assert st.out + "" == st.out;
  }

  /** The output is what the threads print, in that order, and nothing else. */
  lemma {:induction false} OutputIsPrinted(st: State, steps: seq<Step>)
    ensures Run(st, steps).out == st.out + Printed(st, steps)
    decreases steps
  {
    hide Next, PrintedAt, Enabled;
    if steps == [] {
      assert st.out + "" == st.out;
    } else if Enabled(st, steps[0]) {
      var st' := Next(st, steps[0]);
      StepPrints(st, steps[0]);
      OutputIsPrinted(st', steps[1..]);
      Associative(st.out, PrintedAt(st, steps[0]), Printed(st', steps[1..]));
    } else {
      OutputIsPrinted(st, steps[1..]);
    }
  }

  lemma Associative(a: string, b: string, c: string)
    ensures (a + b) + c == a + (b + c)
  {
  }

  /** A thread is kept from printing exactly when every one of the three slots is on the
      other side: filled, or free, or in the hands of a thread that has passed its wait. */
  lemma HeldUpIff(st: State, steps: seq<Step>, step: Step)
    requires Init(st) && Enabled(Run(st, steps), step)
    requires var now := Run(st, steps);
      (if step.Producer? then now.producers[step.i] else now.consumers[step.i]) == Waits
    ensures var now := Run(st, steps); var p, c := multiset(now.producers), multiset(now.consumers);
      var busy := p[Prints] + p[Signals] + c[Prints] + c[Signals];
      && (step.Producer? ==>
        (Next(now, step).producers[step.i] == Waits <==> now.fill.value + busy == 3))
      && (step.Consumer? ==>
        (Next(now, step).consumers[step.i] == Waits <==> now.empty.value + busy == 3))
  {
    hide Run, Depth, Count;
    InitInv(st);
    RunKeeps(st, steps);
    var now := Run(st, steps);
    CountIs(now.producers, Prints);
    CountIs(now.producers, Signals);
    CountIs(now.consumers, Prints);
    CountIs(now.consumers, Signals);
  }
}
