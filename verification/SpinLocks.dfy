/** Spinlocks with nested interrupt disabling, one step per shared access, for
    any number of CPUs and locks, with interrupts arriving wherever enabled. */
module SpinLocks {
  import opened Options

  const NONE := -1

  /** What follows a pushcli, or the popcli that undoes it. */
  datatype Cont =
    | Outer(lock: nat)                    // of spin_lock; undone by spin_unlock
    | Holding(lock: nat, locking: bool)   // of holding, called from spin_lock or spin_unlock

  datatype Pc =
    | Idle
    | Push(k: nat, next: Cont)       // read the flags; cli; save them if outermost; count up
    | Test(next: Cont)               // holding reads `locked`
    | TestCpu(next: Cont)            // holding reads `cpu`
    | Pop(k: nat, next: Cont, r: bool)  // count down; sti if outermost and saved. r: what holding returns
    | Grab(lock: nat)                // the exchange of spin_lock, repeated while it returns 1
    | Own(lock: nat)                 // cpu := this one
    | Disown(lock: nat)              // cpu := -1
    | Free(lock: nat)                // the exchange of spin_unlock
    | Failed                         // an assertion of the source fired

  /** The interrupted context of a CPU whose handler is running. */
  datatype Frame = Frame(pc: Pc, eflags: bool, base: bool)

  /** `held`, the locks between their winning and their releasing exchange, and
      `base`, the interrupt flag the running context started with, are history. */
  datatype Cpu = Cpu(
    iflag: bool, ncli: int, intena: bool, eflags: bool, pc: Pc,
    held: set<nat>, base: bool, below: Option<Frame>)

  datatype Lock = Lock(locked: bool, cpu: int)

  datatype State = State(cpus: seq<Cpu>, locks: seq<Lock>)

  datatype Act = CallLock(lock: nat) | CallUnlock(lock: nat) | Tick | Interrupt | Return

  predicate Enabled(st: State, c: nat, a: Act) {
    c < |st.cpus| &&
    var p := st.cpus[c];
    match a
    case CallLock(l) => p.pc == Idle && l < |st.locks|
    case CallUnlock(l) => p.pc == Idle && l < |st.locks|
    case Tick => p.pc != Idle && p.pc != Failed && LocksOf(p.pc) < |st.locks|
    case Interrupt => p.iflag && p.pc != Failed && p.below == None
    case Return => p.pc == Idle && p.ncli == 0 && p.below.Some?
  }

  function LocksOf(pc: Pc): nat {
    match pc
    case Push(_, k) => k.lock
    case Test(k) => k.lock
    case TestCpu(k) => k.lock
    case Pop(_, k, _) => k.lock
    case Grab(l) => l
    case Own(l) => l
    case Disown(l) => l
    case Free(l) => l
    case _ => 0
  }

  /** One access of CPU c. */
  function TickCpu(p: Cpu, c: nat, lk: Lock): Cpu {
    match p.pc
    case Push(k, next) =>
      if k == 0 then p.(eflags := p.iflag, pc := Push(1, next))
      else if k == 1 then p.(iflag := false, pc := Push(2, next))
      else if k == 2 then p.(intena := if p.ncli == 0 then p.eflags else p.intena, pc := Push(3, next))
      else p.(ncli := p.ncli + 1, pc := if next.Outer? then Push(0, Holding(next.lock, true)) else Test(next))
    case Test(next) =>
      p.(pc := if lk.locked then TestCpu(next) else Pop(0, next, false))
    case TestCpu(next) =>
      p.(pc := Pop(0, next, lk.cpu == c))
    case Pop(k, next, r) =>
      if k == 0 then
        if p.iflag || p.ncli - 1 < 0 then p.(pc := Failed) else p.(ncli := p.ncli - 1, pc := Pop(1, next, r))
      else
        p.(iflag := p.iflag || (p.ncli == 0 && p.intena),
           pc := if next.Outer? then Idle
                 else if next.locking then (if r then Failed else Grab(next.lock))
                 else if r then Disown(next.lock) else Failed)
    case Grab(l) => if lk.locked then p else p.(held := p.held + {l}, pc := Own(l))
    case Own(_) => p.(pc := Idle)
    case Disown(l) => p.(pc := Free(l))
    case Free(l) => p.(held := p.held - {l}, pc := Pop(0, Outer(l), false))
    case _ => p
  }

  function TickLock(p: Cpu, c: nat, lk: Lock): Lock {
    match p.pc
    case Grab(_) => lk.(locked := true)
    case Own(_) => lk.(cpu := c)
    case Disown(_) => lk.(cpu := NONE)
    case Free(_) => lk.(locked := false)
    case _ => lk
  }

  function Next(st: State, c: nat, a: Act): State
    requires Enabled(st, c, a)
  {
    var p := st.cpus[c];
    match a
    case CallLock(l) => st.(cpus := st.cpus[c := p.(pc := Push(0, Outer(l)))])
    case CallUnlock(l) => st.(cpus := st.cpus[c := p.(pc := Push(0, Holding(l, false)))])
    case Tick =>
      var l := LocksOf(p.pc);
      State(st.cpus[c := TickCpu(p, c, st.locks[l])], st.locks[l := TickLock(p, c, st.locks[l])])
    case Interrupt =>
      var saved := Frame(p.pc, p.eflags, p.base);
      st.(cpus := st.cpus[c := p.(iflag := false, pc := Idle, base := false, below := Some(saved))])
    case Return =>
      var f := p.below.value;
      st.(cpus := st.cpus[c := p.(iflag := true, pc := f.pc, eflags := f.eflags, base := f.base, below := None)])
  }

  // ---- the invariant ----

  /** The pushcli calls not yet matched by a popcli, besides one per held lock. */
  function Extra(pc: Pc): nat {
    match pc
    case Push(_, k) => if k.Holding? && k.locking then 1 else 0
    case Test(k) => if k.Holding? && k.locking then 2 else 1
    case TestCpu(k) => if k.Holding? && k.locking then 2 else 1
    case Pop(j, k, _) => (if k.Holding? && k.locking then 1 else 0) + (if j == 0 then 1 else 0)
    case Grab(_) => 1
    case _ => 0
  }

  /** The interrupt flag, the counter and the saved flag at each point. */
  ghost predicate FlagsOk(p: Cpu) {
    && p.ncli == |p.held| + Extra(p.pc)
    && (p.ncli > 0 ==> !p.iflag && p.intena == p.base)
    && (p.ncli == 0 && !(p.pc.Push? && p.pc.k >= 2) && !p.pc.Pop? ==> p.iflag == p.base)
    && (p.pc.Push? && p.pc.k >= 2 ==> !p.iflag)
    && (p.pc.Push? && 1 <= p.pc.k <= 2 && p.ncli == 0 ==> p.eflags == p.base)
    && (p.pc.Push? && p.pc.k == 3 ==> p.intena == p.base)
    && (p.pc.Pop? ==> !p.iflag && p.intena == p.base)
  }

  ghost predicate PcOk(p: Cpu) {
    match p.pc
    case Push(k, _) => k <= 3
    case Test(k) => k.Holding?
    case TestCpu(k) => k.Holding?
    case Pop(j, k, r) => j <= 1 && (k.Holding? ==> (r <==> k.lock in p.held))
    case Grab(l) => l !in p.held
    case Own(l) => l in p.held
    case Disown(l) => l in p.held
    case Free(l) => l in p.held
    case _ => true
  }

  /** Only contexts with interrupts on are interrupted, and a handler runs with
      interrupts off. */
  ghost predicate FrameOk(p: Cpu, nlocks: nat) {
    p.below.Some? ==>
      !p.base && p.below.value.base
      && var q := p.below.value.pc;
         || q == Idle
         || (q.Push? && q.k <= 1 && Extra(q) == 0 && q.next.lock < nlocks && (q.k == 1 ==> p.below.value.eflags))
  }

  ghost predicate CpuOk(p: Cpu, nlocks: nat) {
    && (p.pc != Failed ==> FlagsOk(p) && PcOk(p))
    && FrameOk(p, nlocks)
    && (p.pc != Idle && p.pc != Failed ==> LocksOf(p.pc) < nlocks)
  }

  /** CPU c is past the store of its number into lock l and before its removal. */
  predicate Marked(p: Cpu, l: nat) {
    l in p.held && p.pc != Own(l) && p.pc != Free(l)
  }

  ghost predicate LocksOk(st: State) {
    && (forall c, l: nat {:trigger l in st.cpus[c].held} ::
          0 <= c < |st.cpus| && l in st.cpus[c].held ==> l < |st.locks| && st.locks[l].locked)
    && (forall c, l :: 0 <= c < |st.cpus| && 0 <= l < |st.locks| ==> (st.locks[l].cpu == c <==> Marked(st.cpus[c], l)))
    && (forall c, d, l: nat ::
          0 <= c < |st.cpus| && 0 <= d < |st.cpus| && l in st.cpus[c].held && l in st.cpus[d].held ==> c == d)
    && (forall l :: 0 <= l < |st.locks| && st.locks[l].locked ==>
          exists c :: 0 <= c < |st.cpus| && l in st.cpus[c].held)
  }

  ghost predicate Inv(st: State) {
    && (forall c :: 0 <= c < |st.cpus| ==> CpuOk(st.cpus[c], |st.locks|))
    && LocksOk(st)
  }

  /** Before any lock is taken, with any interrupt flags. */
  ghost predicate Init(st: State) {
    && (forall c :: 0 <= c < |st.cpus| ==>
          var p := st.cpus[c];
          p.ncli == 0 && p.pc == Idle && p.held == {} && p.iflag == p.base && p.below == None)
    && (forall l :: 0 <= l < |st.locks| ==> st.locks[l] == Lock(false, NONE))
  }

  lemma InitInv(st: State)
    requires Init(st)
    ensures Inv(st)
  {
  }

  predicate Moves(p: Cpu) {
    p.pc != Idle && p.pc != Failed
  }

  /** One access keeps the flags of its CPU in order. */
  lemma TickFlags(p: Cpu, c: nat, lk: Lock)
    requires Moves(p) && FlagsOk(p) && PcOk(p)
    ensures var q := TickCpu(p, c, lk); q.pc != Failed ==> FlagsOk(q)
  {
    hide FlagsOk, TickCpu;
    match p.pc
    case Push(_, _) => PushFlags(p, c, lk);
    case Pop(_, _, _) => PopFlags(p, c, lk);
    case Free(_) => LockFlags(p, c, lk);
    case Grab(_) => LockFlags(p, c, lk);
    case _ => PlainFlags(p, c, lk);
  }

  lemma LockFlags(p: Cpu, c: nat, lk: Lock)
    requires (p.pc.Grab? || p.pc.Free?) && FlagsOk(p) && PcOk(p)
    ensures FlagsOk(TickCpu(p, c, lk))
  {
    var l := LocksOf(p.pc);
    if p.pc.Free? {
      assert |p.held - {l}| == |p.held| - 1;
    } else {
      assert |p.held + {l}| == |p.held| + 1;
    }
  }

  lemma PlainFlags(p: Cpu, c: nat, lk: Lock)
    requires (p.pc.Test? || p.pc.TestCpu? || p.pc.Own? || p.pc.Disown?) && FlagsOk(p) && PcOk(p)
    ensures FlagsOk(TickCpu(p, c, lk))
  {
  }

  lemma PushFlags(p: Cpu, c: nat, lk: Lock)
    requires p.pc.Push? && FlagsOk(p) && PcOk(p)
    ensures FlagsOk(TickCpu(p, c, lk))
  {
  }

  lemma PopFlags(p: Cpu, c: nat, lk: Lock)
    requires p.pc.Pop? && FlagsOk(p) && PcOk(p)
    ensures var q := TickCpu(p, c, lk); q.pc != Failed ==> FlagsOk(q)
  {
  }

  lemma TickPc(p: Cpu, c: nat, lk: Lock)
    requires Moves(p) && PcOk(p)
    requires p.pc.TestCpu? ==> (lk.cpu == c <==> p.pc.next.lock in p.held)
    requires p.pc.Test? && !lk.locked ==> p.pc.next.lock !in p.held
    ensures var q := TickCpu(p, c, lk); q.pc != Failed ==> PcOk(q)
  {
  }

  lemma TickFrame(p: Cpu, c: nat, lk: Lock)
    requires Moves(p)
    ensures var q := TickCpu(p, c, lk);
      (q.below == p.below && q.base == p.base && (Moves(q) ==> LocksOf(q.pc) == LocksOf(p.pc)))
  {
  }

  /** What a CPU and a lock it does not hold, or does hold, know of each other. */
  lemma LockSeen(st: State, c: nat)
    requires Inv(st) && c < |st.cpus| && Moves(st.cpus[c])
    ensures var p := st.cpus[c]; var l := LocksOf(p.pc);
      && l < |st.locks|
      && (l in p.held ==> st.locks[l].locked)
      && (p.pc.Test? || p.pc.TestCpu? ==> (st.locks[l].cpu == c <==> l in p.held))
  {
    assert CpuOk(st.cpus[c], |st.locks|);
    assert st.locks[LocksOf(st.cpus[c].pc)].cpu == c <==> Marked(st.cpus[c], LocksOf(st.cpus[c].pc));
  }

  lemma TickKeepsCpus(st: State, c: nat)
    requires Inv(st) && Enabled(st, c, Tick)
    ensures var st' := Next(st, c, Tick);
      forall d :: 0 <= d < |st'.cpus| ==> CpuOk(st'.cpus[d], |st'.locks|)
  {
    LockSeen(st, c);
    var p := st.cpus[c];
    var lk := st.locks[LocksOf(p.pc)];
    assert CpuOk(p, |st.locks|);
    TickFlags(p, c, lk);
    TickPc(p, c, lk);
    TickFrame(p, c, lk);
    hide TickCpu, TickLock, FlagsOk, PcOk, FrameOk;
    assert FrameOk(TickCpu(p, c, lk), |st.locks|) by { FrameFixed(p, TickCpu(p, c, lk), |st.locks|); }
  }

  lemma FrameFixed(p: Cpu, q: Cpu, n: nat)
    requires FrameOk(p, n) && q.below == p.below && q.base == p.base
    ensures FrameOk(q, n)
  {
  }

  /** The access of CPU c seen from the lock it is about. */
  lemma TickMarks(p: Cpu, c: nat, lk: Lock, l: nat)
    requires Moves(p) && PcOk(p) && (lk.cpu == c <==> Marked(p, l)) && (l in p.held ==> lk.locked)
    requires l == LocksOf(p.pc)
    ensures var q, lk' := TickCpu(p, c, lk), TickLock(p, c, lk);
      && (lk'.cpu == c <==> Marked(q, l))
      && (l in q.held ==> lk'.locked)
      && (lk'.cpu == lk.cpu || (l in p.held && (lk'.cpu == c || lk'.cpu == NONE)))
      && (l in q.held && l !in p.held ==> !lk.locked)
      && (lk'.locked && !lk.locked ==> l in q.held)
      && (l in p.held && l !in q.held ==> !lk'.locked)
      && (lk.locked && !lk'.locked ==> l in p.held)
  {
  }

  lemma TickElsewhere(p: Cpu, c: nat, lk: Lock, m: nat)
    requires Moves(p) && m != LocksOf(p.pc)
    ensures var q := TickCpu(p, c, lk);
      (m in q.held <==> m in p.held) && (Marked(q, m) <==> Marked(p, m))
  {
    HeldElsewhere(p, c, lk, m);
    PointsElsewhere(p, c, lk, m);
    hide TickCpu, LocksOf;
  }

  lemma HeldElsewhere(p: Cpu, c: nat, lk: Lock, m: nat)
    requires Moves(p) && m != LocksOf(p.pc)
    ensures m in TickCpu(p, c, lk).held <==> m in p.held
  {
  }

  lemma PointsElsewhere(p: Cpu, c: nat, lk: Lock, m: nat)
    requires Moves(p) && m != LocksOf(p.pc)
    ensures p.pc != Own(m) && p.pc != Free(m)
    ensures var q := TickCpu(p, c, lk); q.pc != Own(m) && q.pc != Free(m)
  {
  }

  lemma TickKeepsLocks(st: State, c: nat)
    requires Inv(st) && Enabled(st, c, Tick)
    ensures LocksOk(Next(st, c, Tick))
  {
    var p := st.cpus[c];
    var l := LocksOf(p.pc);
    var lk := st.locks[l];
    var st' := Next(st, c, Tick);
    LockSeen(st, c);
    assert CpuOk(p, |st.locks|);
    TickMarks(p, c, lk, l);
    forall m | m != l ensures var q := TickCpu(p, c, lk);
      (m in q.held <==> m in p.held) && (Marked(q, m) <==> Marked(p, m))
    {
      TickElsewhere(p, c, lk, m);
    }
    hide TickCpu, TickLock, CpuOk, Marked, LocksOf;
    LocksAfter(st, st', c, l);
  }

  /** The lock invariant after a change of one CPU and one lock. */
  lemma LocksAfter(st: State, st': State, c: nat, l: nat)
    requires LocksOk(st) && c < |st.cpus| && l < |st.locks|
    requires |st'.cpus| == |st.cpus| && |st'.locks| == |st.locks|
    requires st' == State(st.cpus[c := st'.cpus[c]], st.locks[l := st'.locks[l]])
    requires var p, q, lk, lk' := st.cpus[c], st'.cpus[c], st.locks[l], st'.locks[l];
      && (lk'.cpu == c <==> Marked(q, l))
      && (l in q.held ==> lk'.locked)
      && (lk'.cpu == lk.cpu || (l in p.held && (lk'.cpu == c || lk'.cpu == NONE)))
      && (l in q.held && l !in p.held ==> !lk.locked)
      && (lk'.locked && !lk.locked ==> l in q.held)
      && (l in p.held && l !in q.held ==> !lk'.locked)
      && (lk.locked && !lk'.locked ==> l in p.held)
    requires forall m :: m != l ==>
      (m in st'.cpus[c].held <==> m in st.cpus[c].held) && (Marked(st'.cpus[c], m) <==> Marked(st.cpus[c], m))
    ensures LocksOk(st')
  {
    hide Marked;
    var p, q, lk, lk' := st.cpus[c], st'.cpus[c], st.locks[l], st'.locks[l];
    forall m | 0 <= m < |st'.locks| && st'.locks[m].locked
      ensures exists d :: 0 <= d < |st'.cpus| && m in st'.cpus[d].held
    {
      if m == l && !lk.locked {
        assert m in q.held;
      } else {
        var d :| 0 <= d < |st.cpus| && m in st.cpus[d].held;
        assert m in st'.cpus[d].held || (d == c && m == l);
      }
    }
    forall d, m | 0 <= d < |st'.cpus| && 0 <= m < |st'.locks|
      ensures st'.locks[m].cpu == d <==> Marked(st'.cpus[d], m)
    {
      assert st.locks[m].cpu == d <==> Marked(st.cpus[d], m);
      if m == l && d != c && lk'.cpu != lk.cpu {
        assert l in p.held && l !in st.cpus[d].held;
        UnheldUnmarked(st.cpus[d], l);
      }
    }
    forall d, m: nat | 0 <= d < |st'.cpus| && m in st'.cpus[d].held
      ensures m < |st'.locks| && st'.locks[m].locked
    {
      if d != c || m != l { assert m in st.cpus[d].held; }
    }
    forall d, e, m: nat | 0 <= d < |st'.cpus| && 0 <= e < |st'.cpus| && m in st'.cpus[d].held && m in st'.cpus[e].held
      ensures d == e
    {
      assert d != c || m != l ==> m in st.cpus[d].held;
      assert e != c || m != l ==> m in st.cpus[e].held;
    }
  }

  lemma UnheldUnmarked(p: Cpu, l: nat)
    requires l !in p.held
    ensures !Marked(p, l)
  {
  }

  /** A call, an interrupt and a return touch no lock. */
  lemma OthersKeepLocks(st: State, c: nat, a: Act)
    requires Inv(st) && Enabled(st, c, a) && a != Tick
    ensures LocksOk(Next(st, c, a))
  {
    assert CpuOk(st.cpus[c], |st.locks|);
    var st' := Next(st, c, a);
    var p, q := st.cpus[c], st'.cpus[c];
    assert q.held == p.held;
    assert forall m :: Marked(q, m) <==> Marked(p, m) by {
      if a == Interrupt { InterruptedIsFree(p); }
    }
    hide CpuOk, Marked, Next, Enabled;
    SameMarks(st, st', c);
  }

  lemma SameMarks(st: State, st': State, c: nat)
    requires LocksOk(st) && c < |st.cpus| == |st'.cpus| && st' == st.(cpus := st.cpus[c := st'.cpus[c]])
    requires st'.cpus[c].held == st.cpus[c].held
    requires forall m :: Marked(st'.cpus[c], m) <==> Marked(st.cpus[c], m)
    ensures LocksOk(st')
  {
    hide Marked;
    forall m | 0 <= m < |st'.locks| && st'.locks[m].locked
      ensures exists d :: 0 <= d < |st'.cpus| && m in st'.cpus[d].held
    {
      var d :| 0 <= d < |st.cpus| && m in st.cpus[d].held;
      assert m in st'.cpus[d].held;
    }
    forall d, m | 0 <= d < |st'.cpus| && 0 <= m < |st'.locks|
      ensures st'.locks[m].cpu == d <==> Marked(st'.cpus[d], m)
    {
      assert st.locks[m].cpu == d <==> Marked(st.cpus[d], m);
    }
  }

  /** An interrupt never arrives while its CPU holds a lock, or is anywhere but
      outside all calls or at the entry of a pushcli. */
  lemma InterruptedIsFree(p: Cpu)
    requires p.pc != Failed && FlagsOk(p) && PcOk(p) && p.iflag
    ensures p.held == {} && p.ncli == 0 && p.base
    ensures p.pc == Idle || (p.pc.Push? && p.pc.k <= 1 && Extra(p.pc) == 0 && (p.pc.k == 1 ==> p.eflags))
  {
  }

  lemma OthersKeepCpu(p: Cpu, st: State, c: nat, a: Act)
    requires Inv(st) && Enabled(st, c, a) && a != Tick && p == st.cpus[c]
    ensures CpuOk(Next(st, c, a).cpus[c], |st.locks|)
  {
    assert CpuOk(p, |st.locks|);
    if a == Interrupt { InterruptedIsFree(p); }
  }

  lemma StepKeeps(st: State, c: nat, a: Act)
    requires Inv(st) && Enabled(st, c, a)
    ensures Inv(Next(st, c, a))
  {
    if a == Tick {
      TickKeepsCpus(st, c);
      TickKeepsLocks(st, c);
    } else {
      OthersKeepLocks(st, c, a);
      OthersKeepCpu(st.cpus[c], st, c, a);
    }
    hide CpuOk, LocksOk, TickCpu, TickLock;
  }

  // ---- runs ----

  type Move = (nat, Act)

  ghost predicate Runs(st: State, moves: seq<Move>)
    decreases moves
  {
    moves != [] ==> Enabled(st, moves[0].0, moves[0].1) && Runs(Next(st, moves[0].0, moves[0].1), moves[1..])
  }

  ghost function After(st: State, moves: seq<Move>): State
    requires Runs(st, moves)
    decreases moves
  {
    if moves == [] then st else After(Next(st, moves[0].0, moves[0].1), moves[1..])
  }

  lemma {:induction false} RunKeeps(st: State, moves: seq<Move>)
    requires Inv(st) && Runs(st, moves)
    ensures Inv(After(st, moves))
    decreases moves
  {
    hide Inv, Enabled, Next;
    if moves != [] {
      StepKeeps(st, moves[0].0, moves[0].1);
      RunKeeps(Next(st, moves[0].0, moves[0].1), moves[1..]);
    }
  }

  lemma Reachable(st: State, moves: seq<Move>)
    requires Init(st) && Runs(st, moves)
    ensures Inv(After(st, moves))
  {
    hide Inv, Enabled, Next;
    InitInv(st);
    RunKeeps(st, moves);
  }

  /** At most one CPU is between a winning and the releasing exchange of a lock. */
  lemma MutualExclusion(st: State, moves: seq<Move>, c: nat, d: nat, l: nat)
    requires Init(st) && Runs(st, moves)
    requires var now := After(st, moves);
      c < |now.cpus| && d < |now.cpus| && l in now.cpus[c].held && l in now.cpus[d].held
    ensures c == d
  {
    Reachable(st, moves);
  }

  /** What `holding` returns is whether this CPU holds the lock, although it
      reads `locked` and `cpu` in two accesses while others run. */
  lemma HoldingIsExact(st: State, moves: seq<Move>, c: nat)
    requires Init(st) && Runs(st, moves)
    requires var now := After(st, moves); c < |now.cpus| && now.cpus[c].pc.Pop? && now.cpus[c].pc.next.Holding?
    ensures var p := After(st, moves).cpus[c]; p.pc.r <==> p.pc.next.lock in p.held
  {
    Reachable(st, moves);
    assert CpuOk(After(st, moves).cpus[c], |After(st, moves).locks|);
  }

  /** Outside the calls the counter is the number of held locks, interrupts are
      off while there is one, and are back to what they were when there is none. */
  lemma NestingAndInterrupts(st: State, moves: seq<Move>, c: nat)
    requires Init(st) && Runs(st, moves)
    requires c < |After(st, moves).cpus| && After(st, moves).cpus[c].pc == Idle
    ensures var p := After(st, moves).cpus[c];
      (p.ncli == |p.held| && p.iflag == (p.base && p.held == {}))
  {
    Reachable(st, moves);
    assert CpuOk(After(st, moves).cpus[c], |After(st, moves).locks|);
  }

  /** A held lock keeps interrupts off at every access, so a handler can never
      meet a lock of the code it interrupted. */
  lemma NoInterruptWhileHolding(st: State, moves: seq<Move>, c: nat)
    requires Init(st) && Runs(st, moves)
    requires var now := After(st, moves); c < |now.cpus| && now.cpus[c].pc != Failed && now.cpus[c].held != {}
    ensures !After(st, moves).cpus[c].iflag && !Enabled(After(st, moves), c, Interrupt)
  {
    Reachable(st, moves);
    var p := After(st, moves).cpus[c];
    assert CpuOk(p, |After(st, moves).locks|);
    assert |p.held| > 0;
  }

  /** The assertions fire on misuse only: taking a lock this CPU holds, or
      releasing one it does not; the two of popcli never do. */
  lemma FailsOnlyOnMisuse(st: State, moves: seq<Move>, c: nat)
    requires Init(st) && Runs(st, moves) && Enabled(After(st, moves), c, Tick)
    ensures var now := After(st, moves); var p := now.cpus[c];
      Next(now, c, Tick).cpus[c].pc == Failed <==>
        p.pc.Pop? && p.pc.k == 1 && p.pc.next.Holding? && (p.pc.next.locking <==> p.pc.next.lock in p.held)
  {
    Reachable(st, moves);
    hide Inv, CpuOk;
    var now := After(st, moves);
    MisuseOnly(now, c);
  }

  lemma MisuseOnly(now: State, c: nat)
    requires Inv(now) && Enabled(now, c, Tick)
    ensures var p := now.cpus[c];
      Next(now, c, Tick).cpus[c].pc == Failed <==>
        p.pc.Pop? && p.pc.k == 1 && p.pc.next.Holding? && (p.pc.next.locking <==> p.pc.next.lock in p.held)
  {
    assert CpuOk(now.cpus[c], |now.locks|);
  }

  /** A CPU spins on a lock only while another CPU holds it. */
  lemma SpinsOnOthersOnly(st: State, moves: seq<Move>, c: nat)
    requires Init(st) && Runs(st, moves)
    requires var now := After(st, moves); c < |now.cpus| && now.cpus[c].pc.Grab?
    requires var now := After(st, moves); var l := now.cpus[c].pc.lock; l < |now.locks| && now.locks[l].locked
    ensures var now := After(st, moves);
      exists d :: 0 <= d < |now.cpus| && d != c && now.cpus[c].pc.lock in now.cpus[d].held
  {
    Reachable(st, moves);
    var now := After(st, moves);
    assert CpuOk(now.cpus[c], |now.locks|);
    var d :| 0 <= d < |now.cpus| && now.cpus[c].pc.lock in now.cpus[d].held;
  }
}
