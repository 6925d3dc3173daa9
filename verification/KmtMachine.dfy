/** The kernel as a state machine, one step per lock-protected section. A trap is
    two steps, context save and context switch, because a semaphore may be
    signalled between them. */
module KmtMachine {
  import opened Options
  import opened KmtModel

  const NR_IDLE := 4

  /** Where a task stands with respect to `sem_wait`: outside, in the window
      between the unlock and the yield, or past the yield and due to recheck. */
  datatype Pc = Out | Window(sem: nat) | Recheck(sem: nat)

  predicate InWait(pc: Pc, s: nat) {
    pc == Window(s) || pc == Recheck(s)
  }

  datatype State = State(
    ncpu: nat,
    tasks: Table,
    pc: seq<Pc>,
    cur: seq<Option<Tid>>,
    trapping: Option<nat>,  // the CPU that holds the trap lock, if any
    sems: seq<Sem<Tid>>,
    start: seq<int>,        // the value each semaphore was initialised with
    waits: seq<nat>,        // completed waits
    signals: seq<nat>)

  datatype Step =
    | Create(slot: Tid)
    | Wait(cpu: nat, sem: nat)
    | Resume(cpu: nat)               // the recheck after a yield
    | Signal(sem: nat)               // by any task or interrupt handler
    | Save(cpu: nat, isYield: bool)   // an interrupt, or the yield of the current task
    | Switch(cpu: nat)

  predicate Shape(st: State) {
    && 1 <= st.ncpu <= NR_IDLE && |st.cur| == st.ncpu && |st.pc| == MAX_NR_TASKS
    && |st.start| == |st.waits| == |st.signals| == |st.sems|
    && (st.trapping.Some? ==> st.trapping.value < st.ncpu)
    && (forall t :: 0 <= t < MAX_NR_TASKS && st.pc[t] != Out ==> st.pc[t].sem < |st.sems|)
  }

  /** CPU c executes task code, with t its current task. */
  predicate Executing(st: State, c: nat, t: Tid)
    requires Shape(st)
  {
    c < st.ncpu && st.cur[c] == Some(t) && t < MAX_NR_TASKS && st.trapping != Some(c)
  }

  predicate Enabled(st: State, step: Step)
    requires Shape(st)
  {
    match step
    case Create(i) =>
      st.trapping == None && i < MAX_NR_TASKS && i == FirstFree(st.tasks, 0)
    case Wait(c, s) =>
      c < st.ncpu && s < |st.sems| && st.cur[c].Some?
      && Executing(st, c, st.cur[c].value) && st.pc[st.cur[c].value] == Out && st.cur[c].value >= NR_IDLE
    case Resume(c) =>
      c < st.ncpu && st.cur[c].Some?
      && Executing(st, c, st.cur[c].value) && st.pc[st.cur[c].value].Recheck?
    case Signal(s) => s < |st.sems|
    case Save(c, _) => c < st.ncpu && st.trapping == None
    case Switch(c) => st.trapping == Some(c)
  }

  /** The pass of `sem_wait` by the current task of CPU c. */
  function WaitStep(st: State, c: nat, s: nat): State
    requires Shape(st) && c < st.ncpu && s < |st.sems| && st.cur[c].Some? && st.cur[c].value < MAX_NR_TASKS
  {
    var t := st.cur[c].value;
    var sem := WaitPass(st.sems[s], t);
    if st.sems[s].value <= 0 then
      st.(sems := st.sems[s := sem], tasks := st.tasks[t := Some(WAITING)], pc := st.pc[t := Window(s)])
    else
      st.(sems := st.sems[s := sem], pc := st.pc[t := Out], waits := st.waits[s := st.waits[s] + 1])
  }

  function SignalStep(st: State, s: nat): State
    requires Shape(st) && s < |st.sems|
  {
    var woken := Woken(st.sems[s]);
    st.(sems := st.sems[s := SignalPass(st.sems[s])],
        tasks := if woken.Some? && woken.value < MAX_NR_TASKS then st.tasks[woken.value := Some(READY)] else st.tasks,
        signals := st.signals[s := st.signals[s] + 1])
  }

  function SaveStep(st: State, c: nat, isYield: bool): State
    requires Shape(st) && c < st.ncpu
  {
    if st.cur[c].Some? && st.cur[c].value < MAX_NR_TASKS then
      var t := st.cur[c].value;
      st.(trapping := Some(c),
          tasks := Saved(st.tasks, st.cur[c]),
          pc := if isYield && st.pc[t].Window? then st.pc[t := Recheck(st.pc[t].sem)] else st.pc)
    else st.(trapping := Some(c))
  }

  function SwitchStep(st: State, c: nat): State
    requires Shape(st) && c < st.ncpu
  {
    var t := Target(st.tasks, st.ncpu, c, st.cur[c]);
    st.(trapping := None, cur := st.cur[c := Some(t)],
        tasks := if t < MAX_NR_TASKS then st.tasks[t := Some(RUNNING)] else st.tasks)
  }

  function Next(st: State, step: Step): State
    requires Shape(st) && Enabled(st, step)
  {
    match step
    case Create(i) => st.(tasks := st.tasks[i := Some(READY)])
    case Wait(c, s) => WaitStep(st, c, s)
    case Resume(c) => WaitStep(st, c, st.pc[st.cur[c].value].sem)
    case Signal(s) => SignalStep(st, s)
    case Save(c, isYield) => SaveStep(st, c, isYield)
    case Switch(c) => SwitchStep(st, c)
  }

  // ---- the invariant ----

  ghost predicate Pinned(st: State)
    requires Shape(st)
  {
    forall c :: 0 <= c < st.ncpu && st.cur[c].Some? ==>
      st.cur[c].value < MAX_NR_TASKS && st.tasks[st.cur[c].value].Some? && st.cur[c].value % st.ncpu == c
  }

  ghost predicate IdleReady(st: State)
    requires Shape(st)
  {
    forall i :: 0 <= i < NR_IDLE ==> st.tasks[i].Some? && st.tasks[i] != Some(WAITING) && st.pc[i] == Out
  }

  ghost predicate RunningIsCurrent(st: State)
    requires Shape(st)
  {
    forall t :: 0 <= t < MAX_NR_TASKS && st.tasks[t] == Some(RUNNING) ==>
      st.cur[t % st.ncpu] == Some(t) && st.trapping != Some(t % st.ncpu)
  }

  ghost predicate CurrentRuns(st: State)
    requires Shape(st)
  {
    forall c :: (0 <= c < st.ncpu && st.cur[c].Some? && st.cur[c].value < MAX_NR_TASKS
                 && st.trapping != Some(c) && !st.pc[st.cur[c].value].Window?) ==>
      st.tasks[st.cur[c].value] == Some(RUNNING)
  }

  ghost predicate Distinct(q: seq<Tid>) {
    forall i, j :: 0 <= i < j < |q| ==> q[i] != q[j]
  }

  /** A queued task waits, and waits for this semaphore; no task is queued twice. */
  ghost predicate QueuedWaits(st: State)
    requires Shape(st)
  {
    && (forall s :: 0 <= s < |st.sems| ==> Distinct(st.sems[s].que))
    && (forall s, i :: 0 <= s < |st.sems| && 0 <= i < |st.sems[s].que| ==>
          st.sems[s].que[i] < MAX_NR_TASKS
          && st.tasks[st.sems[s].que[i]] == Some(WAITING)
          && InWait(st.pc[st.sems[s].que[i]], s))
  }

  ghost predicate WaitingQueued(st: State)
    requires Shape(st)
  {
    forall t :: 0 <= t < MAX_NR_TASKS && st.tasks[t] == Some(WAITING) ==>
      st.pc[t] != Out && t in st.sems[st.pc[t].sem].que
  }

  ghost predicate FreeSlotsOut(st: State)
    requires Shape(st)
  {
    forall t :: 0 <= t < MAX_NR_TASKS && st.tasks[t] == None ==> st.pc[t] == Out
  }

  /** The tasks a signal took off the queue of s that have not rechecked yet. */
  ghost function Awake(st: State, s: nat): set<Tid>
    requires Shape(st) && s < |st.sems|
  {
    set t | 0 <= t < MAX_NR_TASKS && InWait(st.pc[t], s) && t !in st.sems[s].que
  }

  ghost predicate Balanced(st: State)
    requires Shape(st)
  {
    forall s :: 0 <= s < |st.sems| && st.sems[s].que != [] ==> st.sems[s].value <= |Awake(st, s)|
  }

  ghost predicate Conserved(st: State)
    requires Shape(st)
  {
    forall s :: 0 <= s < |st.sems| ==>
      st.sems[s].value + st.waits[s] == st.start[s] + st.signals[s]
      && (st.start[s] >= 0 ==> st.sems[s].value >= 0)
  }

  /** Who runs where. */
  ghost predicate CpuInv(st: State)
    requires Shape(st)
  {
    Pinned(st) && IdleReady(st) && RunningIsCurrent(st) && CurrentRuns(st) && FreeSlotsOut(st)
  }

  /** Who waits where. */
  ghost predicate QueueInv(st: State)
    requires Shape(st)
  {
    QueuedWaits(st) && WaitingQueued(st)
  }

  /** What the values add up to. */
  ghost predicate CountInv(st: State)
    requires Shape(st)
  {
    Balanced(st) && Conserved(st)
  }

  ghost predicate Inv(st: State) {
    Shape(st) && CpuInv(st) && QueueInv(st) && CountInv(st)
  }

  /** After `kmt->init`: the idle tasks exist and nothing has been switched. */
  ghost predicate Init(st: State) {
    && Shape(st)
    && (forall t :: 0 <= t < MAX_NR_TASKS ==>
          st.tasks[t] == (if t < NR_IDLE then Some(READY) else None) && st.pc[t] == Out)
    && (forall c :: 0 <= c < st.ncpu ==> st.cur[c] == None)
    && st.trapping == None
    && (forall s :: 0 <= s < |st.sems| ==>
          st.sems[s] == Sem(st.start[s], []) && st.waits[s] == st.signals[s] == 0)
  }

  lemma InitInv(st: State)
    requires Init(st)
    ensures Inv(st)
  {
  }

  /** The waiters of every semaphore, awake or queued, are the same. */
  ghost predicate SameWaiters(st: State, st': State)
    requires Shape(st) && Shape(st')
  {
    && st'.sems == st.sems && st'.start == st.start && st'.waits == st.waits && st'.signals == st.signals
    && forall t, s :: 0 <= t < MAX_NR_TASKS ==> (InWait(st'.pc[t], s) <==> InWait(st.pc[t], s))
  }

  lemma CountsKept(st: State, st': State)
    requires Shape(st) && Shape(st') && CountInv(st) && SameWaiters(st, st')
    ensures CountInv(st')
  {
    forall s | 0 <= s < |st.sems| ensures Awake(st', s) == Awake(st, s) {}
  }

  lemma CreateKeeps(st: State, i: Tid)
    requires Inv(st) && Enabled(st, Create(i))
    ensures Inv(Next(st, Create(i)))
  {
    hide FirstFree;
    var st' := Next(st, Create(i));
    assert QueueInv(st') by { hide CpuInv, CountInv; }
    assert CpuInv(st') by { hide QueueInv, CountInv; }
    hide CpuInv, QueueInv, CountInv;
    CountsKept(st, st');
  }

  // ---- a pass of sem_wait ----

  lemma AwakeOthers(st: State, st': State, s: nat, t: Tid)
    requires Shape(st) && Shape(st') && |st'.sems| == |st.sems| && s < |st.sems| && t < MAX_NR_TASKS
    requires st'.sems[s].que == st.sems[s].que
    requires forall u :: 0 <= u < MAX_NR_TASKS && u != t ==> st'.pc[u] == st.pc[u]
    requires !InWait(st.pc[t], s) && !InWait(st'.pc[t], s)
    ensures Awake(st', s) == Awake(st, s)
  {
  }

  /** Leaving the semaphore, or queueing up again, takes at most the task itself
      out of the awake ones. */
  lemma AwakeAfterPass(st: State, c: nat, s: nat)
    requires Inv(st) && c < st.ncpu && s < |st.sems| && st.cur[c].Some?
    requires var t := st.cur[c].value; Executing(st, c, t) && (st.pc[t] == Out || st.pc[t] == Recheck(s))
    ensures var t := st.cur[c].value; var st' := WaitStep(st, c, s);
      Shape(st') && Awake(st', s) == Awake(st, s) - {t} && (st.pc[t] != Out ==> t in Awake(st, s))
  {
    var t := st.cur[c].value;
    assert st.tasks[t] == Some(RUNNING);
    assert t !in st.sems[s].que;
  }

  lemma BalancedAfterPass(st: State, c: nat, s: nat)
    requires Inv(st) && c < st.ncpu && s < |st.sems| && st.cur[c].Some?
    requires var t := st.cur[c].value; Executing(st, c, t) && (st.pc[t] == Out || st.pc[t] == Recheck(s))
    ensures Shape(WaitStep(st, c, s)) && Balanced(WaitStep(st, c, s))
  {
    var t := st.cur[c].value;
    var st' := WaitStep(st, c, s);
    AwakeAfterPass(st, c, s);
    forall r | 0 <= r < |st.sems| && st'.sems[r].que != []
      ensures st'.sems[r].value <= |Awake(st', r)|
    {
      if r != s {
        AwakeOthers(st, st', r, t);
      } else if t in Awake(st, s) {
        assert |Awake(st, s) - {t}| == |Awake(st, s)| - 1;
      } else {
        assert Awake(st, s) - {t} == Awake(st, s);
      }
    }
  }

  lemma NotQueued(st: State, t: Tid)
    requires Inv(st) && t < MAX_NR_TASKS && st.tasks[t] != Some(WAITING)
    ensures forall s :: 0 <= s < |st.sems| ==> t !in st.sems[s].que
  {
    hide CpuInv, CountInv;
  }

  lemma PassQueuedWaits(st: State, c: nat, s: nat)
    requires Inv(st) && c < st.ncpu && s < |st.sems| && st.cur[c].Some? && st.cur[c].value < MAX_NR_TASKS
    requires forall r :: 0 <= r < |st.sems| ==> st.cur[c].value !in st.sems[r].que
    ensures var st' := WaitStep(st, c, s); Shape(st') && QueuedWaits(st')
  {
    hide CpuInv, CountInv, WaitingQueued;
    var t := st.cur[c].value;
    var st' := WaitStep(st, c, s);
    forall r | 0 <= r < |st.sems| ensures Distinct(st'.sems[r].que) {}
    forall r, i | 0 <= r < |st.sems| && 0 <= i < |st'.sems[r].que|
      ensures var u := st'.sems[r].que[i];
        u < MAX_NR_TASKS && st'.tasks[u] == Some(WAITING) && InWait(st'.pc[u], r)
    {
      var u := st'.sems[r].que[i];
      if u != t {
        assert u in st.sems[r].que;
      }
    }
  }

  lemma PassWaitingQueued(st: State, c: nat, s: nat)
    requires Inv(st) && c < st.ncpu && s < |st.sems| && st.cur[c].Some? && st.cur[c].value < MAX_NR_TASKS
    requires st.tasks[st.cur[c].value] == Some(RUNNING)
    ensures var st' := WaitStep(st, c, s); Shape(st') && WaitingQueued(st')
  {
    hide CpuInv, CountInv, QueuedWaits;
    var t := st.cur[c].value;
    var st' := WaitStep(st, c, s);
    forall u | 0 <= u < MAX_NR_TASKS && st'.tasks[u] == Some(WAITING)
      ensures st'.pc[u] != Out && u in st'.sems[st'.pc[u].sem].que
    {
      if u != t {
        assert u in st.sems[st.pc[u].sem].que;
      }
    }
  }

  lemma PassQueues(st: State, c: nat, s: nat)
    requires Inv(st) && c < st.ncpu && s < |st.sems| && st.cur[c].Some?
    requires var t := st.cur[c].value; Executing(st, c, t) && (st.pc[t] == Out || st.pc[t] == Recheck(s))
    ensures var st' := WaitStep(st, c, s); Shape(st') && QueueInv(st')
  {
    var t := st.cur[c].value;
    assert st.tasks[t] == Some(RUNNING);
    hide CpuInv, CountInv, QueuedWaits, WaitingQueued, WaitStep;
    NotQueued(st, t);
    PassQueuedWaits(st, c, s);
    PassWaitingQueued(st, c, s);
  }

  lemma PassFixed(st: State, c: nat, s: nat)
    requires Inv(st) && c < st.ncpu && s < |st.sems| && st.cur[c].Some?
    requires var t := st.cur[c].value;
      Executing(st, c, t) && t >= NR_IDLE && (st.pc[t] == Out || st.pc[t] == Recheck(s))
    ensures var st' := WaitStep(st, c, s); Shape(st') && Pinned(st') && IdleReady(st') && FreeSlotsOut(st')
  {
    hide QueueInv, CountInv, WaitPass, CurrentRuns, RunningIsCurrent;
  }

  lemma PassRunning(st: State, c: nat, s: nat)
    requires Inv(st) && c < st.ncpu && s < |st.sems| && st.cur[c].Some?
    requires var t := st.cur[c].value;
      Executing(st, c, t) && t >= NR_IDLE && (st.pc[t] == Out || st.pc[t] == Recheck(s))
    ensures var st' := WaitStep(st, c, s); Shape(st') && RunningIsCurrent(st')
  {
    hide QueueInv, CountInv, WaitPass, CurrentRuns, IdleReady, FreeSlotsOut;
  }

  lemma PassCurrent(st: State, c: nat, s: nat)
    requires Inv(st) && c < st.ncpu && s < |st.sems| && st.cur[c].Some?
    requires var t := st.cur[c].value;
      Executing(st, c, t) && t >= NR_IDLE && (st.pc[t] == Out || st.pc[t] == Recheck(s))
    ensures var st' := WaitStep(st, c, s); Shape(st') && CurrentRuns(st')
  {
    hide QueueInv, CountInv, WaitPass, RunningIsCurrent, IdleReady, FreeSlotsOut;
  }

  lemma PassCpus(st: State, c: nat, s: nat)
    requires Inv(st) && c < st.ncpu && s < |st.sems| && st.cur[c].Some?
    requires var t := st.cur[c].value;
      Executing(st, c, t) && t >= NR_IDLE && (st.pc[t] == Out || st.pc[t] == Recheck(s))
    ensures var st' := WaitStep(st, c, s); Shape(st') && CpuInv(st')
  {
    hide Inv, WaitStep, Pinned, IdleReady, FreeSlotsOut, RunningIsCurrent, CurrentRuns;
    PassFixed(st, c, s);
    PassRunning(st, c, s);
    PassCurrent(st, c, s);
  }

  lemma PassCounts(st: State, c: nat, s: nat)
    requires Inv(st) && c < st.ncpu && s < |st.sems| && st.cur[c].Some?
    requires var t := st.cur[c].value; Executing(st, c, t) && (st.pc[t] == Out || st.pc[t] == Recheck(s))
    ensures var st' := WaitStep(st, c, s); Shape(st') && CountInv(st')
  {
    BalancedAfterPass(st, c, s);
    hide QueueInv, CpuInv, Balanced;
  }

  lemma PassKeeps(st: State, c: nat, s: nat)
    requires Inv(st) && c < st.ncpu && s < |st.sems| && st.cur[c].Some?
    requires var t := st.cur[c].value;
      Executing(st, c, t) && t >= NR_IDLE && (st.pc[t] == Out || st.pc[t] == Recheck(s))
    ensures Inv(WaitStep(st, c, s))
  {
    hide CpuInv, QueueInv, CountInv, WaitStep;
    PassCpus(st, c, s);
    PassQueues(st, c, s);
    PassCounts(st, c, s);
  }

  // ---- a signal ----

  /** The woken task waits for this semaphore only, and is not an idle task. */
  lemma WokenWaits(st: State, s: nat)
    requires Inv(st) && s < |st.sems| && st.sems[s].que != []
    ensures var t := Woken(st.sems[s]).value; var q := st.sems[s].que;
      && NR_IDLE <= t < MAX_NR_TASKS && st.tasks[t] == Some(WAITING) && InWait(st.pc[t], s)
      && q == q[..|q| - 1] + [t] && t !in q[..|q| - 1]
      && forall r :: 0 <= r < |st.sems| && r != s ==> t !in st.sems[r].que
  {
    hide CountInv;
    var q := st.sems[s].que;
    assert q[|q| - 1] == Woken(st.sems[s]).value;
  }

  lemma SignalShape(st: State, s: nat)
    requires Shape(st) && s < |st.sems|
    ensures var st' := SignalStep(st, s); Shape(st') && |st'.sems| == |st.sems|
  {
  }

  /** A task still queued after a signal waits on as before. */
  lemma StillQueued(st: State, s: nat, r: nat, i: nat)
    requires Inv(st) && s < |st.sems| == |SignalStep(st, s).sems|
    requires r < |st.sems| && i < |SignalStep(st, s).sems[r].que|
    ensures var st' := SignalStep(st, s); var u := st'.sems[r].que[i];
      && i < |st.sems[r].que| && u == st.sems[r].que[i]
      && u < MAX_NR_TASKS && st'.tasks[u] == Some(WAITING) && st'.pc == st.pc && InWait(st.pc[u], r)
  {
    hide CpuInv, CountInv, WaitingQueued;
    if st.sems[s].que != [] {
      WokenWaits(st, s);
    }
    var q := SignalStep(st, s).sems[r].que;
    assert q[i] in q && q[i] == st.sems[r].que[i];
  }

  lemma SignalDistinct(st: State, s: nat, r: nat)
    requires Inv(st) && s < |st.sems| == |SignalStep(st, s).sems| && r < |st.sems|
    ensures Distinct(SignalStep(st, s).sems[r].que)
  {
    hide CpuInv, CountInv, WaitingQueued;
  }

  lemma SignalQueuedWaits(st: State, s: nat)
    requires Inv(st) && s < |st.sems|
    ensures var st' := SignalStep(st, s); Shape(st') && QueuedWaits(st')
  {
    hide CpuInv, QueueInv, CountInv, SignalStep, Distinct;
    SignalShape(st, s);
    var st' := SignalStep(st, s);
    forall r | 0 <= r < |st.sems| ensures Distinct(st'.sems[r].que) {
      SignalDistinct(st, s, r);
    }
    forall r, i | 0 <= r < |st.sems| && 0 <= i < |st'.sems[r].que|
      ensures var u := st'.sems[r].que[i];
        u < MAX_NR_TASKS && st'.tasks[u] == Some(WAITING) && InWait(st'.pc[u], r)
    {
      StillQueued(st, s, r, i);
    }
  }

  /** A task that still waits after a signal is still queued where it was. */
  lemma StillWaiting(st: State, s: nat, t: Tid)
    requires Inv(st) && s < |st.sems| == |SignalStep(st, s).sems|
    requires t < MAX_NR_TASKS && SignalStep(st, s).tasks[t] == Some(WAITING)
    ensures var st' := SignalStep(st, s);
      st'.pc == st.pc && st.pc[t] != Out && st.pc[t].sem < |st'.sems| && t in st'.sems[st.pc[t].sem].que
  {
    hide CpuInv, CountInv, QueuedWaits;
    if st.sems[s].que != [] {
      WokenWaits(st, s);
    }
    assert t in st.sems[st.pc[t].sem].que;
  }

  lemma SignalWaitingQueued(st: State, s: nat)
    requires Inv(st) && s < |st.sems|
    ensures var st' := SignalStep(st, s); Shape(st') && WaitingQueued(st')
  {
    hide CpuInv, QueueInv, CountInv, SignalStep;
    SignalShape(st, s);
    var st' := SignalStep(st, s);
    forall t | 0 <= t < MAX_NR_TASKS && st'.tasks[t] == Some(WAITING)
      ensures st'.pc[t] != Out && t in st'.sems[st'.pc[t].sem].que
    {
      StillWaiting(st, s, t);
    }
  }

  lemma SignalBalanced(st: State, s: nat)
    requires Inv(st) && s < |st.sems|
    ensures var st' := SignalStep(st, s); Shape(st') && Balanced(st')
  {
    if st.sems[s].que != [] {
      WokenWaits(st, s);
    }
    hide CpuInv, QueueInv, Conserved;
    var st' := SignalStep(st, s);
    forall r | 0 <= r < |st.sems| && st'.sems[r].que != []
      ensures st'.sems[r].value <= |Awake(st', r)|
    {
      if r == s {
        var w := Woken(st.sems[s]).value;
        assert Awake(st', s) == Awake(st, s) + {w};
        assert w !in Awake(st, s);
      } else {
        assert Awake(st', r) == Awake(st, r);
      }
    }
  }

  lemma SignalCurrentRuns(st: State, s: nat)
    requires Inv(st) && s < |st.sems|
    ensures var st' := SignalStep(st, s); Shape(st') && CurrentRuns(st')
  {
    if st.sems[s].que != [] {
      WokenWaits(st, s);
    }
    hide CountInv, QueueInv, RunningIsCurrent, IdleReady, FreeSlotsOut;
    var st' := SignalStep(st, s);
    forall c | 0 <= c < st.ncpu && st.cur[c].Some? && st.cur[c].value < MAX_NR_TASKS
        && st.trapping != Some(c) && !st.pc[st.cur[c].value].Window?
      ensures st'.tasks[st.cur[c].value] == Some(RUNNING)
    {
      assert st.tasks[st.cur[c].value] == Some(RUNNING);
    }
  }

  lemma SignalRunning(st: State, s: nat)
    requires Inv(st) && s < |st.sems|
    ensures var st' := SignalStep(st, s); Shape(st') && RunningIsCurrent(st')
  {
    hide CountInv, QueueInv, IdleReady, FreeSlotsOut, Pinned, CurrentRuns, SignalPass;
    var st' := SignalStep(st, s);
    forall t | 0 <= t < MAX_NR_TASKS && st'.tasks[t] == Some(RUNNING)
      ensures st'.cur[t % st'.ncpu] == Some(t) && st'.trapping != Some(t % st'.ncpu)
    {
      assert st.tasks[t] == Some(RUNNING);
    }
  }

  lemma SignalCpus(st: State, s: nat)
    requires Inv(st) && s < |st.sems|
    ensures var st' := SignalStep(st, s); Shape(st') && CpuInv(st')
  {
    hide CountInv, QueueInv, CurrentRuns, RunningIsCurrent, SignalPass;
    if st.sems[s].que != [] {
      WokenWaits(st, s);
    }
    SignalCurrentRuns(st, s);
    SignalRunning(st, s);
  }

  lemma SignalKeeps(st: State, s: nat)
    requires Inv(st) && s < |st.sems|
    ensures Inv(SignalStep(st, s))
  {
    SignalQueuedWaits(st, s);
    SignalWaitingQueued(st, s);
    SignalBalanced(st, s);
    SignalCpus(st, s);
    hide Balanced, QueuedWaits, WaitingQueued, CpuInv;
  }

  // ---- a trap ----

  lemma SaveQueues(st: State, c: nat, isYield: bool)
    requires Inv(st) && c < st.ncpu && st.trapping == None
    ensures var st' := SaveStep(st, c, isYield); Shape(st') && QueueInv(st') && SameWaiters(st, st')
  {
    hide CountInv, CpuInv;
  }

  lemma SaveFixed(st: State, c: nat, isYield: bool)
    requires Inv(st) && c < st.ncpu && st.trapping == None
    ensures var st' := SaveStep(st, c, isYield); Shape(st') && Pinned(st') && IdleReady(st') && FreeSlotsOut(st')
  {
    hide CountInv, QueueInv, CurrentRuns, RunningIsCurrent;
  }

  lemma SaveRunning(st: State, c: nat, isYield: bool)
    requires Inv(st) && c < st.ncpu && st.trapping == None
    ensures var st' := SaveStep(st, c, isYield); Shape(st') && RunningIsCurrent(st')
  {
    hide CountInv, QueueInv, IdleReady, FreeSlotsOut, CurrentRuns;
  }

  lemma SaveCurrent(st: State, c: nat, isYield: bool)
    requires Inv(st) && c < st.ncpu && st.trapping == None
    ensures var st' := SaveStep(st, c, isYield); Shape(st') && CurrentRuns(st')
  {
    hide CountInv, QueueInv, IdleReady, FreeSlotsOut, RunningIsCurrent;
    var st' := SaveStep(st, c, isYield);
    forall d | 0 <= d < st.ncpu && d != c && st.cur[d].Some? && !st.pc[st.cur[d].value].Window?
      ensures st'.tasks[st.cur[d].value] == Some(RUNNING)
    {
      assert st.tasks[st.cur[d].value] == Some(RUNNING);
      assert st.cur[d].value % st.ncpu == d;
    }
  }

  lemma SaveCpus(st: State, c: nat, isYield: bool)
    requires Inv(st) && c < st.ncpu && st.trapping == None
    ensures var st' := SaveStep(st, c, isYield); Shape(st') && CpuInv(st')
  {
    hide Inv, SaveStep, Pinned, IdleReady, FreeSlotsOut, RunningIsCurrent, CurrentRuns;
    SaveFixed(st, c, isYield);
    SaveRunning(st, c, isYield);
    SaveCurrent(st, c, isYield);
  }

  lemma SaveKeeps(st: State, c: nat, isYield: bool)
    requires Inv(st) && c < st.ncpu && st.trapping == None
    ensures Inv(SaveStep(st, c, isYield))
  {
    hide CpuInv, QueueInv, CountInv, SaveStep;
    SaveCpus(st, c, isYield);
    SaveQueues(st, c, isYield);
    CountsKept(st, SaveStep(st, c, isYield));
  }

  ghost function Chosen(st: State, c: nat): Option<Tid>
    requires Shape(st) && c < st.ncpu
  {
    Pick(st.tasks, st.ncpu, c, From(st.cur[c]))
  }

  /** Every switch finds a ready task pinned to its CPU: at worst the idle task
      of that CPU. */
  lemma SwitchFindsReady(st: State, c: nat)
    requires Inv(st) && st.trapping == Some(c)
    ensures Chosen(st, c).Some? && Runnable(st.tasks, st.ncpu, c, Chosen(st, c).value)
  {
    hide CountInv, QueueInv;
    assert c % st.ncpu == c;
    assert st.tasks[c].Some? && st.tasks[c] != Some(WAITING);
    assert st.tasks[c] != Some(RUNNING);
    assert st.tasks[c].value == READY;
    PickNearest(st.tasks, st.ncpu, c, From(st.cur[c]), c);
  }

  /** The switch turns one ready task of its CPU into the current, running one. */
  lemma SwitchRuns(st: State, c: nat)
    requires Inv(st) && st.trapping == Some(c)
    ensures Chosen(st, c).Some?
    ensures var t := Chosen(st, c).value; var st' := SwitchStep(st, c);
      && t < MAX_NR_TASKS && st.tasks[t] == Some(READY) && t % st.ncpu == c
      && st' == st.(trapping := None, cur := st.cur[c := Some(t)], tasks := st.tasks[t := Some(RUNNING)])
  {
    hide CpuInv, CountInv, QueueInv;
    SwitchFindsReady(st, c);
  }

  lemma SwitchKeeps(st: State, c: nat)
    requires Inv(st) && st.trapping == Some(c)
    ensures Inv(SwitchStep(st, c))
  {
    SwitchRuns(st, c);
    hide Pick, Target, SwitchStep;
    var st' := SwitchStep(st, c);
    assert QueueInv(st') by { hide CpuInv, CountInv; }
    assert CpuInv(st') by { hide QueueInv, CountInv; }
    hide CpuInv, QueueInv, CountInv;
    CountsKept(st, st');
  }

  // ---- every step, every run ----

  lemma ResumeIsNotIdle(st: State, c: nat)
    requires Inv(st) && Enabled(st, Resume(c))
    ensures st.cur[c].value >= NR_IDLE
  {
  }

  lemma StepKeeps(st: State, step: Step)
    requires Inv(st) && Enabled(st, step)
    ensures Inv(Next(st, step))
  {
    hide CpuInv, QueueInv, CountInv;
    match step
    case Create(i) => CreateKeeps(st, i);
    case Wait(c, s) => PassKeeps(st, c, s);
    case Resume(c) => ResumeIsNotIdle(st, c); PassKeeps(st, c, st.pc[st.cur[c].value].sem);
    case Signal(s) => SignalKeeps(st, s);
    case Save(c, isYield) => SaveKeeps(st, c, isYield);
    case Switch(c) => SwitchKeeps(st, c);
  }
}
