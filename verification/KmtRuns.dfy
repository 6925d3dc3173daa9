/** What holds in every reachable state of the kernel machine, and how long a
    ready task waits for its CPU. */
module KmtRuns {
  import opened Options
  import opened KmtModel
  import opened KmtMachine

  ghost predicate Runs(st: State, steps: seq<Step>)
    decreases steps
  {
    Shape(st) && (steps != [] ==>
      Enabled(st, steps[0]) && Runs(Next(st, steps[0]), steps[1..]))
  }

  ghost function After(st: State, steps: seq<Step>): (now: State)
    requires Runs(st, steps)
    ensures Shape(now) && |now.sems| == |st.sems|
    decreases steps
  {
    if steps == [] then st
    else
      SameSems(st, steps[0]);
      After(Next(st, steps[0]), steps[1..])
  }

  lemma SameSems(st: State, step: Step)
    requires Shape(st) && Enabled(st, step)
    ensures |Next(st, step).sems| == |st.sems|
  {
  }

  lemma {:induction false} RunKeeps(st: State, steps: seq<Step>)
    requires Inv(st) && Runs(st, steps)
    ensures Inv(After(st, steps))
    decreases steps
  {
    hide Inv, Enabled, Next;
    if steps != [] {
      StepKeeps(st, steps[0]);
      RunKeeps(Next(st, steps[0]), steps[1..]);
    }
  }

  lemma Reachable(st: State, steps: seq<Step>)
    requires Init(st) && Runs(st, steps)
    ensures Inv(After(st, steps))
  {
    InitInv(st);
    RunKeeps(st, steps);
  }

  /** No wakeup is lost: while somebody is queued, every unit of the value is
      matched by a task that a signal dequeued and that has yet to recheck. A
      positive value with a queue thus always finds such a task, and it is not
      waiting but ready or running. */
  lemma NoLostWakeup(st: State, steps: seq<Step>, s: nat)
    requires Init(st) && Runs(st, steps) && s < |After(st, steps).sems|
    requires After(st, steps).sems[s].que != []
    ensures var now := After(st, steps);
      && now.sems[s].value <= |Awake(now, s)|
      && (now.sems[s].value > 0 ==> exists t ::
            t in Awake(now, s) && (now.tasks[t] == Some(READY) || now.tasks[t] == Some(RUNNING)))
  {
    Reachable(st, steps);
    AwakeNotWaiting(After(st, steps), s);
  }

  lemma AwakeNotWaiting(now: State, s: nat)
    requires Inv(now) && s < |now.sems| && now.sems[s].que != []
    ensures now.sems[s].value <= |Awake(now, s)|
    ensures now.sems[s].value > 0 ==> exists t ::
      t in Awake(now, s) && (now.tasks[t] == Some(READY) || now.tasks[t] == Some(RUNNING))
  {
    if now.sems[s].value > 0 {
      assert |Awake(now, s)| > 0;
      var t :| t in Awake(now, s);
      assert now.tasks[t].Some?;
      assert now.tasks[t] != Some(WAITING);
      assert now.tasks[t].value == READY || now.tasks[t].value == RUNNING;
    }
  }

  /** Task t is at place i of the queue of semaphore s. */
  predicate At(now: State, s: int, i: int, t: Tid) {
    0 <= s < |now.sems| && 0 <= i < |now.sems[s].que| && now.sems[s].que[i] == t
  }

  /** A task waits exactly when it sits in a queue, and then in one place only. */
  lemma WaitingIffQueued(st: State, steps: seq<Step>, t: Tid)
    requires Init(st) && Runs(st, steps) && t < MAX_NR_TASKS
    ensures var now := After(st, steps);
      && (now.tasks[t] == Some(WAITING) <==> exists s :: 0 <= s < |now.sems| && t in now.sems[s].que)
      && (forall s, r, i, j :: At(now, s, i, t) && At(now, r, j, t) ==> s == r && i == j)
  {
    Reachable(st, steps);
    OnePlace(After(st, steps), t);
  }

  lemma OnePlace(now: State, t: Tid)
    requires Inv(now) && t < MAX_NR_TASKS
    ensures now.tasks[t] == Some(WAITING) <==> exists s :: 0 <= s < |now.sems| && t in now.sems[s].que
    ensures forall s, r, i, j :: At(now, s, i, t) && At(now, r, j, t) ==> s == r && i == j
  {
    hide CpuInv, CountInv;
    if now.tasks[t] == Some(WAITING) {
      assert t in now.sems[now.pc[t].sem].que;
    }
  }

  /** A queue never outgrows its array: the source's bound of 28 is out of reach,
      because the idle tasks never wait. */
  lemma QueueFits(st: State, steps: seq<Step>, s: nat)
    requires Init(st) && Runs(st, steps) && s < |After(st, steps).sems|
    ensures |After(st, steps).sems[s].que| <= MAX_NR_TASKS - NR_IDLE
  {
    Reachable(st, steps);
    var now := After(st, steps);
    var q := now.sems[s].que;
    forall i | 0 <= i < |q| ensures NR_IDLE <= q[i] < MAX_NR_TASKS {
      assert now.tasks[q[i]] == Some(WAITING);
    }
    DistinctInRange(q, NR_IDLE, MAX_NR_TASKS);
  }

  lemma {:induction false} DistinctInRange(q: seq<Tid>, lo: nat, hi: nat)
    requires Distinct(q) && lo <= hi && forall i :: 0 <= i < |q| ==> lo <= q[i] < hi
    ensures |q| <= hi - lo
    decreases hi - lo
  {
    if q != [] {
      assert lo <= q[0] < hi;
      if i :| 0 <= i < |q| && q[i] == lo {
        var r := q[..i] + q[i + 1..];
        forall j | 0 <= j < |r| ensures lo + 1 <= r[j] < hi {
          assert r[j] == if j < i then q[j] else q[j + 1];
        }
        DistinctInRange(r, lo + 1, hi);
      } else {
        DistinctInRange(q, lo + 1, hi);
      }
    }
  }

  /** No task is current on two CPUs: not even one that a signal marked ready
      while it was still on its way to the yield. */
  lemma NeverOnTwoCpus(st: State, steps: seq<Step>, c: nat, d: nat)
    requires Init(st) && Runs(st, steps)
    requires c < After(st, steps).ncpu && d < After(st, steps).ncpu && c != d
    ensures var now := After(st, steps); now.cur[c].Some? ==> now.cur[c] != now.cur[d]
  {
    Reachable(st, steps);
  }

  /** Every switch makes a task current that was ready and is pinned to its CPU:
      no waiting task ever runs, and none that another CPU still executes. */
  lemma SwitchIsSafe(st: State, steps: seq<Step>, c: nat)
    requires Init(st) && Runs(st, steps) && Enabled(After(st, steps), Switch(c))
    ensures var now := After(st, steps); var t := Next(now, Switch(c)).cur[c];
      && t.Some? && t.value < MAX_NR_TASKS
      && now.tasks[t.value] == Some(READY) && t.value % now.ncpu == c
      && (forall d :: 0 <= d < now.ncpu && d != c ==> now.cur[d] != t)
  {
    Reachable(st, steps);
    SwitchRuns(After(st, steps), c);
  }

  /** The value and the completed waits account for the initial value and all
      signals, and the value never drops below zero. */
  lemma SemaphoreConserved(st: State, steps: seq<Step>, s: nat)
    requires Init(st) && Runs(st, steps) && s < |After(st, steps).sems|
    ensures var now := After(st, steps);
      && now.sems[s].value + now.waits[s] == now.start[s] + now.signals[s]
      && (now.start[s] >= 0 ==> now.sems[s].value >= 0)
  {
    Reachable(st, steps);
  }

  /** A task switched to goes on where it was: past its yield it makes its recheck, before it
      it yields and then has that recheck to make, and outside a wait it may enter any. */
  lemma {:induction false} SwitchedInGoesOn(st: State, steps: seq<Step>, c: nat, s: nat)
    requires Init(st) && Runs(st, steps) && Enabled(After(st, steps), Switch(c)) && s < |After(st, steps).sems|
    ensures var now := After(st, steps); var on := Next(now, Switch(c));
      && Shape(on) && on.cur[c].Some? && on.cur[c].value < MAX_NR_TASKS
      && var t := on.cur[c].value;
         && (now.pc[t].Recheck? ==> Enabled(on, Resume(c)))
         && (now.pc[t].Window? ==>
               Enabled(on, Save(c, true)) && Next(on, Save(c, true)).pc[t] == Recheck(now.pc[t].sem))
         && (now.pc[t] == Out && t >= NR_IDLE ==> Enabled(on, Wait(c, s)))
  {
    Reachable(st, steps);
    hide CpuInv, QueueInv, CountInv, Runs, After, Target, Saved;
    SwitchRuns(After(st, steps), c);
  }

  // ---- the order of wake-ups, and what the values count, from the steps alone ----

  /** The task that makes a pass of `sem_wait` on semaphore s in this step. */
  function Passing(st: State, step: Step, s: nat): Option<Tid>
    requires Shape(st) && Enabled(st, step)
  {
    if step.Wait? && step.sem == s then st.cur[step.cpu]
    else if step.Resume? && st.pc[st.cur[step.cpu].value] == Recheck(s) then st.cur[step.cpu]
    else None
  }

  function QueuedAt(st: State, step: Step, s: nat): seq<Tid>
    requires Shape(st) && Enabled(st, step) && s < |st.sems|
  {
    var t := Passing(st, step, s);
    if t.Some? && st.sems[s].value <= 0 then [t.value] else []
  }

  /** The slots from i on that are WAITING in `before` and READY in `after`. */
  function Readied(before: Table, after: Table, i: nat): seq<Tid>
    requires i <= MAX_NR_TASKS
    decreases MAX_NR_TASKS - i
  {
    if i == MAX_NR_TASKS then []
    else (if before[i] == Some(WAITING) && after[i] == Some(READY) then [i] else []) + Readied(before, after, i + 1)
  }

  function WokenAt(st: State, step: Step, s: nat): seq<Tid>
    requires Shape(st) && Enabled(st, step)
  {
    if step == Signal(s) then Readied(st.tasks, Next(st, step).tasks, 0) else []
  }

  /** The tasks that found no unit of semaphore s, in order of time. */
  ghost function QueuedOver(st: State, steps: seq<Step>, s: nat): seq<Tid>
    requires Runs(st, steps) && s < |st.sems|
    decreases steps
  {
    if steps == [] then []
    else
      SameSems(st, steps[0]);
      QueuedAt(st, steps[0], s) + QueuedOver(Next(st, steps[0]), steps[1..], s)
  }

  /** The tasks that signals of semaphore s made ready, in order of time. */
  ghost function WokenOver(st: State, steps: seq<Step>, s: nat): seq<Tid>
    requires Runs(st, steps)
    decreases steps
  {
    if steps == [] then [] else WokenAt(st, steps[0], s) + WokenOver(Next(st, steps[0]), steps[1..], s)
  }

  function Reverse<T>(q: seq<T>): seq<T> {
    if q == [] then [] else Reverse(q[1..]) + [q[0]]
  }

  lemma {:induction false} ReverseLast<T>(q: seq<T>)
    requires q != []
    ensures Reverse(q) == [q[|q| - 1]] + Reverse(q[..|q| - 1])
  {
    var n := |q| - 1;
    if n > 0 {
      assert q[1..][..n - 1] == q[..n][1..];
      ReverseLast(q[1..]);
    }
  }

  lemma {:induction false} ReadiedOne(before: Table, after: Table, i: nat, t: Tid)
    requires i <= MAX_NR_TASKS && t < MAX_NR_TASKS && before[t] == Some(WAITING) && after == before[t := Some(READY)]
    ensures Readied(before, after, i) == if i <= t then [t] else []
    decreases MAX_NR_TASKS - i
  {
    if i < MAX_NR_TASKS { ReadiedOne(before, after, i + 1, t); }
  }

  lemma {:induction false} ReadiedNone(tasks: Table, i: nat)
    requires i <= MAX_NR_TASKS
    ensures Readied(tasks, tasks, i) == []
    decreases MAX_NR_TASKS - i
  {
    if i < MAX_NR_TASKS { ReadiedNone(tasks, i + 1); }
  }

  lemma {:induction false} SignalOrder(st: State, s: nat)
    requires Inv(st) && s < |st.sems|
    ensures |Next(st, Signal(s)).sems| == |st.sems|
    ensures Reverse(st.sems[s].que) == WokenAt(st, Signal(s), s) + Reverse(Next(st, Signal(s)).sems[s].que)
  {
    hide CpuInv, QueueInv, CountInv, Reverse, Readied;
    if st.sems[s].que != [] {
      WokenWaits(st, s);
      ReverseLast(st.sems[s].que);
      ReadiedOne(st.tasks, Next(st, Signal(s)).tasks, 0, Woken(st.sems[s]).value);
    } else {
      ReadiedNone(st.tasks, 0);
    }
  }

  lemma {:induction false} PassOrder(st: State, step: Step, s: nat)
    requires Shape(st) && Enabled(st, step) && s < |st.sems| && step != Signal(s)
    ensures |Next(st, step).sems| == |st.sems|
    ensures Reverse(st.sems[s].que) + QueuedAt(st, step, s) == Reverse(Next(st, step).sems[s].que)
  {
    hide Target, Saved, FirstFree;
    var q, q' := st.sems[s].que, Next(st, step).sems[s].que;
    if QueuedAt(st, step, s) != [] {
      assert q' == QueuedAt(st, step, s) + q && q'[1..] == q;
    } else {
      assert q' == q;
    }
  }

  lemma {:induction false} OrderKept(st: State, steps: seq<Step>, s: nat)
    requires Inv(st) && Runs(st, steps) && s < |st.sems|
    ensures Reverse(st.sems[s].que) + QueuedOver(st, steps, s)
         == WokenOver(st, steps, s) + Reverse(After(st, steps).sems[s].que)
    decreases steps
  {
    hide Inv, Enabled, Next, Reverse, QueuedAt, WokenAt, Shape;
    if steps != [] {
      var e, st' := steps[0], Next(st, steps[0]);
      SameSems(st, e);
      StepKeeps(st, e);
      OrderStep(st, e, s);
      OrderKept(st', steps[1..], s);
      calc {
        Reverse(st.sems[s].que) + (QueuedAt(st, e, s) + QueuedOver(st', steps[1..], s));
        (Reverse(st.sems[s].que) + QueuedAt(st, e, s)) + QueuedOver(st', steps[1..], s);
        (WokenAt(st, e, s) + Reverse(st'.sems[s].que)) + QueuedOver(st', steps[1..], s);
        WokenAt(st, e, s) + (Reverse(st'.sems[s].que) + QueuedOver(st', steps[1..], s));
        WokenAt(st, e, s) + (WokenOver(st', steps[1..], s) + Reverse(After(st', steps[1..]).sems[s].que));
      }
    }
  }

  lemma {:induction false} OrderStep(st: State, step: Step, s: nat)
    requires Inv(st) && Enabled(st, step) && s < |st.sems| == |Next(st, step).sems|
    ensures Reverse(st.sems[s].que) + QueuedAt(st, step, s)
         == WokenAt(st, step, s) + Reverse(Next(st, step).sems[s].que)
  {
    hide Next, Reverse;
    if step == Signal(s) { SignalOrder(st, s); } else { PassOrder(st, step, s); }
  }

  /** First come, first woken: for every semaphore, the tasks queued in order of time are
      the tasks woken in order of time, followed by those still queued, the oldest at the
      end of the array. */
  lemma {:induction false} FirstInFirstWoken(st: State, steps: seq<Step>, s: nat)
    requires Init(st) && Runs(st, steps) && s < |st.sems|
    ensures QueuedOver(st, steps, s) == WokenOver(st, steps, s) + Reverse(After(st, steps).sems[s].que)
  {
    hide Inv, Runs, After, QueuedOver, WokenOver;
    InitInv(st);
    OrderKept(st, steps, s);
    assert Reverse(st.sems[s].que) == [];
  }

  /** The passes on semaphore s after which their task is out of `sem_wait`. */
  ghost function Completed(st: State, steps: seq<Step>, s: nat): nat
    requires Runs(st, steps)
    decreases steps
  {
    if steps == [] then 0 else
    var t := Passing(st, steps[0], s);
    var st' := Next(st, steps[0]);
    (if t.Some? && t.value < MAX_NR_TASKS && st'.pc[t.value] == Out then 1 else 0) + Completed(st', steps[1..], s)
  }

  function SignalsOf(steps: seq<Step>, s: nat): nat {
    if steps == [] then 0 else (if steps[0] == Signal(s) then 1 else 0) + SignalsOf(steps[1..], s)
  }

  lemma {:induction false} UnitStep(st: State, step: Step, s: nat)
    requires Shape(st) && Enabled(st, step) && s < |st.sems| == |Next(st, step).sems|
    ensures var t := Passing(st, step, s);
      Next(st, step).sems[s].value == st.sems[s].value + (if step == Signal(s) then 1 else 0)
        - (if t.Some? && t.value < MAX_NR_TASKS && Next(st, step).pc[t.value] == Out then 1 else 0)
  {
    hide Target, Saved, FirstFree;
  }

  /** Each signal adds one unit and each wait that gets through takes one: the value of a
      semaphore is its value before, plus the signals, minus the completed passes. */
  lemma {:induction false} UnitsCounted(st: State, steps: seq<Step>, s: nat)
    requires Runs(st, steps) && s < |st.sems|
    ensures After(st, steps).sems[s].value + Completed(st, steps, s) == st.sems[s].value + SignalsOf(steps, s)
    decreases steps
  {
    hide Enabled, Next, Passing;
    if steps != [] {
      SameSems(st, steps[0]);
      UnitStep(st, steps[0], s);
      UnitsCounted(Next(st, steps[0]), steps[1..], s);
    }
  }

  // ---- bounded waiting ----

  function SwitchesOn(steps: seq<Step>, c: nat): nat {
    if steps == [] then 0
    else (if steps[0] == Switch(c) then 1 else 0) + SwitchesOn(steps[1..], c)
  }

  /** Task t is ready in every state of the run: it is never chosen. */
  ghost predicate StaysReady(st: State, steps: seq<Step>, t: Tid)
    requires Runs(st, steps) && t < MAX_NR_TASKS
    decreases steps
  {
    st.tasks[t] == Some(READY) && (steps != [] ==> StaysReady(Next(st, steps[0]), steps[1..], t))
  }

  lemma OthersKeepCur(st: State, step: Step, c: nat)
    requires Inv(st) && Enabled(st, step) && c < st.ncpu && step != Switch(c)
    ensures Next(st, step).ncpu == st.ncpu && Next(st, step).cur[c] == st.cur[c]
  {
  }

  lemma {:induction false} SwitchesBound(st: State, steps: seq<Step>, c: nat, t: Tid)
    requires Inv(st) && Runs(st, steps) && t < MAX_NR_TASKS && c < st.ncpu && t % st.ncpu == c
    requires StaysReady(st, steps, t)
    ensures From(st.cur[c]) < MAX_NR_TASKS && SwitchesOn(steps, c) <= Distance(From(st.cur[c]), t)
    decreases steps
  {
    assert From(st.cur[c]) < MAX_NR_TASKS;
    if steps != [] {
      var st' := Next(st, steps[0]);
      StepKeeps(st, steps[0]);
      if steps[0] == Switch(c) {
        SwitchRuns(st, c);
        CloserAfterPick(st.tasks, st.ncpu, c, From(st.cur[c]), t);
        assert st'.tasks[t] == Some(READY);
      } else {
        OthersKeepCur(st, steps[0], c);
      }
      SwitchesBound(st', steps[1..], c, t);
    }
  }

  /** A ready task is overtaken fewer than MAX_NR_TASKS times: a run in which it
      stays ready has at most 24 switches of its CPU. */
  lemma BoundedWaiting(st: State, past: seq<Step>, steps: seq<Step>, t: Tid)
    requires Init(st) && Runs(st, past) && Runs(After(st, past), steps) && t < MAX_NR_TASKS
    requires StaysReady(After(st, past), steps, t)
    ensures SwitchesOn(steps, t % After(st, past).ncpu) < MAX_NR_TASKS
  {
    Reachable(st, past);
    var now := After(st, past);
    var c := t % now.ncpu;
    SwitchesBound(now, steps, c, t);
    DistanceIndex(From(now.cur[c]), t);
  }

  /** The turn: a switch makes current the ready task pinned to its CPU whose slot comes
      first after that of the old current task, counting round. */
  lemma RoundRobin(st: State, steps: seq<Step>, c: nat, u: Tid)
    requires Init(st) && Runs(st, steps) && Enabled(After(st, steps), Switch(c))
    requires var now := After(st, steps); u < 25 && now.tasks[u] == Some(READY) && u % now.ncpu == c
    ensures var now := After(st, steps); var t := Next(now, Switch(c)).cur[c];
      var from := if now.cur[c] == None then 0 else now.cur[c].value;
      t.Some? && (t.value + 24 - from) % 25 <= (u + 24 - from) % 25
  {
    hide CpuInv, QueueInv, CountInv, Runs, After;
    Reachable(st, steps);
    Turn(After(st, steps), c, u);
  }

  lemma {:induction false} Turn(now: State, c: nat, u: Tid)
    requires Inv(now) && now.trapping == Some(c)
    requires u < MAX_NR_TASKS && now.tasks[u] == Some(READY) && u % now.ncpu == c
    ensures From(now.cur[c]) < MAX_NR_TASKS
    ensures var t := SwitchStep(now, c).cur[c]; var from := From(now.cur[c]);
      t.Some? && (t.value + 24 - from) % 25 <= (u + 24 - from) % 25
  {
    hide QueueInv, CountInv, Pick, Target, SwitchStep, Distance;
    var from := From(now.cur[c]);
    assert from < MAX_NR_TASKS;
    hide CpuInv;
    SwitchRuns(now, c);
    PickNearest(now.tasks, now.ncpu, c, from, u);
    DistanceMod(from, u);
    DistanceMod(from, Chosen(now, c).value);
  }

  lemma DistanceMod(from: Tid, t: Tid)
    requires from < MAX_NR_TASKS && t < MAX_NR_TASKS
    ensures Distance(from, t) == (t + 24 - from) % 25
  {
  }
}
