/** Tasks, semaphores and the round-robin choice, as functions; the steps of the
    kernel machine and its invariant are in KmtMachine. */
module KmtModel {
  import opened Options

  const MAX_NR_TASKS := 25

  datatype Status = READY | RUNNING | WAITING

  /** A task is named by its slot in the task table, which is its `id`. */
  type Tid = nat

  /** A semaphore: its value and the array prefix in use, newest waiter first. */
  datatype Sem<+T> = Sem(value: int, que: seq<T>)

  /** One locked pass of the loop in `sem_wait`: take a unit, or queue up. */
  function WaitPass<T>(s: Sem<T>, t: T): Sem<T> {
    if s.value <= 0 then s.(que := [t] + s.que) else s.(value := s.value - 1)
  }

  /** The locked body of `sem_signal`; the waiter it wakes is `Woken`. */
  function SignalPass<T>(s: Sem<T>): Sem<T> {
    Sem(s.value + 1, if s.que == [] then [] else s.que[..|s.que| - 1])
  }

  function Woken<T>(s: Sem<T>): Option<T> {
    if s.que == [] then None else Some(s.que[|s.que| - 1])
  }

  type Table = t: seq<Option<Status>> | |t| == MAX_NR_TASKS
    witness seq(MAX_NR_TASKS, _ => None)

  /** The table after the context save of a CPU whose current task is `cur`. */
  function Saved(tasks: Table, cur: Option<Tid>): Table {
    if cur.Some? && cur.value < MAX_NR_TASKS && tasks[cur.value] == Some(RUNNING)
    then tasks[cur.value := Some(READY)] else tasks
  }

  /** The first free slot from i on, or MAX_NR_TASKS. */
  function FirstFree(tasks: Table, i: nat): (slot: nat)
    requires i <= MAX_NR_TASKS
    ensures i <= slot <= MAX_NR_TASKS
    ensures slot < MAX_NR_TASKS ==> tasks[slot] == None
    ensures forall j :: i <= j < slot ==> tasks[j] != None
    decreases MAX_NR_TASKS - i
  {
    if i == MAX_NR_TASKS || tasks[i] == None then i else FirstFree(tasks, i + 1)
  }

  predicate Runnable(tasks: Table, ncpu: nat, cpu: nat, t: Tid)
    requires ncpu > 0
  {
    t < MAX_NR_TASKS && tasks[t] == Some(READY) && t % ncpu == cpu
  }

  /** The scan of the switch: the first index from i on whose slot is runnable,
      or `end`. */
  function Scan(tasks: Table, ncpu: nat, cpu: nat, i: nat, end: nat): (k: nat)
    requires ncpu > 0 && i <= end
    ensures i <= k <= end
    ensures k < end ==> Runnable(tasks, ncpu, cpu, k % MAX_NR_TASKS)
    ensures forall j :: i <= j < k ==> !Runnable(tasks, ncpu, cpu, j % MAX_NR_TASKS)
    decreases end - i
  {
    if i == end || Runnable(tasks, ncpu, cpu, i % MAX_NR_TASKS) then i
    else Scan(tasks, ncpu, cpu, i + 1, end)
  }

  /** The task chosen after slot `from`: the scan covers one full cycle and one
      slot more. */
  function Pick(tasks: Table, ncpu: nat, cpu: nat, from: Tid): Option<Tid>
    requires ncpu > 0
  {
    var end := from + MAX_NR_TASKS + 2;
    var k := Scan(tasks, ncpu, cpu, from + 1, end);
    if k < end then Some(k % MAX_NR_TASKS) else None
  }

  /** The slot the scan starts after; the first switch of a CPU uses slot 0. */
  function From(cur: Option<Tid>): Tid {
    if cur.Some? then cur.value else 0
  }

  /** The task a switch makes current: with none to choose, the code keeps the
      old one whatever its status. */
  function Target(tasks: Table, ncpu: nat, cpu: nat, cur: Option<Tid>): Tid
    requires ncpu > 0
  {
    var r := Pick(tasks, ncpu, cpu, From(cur));
    if r.Some? then r.value else From(cur)
  }

  /** A scan that passes over what is not runnable ends where the target lies. */
  lemma {:induction false} TargetFound(tasks: Table, ncpu: nat, cpu: nat, cur: Option<Tid>, k: nat)
    requires ncpu > 0 && From(cur) < k <= From(cur) + MAX_NR_TASKS + 2
    requires forall j :: From(cur) < j < k ==> !Runnable(tasks, ncpu, cpu, j % MAX_NR_TASKS)
    requires k < From(cur) + MAX_NR_TASKS + 2 ==> Runnable(tasks, ncpu, cpu, k % MAX_NR_TASKS)
    ensures Target(tasks, ncpu, cpu, cur) ==
      if k < From(cur) + MAX_NR_TASKS + 2 then k % MAX_NR_TASKS else From(cur)
  {
    hide Runnable;
    var found := Scan(tasks, ncpu, cpu, From(cur) + 1, From(cur) + MAX_NR_TASKS + 2);
    assert found == k;
  }

  /** How many slots after `from`, cyclically, slot t comes up: 0 for the next
      one, 24 for `from` itself. */
  function Distance(from: Tid, t: Tid): nat
    requires from < MAX_NR_TASKS && t < MAX_NR_TASKS
  {
    if t > from then t - from - 1 else t + MAX_NR_TASKS - from - 1
  }

  lemma {:induction false} DistanceIndex(from: Tid, t: Tid)
    requires from < MAX_NR_TASKS && t < MAX_NR_TASKS
    ensures (from + 1 + Distance(from, t)) % MAX_NR_TASKS == t
    ensures Distance(from, t) < MAX_NR_TASKS
  {
  }

  lemma {:induction false} IndexDistance(from: Tid, k: nat)
    requires from < MAX_NR_TASKS && from < k <= from + MAX_NR_TASKS
    ensures Distance(from, k % MAX_NR_TASKS) == k - from - 1
  {
    if k >= MAX_NR_TASKS {
      assert k % MAX_NR_TASKS == k - MAX_NR_TASKS;
    }
  }

  /** The choice is the runnable task at the least cyclic distance. */
  lemma {:induction false} PickNearest(tasks: Table, ncpu: nat, cpu: nat, from: Tid, t: Tid)
    requires ncpu > 0 && from < MAX_NR_TASKS && Runnable(tasks, ncpu, cpu, t)
    ensures var r := Pick(tasks, ncpu, cpu, from);
      && r.Some? && Runnable(tasks, ncpu, cpu, r.value)
      && Distance(from, r.value) <= Distance(from, t)
  {
    var at := from + 1 + Distance(from, t);
    DistanceIndex(from, t);
    var k := Scan(tasks, ncpu, cpu, from + 1, from + MAX_NR_TASKS + 2);
    assert k <= at;
    IndexDistance(from, k);
  }

  /** Any other choice brings the start of the scan strictly closer to a task
      that is still waiting for its turn. */
  lemma {:induction false} CloserAfterPick(tasks: Table, ncpu: nat, cpu: nat, from: Tid, t: Tid)
    requires ncpu > 0 && from < MAX_NR_TASKS && Runnable(tasks, ncpu, cpu, t)
    ensures var r := Pick(tasks, ncpu, cpu, from);
      r.Some? && r.value < MAX_NR_TASKS && (r.value == t || Distance(r.value, t) < Distance(from, t))
  {
    hide Pick;
    PickNearest(tasks, ncpu, cpu, from, t);
  }

  /** When no runnable task is pinned to the CPU, nothing is chosen. */
  lemma {:induction false} PickNone(tasks: Table, ncpu: nat, cpu: nat, from: Tid)
    requires ncpu > 0 && from < MAX_NR_TASKS
    ensures Pick(tasks, ncpu, cpu, from) == None <==> forall t: Tid :: !Runnable(tasks, ncpu, cpu, t)
  {
    if t: Tid :| Runnable(tasks, ncpu, cpu, t) {
      PickNearest(tasks, ncpu, cpu, from, t);
    }
  }
}
