/** The kernel objects themselves: tasks, semaphores with their waiter array, and
    the scheduler tables, each locked section proved against KmtModel. */
module Kmt {
  import opened Options
  import opened KmtModel

  class Task {
    var id: Tid
    var status: Status
    constructor (id: Tid, status: Status)
      ensures this.id == id && this.status == status
    {
      this.id, this.status := id, status;
    }
  }

  const MAX_IN_QUE := 30

  class Semaphore {
    var value: int
    var nrWait: nat
    const que: array<Task?>

    ghost predicate Valid()
      reads this, que
    {
      que.Length == MAX_IN_QUE && nrWait <= MAX_IN_QUE
      && forall i :: 0 <= i < nrWait ==> que[i] != null
    }

    ghost function View(): Sem<Task?>
      reads this, que
      requires Valid()
    {
      Sem(value, que[..nrWait])
    }

    constructor (value: int)
      ensures Valid() && fresh(que) && View() == Sem(value, [])
    {
      this.value, nrWait := value, 0;
      que := new Task?[MAX_IN_QUE](_ => null);
    }

    /** The shift of the waiter array by one, and the newest waiter at its start. */
    method PutFirst(cur: Task)
      requires Valid() && nrWait < MAX_IN_QUE
      modifies this`nrWait, que
      ensures Valid() && que[..nrWait] == [cur] + old(que[..nrWait])
    {
      ghost var was := que[..nrWait];
      var i := nrWait;
      while i > 0
        invariant 0 <= i <= nrWait == |was| == old(nrWait)
        invariant forall k :: 0 <= k < i ==> que[k] == was[k]
        invariant forall k :: i < k <= nrWait ==> que[k] == was[k - 1]
      {
        que[i] := que[i - 1];
        i := i - 1;
      }
      que[0] := cur;
      nrWait := nrWait + 1;
      assert que[..nrWait] == [cur] + was;
    }

    /** One pass of `sem_wait` under the lock, by the current task. The source
        halts when the queue reaches 28 entries. */
    method Pass(cur: Task) returns (blocked: bool)
      requires Valid() && (value <= 0 ==> nrWait + 1 < MAX_IN_QUE - 2)
      modifies this`value, this`nrWait, que, cur`status
      ensures Valid() && View() == WaitPass<Task?>(old(View()), cur)
      ensures blocked <==> old(value) <= 0
      ensures value == (if blocked then old(value) else old(value) - 1)
      ensures que[..nrWait] == if blocked then [cur] + old(que[..nrWait]) else old(que[..nrWait])
      ensures cur.status == if blocked then WAITING else old(cur.status)
    {
      blocked := value <= 0;
      if blocked {
        PutFirst(cur);
        cur.status := WAITING;
      } else {
        value := value - 1;
      }
    }

    method Signal()
      requires Valid()
      modifies this`value, this`nrWait, (set i | 0 <= i < nrWait :: que[i])`status
      ensures Valid() && View() == SignalPass(old(View()))
      ensures value == old(value) + 1 && nrWait == (if old(nrWait) == 0 then 0 else old(nrWait) - 1)
      ensures que[..nrWait] == old(que[..nrWait])[..nrWait]
      ensures old(nrWait) > 0 ==> old(que[nrWait - 1]).status == READY
      ensures forall i :: 0 <= i < old(nrWait) && que[i] != old(que[nrWait - 1]) ==> que[i].status == old(que[i].status)
    {
      value := value + 1;
      if nrWait > 0 {
        var taskToWake := que[nrWait - 1];
        nrWait := nrWait - 1;
        taskToWake.status := READY;
        assert old(que[..nrWait])[..nrWait] == que[..nrWait];
      }
    }
  }

  /** The status of every task in a table. */
  ghost function Rows(ts: seq<Task?>): (rows: seq<Option<Status>>)
    reads ts
    ensures |rows| == |ts|
    ensures forall i :: 0 <= i < |ts| ==> rows[i] == if ts[i] == null then None else Some(ts[i].status)
  {
    if ts == [] then [] else
    var n := |ts| - 1;
    Rows(ts[..n]) + [if ts[n] == null then None else Some(ts[n].status)]
  }

  lemma {:induction false} FirstFreeIs(tasks: Table, i: nat)
    requires i <= MAX_NR_TASKS && (forall j :: 0 <= j < i ==> tasks[j] != None)
    requires i < MAX_NR_TASKS ==> tasks[i] == None
    ensures FirstFree(tasks, 0) == i
  {
  }

  class Kernel {
    const ncpu: nat
    const tasks: array<Task?>
    const cur: array<Task?>

    ghost predicate Valid()
      reads this, tasks, cur, tasks[..], cur[..]
    {
      && ncpu > 0 && tasks.Length == MAX_NR_TASKS && cur.Length == ncpu && tasks != cur
      && (forall i :: 0 <= i < MAX_NR_TASKS && tasks[i] != null ==> tasks[i].id == i)
      && (forall c :: 0 <= c < ncpu && cur[c] != null ==>
            cur[c].id < MAX_NR_TASKS && tasks[cur[c].id] == cur[c])
    }

    ghost function Table(): Table
      reads this, tasks, tasks[..]
      requires tasks.Length == MAX_NR_TASKS
    {
      Rows(tasks[..])
    }

    /** The current task of a CPU, as a slot. */
    ghost function Cur(c: nat): Option<Tid>
      reads this, cur, cur[..]
      requires c < cur.Length
    {
      if cur[c] == null then None else Some(cur[c].id)
    }

    constructor (ncpu: nat)
      requires ncpu > 0
      ensures Valid() && fresh(tasks) && fresh(cur) && this.ncpu == ncpu
      ensures forall i :: 0 <= i < MAX_NR_TASKS ==> Table()[i] == None
      ensures forall c :: 0 <= c < ncpu ==> Cur(c) == None
    {
      this.ncpu := ncpu;
      tasks := new Task?[MAX_NR_TASKS](_ => null);
      cur := new Task?[ncpu](_ => null);
    }

    /** `create`: a full table halts the source, here no id is returned. */
    method Create(task: Task) returns (id: Option<Tid>)
      requires Valid() && task !in tasks[..]
      modifies tasks, task
      ensures var slot := FirstFree(old(Table()), 0);
        if slot == MAX_NR_TASKS then id == None && tasks[..] == old(tasks[..])
        else id == Some(slot) && tasks[..] == old(tasks[..])[slot := task] && task.id == slot && task.status == READY
    {
      hide Rows;
      ghost var table := Table();
      var i := 0;
      while i < MAX_NR_TASKS && tasks[i] != null
        invariant 0 <= i <= MAX_NR_TASKS
        invariant forall j :: 0 <= j < i ==> table[j] != None
      {
        i := i + 1;
      }
      FirstFreeIs(table, i);
      hide FirstFree;
      if i == MAX_NR_TASKS {
        return None;
      }
      task.id := i;
      tasks[i] := task;
      task.status := READY;
      return Some(i);
    }

    /** `kmt_context_save`, without the suicide branch. */
    method ContextSave(cpu: nat)
      requires Valid() && cpu < ncpu
      modifies if cur[cpu] == null then {} else {cur[cpu] as object}
      ensures Valid() && Table() == Saved(old(Table()), Cur(cpu))
    {
      if cur[cpu] != null && cur[cpu].status == RUNNING {
        cur[cpu].status := READY;
      }
    }

    method ContextSwitch(cpu: nat) returns (ret: Task)
      requires Valid() && cpu < ncpu && tasks[0] != null
      modifies cur, tasks[..]
      ensures Valid()
      ensures var t := Target(old(Table()), ncpu, cpu, old(Cur(cpu)));
        && t < MAX_NR_TASKS && ret == tasks[t] == cur[cpu]
        && Table() == old(Table())[t := Some(RUNNING)]
      ensures forall c :: 0 <= c < ncpu && c != cpu ==> Cur(c) == old(Cur(c))
    {
      hide Rows, Target;
      ghost var table, was := Table(), Cur(cpu);
      ret := if cur[cpu] != null then cur[cpu] else tasks[0];
      ghost var from := ret.id;
      var i := ret.id + 1;
      while i <= MAX_NR_TASKS + ret.id + 1
        invariant from < i <= from + MAX_NR_TASKS + 2 && ret.id == from && ret == tasks[from]
        invariant forall j :: from < j < i ==> !Runnable(table, ncpu, cpu, j % MAX_NR_TASKS)
        decreases from + MAX_NR_TASKS + 2 - i
      {
        var tsk := tasks[i % MAX_NR_TASKS];
        if tsk != null && tsk.id % ncpu == cpu && tsk.status == READY {
          ret := tsk;
          break;
        }
        i := i + 1;
      }
      TargetFound(table, ncpu, cpu, was, i);
      hide Runnable;
      SwitchTo(cpu, ret);
    }

    /** The end of the switch: the chosen task becomes current and runs. */
    method SwitchTo(cpu: nat, t: Task)
      requires Valid() && cpu < ncpu && t.id < MAX_NR_TASKS && t == tasks[t.id]
      modifies cur, t`status
      ensures Valid() && cur[..] == old(cur[..])[cpu := t] && Table() == old(Table())[t.id := Some(RUNNING)]
    {
      cur[cpu] := t;
      t.status := RUNNING;
    }
  }
}
