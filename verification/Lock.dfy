/** The lock code as one CPU runs it when no other interferes, and that the machine of
    single accesses does the same when only that CPU moves. */
module Locks {
  import S = SpinLocks

  /** What a CPU's calls leave: its interrupt flag, nesting count and saved flag. */
  datatype Flags = Flags(iflag: bool, ncli: int, intena: bool)

  function Pushed(f: Flags): Flags {
    Flags(false, f.ncli + 1, if f.ncli == 0 then f.iflag else f.intena)
  }

  function Popped(f: Flags): Flags {
    f.(ncli := f.ncli - 1, iflag := f.iflag || (f.ncli == 1 && f.intena))
  }

  class SpinLock {
    var locked: bool
    var cpu: int

    /** `spin_init`. */
    constructor ()
      ensures !locked && cpu == S.NONE
    {
      locked, cpu := false, S.NONE;
    }

    method Xchg(v: bool) returns (was: bool)
      modifies this`locked
      ensures locked == v && was == old(locked)
    {
      was := locked;
      locked := v;
    }
  }

  class Cpu {
    const id: nat
    var iflag: bool
    var ncli: int
    var intena: bool

    ghost function View(): Flags
      reads this
    {
      Flags(iflag, ncli, intena)
    }

    method PushCli()
      modifies this
      ensures View() == Pushed(old(View()))
    {
      var eflags := iflag;
      iflag := false;
      if ncli == 0 {
        intena := eflags;
      }
      ncli := ncli + 1;
    }

    /** Not ok where an assertion fails. */
    method PopCli() returns (ok: bool)
      modifies this
      ensures ok == (!old(iflag) && old(ncli) > 0)
      ensures ok ==> View() == Popped(old(View()))
    {
      if iflag {
        return false;
      }
      ncli := ncli - 1;
      if ncli < 0 {
        return false;
      }
      if ncli == 0 && intena {
        iflag := true;
      }
      ok := true;
    }

    /** Leaves the flags as they were, with interrupts on only outside every pushcli. */
    method Holding(lk: SpinLock) returns (r: bool)
      requires ncli >= 0 && (ncli > 0 ==> !iflag)
      modifies this
      ensures r == (lk.locked && lk.cpu == id)
      ensures iflag == old(iflag) && ncli == old(ncli) && (ncli > 0 ==> intena == old(intena))
    {
      PushCli();
      r := lk.locked && lk.cpu == id;
      var ok := PopCli();
    }

    /** `spin_lock`: not ok where an assertion fails. A lock another CPU has is given up
        by it after `turns` + 1 exchanges that fail. */
    method Lock(lk: SpinLock, turns: nat) returns (ok: bool)
      requires ncli >= 0 && (ncli > 0 ==> !iflag)
      modifies this, lk
      ensures ok == !(old(lk.locked) && old(lk.cpu) == id)
      ensures ok ==> View() == Pushed(old(View())) && lk.locked && lk.cpu == id
    {
      PushCli();
      var r := Holding(lk);
      if r {
        return false;
      }
      var left := turns;
      var was := lk.Xchg(true);
      while was
        invariant lk.locked && View() == Pushed(old(View()))
        decreases left, was
      {
        if left == 0 {
          lk.cpu, lk.locked := S.NONE, false;  // the other CPU's `spin_unlock`
        } else {
          left := left - 1;
        }
        was := lk.Xchg(true);
      }
      lk.cpu := id;
      ok := true;
    }

    /** `spin_unlock`: not ok where an assertion fails. */
    method Unlock(lk: SpinLock) returns (ok: bool)
      requires ncli >= 0 && (ncli > 0 ==> !iflag)
      modifies this, lk
      ensures ok == (old(lk.locked) && old(lk.cpu) == id && old(ncli) > 0)
      ensures ok ==> View() == Popped(old(View())) && !lk.locked && lk.cpu == S.NONE
    {
      var r := Holding(lk);
      if !r {
        return false;
      }
      lk.cpu := S.NONE;
      var was := lk.Xchg(false);
      ok := PopCli();
    }
  }

  // ---- the machine, when one CPU moves alone ----

  /** n accesses of CPU c, all about one lock. */
  function Alone(p: S.Cpu, lk: S.Lock, c: nat, n: nat): (S.Cpu, S.Lock)
    decreases n
  {
    if n == 0 then (p, lk) else Alone(S.TickCpu(p, c, lk), S.TickLock(p, c, lk), c, n - 1)
  }

  function FlagsOf(p: S.Cpu): Flags {
    Flags(p.iflag, p.ncli, p.intena)
  }

  lemma {:induction false} AloneSteps(p: S.Cpu, lk: S.Lock, c: nat, n: nat, m: nat)
    ensures var (q, k) := Alone(p, lk, c, n); Alone(p, lk, c, n + m) == Alone(q, k, c, m)
    decreases n
  {
    if n > 0 { AloneSteps(S.TickCpu(p, c, lk), S.TickLock(p, c, lk), c, n - 1, m); }
  }

  /** The four accesses of a pushcli. */
  lemma {:induction false} PushAlone(p: S.Cpu, lk: S.Lock, c: nat, next: S.Cont)
    requires p.pc == S.Push(0, next)
    ensures var (q, k) := Alone(p, lk, c, 4);
      && FlagsOf(q) == Pushed(FlagsOf(p)) && q.held == p.held && k == lk
      && q.pc == if next.Outer? then S.Push(0, S.Holding(next.lock, true)) else S.Test(next)
  {
    var p1 := S.TickCpu(p, c, lk);
    var p2 := S.TickCpu(p1, c, lk);
    var p3 := S.TickCpu(p2, c, lk);
    var p4 := S.TickCpu(p3, c, lk);
    assert Alone(p4, lk, c, 0) == (p4, lk);
    assert Alone(p3, lk, c, 1) == Alone(p4, lk, c, 0);
    assert Alone(p2, lk, c, 2) == Alone(p3, lk, c, 1);
    assert Alone(p1, lk, c, 3) == Alone(p2, lk, c, 2);
  }

  /** The rest of `holding` on a free lock: three accesses. */
  lemma {:induction false} FreeAlone(p: S.Cpu, lk: S.Lock, c: nat, next: S.Cont)
    requires p.pc == S.Test(next) && next.Holding? && next.locking && !p.iflag && p.ncli >= 2 && !lk.locked
    ensures var (q, k) := Alone(p, lk, c, 3);
      q == p.(ncli := p.ncli - 1, pc := S.Grab(next.lock)) && k == lk
  {
    var p1 := S.TickCpu(p, c, lk);
    var p2 := S.TickCpu(p1, c, lk);
    assert Alone(p2, lk, c, 1) == Alone(S.TickCpu(p2, c, lk), lk, c, 0);
    assert Alone(p1, lk, c, 2) == Alone(p2, lk, c, 1);
  }

  /** The rest of `holding` on the CPU's own lock: four accesses. */
  lemma {:induction false} OwnAlone(p: S.Cpu, lk: S.Lock, c: nat, next: S.Cont)
    requires p.pc == S.Test(next) && next.Holding? && !next.locking && !p.iflag && p.ncli >= 2
    requires lk == S.Lock(true, c)
    ensures var (q, k) := Alone(p, lk, c, 4);
      q == p.(ncli := p.ncli - 1, pc := S.Disown(next.lock)) && k == lk
  {
    var p1 := S.TickCpu(p, c, lk);
    var p2 := S.TickCpu(p1, c, lk);
    var p3 := S.TickCpu(p2, c, lk);
    assert Alone(p3, lk, c, 1) == Alone(S.TickCpu(p3, c, lk), lk, c, 0);
    assert Alone(p2, lk, c, 2) == Alone(p3, lk, c, 1);
    assert Alone(p1, lk, c, 3) == Alone(p2, lk, c, 2);
  }

  /** The exchange and the store that take a free lock. */
  lemma {:induction false} TakeAlone(p: S.Cpu, lk: S.Lock, c: nat, l: nat)
    requires p.pc == S.Grab(l) && !lk.locked
    ensures Alone(p, lk, c, 2) == (p.(held := p.held + {l}, pc := S.Idle), S.Lock(true, c))
  {
    var p1 := S.TickCpu(p, c, lk);
    var k1 := S.TickLock(p, c, lk);
    assert Alone(p1, k1, c, 1) == Alone(S.TickCpu(p1, c, k1), S.TickLock(p1, c, k1), c, 0);
  }

  /** The store and the exchange that give it back, and the popcli after them. */
  lemma {:induction false} GiveAlone(p: S.Cpu, lk: S.Lock, c: nat, l: nat)
    requires p.pc == S.Disown(l) && !p.iflag && p.ncli >= 1
    ensures var (q, k) := Alone(p, lk, c, 4);
      && FlagsOf(q) == Popped(FlagsOf(p)) && q.held == p.held - {l} && q.pc == S.Idle
      && k == S.Lock(false, S.NONE)
  {
    var p1 := S.TickCpu(p, c, lk);
    var k1 := S.TickLock(p, c, lk);
    var p2 := S.TickCpu(p1, c, k1);
    var k2 := S.TickLock(p1, c, k1);
    var p3 := S.TickCpu(p2, c, k2);
    assert Alone(p3, k2, c, 1) == Alone(S.TickCpu(p3, c, k2), k2, c, 0);
    assert Alone(p2, k2, c, 2) == Alone(p3, k2, c, 1);
    assert Alone(p1, k1, c, 3) == Alone(p2, k2, c, 2);
  }

  /** A CPU that moves alone through `spin_lock` on a free lock does what the method
      does. */
  lemma {:induction false} LockAlone(p: S.Cpu, lk: S.Lock, c: nat, l: nat)
    requires p.pc == S.Push(0, S.Outer(l)) && p.ncli >= 0 && (p.ncli > 0 ==> !p.iflag) && !lk.locked
    ensures var (q, k) := Alone(p, lk, c, 13);
      FlagsOf(q) == Pushed(FlagsOf(p)) && q.held == p.held + {l} && q.pc == S.Idle && k == S.Lock(true, c)
  {
    hide Alone;
    PushAlone(p, lk, c, S.Outer(l));
    var (p4, k4) := Alone(p, lk, c, 4);
    AloneSteps(p, lk, c, 4, 9);
    PushAlone(p4, k4, c, S.Holding(l, true));
    var (p8, k8) := Alone(p4, k4, c, 4);
    AloneSteps(p4, k4, c, 4, 5);
    FreeAlone(p8, k8, c, S.Holding(l, true));
    var (p11, k11) := Alone(p8, k8, c, 3);
    AloneSteps(p8, k8, c, 3, 2);
    TakeAlone(p11, k11, c, l);
  }

  /** And so does one that moves alone through `spin_unlock` of its lock. */
  lemma {:induction false} UnlockAlone(p: S.Cpu, lk: S.Lock, c: nat, l: nat)
    requires p.pc == S.Push(0, S.Holding(l, false)) && p.ncli > 0 && !p.iflag && lk == S.Lock(true, c)
    ensures var (q, k) := Alone(p, lk, c, 12);
      FlagsOf(q) == Popped(FlagsOf(p)) && q.held == p.held - {l} && q.pc == S.Idle && k == S.Lock(false, S.NONE)
  {
    hide Alone;
    PushAlone(p, lk, c, S.Holding(l, false));
    var (p4, k4) := Alone(p, lk, c, 4);
    AloneSteps(p, lk, c, 4, 8);
    OwnAlone(p4, k4, c, S.Holding(l, false));
    var (p8, k8) := Alone(p4, k4, c, 4);
    AloneSteps(p4, k4, c, 4, 4);
    GiveAlone(p8, k8, c, l);
  }
}
