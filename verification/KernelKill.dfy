// What a kill achieves, over every run: the killed process is awake, or in a wait that must not be
// alerted, and stays so until its parent reaps it.
module KernelKill {
  import opened SemSpec
  import opened KernelSpec
  import KernelInv
  import KernelTheorems

  /** A killed process sleeps in no wait that can be alerted, and has been started. */
  predicate Heeded(k: Kernel) {
    forall p | p in k.killed && p in k.state :: k.state[p] != SLEEPING && k.state[p] != UNUSED
  }

  /** Nobody's kill is taken back, except that a reaped process is gone. */
  predicate Marked(k: Kernel, k1: Kernel) {
    && k.reaped <= k1.reaped
    && forall p | p in k.killed :: p in k1.killed || p in k1.reaped
  }

  predicate Obeys(k: Kernel, k1: Kernel) {
    Heeded(k1) && Marked(k, k1)
  }

  lemma SchedObeys(k: Kernel, c: nat, to: PState)
    requires Heeded(k) && c < |k.cpus| && to != UNUSED
    ensures Obeys(k, Sched(k, c, to))
  {
  }

  lemma ActivateObeys(k: Kernel, p: Pid, onalert: bool)
    requires Heeded(k)
    ensures Obeys(k, Activate(k, p, onalert))
  {
  }

  lemma SameObeys(k: Kernel, k1: Kernel)
    requires Heeded(k) && k1.killed == k.killed && k1.state == k.state && k1.reaped == k.reaped
    ensures Obeys(k, k1)
  {
  }

  lemma ObeysOn(k: Kernel, k1: Kernel, k2: Kernel)
    requires Obeys(k, k1) && Obeys(k1, k2)
    ensures Obeys(k, k2)
  {
  }

  lemma WaitObeys(k: Kernel, c: nat, s: SemId, alertable: bool, then_: Pc)
    requires Heeded(k) && c < |k.cpus|
    ensures Obeys(k, WaitOn(k, c, s, alertable, then_))
  {
    hide Obeys, Heeded, Sched;
    var p, cell := This(k, c), CellOf(k, s);
    var k1 := k.(sems := k.sems[s := EnterCell(cell, p)]);
    SameObeys(k, k1);
    if MustSleep(cell.sem) {
      var k2 := GoTo(k1, p, Blocked(s, Waiting(cell, p), false));
      SameObeys(k, k2);
      HeededNow(k, k2);
      SchedObeys(k2, c, if alertable then SLEEPING else DEEPSLEEPING);
      ObeysOn(k, k2, WaitOn(k, c, s, alertable, then_));
    } else {
      SameObeys(k, GoTo(k1, p, then_));
    }
  }

  lemma HeededNow(k: Kernel, k1: Kernel)
    requires Obeys(k, k1)
    ensures Heeded(k1)
  {
  }

  lemma LeaveObeys(k: Kernel, p: Pid)
    requires Heeded(k)
    ensures Obeys(k, LeaveOn(k, p))
  {
    hide Obeys, Heeded;
    SameObeys(k, LeaveOn(k, p));
  }

  lemma PostObeys(k: Kernel, s: SemId)
    requires Heeded(k)
    ensures Obeys(k, PostOn(k, s))
  {
    hide Obeys, Heeded, Activate;
    var cell := CellOf(k, s);
    var k1 := k.(sems := k.sems[s := PostCell(cell)]);
    SameObeys(k, k1);
    if Woken(cell.sem) != [] {
      var w := Woken(cell.sem)[0];
      var k2 := GoTo(k1, w.p, Blocked(s, w, true));
      SameObeys(k, k2);
      HeededNow(k, k2);
      ActivateObeys(k2, w.p, false);
      ObeysOn(k, k2, PostOn(k, s));
    }
  }

  lemma GetObeys(k: Kernel, s: SemId, all: bool)
    requires Heeded(k)
    ensures Obeys(k, GetOn(k, s, all))
  {
  }

  lemma {:induction false} PostTurnsObey(k: Kernel, s: SemId, n: nat)
    requires Heeded(k)
    ensures Obeys(k, PostTurns(k, s, n))
  {
    hide Obeys, Heeded, PostOn;
    if n == 0 {
      SameObeys(k, k);
    } else {
      PostTurnsObey(k, s, n - 1);
      var k1 := PostTurns(k, s, n - 1);
      HeededNow(k, k1);
      PostObeys(k1, s);
      ObeysOn(k, k1, PostTurns(k, s, n));
    }
  }

  lemma PostAllObeys(k: Kernel, s: SemId)
    requires Heeded(k)
    ensures Obeys(k, PostAllOn(k, s))
  {
    hide Obeys, Heeded, PostTurns, GetOn;
    var n := |CellOf(k, s).sem.sleepers| + 1;
    PostTurnsObey(k, s, n);
    var k1 := PostTurns(k, s, n);
    HeededNow(k, k1);
    GetObeys(k1, s, false);
    ObeysOn(k, k1, PostAllOn(k, s));
  }

  /** A new process has a pid that nobody was killed by. */
  lemma CreateObeys(k: Kernel, par: Pid)
    requires Heeded(k) && KernelInv.PidInv(k)
    ensures Obeys(k, CreateUnder(k, par))
  {
    hide Distinct;
  }

  lemma KillObeys(k: Kernel, q: Pid)
    requires Heeded(k)
    ensures Obeys(k, KillNamed(k, q))
  {
    hide ChildrenOf;
  }

  lemma ReapObeys(k: Kernel, q: Pid, c: Pid)
    requires Heeded(k)
    ensures Obeys(k, Reap(k, q, c))
  {
    hide ChildrenOf, Remove;
  }

  lemma ThenAt(k: Kernel, k1: Kernel, p: Pid, to: Pc)
    requires Obeys(k, k1)
    ensures Obeys(k, GoTo(k1, p, to))
  {
  }

  lemma ExitObeys(k: Kernel, step: Step)
    requires Heeded(k) && Enabled(k, step)
    requires step.Exit? || step.ExitGet? || step.ExitPass? || step.ExitNotify?
    ensures Obeys(k, Next(k, step))
  {
    hide Obeys, Heeded, Enabled, PostOn, GetOn, ChildrenOf;
    var p := This(k, step.c);
    match step
    case Exit(c) => SameObeys(k, Next(k, step));
    case ExitGet(c) =>
      GetObeys(k, Child(p), false);
      ThenAt(k, GetOn(k, Child(p), false), p, Passing);
      SameObeys(k, GoTo(k, p, Notifying));
    case ExitPass(c) =>
      PostObeys(k, Child(ROOT));
      ThenAt(k, PostOn(k, Child(ROOT)), p, Moving);
    case ExitNotify(c) =>
      PostObeys(k, Child(ParentOf(k, p)));
      ThenAt(k, PostOn(k, Child(ParentOf(k, p))), p, Dying);
  }

  lemma DieObeys(k: Kernel, c: nat)
    requires Heeded(k) && Enabled(k, ExitDie(c))
    ensures Obeys(k, Next(k, ExitDie(c)))
  {
    hide Obeys, Heeded, Sched;
    var p := This(k, c);
    var k1 := GoTo(k.(plock := None), p, Gone);
    SameObeys(k, k1);
    HeededNow(k, k1);
    SchedObeys(k1, c, ZOMBIE);
    ObeysOn(k, k1, Sched(k1, c, ZOMBIE));
  }

  /** Steps that are one operation each. */
  lemma PlainObeys(k: Kernel, step: Step)
    requires Heeded(k) && KernelInv.PidInv(k) && Enabled(k, step)
    requires !step.Exit? && !step.ExitGet? && !step.ExitPass? && !step.ExitNotify? && !step.ExitDie?
    ensures Obeys(k, Next(k, step))
  {
    hide Obeys, Heeded, KernelInv.PidInv, Sched, WaitOn, LeaveOn, PostOn, GetOn, PostAllOn, CreateUnder, Activate,
      KillNamed, ChildrenOf, Reap, FirstZombie;
    var p := This(k, step.c);
    match step
    case Yield(c) => SchedObeys(k, c, RUNNABLE);
    case Wait(c, s, alertable) => WaitObeys(k, c, s, alertable, Outside);
    case Leave(c) => LeaveObeys(k, p);
    case PostSem(c, s) => PostObeys(k, s);
    case GetSem(c, s, all) => GetObeys(k, s, all);
    case PostAllSem(c, s) => PostAllObeys(k, s);
    case InitSem(c, s, val) => SameObeys(k, Next(k, step));
    case Create(c, underRoot) => CreateObeys(k, if underRoot then ROOT else p);
    case Start(c, q) => ActivateObeys(k, q, false);
    case Kill(c, q) => KillObeys(k, q);
    case WaitCall(c) => SameObeys(k, Next(k, step));
    case WaitChild(c) => WaitObeys(k, c, Child(p), true, Reaping);
    case ReapChild(c) =>
      var z := FirstZombie(k, ChildrenOf(k, p));
      if z.Some? {
        ReapObeys(k, p, z.value);
      } else {
        SameObeys(k, k);
      }
    case Panic(c) => SameObeys(k, Next(k, step));
  }

  lemma StepObeys(k: Kernel, step: Step)
    requires Heeded(k) && KernelInv.PidInv(k) && Enabled(k, step)
    ensures Obeys(k, Next(k, step))
  {
    hide *;
    if step.ExitDie? {
      DieObeys(k, step.c);
    } else if step.Exit? || step.ExitGet? || step.ExitPass? || step.ExitNotify? {
      ExitObeys(k, step);
    } else {
      PlainObeys(k, step);
    }
  }

  /** In every reachable state no killed process sleeps alertably. */
  lemma {:induction false} KilledAreAwake(ncpu: nat, run: seq<Step>)
    requires After(ncpu, run).Some?
    ensures Heeded(After(ncpu, run).value)
    decreases |run|
  {
    hide Heeded, Enabled, Next, Boot;
    if run == [] {
      BootHeeded(ncpu);
    } else {
      var k := After(ncpu, run[..|run| - 1]).value;
      KilledAreAwake(ncpu, run[..|run| - 1]);
      Pids(ncpu, run[..|run| - 1]);
      StepObeys(k, run[|run| - 1]);
      HeededNow(k, After(ncpu, run).value);
    }
  }

  lemma BootHeeded(ncpu: nat)
    ensures Heeded(Boot(ncpu))
  {
  }

  lemma Pids(ncpu: nat, run: seq<Step>)
    requires After(ncpu, run).Some?
    ensures KernelInv.PidInv(After(ncpu, run).value)
    ensures forall p | p in After(ncpu, run).value.killed :: p in After(ncpu, run).value.state
  {
    hide After, KernelInv.SchedInv, KernelInv.PlaceInv, KernelInv.SemInv, KernelInv.LockInv, KernelInv.TreeInv,
      KernelInv.TokenInv, Distinct;
    KernelTheorems.RunKeeps(ncpu, run);
  }

  /** A kill is never forgotten: at any later time the process is still marked, or has been reaped. */
  lemma {:induction false} KillsLast(ncpu: nat, run: seq<Step>, more: seq<Step>)
    requires After(ncpu, run + more).Some?
    ensures After(ncpu, run).Some? && Marked(After(ncpu, run).value, After(ncpu, run + more).value)
    decreases |more|
  {
    hide Heeded, Enabled, Next, Marked;
    if more == [] {
      assert run + more == run;
      MarkedSame(After(ncpu, run).value);
    } else {
      var all, before := run + more, run + more[..|more| - 1];
      assert all[..|all| - 1] == before;
      KillsLast(ncpu, run, more[..|more| - 1]);
      var k := After(ncpu, before).value;
      KilledAreAwake(ncpu, before);
      Pids(ncpu, before);
      StepObeys(k, all[|all| - 1]);
      MarkedOn(After(ncpu, run).value, k, After(ncpu, all).value);
    }
  }

  lemma MarkedSame(k: Kernel)
    ensures Marked(k, k)
  {
  }

  lemma MarkedOn(k: Kernel, k1: Kernel, k2: Kernel)
    requires Marked(k, k1) && Marked(k1, k2)
    ensures Marked(k, k2)
  {
  }

  /** `kill` of a started child of the root, in any reachable state. An alertable sleeper is made runnable
      at once; and however the run goes on, the process is never again asleep where an alert would reach
      it: it is runnable, running, asleep where it must not be alerted, or dead, until it is reaped. */
  lemma KillReaches(ncpu: nat, run: seq<Step>, c: nat, q: Pid, more: seq<Step>)
    requires After(ncpu, run + [Kill(c, q)] + more).Some?
    requires After(ncpu, run).Some? && q in ChildrenOf(After(ncpu, run).value, ROOT)
        && StateOf(After(ncpu, run).value, q) != UNUSED
    ensures var k := After(ncpu, run).value;
      && Enabled(k, Kill(c, q))
      && var k1 := Next(k, Kill(c, q));
      && (StateOf(k, q) == SLEEPING ==> StateOf(k1, q) == RUNNABLE && q in k1.queue)
      && (StateOf(k, q) != SLEEPING ==> StateOf(k1, q) == StateOf(k, q))
    ensures var k2 := After(ncpu, run + [Kill(c, q)] + more).value;
      q in k2.reaped || (q in k2.killed && q in k2.state && StateOf(k2, q) != SLEEPING && StateOf(k2, q) != UNUSED)
  {
    hide ChildrenOf;
    var upto := run + [Kill(c, q)];
    KillsLast(ncpu, upto, more);
    assert upto[..|upto| - 1] == run;
    KilledAreAwake(ncpu, upto + more);
    Pids(ncpu, upto + more);
  }
}
