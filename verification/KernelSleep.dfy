// Who sleeps, how, and for how long: until a unit is granted or a kill comes.
module KernelSleep {
  import opened SemSpec
  import opened KernelSpec
  import opened KernelInv
  import opened KernelSteps
  import opened KernelTheorems

  /** p waits for a unit that nobody has granted it yet, and has not been killed. */
  predicate Waits(k: Kernel, p: Pid) {
    p in k.pc && p !in k.killed && k.pc[p].Blocked? && !k.pc[p].up
  }

  /** In `wait` alertably, elsewhere as `_wait_sem` was asked to. */
  predicate Sleeps(k: Kernel, p: Pid) {
    StateOf(k, p) == SLEEPING || (StateOf(k, p) == DEEPSLEEPING && PcOf(k, p).Blocked? && PcOf(k, p).s.Plain?)
  }

  ghost predicate SleepOk(k: Kernel) {
    forall p | Waits(k, p) :: p in k.state && Sleeps(k, p)
  }

  ghost predicate SleepBut(k: Kernel, me: Pid) {
    forall p | Waits(k, p) && p != me :: p in k.state && Sleeps(k, p)
  }

  lemma SchedSleep(k: Kernel, c: nat, to: PState)
    requires SchedInv(k) && c < |k.cpus| && Newly(to) && (k.cpus[c].Idle? ==> to == RUNNABLE)
    requires var me := k.cpus[c];
      SleepBut(k, me) && (Waits(k, me) ==> to == SLEEPING || (to == DEEPSLEEPING && k.pc[me].s.Plain?))
    ensures SleepOk(Sched(k, c, to))
  {
    SchedStates(k, c, to);
    SchedFrame(k, c, to);
    hide SchedInv, Sched;
    var k1, me := Sched(k, c, to), k.cpus[c];
    forall p | Waits(k1, p) ensures p in k1.state && Sleeps(k1, p) {
      assert Waits(k, p);
      if p == me {
        assert !Refuses(k, c, to);
      }
    }
  }

  lemma WaitSleep(k: Kernel, c: nat, s: SemId, alertable: bool, then_: Pc)
    requires SleepOk(k) && SchedInv(k) && c < |k.cpus| && k.cpus[c].Named? && !then_.Blocked?
        && (s.Child? ==> alertable)
    ensures SleepOk(WaitOn(k, c, s, alertable, then_))
  {
    hide SchedInv, Sched;
    var p, cell := This(k, c), CellOf(k, s);
    var k1 := k.(sems := k.sems[s := EnterCell(cell, p)]);
    if MustSleep(cell.sem) {
      var k2 := GoTo(k1, p, Blocked(s, Waiting(cell, p), false));
      SchedOnly(k, k2);
      SchedSleep(k2, c, if alertable then SLEEPING else DEEPSLEEPING);
    }
  }

  lemma ActivateSleep(k: Kernel, p: Pid, onalert: bool)
    requires SleepBut(k, p) && (Waits(k, p) ==> p in k.state && Sleeps(k, p) && !Wakes(k.state[p], onalert))
    ensures SleepOk(Activate(k, p, onalert))
  {
  }

  lemma PostSleep(k: Kernel, s: SemId)
    requires SleepOk(k)
    ensures SleepOk(PostOn(k, s))
  {
    hide Activate;
    var cell := CellOf(k, s);
    if Woken(cell.sem) != [] {
      var w := Woken(cell.sem)[0];
      ActivateSleep(GoTo(k.(sems := k.sems[s := PostCell(cell)]), w.p, Blocked(s, w, true)), w.p, false);
    }
  }

  lemma {:induction false} PostTurnsSleep(k: Kernel, s: SemId, n: nat)
    requires SleepOk(k)
    ensures SleepOk(PostTurns(k, s, n))
  {
    hide SleepOk, PostOn;
    if n > 0 {
      PostTurnsSleep(k, s, n - 1);
      PostSleep(PostTurns(k, s, n - 1), s);
    }
  }

  lemma GetSleep(k: Kernel, s: SemId, all: bool)
    requires SleepOk(k)
    ensures SleepOk(GetOn(k, s, all))
  {
  }

  lemma PcSleep(k: Kernel, p: Pid, to: Pc)
    requires SleepOk(k) && (to.Blocked? ==> to.up)
    ensures SleepOk(GoTo(k, p, to))
  {
  }

  lemma KillSleep(k: Kernel, q: Pid)
    requires SleepOk(k)
    ensures SleepOk(KillNamed(k, q))
  {
    hide Activate, ChildrenOf;
    ActivateSleep(k.(killed := k.killed + {q}), q, true);
  }

  lemma CreateSleep(k: Kernel, par: Pid)
    requires SleepOk(k)
    ensures SleepOk(CreateUnder(k, par))
  {
    hide ChildrenOf;
  }

  lemma ReapSleep(k: Kernel, q: Pid, c: Pid)
    requires SleepOk(k)
    ensures SleepOk(Reap(k, q, c))
  {
    hide ChildrenOf, Remove;
  }

  lemma LeaveSleep(k: Kernel, p: Pid)
    requires SleepOk(k)
    ensures SleepOk(LeaveOn(k, p))
  {
    hide Undo;
  }

  lemma ExitSleep(k: Kernel, step: Step)
    requires SleepOk(k) && SchedInv(k) && PlaceInv(k) && Enabled(k, step)
    requires step.Exit? || step.ExitGet? || step.ExitPass? || step.ExitNotify? || step.ExitDie?
    ensures SleepOk(Next(k, step))
  {
    hide SleepOk, PostOn, GetOn, Sched, ChildrenOf, SchedInv, Orphan;
    var p := This(k, step.c);
    match step
    case Exit(c) => OrphanSleep(k, p);
    case ExitGet(c) =>
      GetSleep(k, Child(p), false);
      PcSleep(GetOn(k, Child(p), false), p, Passing);
      PcSleep(k, p, Notifying);
    case ExitPass(c) =>
      PostSleep(k, Child(ROOT));
      PcSleep(PostOn(k, Child(ROOT)), p, Moving);
    case ExitNotify(c) =>
      PostSleep(k, Child(ParentOf(k, p)));
      PcSleep(PostOn(k, Child(ParentOf(k, p))), p, Dying);
    case ExitDie(c) =>
      RunsHere(k, c);
      DieSleep(k, c);
  }

  lemma OrphanSleep(k: Kernel, p: Pid)
    requires SleepOk(k)
    ensures SleepOk(Orphan(k, p))
  {
    hide ChildrenOf;
  }

  lemma DieSleep(k: Kernel, c: nat)
    requires SleepOk(k) && SchedInv(k) && Enabled(k, ExitDie(c)) && k.cpus[c].Named?
    ensures SleepOk(Next(k, ExitDie(c)))
  {
    hide SchedInv, Sched;
    var k1 := GoTo(k.(plock := None), This(k, c), Gone);
    SchedOnly(k, k1);
    SchedSleep(k1, c, ZOMBIE);
  }

  lemma PlainSleep(k: Kernel, step: Step)
    requires SleepOk(k) && SchedInv(k) && PlaceInv(k) && Enabled(k, step)
    requires !step.Exit? && !step.ExitGet? && !step.ExitPass? && !step.ExitNotify? && !step.ExitDie?
    ensures SleepOk(Next(k, step))
  {
    hide SleepOk, SchedInv, Sched, WaitOn, LeaveOn, PostOn, PostTurns, GetOn, CreateUnder, Activate, KillNamed,
      ChildrenOf, Reap, FirstZombie;
    var p := This(k, step.c);
    RunsHere(k, step.c);
    match step
    case Yield(c) => YieldSleep(k, c);
    case Wait(c, s, alertable) => WaitSleep(k, c, s, alertable, Outside);
    case Leave(c) => LeaveSleep(k, p);
    case PostSem(c, s) => PostSleep(k, s);
    case GetSem(c, s, all) => GetSleep(k, s, all);
    case PostAllSem(c, s) =>
      var n := |CellOf(k, s).sem.sleepers| + 1;
      PostTurnsSleep(k, s, n);
      GetSleep(PostTurns(k, s, n), s, false);
    case InitSem(c, s, val) => SameSleep(k, Next(k, step));
    case Create(c, underRoot) => CreateSleep(k, if underRoot then ROOT else p);
    case Start(c, q) => StartSleep(k, q);
    case Kill(c, q) => KillSleep(k, q);
    case WaitCall(c) =>
      PcSleep(k, p, Willing);
    case WaitChild(c) => WaitSleep(k, c, Child(p), true, Reaping);
    case ReapChild(c) =>
      var z := FirstZombie(k, ChildrenOf(k, p));
      if z.Some? {
        ReapSleep(k, p, z.value);
      }
    case Panic(c) => SameSleep(k, Next(k, step));
  }

  lemma SameSleep(k: Kernel, k1: Kernel)
    requires SleepOk(k) && k1.state == k.state && k1.pc == k.pc && k1.killed == k.killed
    ensures SleepOk(k1)
  {
  }

  lemma YieldSleep(k: Kernel, c: nat)
    requires SleepOk(k) && SchedInv(k) && Enabled(k, Yield(c))
    ensures SleepOk(Sched(k, c, RUNNABLE))
  {
    hide SchedInv, Sched;
    SchedSleep(k, c, RUNNABLE);
  }

  lemma StartSleep(k: Kernel, q: Pid)
    requires SleepOk(k) && StateOf(k, q) == UNUSED
    ensures SleepOk(Activate(k, q, false))
  {
    ActivateSleep(k, q, false);
  }

  lemma BootSleep(ncpu: nat)
    ensures SleepOk(Boot(ncpu))
  {
  }

  lemma StepSleep(k: Kernel, step: Step)
    requires SleepOk(k) && SchedInv(k) && PlaceInv(k) && Enabled(k, step)
    ensures SleepOk(Next(k, step))
  {
    hide *;
    if step.Exit? || step.ExitGet? || step.ExitPass? || step.ExitNotify? || step.ExitDie? {
      ExitSleep(k, step);
    } else {
      PlainSleep(k, step);
    }
  }

  lemma Agreement(ncpu: nat, run: seq<Step>)
    requires After(ncpu, run).Some?
    ensures SchedInv(After(ncpu, run).value) && PlaceInv(After(ncpu, run).value)
  {
    hide After, SchedInv, PlaceInv, SemInv, LockInv, TreeInv, PidInv, TokenInv;
    RunKeeps(ncpu, run);
  }

  lemma {:induction false} RunSleep(ncpu: nat, run: seq<Step>)
    requires After(ncpu, run).Some?
    ensures SleepOk(After(ncpu, run).value)
    decreases |run|
  {
    hide SleepOk, Enabled, Next, Boot, SchedInv, PlaceInv;
    if run == [] {
      BootSleep(ncpu);
    } else {
      RunSleep(ncpu, run[..|run| - 1]);
      Agreement(ncpu, run[..|run| - 1]);
      StepSleep(After(ncpu, run[..|run| - 1]).value, run[|run| - 1]);
    }
  }

  /** In every reachable state a process that has joined a sleep list, has been granted nothing and has not
      been killed is asleep, and in `wait` where an alert can reach it. */
  lemma SleepsUntilWoken(ncpu: nat, run: seq<Step>, p: Pid)
    requires After(ncpu, run).Some? && p !in After(ncpu, run).value.killed
    requires var pc := PcOf(After(ncpu, run).value, p); pc.Blocked? && !pc.up
    ensures var k := After(ncpu, run).value;
      if PcOf(k, p).s.Child? then StateOf(k, p) == SLEEPING
      else StateOf(k, p) == SLEEPING || StateOf(k, p) == DEEPSLEEPING
  {
    hide After;
    RunSleep(ncpu, run);
    assert Waits(After(ncpu, run).value, p);
  }

  /** So `_wait_sem` fails only for a process that has been killed. */
  lemma NoSpuriousWakeup(ncpu: nat, run: seq<Step>, c: nat)
    requires After(ncpu, run).Some? && Enabled(After(ncpu, run).value, Leave(c))
    ensures var k := After(ncpu, run).value; !PcOf(k, This(k, c)).up ==> This(k, c) in k.killed
  {
    hide After, SchedInv, PlaceInv;
    var k := After(ncpu, run).value;
    Agreement(ncpu, run);
    RunsHere(k, c);
    if !PcOf(k, This(k, c)).up && This(k, c) !in k.killed {
      SleepsUntilWoken(ncpu, run, This(k, c));
    }
  }

  /** How `_wait_sem` leaves its caller: with a unit at once if there is one; else on the sleep list, asleep as
      asked, except that a killed process does not fall asleep alertably. */
  lemma FallsAsleep(ncpu: nat, run: seq<Step>, c: nat, s: SemId, alertable: bool, then_: Pc)
    requires After(ncpu, run).Some? && c < |After(ncpu, run).value.cpus| && s in After(ncpu, run).value.sems
    requires After(ncpu, run).value.cpus[c].Named?
    ensures var k := After(ncpu, run).value; var p := k.cpus[c]; var k1 := WaitOn(k, c, s, alertable, then_);
      if k.sems[s].sem.val > 0 then
        StateOf(k1, p) == RUNNING && PcOf(k1, p) == then_ && CellOf(k1, s).sem.val == k.sems[s].sem.val - 1
      else
        && PcOf(k1, p).Blocked? && PcOf(k1, p).s == s && !PcOf(k1, p).up
        && PcOf(k1, p).w in CellOf(k1, s).sem.sleepers
        && StateOf(k1, p) == if alertable then (if p in k.killed then RUNNING else SLEEPING) else DEEPSLEEPING
  {
    hide After, SchedInv, WaitOn, PlaceInv;
    Agreement(ncpu, run);
    WaitState(After(ncpu, run).value, c, s, alertable, then_);
  }

  lemma WaitState(k: Kernel, c: nat, s: SemId, alertable: bool, then_: Pc)
    requires SchedInv(k) && c < |k.cpus| && s in k.sems && k.cpus[c].Named?
    ensures var p := k.cpus[c]; var k1 := WaitOn(k, c, s, alertable, then_);
      if k.sems[s].sem.val > 0 then
        StateOf(k1, p) == RUNNING && PcOf(k1, p) == then_ && CellOf(k1, s).sem.val == k.sems[s].sem.val - 1
      else
        && PcOf(k1, p).Blocked? && PcOf(k1, p).s == s && !PcOf(k1, p).up
        && PcOf(k1, p).w in CellOf(k1, s).sem.sleepers
        && StateOf(k1, p) == if alertable then (if p in k.killed then RUNNING else SLEEPING) else DEEPSLEEPING
  {
    hide SchedInv, Sched, WaitOn, Entered, MustSleep;
    RunsHere(k, c);
    WaitIs(k, c, s, alertable, then_);
    EnteredAt(k, c, s, then_);
    SchedOnly(k, Entered(k, c, s, then_));
    AsleepNow(Entered(k, c, s, then_), c, alertable);
  }

  lemma EnteredAt(k: Kernel, c: nat, s: SemId, then_: Pc)
    requires c < |k.cpus| && s in k.sems
    ensures var p, k1 := k.cpus[c], Entered(k, c, s, then_);
      && k1 == k.(sems := k1.sems, pc := k1.pc)
      && CellOf(k1, s).sem.val == k.sems[s].sem.val - 1
      && (MustSleep(CellOf(k, s).sem) <==> k.sems[s].sem.val <= 0)
      && if k.sems[s].sem.val > 0 then PcOf(k1, p) == then_
         else
           && PcOf(k1, p).Blocked? && PcOf(k1, p).s == s && !PcOf(k1, p).up
           && PcOf(k1, p).w in CellOf(k1, s).sem.sleepers
  {
    var cell := k.sems[s];
    assert Waiting(cell, k.cpus[c]) in ([Waiting(cell, k.cpus[c])] + cell.sem.sleepers);
  }

  lemma AsleepNow(k: Kernel, c: nat, alertable: bool)
    requires SchedInv(k) && c < |k.cpus| && k.cpus[c].Named?
    ensures var p := k.cpus[c]; var k1 := Sched(k, c, if alertable then SLEEPING else DEEPSLEEPING);
      && k1.pc == k.pc && k1.sems == k.sems
      && StateOf(k1, p) == if alertable then (if p in k.killed then RUNNING else SLEEPING) else DEEPSLEEPING
  {
    hide SchedInv, Sched;
    var to := if alertable then SLEEPING else DEEPSLEEPING;
    SchedStates(k, c, to);
    SchedFrame(k, c, to);
  }

  // ----- post_all_sem -----

  /** The semaphore under `_get_sem` and `get_all_sem`; nobody's state changes. */
  lemma GetTakes(k: Kernel, s: SemId, all: bool)
    ensures var a, b := CellOf(k, s).sem, CellOf(GetOn(k, s, all), s).sem;
      && b == (if all then GetAll(a) else Get(a)) && b.sleepers == a.sleepers
      && b.val == if a.val <= 0 then a.val else if all then 0 else a.val - 1
    ensures GetOn(k, s, all).state == k.state && GetOn(k, s, all).pc == k.pc && GetOn(k, s, all).queue == k.queue
  {
  }

  predicate Granted(pc: Pc, s: SemId) {
    pc.Blocked? && pc.s == s && pc.up
  }

  lemma PostSem1(k: Kernel, s: SemId)
    ensures var a, b := CellOf(k, s).sem, CellOf(PostOn(k, s), s).sem; b == Post(a)
    ensures forall p :: PcOf(PostOn(k, s), p) == PcOf(k, p) || Granted(PcOf(PostOn(k, s), p), s)
  {
  }

  lemma {:induction false} PostTurnsSem(k: Kernel, s: SemId, n: nat)
    requires Good(CellOf(k, s).sem) && n <= |CellOf(k, s).sem.sleepers| + 1
    ensures var a, b := CellOf(k, s).sem, CellOf(PostTurns(k, s, n), s).sem;
      b.val == a.val + n && b.sleepers == a.sleepers[..if n <= |a.sleepers| then |a.sleepers| - n else 0]
    ensures forall p :: PcOf(PostTurns(k, s, n), p) == PcOf(k, p) || Granted(PcOf(PostTurns(k, s, n), p), s)
  {
    hide PostOn, CellOf, PcOf, Distinct;
    if n > 0 {
      PostTurnsSem(k, s, n - 1);
      PostSem1(PostTurns(k, s, n - 1), s);
    }
  }

  /** `post_all_sem` in any reachable state: every sleeper has been granted its unit, nobody sleeps there any
      more, and no unit is left over. */
  lemma PostAllWakes(ncpu: nat, run: seq<Step>, c: nat, s: SemId)
    requires After(ncpu, run).Some? && Enabled(After(ncpu, run).value, PostAllSem(c, s))
    ensures var k := After(ncpu, run).value; var a, k1 := CellOf(k, s).sem, Next(k, PostAllSem(c, s));
      && CellOf(k1, s).sem == Sem(if a.val < 0 then 0 else a.val, [])
      && forall w | w in a.sleepers :: Granted(PcOf(k1, w.p), s)
  {
    hide After, Inv, PostAllOn;
    var k := After(ncpu, run).value;
    RunKeeps(ncpu, run);
    PostAllState(k, c, s);
  }

  lemma PostAllState(k: Kernel, c: nat, s: SemId)
    requires Inv(k) && Enabled(k, PostAllSem(c, s))
    ensures var a, k1 := CellOf(k, s).sem, PostAllOn(k, s);
      && CellOf(k1, s).sem == Sem(if a.val < 0 then 0 else a.val, [])
      && forall w | w in a.sleepers :: Granted(PcOf(k1, w.p), s)
  {
    hide Inv, Enabled, Next, PostAllOn, PostTurns, PcOf, CellOf;
    CellGood(k, c, s);
    var a := CellOf(k, s).sem;
    PostTurnsSem(k, s, |a.sleepers| + 1);
    NextPostAll(k, s);
    var k1 := PostAllOn(k, s);
    PostAllInv(k, c, s);
    forall w | w in a.sleepers ensures Granted(PcOf(k1, w.p), s) {
      OnList(k, s, w);
      if !Granted(PcOf(k1, w.p), s) {
        OffList(k1, s, w);
      }
    }
  }

  lemma PostAllInv(k: Kernel, c: nat, s: SemId)
    requires Inv(k) && Enabled(k, PostAllSem(c, s))
    ensures Inv(PostAllOn(k, s))
  {
    hide Inv, PostAllOn, AssertsHold;
    PostAllKeeps(k, c, s);
  }

  lemma CellGood(k: Kernel, c: nat, s: SemId)
    requires Inv(k) && Enabled(k, PostAllSem(c, s))
    ensures s in k.sems && CellOf(k, s) == k.sems[s] && Good(CellOf(k, s).sem)
  {
    hide SchedInv, PlaceInv, LockInv, TreeInv, PidInv, TokenInv, Good, Ordered, Conserved;
    assert CellInv(k.sems[s]);
  }

  lemma NextPostAll(k: Kernel, s: SemId)
    ensures var k1, k2 := PostTurns(k, s, |CellOf(k, s).sem.sleepers| + 1), PostAllOn(k, s);
      && (forall p :: PcOf(k2, p) == PcOf(k1, p))
      && CellOf(k2, s).sem == if CellOf(k1, s).sem.val > 0
          then Sem(CellOf(k1, s).sem.val - 1, CellOf(k1, s).sem.sleepers)
         else CellOf(k1, s).sem
  {
    hide PostTurns;
  }

  lemma OnList(k: Kernel, s: SemId, w: Waiter)
    requires Inv(k) && w in CellOf(k, s).sem.sleepers
    ensures PcOf(k, w.p) == Blocked(s, w, false)
  {
    hide SchedInv, PlaceInv, LockInv, TreeInv, PidInv, TokenInv, CellInv;
    assert Listed(k, s, w);
  }

  lemma OffList(k: Kernel, s: SemId, w: Waiter)
    requires Inv(k) && CellOf(k, s).sem.sleepers == []
    ensures PcOf(k, w.p) != Blocked(s, w, false)
  {
    hide SchedInv, PlaceInv, LockInv, TreeInv, PidInv, TokenInv, CellInv;
    if w.p in k.pc {
      assert BlockedRight(k, w.p, k.pc[w.p]);
    }
  }
}
