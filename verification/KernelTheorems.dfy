// Every step keeps the invariant and meets its ASSERTs; what follows for every run.
module KernelTheorems {
  import opened SemSpec
  import opened KernelSpec
  import opened KernelInv
  import opened KernelSteps
  import opened KernelFamily
  import opened KernelTree
  import opened KernelExit

  /** What is known of the process on a CPU. */
  lemma Current(k: Kernel, c: nat)
    requires Inv(k) && c < |k.cpus|
    ensures var p := This(k, c);
      && p in k.state && p in k.pc && k.state[p] == RUNNING && k.pc.Keys == k.state.Keys && p == k.cpus[c]
      && Fits(RUNNING, PcOf(k, p)) && (p.Idle? ==> PcOf(k, p) == Outside)
      && (p.Named? ==> p in k.parent && p in k.children && Child(p) in k.sems)
  {
    hide SemInv, LockInv, PidInv, TokenInv, ChildrenRight, ParentRight, RootRight, Fits;
    assert OnCpu(k, c);
    assert MembersRight(k);
  }

  lemma Split(k: Kernel)
    requires Inv(k)
    ensures FamilyInv(k)
  {
    hide SchedInv, PlaceInv, SemInv, LockInv, PidInv, TokenInv, TreeInv;
  }

  lemma Join(k: Kernel)
    requires SchedInv(k) && PlaceInv(k) && SemInv(k) && FamilyInv(k)
    ensures Inv(k)
  {
    hide SchedInv, PlaceInv, SemInv, LockInv, PidInv, TokenInv, TreeInv;
  }

  // ----- frames -----

  lemma SchedOnly(k: Kernel, k1: Kernel)
    requires SchedInv(k) && k1.state == k.state && k1.queue == k.queue && k1.cpus == k.cpus
    ensures SchedInv(k1)
  {
    forall c: nat | c < |k1.cpus| ensures OnCpu(k1, c) {
      assert OnCpu(k, c);
    }
    forall p | p in k1.state ensures Agrees(k1, p) {
      assert Agrees(k, p);
    }
  }

  lemma PlaceOnly(k: Kernel, k1: Kernel)
    requires PlaceInv(k) && k1.state == k.state && k1.pc == k.pc
    ensures PlaceInv(k1)
  {
  }

  /** The running process goes somewhere else. */
  lemma PlaceMove(k: Kernel, k1: Kernel, p: Pid, to: Pc)
    requires PlaceInv(k) && p in k.state && k.state[p] == RUNNING && Fits(RUNNING, to) && (p.Idle? ==> to == Outside)
    requires k1.state == k.state && k1.pc == k.pc[p := to]
    ensures PlaceInv(k1)
  {
    forall q | q in k1.state ensures Fits(k1.state[q], PcOf(k1, q)) && (q.Idle? ==> PcOf(k1, q) == Outside) {
      assert q != p ==> PcOf(k1, q) == PcOf(k, q);
    }
  }

  /** States, queue and CPUs do not matter to the family. */
  lemma FamilyStates(k: Kernel, k1: Kernel)
    requires FamilyInv(k) && k1 == k.(state := k1.state, queue := k1.queue, cpus := k1.cpus)
        && k1.state.Keys == k.state.Keys
    ensures FamilyInv(k1)
  {
    hide LockInv, TreeInv, TokenInv;
    forall p ensures SameRole(PcOf(k, p), PcOf(k1, p), p) {}
    FamilyFrame(k, k1);
  }

  /** Nor do other semaphores, and who is in wait for one of those. */
  lemma FamilyPlain(k: Kernel, k1: Kernel)
    requires FamilyInv(k)
        && k1 == k.(state := k1.state, queue := k1.queue, cpus := k1.cpus, panic := k1.panic, pc := k1.pc,
        sems := k1.sems)
    requires k1.state.Keys == k.state.Keys && k1.pc.Keys == k.pc.Keys
    requires forall s | s in k.sems :: s in k1.sems && (s.Child? ==> k1.sems[s] == k.sems[s])
    requires forall s | s in k1.sems && s !in k.sems :: s.Plain?
    requires SameRoles(k, k1)
    ensures FamilyInv(k1)
  {
    hide LockInv, TreeInv, TokenInv, SameRoles;
    FamilyFrame(k, k1);
  }

  lemma OneRole(k: Kernel, k1: Kernel, p: Pid, to: Pc)
    requires k1.pc == k.pc[p := to] && SameRole(PcOf(k, p), to, p)
    ensures SameRoles(k, k1)
  {
    forall q ensures SameRole(PcOf(k, q), PcOf(k1, q), q) {}
  }

  lemma NoRole(k: Kernel, k1: Kernel)
    requires k1.pc == k.pc
    ensures SameRoles(k, k1)
  {
    forall q ensures SameRole(PcOf(k, q), PcOf(k1, q), q) {}
  }

  // ----- the scheduler -----

  lemma YieldKeeps(k: Kernel, c: nat)
    requires Inv(k) && c < |k.cpus| && PcOf(k, This(k, c)) == Outside
    ensures Inv(Sched(k, c, RUNNABLE)) && SchedAsserts(k, c, RUNNABLE)
  {
    hide SchedInv, SemInv, FamilyInv, Sched, LockInv, PidInv, TokenInv, TreeInv, SchedAsserts;
    Current(k, c);
    Split(k);
    SchedKeeps(k, c, RUNNABLE);
    SchedPlace(k, c, RUNNABLE);
    SchedFrame(k, c, RUNNABLE);
    SchedStates(k, c, RUNNABLE);
    SemOnly(k, Sched(k, c, RUNNABLE));
    FamilyStates(k, Sched(k, c, RUNNABLE));
    Join(Sched(k, c, RUNNABLE));
  }

  /** Going to sleep in `_wait_sem`, once everything else is in place. */
  lemma SleepKeeps(k: Kernel, c: nat, to: PState)
    requires SchedInv(k) && SemInv(k) && FamilyInv(k) && c < |k.cpus| && (to == SLEEPING || to == DEEPSLEEPING)
    requires PlaceInv(k) && k.cpus[c] in k.state && k.cpus[c].Named?
    requires PcOf(k, k.cpus[c]).Blocked? && !PcOf(k, k.cpus[c]).up
    ensures Inv(Sched(k, c, to)) && SchedAsserts(k, c, to)
  {
    hide SchedInv, SemInv, FamilyInv, Sched, SchedAsserts;
    SchedKeeps(k, c, to);
    SchedPlace(k, c, to);
    SchedFrame(k, c, to);
    SchedStates(k, c, to);
    SemOnly(k, Sched(k, c, to));
    FamilyStates(k, Sched(k, c, to));
    Join(Sched(k, c, to));
  }

  /** `_wait_sem` up to the switch: the state at the moment of calling sched. */
  function Entered(k: Kernel, c: nat, s: SemId, then_: Pc): Kernel {
    var p, cell := This(k, c), CellOf(k, s);
    GoTo(k.(sems := k.sems[s := EnterCell(cell, p)]), p, if MustSleep(cell.sem)
      then Blocked(s, Waiting(cell, p), false) else then_)
  }

  lemma WaitIs(k: Kernel, c: nat, s: SemId, alertable: bool, then_: Pc)
    requires c < |k.cpus|
    ensures WaitOn(k, c, s, alertable, then_) ==
      if MustSleep(CellOf(k, s).sem)
        then Sched(Entered(k, c, s, then_), c, if alertable then SLEEPING else DEEPSLEEPING)
        else Entered(k, c, s, then_)
  {
    hide Sched, EnterCell;
  }

  lemma EnteredFits(k: Kernel, c: nat, s: SemId, then_: Pc)
    requires PlaceInv(k) && c < |k.cpus| && This(k, c) in k.state && k.state[This(k, c)] == RUNNING
    requires then_ == Outside || then_ == Reaping
    ensures var k1 := Entered(k, c, s, then_);
      && k1.pc.Keys == k1.state.Keys && k1.state == k.state && k1.queue == k.queue && k1.cpus == k.cpus
      && (This(k, c).Named? ==> PlaceInv(k1))
      && (MustSleep(CellOf(k, s).sem) ==> PcOf(k1, This(k, c)).Blocked? && !PcOf(k1, This(k, c)).up)
  {
    hide EnterCell, MustSleep;
    var k1, p := Entered(k, c, s, then_), This(k, c);
    forall q | q in k1.state ensures q != p ==> PcOf(k1, q) == PcOf(k, q) {}
  }

  lemma WaitKeeps(k: Kernel, c: nat, s: SemId, alertable: bool, then_: Pc)
    requires Inv(k) && c < |k.cpus| && This(k, c).Named? && s in k.sems && !PcOf(k, This(k, c)).Blocked?
        && (s.Child? ==> s.p == This(k, c))
    requires (then_ == Outside || then_ == Reaping) && FamilyInv(Entered(k, c, s, then_))
    ensures Inv(WaitOn(k, c, s, alertable, then_))
    ensures MustSleep(CellOf(k, s).sem) ==>
        SchedAsserts(Entered(k, c, s, then_), c, if alertable then SLEEPING else DEEPSLEEPING)
  {
    hide SchedInv, SemInv, FamilyInv, Sched, LockInv, PidInv, TokenInv, TreeInv, SchedAsserts, Entered, WaitOn,
        MustSleep;
    Current(k, c);
    var k1 := Entered(k, c, s, then_);
    EnteredFits(k, c, s, then_);
    EnteredSem(k, c, s, then_);
    SchedOnly(k, k1);
    WaitIs(k, c, s, alertable, then_);
    if MustSleep(CellOf(k, s).sem) {
      SleepKeeps(k1, c, if alertable then SLEEPING else DEEPSLEEPING);
    } else {
      Join(k1);
    }
  }

  lemma EnteredSem(k: Kernel, c: nat, s: SemId, then_: Pc)
    requires SemInv(k) && s in k.sems && This(k, c) in k.pc && !PcOf(k, This(k, c)).Blocked? && !then_.Blocked?
        && (s.Child? ==> s.p == This(k, c))
    ensures SemInv(Entered(k, c, s, then_))
  {
    hide SemInv, EnterCell, MustSleep;
    EnterSem(k, s, This(k, c), then_);
  }

  lemma WaitPlainKeeps(k: Kernel, c: nat, s: SemId, alertable: bool)
    requires Inv(k) && Enabled(k, Wait(c, s, alertable))
    ensures Inv(Next(k, Wait(c, s, alertable)))
    ensures MustSleep(CellOf(k, s).sem) ==>
        SchedAsserts(Entered(k, c, s, Outside), c, if alertable then SLEEPING else DEEPSLEEPING)
  {
    hide SchedInv, SemInv, FamilyInv, Sched, LockInv, PidInv, TokenInv, TreeInv, SchedAsserts, Entered, WaitOn,
        MustSleep, PlaceInv;
    Current(k, c);
    Split(k);
    EnteredPlain(k, c, s);
    WaitKeeps(k, c, s, alertable, Outside);
  }

  lemma EnteredPlain(k: Kernel, c: nat, s: SemId)
    requires FamilyInv(k) && s.Plain? && s in k.sems && This(k, c) in k.pc && PcOf(k, This(k, c)) == Outside
    ensures FamilyInv(Entered(k, c, s, Outside))
  {
    hide FamilyInv, EnterCell, MustSleep;
    OneRole(k, Entered(k, c, s, Outside), This(k, c), Entered(k, c, s, Outside).pc[This(k, c)]);
    FamilyPlain(k, Entered(k, c, s, Outside));
  }

  lemma WaitChildKeeps(k: Kernel, c: nat)
    requires Inv(k) && Enabled(k, WaitChild(c))
    ensures Inv(Next(k, WaitChild(c)))
    ensures MustSleep(CellOf(k, Child(This(k, c))).sem) ==>
        SchedAsserts(Entered(k, c, Child(This(k, c)), Reaping), c, SLEEPING)
  {
    hide SchedInv, SemInv, FamilyInv, Sched, LockInv, PidInv, TokenInv, TreeInv, SchedAsserts, Entered, WaitOn,
        MustSleep, PlaceInv;
    Current(k, c);
    Split(k);
    var p := This(k, c);
    EnteredChild(k, c);
    WaitKeeps(k, c, Child(p), true, Reaping);
  }

  lemma EnteredChild(k: Kernel, c: nat)
    requires var p := This(k, c);
        FamilyInv(k) && SemInv(k) && p in k.pc && p in k.parent && Child(p) in k.sems && PcOf(k, p) == Willing
    ensures FamilyInv(Entered(k, c, Child(This(k, c)), Reaping))
  {
    hide FamilyInv, SemInv, EnterCell, MustSleep;
    WaitChildFamily(k, Entered(k, c, Child(This(k, c)), Reaping), This(k, c));
  }

  /** The rest of `_wait_sem`. */
  lemma LeaveKeeps(k: Kernel, c: nat)
    requires Inv(k) && Enabled(k, Leave(c))
    ensures Inv(Next(k, Leave(c))) && AssertsHold(k, Leave(c))
  {
    hide SchedInv, SemInv, FamilyInv, LockInv, PidInv, TokenInv, TreeInv, PlaceInv, Undo;
    Current(k, c);
    Split(k);
    var p := This(k, c);
    var k1 := LeaveOn(k, p);
    LeaveSemKeeps(k, p);
    SchedOnly(k, k1);
    PlaceMove(k, k1, p, PcOf(k1, p));
    if PcOf(k, p).s == Child(p) {
      LeaveChildFamily(k, p);
    } else {
      LeavePlain(k, p);
    }
    Join(k1);
  }

  lemma LeaveSemKeeps(k: Kernel, p: Pid)
    requires SemInv(k) && p in k.pc && PcOf(k, p).Blocked?
    ensures SemInv(LeaveOn(k, p)) && PcOf(k, p).s in k.sems && LeaveOn(k, p).pc.Keys == k.pc.Keys
    ensures !PcOf(k, p).up ==>
        PcOf(k, p).w in CellOf(k, PcOf(k, p).s).sem.sleepers && Undo(CellOf(k, PcOf(k, p).s).sem, PcOf(k, p).w).val <= 0
  {
    assert BlockedRight(k, p, k.pc[p]);
    hide SemInv, Undo;
    if PcOf(k, p).up {
      MoveSem(k, p, if PcOf(k, p).s == Child(p) then Reaping else Outside);
    } else {
      LeaveSem(k, p, Outside);
    }
  }

  lemma LeavePlain(k: Kernel, p: Pid)
    requires FamilyInv(k) && SemInv(k) && p in k.pc && PcOf(k, p).Blocked? && PcOf(k, p).s != Child(p)
    ensures FamilyInv(LeaveOn(k, p))
  {
    hide FamilyInv, SemInv, Undo, FamilyInv;
    BlockedAt(k, p);
    OneRole(k, LeaveOn(k, p), p, Outside);
    FamilyPlain(k, LeaveOn(k, p));
  }

  lemma BlockedAt(k: Kernel, p: Pid)
    requires SemInv(k) && p in k.pc && PcOf(k, p).Blocked?
    ensures PcOf(k, p).s in k.sems && (PcOf(k, p).s.Child? ==> PcOf(k, p).s.p == p)
  {
    hide CellInv;
    assert BlockedRight(k, p, k.pc[p]);
  }

  // ----- posting and taking -----

  /** A post to any semaphore keeps scheduler, places and semaphores in order. */
  lemma PostKeeps(k: Kernel, s: SemId)
    requires SchedInv(k) && PlaceInv(k) && SemInv(k) && s in k.sems
    ensures SchedInv(PostOn(k, s)) && PlaceInv(PostOn(k, s)) && SemInv(PostOn(k, s)) && PostAsserts(CellOf(k, s).sem)
    ensures var k1 := PostOn(k, s);
      && k1 == k.(state := k1.state, queue := k1.queue, pc := k1.pc, sems := k1.sems) && k1.state.Keys == k.state.Keys
          && k1.pc.Keys == k.pc.Keys
      && k1.sems == k.sems[s := PostCell(k.sems[s])]
      && (forall p | p in k.state && k.state[p] == RUNNING :: k1.state[p] == RUNNING)
      && (forall p ::
          PcOf(k1, p) == PcOf(k, p)
          || (PcOf(k, p).Blocked? && PcOf(k, p).s == s && PcOf(k1, p) == Raised(PcOf(k, p), s)))
  {
    hide SchedInv, SemInv, Woken, PostCell;
    PostSemKeeps(k, s);
    var cell := k.sems[s];
    var k1 := k.(sems := k.sems[s := PostCell(cell)]);
    if Woken(cell.sem) == [] {
      SchedOnly(k, k1);
    } else {
      var w := Woken(cell.sem)[0];
      assert Listed(k, s, w);
      var k2 := GoTo(k1, w.p, Blocked(s, w, true));
      SchedOnly(k, k2);
      ActivateKeeps(k2, w.p, false);
      RaisedPlace(k, k2, s, w);
    }
  }

  lemma RaisedPlace(k: Kernel, k2: Kernel, s: SemId, w: Waiter)
    requires PlaceInv(k) && w.p in k.pc && PcOf(k, w.p) == Blocked(s, w, false) && k2.state == k.state
        && k2.pc == k.pc[w.p := Blocked(s, w, true)]
    ensures w.p.Named? && PlaceInv(Activate(k2, w.p, false))
  {
    var k3 := Activate(k2, w.p, false);
    forall p | p in k3.state ensures Fits(k3.state[p], PcOf(k3, p)) && (p.Idle? ==> PcOf(k3, p) == Outside) {
      assert Fits(k.state[p], PcOf(k, p));
    }
  }

  lemma PostPlainKeeps(k: Kernel, s: SemId)
    requires Inv(k) && s.Plain? && s in k.sems
    ensures Inv(PostOn(k, s)) && PostAsserts(CellOf(k, s).sem) && s in PostOn(k, s).sems
  {
    hide SchedInv, SemInv, FamilyInv, LockInv, PidInv, TokenInv, TreeInv, PlaceInv, PostOn, PostCell, PostAsserts;
    Split(k);
    PostKeeps(k, s);
    PostRoles(k, PostOn(k, s), s);
    FamilyPlain(k, PostOn(k, s));
    Join(PostOn(k, s));
  }

  lemma PostRoles(k: Kernel, k1: Kernel, s: SemId)
    requires s.Plain?
    requires forall p ::
        PcOf(k1, p) == PcOf(k, p) || (PcOf(k, p).Blocked? && PcOf(k, p).s == s && PcOf(k1, p) == Raised(PcOf(k, p), s))
    ensures SameRoles(k, k1)
  {
    hide PcOf;
  }

  lemma GetPlainKeeps(k: Kernel, s: SemId, all: bool)
    requires Inv(k) && s.Plain? && s in k.sems
    ensures Inv(GetOn(k, s, all))
  {
    hide SchedInv, SemInv, FamilyInv, LockInv, PidInv, TokenInv, TreeInv, PlaceInv, TakeCell;
    Split(k);
    var k1 := GetOn(k, s, all);
    TakeSem(k, s, all);
    SchedOnly(k, k1);
    PlaceOnly(k, k1);
    NoRole(k, k1);
    FamilyPlain(k, k1);
    Join(k1);
  }

  lemma {:induction false} PostTurnsKeep(k: Kernel, s: SemId, n: nat)
    requires Inv(k) && s.Plain? && s in k.sems
    ensures Inv(PostTurns(k, s, n)) && s in PostTurns(k, s, n).sems
    ensures PostAsserts(CellOf(PostTurns(k, s, n), s).sem)
    decreases n
  {
    hide Inv, PostAsserts, PostOn;
    if n > 0 {
      PostTurnsKeep(k, s, n - 1);
      PostPlainKeeps(PostTurns(k, s, n - 1), s);
    }
    PostPlainKeeps(PostTurns(k, s, n), s);
  }

  lemma PostAllKeeps(k: Kernel, c: nat, s: SemId)
    requires Inv(k) && Enabled(k, PostAllSem(c, s))
    ensures Inv(Next(k, PostAllSem(c, s))) && AssertsHold(k, PostAllSem(c, s))
  {
    hide Inv, PostAsserts, PostTurns, GetOn;
    var n := |CellOf(k, s).sem.sleepers|;
    forall m: nat | m <= n ensures PostAsserts(CellOf(PostTurns(k, s, m), s).sem) {
      PostTurnsKeep(k, s, m);
    }
    PostTurnsKeep(k, s, n + 1);
    GetPlainKeeps(PostTurns(k, s, n + 1), s, false);
  }

  lemma InitSemKeeps(k: Kernel, c: nat, s: SemId, val: nat)
    requires Inv(k) && Enabled(k, InitSem(c, s, val))
    ensures Inv(Next(k, InitSem(c, s, val)))
  {
    hide SchedInv, SemInv, FamilyInv, LockInv, PidInv, TokenInv, TreeInv, PlaceInv;
    Split(k);
    var k1 := k.(sems := k.sems[s := NewCell(val)]);
    NewSem(k, s, val);
    SchedOnly(k, k1);
    PlaceOnly(k, k1);
    NoRole(k, k1);
    FamilyPlain(k, k1);
    Join(k1);
  }

  lemma NewSem(k: Kernel, s: SemId, val: nat)
    requires SemInv(k) && s !in k.sems
    ensures SemInv(k.(sems := k.sems[s := NewCell(val)]))
  {
    var k1 := k.(sems := k.sems[s := NewCell(val)]);
    assert CellInv(NewCell(val));
    hide CellInv;
    forall r | r in k1.sems ensures CellInv(k1.sems[r]) && forall w | w in k1.sems[r].sem.sleepers :: Listed(k1, r, w) {
      forall w | w in k1.sems[r].sem.sleepers ensures Listed(k1, r, w) {
        assert Listed(k, r, w);
      }
    }
    forall p | p in k1.pc ensures BlockedRight(k1, p, k1.pc[p]) {
      assert BlockedRight(k, p, k.pc[p]);
    }
  }

  // ----- starting and killing -----

  lemma ActivateAll(k: Kernel, p: Pid, onalert: bool)
    requires Inv(k) && p.Named?
    ensures Inv(Activate(k, p, onalert))
  {
    hide SchedInv, SemInv, FamilyInv, LockInv, PidInv, TokenInv, TreeInv;
    Split(k);
    ActivateKeeps(k, p, onalert);
    ActivatePlace(k, p, onalert);
    hide PlaceInv;
    SemOnly(k, Activate(k, p, onalert));
    FamilyStates(k, Activate(k, p, onalert));
    Join(Activate(k, p, onalert));
  }

  lemma StartKeeps(k: Kernel, c: nat, q: Pid)
    requires Inv(k) && Enabled(k, Start(c, q))
    ensures Inv(Next(k, Start(c, q))) && AssertsHold(k, Start(c, q))
  {
    hide Inv, Activate, PostTurns, FirstZombie, SchedAsserts, ChildrenOf;
    StartNamed(k, q);
    ActivateAll(k, q, false);
  }

  lemma StartNamed(k: Kernel, q: Pid)
    requires Inv(k) && q in k.state && k.state[q] == UNUSED
    ensures q.Named?
  {
    hide PlaceInv, SemInv, LockInv, PidInv, TokenInv, TreeInv;
    assert Agrees(k, q);
  }

  lemma KillKeeps(k: Kernel, c: nat, q: Pid)
    requires Inv(k) && Enabled(k, Kill(c, q))
    ensures Inv(Next(k, Kill(c, q)))
  {
    hide Inv, Activate;
    if q in ChildrenOf(k, ROOT) && StateOf(k, q) != UNUSED {
      MarkKeeps(k, q);
      ActivateAll(k.(killed := k.killed + {q}), q, true);
    }
  }

  lemma MarkKeeps(k: Kernel, q: Pid)
    requires Inv(k) && q in ChildrenOf(k, ROOT)
    ensures Inv(k.(killed := k.killed + {q}))
  {
    hide SchedInv, SemInv, LockInv, TokenInv, PlaceInv, ChildrenRight, ParentRight;
    var k1 := k.(killed := k.killed + {q});
    Split(k);
    RootIn(k);
    ChildOf(k, ROOT, q);
    MemberIn(k, q);
    NoRole(k, k1);
    FamilyFrame(k, k1);
    SchedOnly(k, k1);
    PlaceOnly(k, k1);
    SemOnly(k, k1);
    Join(k1);
  }

  // ----- the family -----

  lemma CreateSched(k: Kernel, par: Pid)
    requires SchedInv(k) && Named(k.maxPid + 1) !in k.state
    ensures SchedInv(CreateUnder(k, par))
  {
    var k1 := CreateUnder(k, par);
    forall c: nat | c < |k1.cpus| ensures OnCpu(k1, c) && k1.cpus[c] in k.state {
      assert OnCpu(k, c);
    }
    forall p | p in k1.cpus ensures p in k.state {}
    forall p | p in k1.state ensures Agrees(k1, p) {
      if p in k.state {
        assert Agrees(k, p);
      }
    }
  }

  lemma CreateSem(k: Kernel, par: Pid)
    requires SemInv(k) && Child(Named(k.maxPid + 1)) !in k.sems && Named(k.maxPid + 1) !in k.pc
    ensures SemInv(CreateUnder(k, par))
  {
    var q := Named(k.maxPid + 1);
    NewSem(k, Child(q), 0);
    var k1 := k.(sems := k.sems[Child(q) := NewCell(0)]);
    var k2 := CreateUnder(k, par);
    hide CellInv;
    forall s, w | s in k2.sems && w in k2.sems[s].sem.sleepers ensures Listed(k2, s, w) {
      assert Listed(k1, s, w);
    }
    forall p | p in k2.pc ensures BlockedRight(k2, p, k2.pc[p]) {
      if p != q {
        assert BlockedRight(k1, p, k1.pc[p]);
      }
    }
  }

  lemma CreatePlace(k: Kernel, par: Pid)
    requires PlaceInv(k)
    ensures PlaceInv(CreateUnder(k, par))
  {
    var k1 := CreateUnder(k, par);
    forall p | p in k1.state ensures Fits(k1.state[p], PcOf(k1, p)) && (p.Idle? ==> PcOf(k1, p) == Outside) {
      if p in k.state {
        assert Fits(k.state[p], PcOf(k, p));
      }
    }
  }

  lemma FreshSem(k: Kernel)
    requires PidInv(k)
    ensures Child(Named(k.maxPid + 1)) !in k.sems && Named(k.maxPid + 1) !in k.state
  {
  }

  lemma CreateKeeps(k: Kernel, c: nat, underRoot: bool)
    requires Inv(k) && Enabled(k, Create(c, underRoot))
    ensures Inv(Next(k, Create(c, underRoot)))
  {
    hide SchedInv, SemInv, LockInv, TreeInv, PidInv, TokenInv, PlaceInv, FamilyInv, CreateUnder, SchedAsserts,
        PostTurns;
    Current(k, c);
    Split(k);
    FreshSem(k);
    RootMember(k);
    var par := if underRoot then ROOT else This(k, c);
    CreateSched(k, par);
    CreatePlace(k, par);
    CreateSem(k, par);
    CreateFamily(k, par);
    Join(CreateUnder(k, par));
  }

  /** The process in wait finds a zombie. */
  lemma ZombieFound(k: Kernel, q: Pid)
    requires PlaceInv(k) && FamilyInv(k) && k.plock == None && q in k.children && PcOf(k, q) == Reaping
    ensures exists c :: c in ChildrenOf(k, q) && PcOf(k, c) == Gone && IsZombie(k, c)
  {
    hide PidInv, ChildrenOf, TreeInv;
    assert Owed(k, q) == |DeadKids(k, q)| >= 1;
    var c :| c in DeadKids(k, q);
    assert PcOf(k, c) == Gone by {
      NobodyDying(k, c);
    }
    GoneZombie(k, c);
  }

  lemma NobodyDying(k: Kernel, c: Pid)
    requires LockInv(k) && k.plock == None
    ensures PcOf(k, c) != Dying
  {
  }

  lemma GoneZombie(k: Kernel, c: Pid)
    requires PlaceInv(k)
    ensures PcOf(k, c) == Gone <==> IsZombie(k, c)
    ensures PcOf(k, c) == Gone ==> c in k.state && c in k.pc
  {
    assert c in k.state ==> Fits(k.state[c], PcOf(k, c));
  }

  lemma {:induction false} FirstZombieIs(k: Kernel, s: seq<Pid>)
    ensures FirstZombie(k, s).Some? <==> exists c :: c in s && IsZombie(k, c)
    ensures FirstZombie(k, s).Some? ==> FirstZombie(k, s).value in s && IsZombie(k, FirstZombie(k, s).value)
    decreases |s|
  {
    if s != [] {
      assert s == [s[0]] + s[1..];
      FirstZombieIs(k, s[1..]);
    }
  }

  lemma ReapSched(k: Kernel, q: Pid, c: Pid)
    requires SchedInv(k) && c in k.state && k.state[c] == ZOMBIE && c.Named?
    ensures SchedInv(Reap(k, q, c))
  {
    hide Remove;
    assert Agrees(k, c);
    var k1 := Reap(k, q, c);
    forall d: nat | d < |k1.cpus| ensures OnCpu(k1, d) {
      assert OnCpu(k, d);
    }
    forall p | p in k1.state ensures Agrees(k1, p) {
      assert Agrees(k, p);
    }
  }

  lemma ReapPlace(k: Kernel, q: Pid, c: Pid)
    requires PlaceInv(k) && c != q && q in k.state && k.state[q] == RUNNING
    ensures PlaceInv(Reap(k, q, c))
  {
    hide Remove, ChildrenOf;
    var k1 := Reap(k, q, c);
    forall p | p in k1.state ensures Fits(k1.state[p], PcOf(k1, p)) && (p.Idle? ==> PcOf(k1, p) == Outside) {
      assert Fits(k.state[p], PcOf(k, p));
    }
  }

  lemma ReapSem(k: Kernel, q: Pid, c: Pid)
    requires SemInv(k) && c != q && q in k.pc && !PcOf(k, q).Blocked? && !PcOf(k, c).Blocked?
    ensures SemInv(Reap(k, q, c))
  {
    hide Remove, CellInv, ChildrenOf;
    var k1 := Reap(k, q, c);
    forall s, w | s in k1.sems && w in k1.sems[s].sem.sleepers ensures Listed(k1, s, w) {
      assert Listed(k, s, w);
    }
    forall p | p in k1.pc ensures BlockedRight(k1, p, k1.pc[p]) {
      assert p in k.pc ==> BlockedRight(k, p, k.pc[p]);
    }
  }

  lemma ReapKeeps(k: Kernel, c: nat)
    requires Inv(k) && Enabled(k, ReapChild(c))
    ensures Inv(Next(k, ReapChild(c))) && AssertsHold(k, ReapChild(c))
    ensures var z := FirstZombie(k, ChildrenOf(k, This(k, c)));
        z.Some? && Next(k, ReapChild(c)) == Reap(k, This(k, c), z.value)
  {
    hide SchedInv, SemInv, LockInv, TreeInv, PidInv, TokenInv, PlaceInv, FamilyInv, Reap, SchedAsserts, PostTurns,
        ChildrenOf, FirstZombie, PcOf, IsZombie;
    Current(k, c);
    Split(k);
    var q := This(k, c);
    ZombieFound(k, q);
    FirstZombieIs(k, ChildrenOf(k, q));
    var z := FirstZombie(k, ChildrenOf(k, q)).value;
    GoneZombie(k, z);
    ZombieMember(k, q, z);
    ReapSched(k, q, z);
    ReapPlace(k, q, z);
    ReapSem(k, q, z);
    ReapFamily(k, q, z);
    Join(Reap(k, q, z));
  }

  lemma ZombieMember(k: Kernel, q: Pid, z: Pid)
    requires FamilyInv(k) && PlaceInv(k) && q in k.children && z in ChildrenOf(k, q) && PcOf(k, z) == Gone
        && PcOf(k, q) == Reaping
    ensures z.Named? && z != q && z in k.state && k.state[z] == ZOMBIE
  {
    hide LockInv, PidInv, TokenInv, ChildrenRight, ParentRight, RootRight, ChildrenOf;
    GoneZombie(k, z);
    ChildOf(k, q, z);
    MemberIn(k, z);
  }

  lemma WaitCallKeeps(k: Kernel, c: nat)
    requires Inv(k) && Enabled(k, WaitCall(c))
    ensures Inv(Next(k, WaitCall(c)))
  {
    hide SchedInv, SemInv, LockInv, TreeInv, PidInv, TokenInv, PlaceInv, FamilyInv, SchedAsserts, PostTurns, ChildrenOf;
    Current(k, c);
    Split(k);
    var p := This(k, c);
    if ChildrenOf(k, p) != [] {
      WaitCallFamily(k, p);
      MoveRest(k, GoTo(k, p, Willing), p, Willing);
      Join(GoTo(k, p, Willing));
    }
  }

  /** A move of the running process, as far as scheduler, places and semaphores go. */
  lemma MoveRest(k: Kernel, k1: Kernel, p: Pid, to: Pc)
    requires SchedInv(k) && PlaceInv(k) && SemInv(k) && p in k.state && k.state[p] == RUNNING && p in k.pc
    requires p.Named? && Fits(RUNNING, to) && !to.Blocked? && !PcOf(k, p).Blocked?
    requires k1.state == k.state && k1.queue == k.queue && k1.cpus == k.cpus && k1.pc == k.pc[p := to]
        && k1.sems == k.sems
    ensures SchedInv(k1) && PlaceInv(k1) && SemInv(k1)
  {
    hide SchedInv, PlaceInv, SemInv;
    SchedOnly(k, k1);
    PlaceMove(k, k1, p, to);
    MoveSem(k, p, to);
    SemOnly(GoTo(k, p, to), k1);
  }

  lemma ExitKeeps(k: Kernel, c: nat)
    requires Inv(k) && Enabled(k, Exit(c))
    ensures Inv(Next(k, Exit(c)))
  {
    hide SchedInv, SemInv, LockInv, TreeInv, PidInv, TokenInv, PlaceInv, FamilyInv, SchedAsserts, PostTurns,
        ChildrenOf, Rotated;
    Current(k, c);
    Split(k);
    var p := This(k, c);
    OrphanFamily(k, p);
    MoveRest(k, Orphan(k, p), p, Moving);
    Join(Orphan(k, p));
  }

  lemma ExitGetKeeps(k: Kernel, c: nat)
    requires Inv(k) && Enabled(k, ExitGet(c))
    ensures Inv(Next(k, ExitGet(c)))
  {
    hide SchedInv, SemInv, LockInv, TreeInv, PidInv, TokenInv, PlaceInv, FamilyInv, SchedAsserts, PostTurns,
        ChildrenOf, TakeCell;
    Current(k, c);
    Split(k);
    var p := This(k, c);
    ExitGetFamily(k, p);
    if k.sems[Child(p)].sem.val > 0 {
      var k1 := GetOn(k, Child(p), false);
      TakeSem(k, Child(p), false);
      SchedOnly(k, k1);
      PlaceOnly(k, k1);
      MoveRest(k1, GoTo(k1, p, Passing), p, Passing);
      Join(GoTo(k1, p, Passing));
    } else {
      MoveRest(k, GoTo(k, p, Notifying), p, Notifying);
      Join(GoTo(k, p, Notifying));
    }
  }

  /** A post by the process in exit, and its next place. */
  lemma HandKeeps(k: Kernel, e: Pid, r: Pid, to: Pc)
    requires SchedInv(k) && PlaceInv(k) && SemInv(k) && Child(r) in k.sems && e in k.state && k.state[e] == RUNNING
        && e in k.pc && e.Named?
    requires InExit(PcOf(k, e)) && InExit(to) && FamilyInv(GoTo(PostOn(k, Child(r)), e, to))
    ensures Inv(GoTo(PostOn(k, Child(r)), e, to)) && PostAsserts(CellOf(k, Child(r)).sem)
  {
    hide SchedInv, SemInv, PlaceInv, FamilyInv, PostOn, PostCell, PostAsserts;
    PostKeeps(k, Child(r));
    var k1 := PostOn(k, Child(r));
    assert PcOf(k1, e) == PcOf(k, e);
    MoveRest(k1, GoTo(k1, e, to), e, to);
    Join(GoTo(k1, e, to));
  }

  lemma ExitPassKeeps(k: Kernel, c: nat)
    requires Inv(k) && Enabled(k, ExitPass(c))
    ensures Inv(Next(k, ExitPass(c))) && AssertsHold(k, ExitPass(c))
  {
    hide SchedInv, SemInv, LockInv, TreeInv, PidInv, TokenInv, PlaceInv, FamilyInv, SchedAsserts, PostTurns,
        ChildrenOf, PostOn, PostAsserts;
    Current(k, c);
    Split(k);
    var p := This(k, c);
    RootThere(k);
    PassFamily(k, p);
    HandKeeps(k, p, ROOT, Moving);
  }

  lemma RootThere(k: Kernel)
    requires FamilyInv(k) && PlaceInv(k)
    ensures ROOT in k.pc && ROOT in k.state && Child(ROOT) in k.sems
  {
    hide LockInv, PidInv, TokenInv, ChildrenRight, ParentRight, RootRight, MembersRight;
    RootIn(k);
    MemberIn(k, ROOT);
  }

  lemma ExitNotifyKeeps(k: Kernel, c: nat)
    requires Inv(k) && Enabled(k, ExitNotify(c))
    ensures Inv(Next(k, ExitNotify(c))) && AssertsHold(k, ExitNotify(c))
  {
    hide SchedInv, SemInv, LockInv, TreeInv, PidInv, TokenInv, PlaceInv, FamilyInv, SchedAsserts, PostTurns,
        ChildrenOf, PostOn, PostAsserts, ParentOf;
    Current(k, c);
    Split(k);
    var p := This(k, c);
    NotifyFamily(k, p);
    HandKeeps(k, p, ParentOf(k, p), Dying);
  }

  lemma ExitDieKeeps(k: Kernel, c: nat)
    requires Inv(k) && Enabled(k, ExitDie(c))
    ensures Inv(Next(k, ExitDie(c)))
    ensures SchedAsserts(k, c, ZOMBIE)
  {
    hide SchedInv, SemInv, LockInv, TreeInv, PidInv, TokenInv, PlaceInv, FamilyInv, SchedAsserts, PostTurns,
        ChildrenOf, Sched;
    Current(k, c);
    Split(k);
    var p := This(k, c);
    var k1 := GoTo(k.(plock := None), p, Gone);
    DieFamily(k, p);
    SchedOnly(k, k1);
    MoveSem(k, p, Gone);
    SemOnly(GoTo(k, p, Gone), k1);
    PlaceDying(k, k1, p);
    SchedKeeps(k1, c, ZOMBIE);
    SchedKeeps(k, c, ZOMBIE);
    SchedPlace(k1, c, ZOMBIE);
    SchedFrame(k1, c, ZOMBIE);
    SchedStates(k1, c, ZOMBIE);
    SemOnly(k1, Sched(k1, c, ZOMBIE));
    FamilyStates(k1, Sched(k1, c, ZOMBIE));
    Join(Sched(k1, c, ZOMBIE));
  }

  lemma PlaceDying(k: Kernel, k1: Kernel, p: Pid)
    requires PlaceInv(k) && p in k.pc && p.Named? && k1.state == k.state && k1.pc == k.pc[p := Gone]
    ensures k1.pc.Keys == k1.state.Keys && PcOf(k1, p) == Gone
    ensures forall q | q in k1.state && q.Idle? :: PcOf(k1, q) == Outside
    ensures forall q | q in k1.state && q != p :: Fits(k1.state[q], PcOf(k1, q))
  {
    assert forall q | q != p :: PcOf(k1, q) == PcOf(k, q);
  }

  lemma PanicKeeps(k: Kernel, c: nat)
    requires Inv(k)
    ensures Inv(k.(panic := true))
  {
    hide SchedInv, SemInv, LockInv, TreeInv, PidInv, TokenInv, PlaceInv, FamilyInv;
    var k1 := k.(panic := true);
    Split(k);
    SchedOnly(k, k1);
    PlaceOnly(k, k1);
    SemOnly(k, k1);
    NoRole(k, k1);
    FamilyPlain(k, k1);
    Join(k1);
  }

  // ----- runs -----

  lemma SameUpdate(k: Kernel, k1: Kernel, c: nat, to: PState)
    requires k1.state == k.state && k1.queue == k.queue && k1.cpus == k.cpus && k1.panic == k.panic
    ensures var a, b := UpdateThisState(k, c, to), UpdateThisState(k1, c, to);
      a.state == b.state && PickNext(a, c) == PickNext(b, c) && This(k, c) == This(k1, c)
  {
  }

  lemma SameAsserts(k: Kernel, k1: Kernel, c: nat, to: PState)
    requires k1.state == k.state && k1.queue == k.queue && k1.cpus == k.cpus && k1.killed == k.killed
        && k1.panic == k.panic
    ensures SchedAsserts(k1, c, to) == SchedAsserts(k, c, to)
  {
    hide UpdateThisState, PickNext, This;
    SameUpdate(k, k1, c, to);
  }

  lemma EnteredAsserts(k: Kernel, c: nat, s: SemId, then_: Pc, to: PState)
    ensures SchedAsserts(Entered(k, c, s, then_), c, to) == SchedAsserts(k, c, to)
  {
    hide SchedAsserts, EnterCell, MustSleep;
    SameAsserts(k, Entered(k, c, s, then_), c, to);
  }

  /** Every step keeps the invariant, and no ASSERT or PANIC on its way can fail. */
  lemma StepKeeps(k: Kernel, step: Step)
    requires Inv(k) && Enabled(k, step)
    ensures Inv(Next(k, step)) && AssertsHold(k, step)
  {
    hide *;
    match step
    case Yield(c) => YieldStep(k, c);
    case Wait(c, s, alertable) => WaitStep(k, c, s, alertable);
    case Leave(c) => LeaveKeeps(k, c);
    case PostSem(c, s) => PostStep(k, c, s);
    case GetSem(c, s, all) => GetStep(k, c, s, all);
    case PostAllSem(c, s) => PostAllKeeps(k, c, s);
    case InitSem(c, s, val) => InitSemStep(k, c, s, val);
    case Create(c, underRoot) => CreateStep(k, c, underRoot);
    case Start(c, q) => StartKeeps(k, c, q);
    case Kill(c, q) => KillStep(k, c, q);
    case WaitCall(c) => WaitCallStep(k, c);
    case WaitChild(c) => WaitChildStep(k, c);
    case ReapChild(c) => ReapKeeps(k, c);
    case Exit(c) => ExitStep(k, c);
    case ExitGet(c) => ExitGetStep(k, c);
    case ExitPass(c) => ExitPassKeeps(k, c);
    case ExitNotify(c) => ExitNotifyKeeps(k, c);
    case ExitDie(c) => ExitDieStep(k, c);
    case Panic(c) => PanicStep(k, c);
  }

  lemma InitSemStep(k: Kernel, c: nat, s: SemId, val: nat)
    requires Inv(k) && Enabled(k, InitSem(c, s, val))
    ensures Inv(Next(k, InitSem(c, s, val))) && AssertsHold(k, InitSem(c, s, val))
  {
    hide Inv, Sched, SchedAsserts, PostOn, PostTurns, PostAllOn, GetOn, ChildrenOf, Orphan, Reap, FirstZombie,
        CreateUnder, KillNamed, PostAsserts, LeaveOn, WaitOn, Activate;
    InitSemKeeps(k, c, s, val);
  }

  lemma CreateStep(k: Kernel, c: nat, underRoot: bool)
    requires Inv(k) && Enabled(k, Create(c, underRoot))
    ensures Inv(Next(k, Create(c, underRoot))) && AssertsHold(k, Create(c, underRoot))
  {
    hide Inv, Sched, SchedAsserts, PostOn, PostTurns, PostAllOn, GetOn, ChildrenOf, Orphan, Reap, FirstZombie,
        CreateUnder, KillNamed, PostAsserts, LeaveOn, WaitOn, Activate;
    CreateKeeps(k, c, underRoot);
  }

  lemma KillStep(k: Kernel, c: nat, q: Pid)
    requires Inv(k) && Enabled(k, Kill(c, q))
    ensures Inv(Next(k, Kill(c, q))) && AssertsHold(k, Kill(c, q))
  {
    hide Inv, Sched, SchedAsserts, PostOn, PostTurns, PostAllOn, GetOn, ChildrenOf, Orphan, Reap, FirstZombie,
        CreateUnder, KillNamed, PostAsserts, LeaveOn, WaitOn, Activate;
    KillKeeps(k, c, q);
  }

  lemma WaitCallStep(k: Kernel, c: nat)
    requires Inv(k) && Enabled(k, WaitCall(c))
    ensures Inv(Next(k, WaitCall(c))) && AssertsHold(k, WaitCall(c))
  {
    hide Inv, Sched, SchedAsserts, PostOn, PostTurns, PostAllOn, GetOn, ChildrenOf, Orphan, Reap, FirstZombie,
        CreateUnder, KillNamed, PostAsserts, LeaveOn, WaitOn, Activate;
    WaitCallKeeps(k, c);
  }

  lemma ExitStep(k: Kernel, c: nat)
    requires Inv(k) && Enabled(k, Exit(c))
    ensures Inv(Next(k, Exit(c))) && AssertsHold(k, Exit(c))
  {
    hide Inv, Sched, SchedAsserts, PostOn, PostTurns, PostAllOn, GetOn, ChildrenOf, Orphan, Reap, FirstZombie,
        CreateUnder, KillNamed, PostAsserts, LeaveOn, WaitOn, Activate;
    ExitKeeps(k, c);
  }

  lemma ExitGetStep(k: Kernel, c: nat)
    requires Inv(k) && Enabled(k, ExitGet(c))
    ensures Inv(Next(k, ExitGet(c))) && AssertsHold(k, ExitGet(c))
  {
    hide Inv, Sched, SchedAsserts, PostOn, PostTurns, PostAllOn, GetOn, ChildrenOf, Orphan, Reap, FirstZombie,
        CreateUnder, KillNamed, PostAsserts, LeaveOn, WaitOn, Activate;
    ExitGetKeeps(k, c);
  }

  lemma PanicStep(k: Kernel, c: nat)
    requires Inv(k) && Enabled(k, Panic(c))
    ensures Inv(Next(k, Panic(c))) && AssertsHold(k, Panic(c))
  {
    hide Inv, Sched, SchedAsserts, PostOn, PostTurns, PostAllOn, GetOn, ChildrenOf, Orphan, Reap, FirstZombie,
        CreateUnder, KillNamed, PostAsserts, LeaveOn, WaitOn, Activate;
    PanicKeeps(k, c);
  }

  lemma GetStep(k: Kernel, c: nat, s: SemId, all: bool)
    requires Inv(k) && Enabled(k, GetSem(c, s, all))
    ensures Inv(Next(k, GetSem(c, s, all))) && AssertsHold(k, GetSem(c, s, all))
  {
    hide Inv, Sched, SchedAsserts, PostOn, PostTurns, PostAllOn, GetOn, ChildrenOf, Orphan, Reap, FirstZombie,
        CreateUnder, KillNamed, PostAsserts, LeaveOn, WaitOn, Activate;
    GetPlainKeeps(k, s, all);
  }

  lemma PostStep(k: Kernel, c: nat, s: SemId)
    requires Inv(k) && Enabled(k, PostSem(c, s))
    ensures Inv(Next(k, PostSem(c, s))) && AssertsHold(k, PostSem(c, s))
  {
    hide Inv, Sched, SchedAsserts, PostOn, PostTurns, PostAllOn, GetOn, ChildrenOf, Orphan, Reap, FirstZombie,
        CreateUnder, KillNamed, PostAsserts, LeaveOn, WaitOn, Activate;
    PostPlainKeeps(k, s);
  }

  lemma YieldStep(k: Kernel, c: nat)
    requires Inv(k) && Enabled(k, Yield(c))
    ensures Inv(Next(k, Yield(c))) && AssertsHold(k, Yield(c))
  {
    hide Inv, Sched, SchedAsserts, PostOn, PostTurns, PostAllOn, GetOn, ChildrenOf, Orphan, Reap, FirstZombie,
        CreateUnder, KillNamed, PostAsserts, LeaveOn, WaitOn, Activate;
    YieldKeeps(k, c);
  }

  lemma ExitDieStep(k: Kernel, c: nat)
    requires Inv(k) && Enabled(k, ExitDie(c))
    ensures Inv(Next(k, ExitDie(c))) && AssertsHold(k, ExitDie(c))
  {
    hide Inv, Sched, SchedAsserts, PostOn, PostTurns, PostAllOn, GetOn, ChildrenOf, Orphan, Reap, FirstZombie,
        CreateUnder, KillNamed, PostAsserts, LeaveOn, WaitOn, Activate;
    ExitDieKeeps(k, c);
  }

  lemma WaitStep(k: Kernel, c: nat, s: SemId, alertable: bool)
    requires Inv(k) && Enabled(k, Wait(c, s, alertable))
    ensures Inv(Next(k, Wait(c, s, alertable))) && AssertsHold(k, Wait(c, s, alertable))
  {
    hide Inv, SchedAsserts, Entered, WaitOn, PostTurns, FirstZombie, ChildrenOf, CellOf, MustSleep;
    WaitPlainKeeps(k, c, s, alertable);
    EnteredAsserts(k, c, s, Outside, if alertable then SLEEPING else DEEPSLEEPING);
  }

  lemma WaitChildStep(k: Kernel, c: nat)
    requires Inv(k) && Enabled(k, WaitChild(c))
    ensures Inv(Next(k, WaitChild(c))) && AssertsHold(k, WaitChild(c))
  {
    hide Inv, SchedAsserts, Entered, WaitOn, PostTurns, FirstZombie, ChildrenOf, CellOf, MustSleep;
    WaitChildKeeps(k, c);
    EnteredAsserts(k, c, Child(This(k, c)), Reaping, SLEEPING);
  }

  lemma BootSched(ncpu: nat)
    ensures SchedInv(Boot(ncpu))
  {
    var k := Boot(ncpu);
    forall c: nat | c < ncpu ensures OnCpu(k, c) {
      assert k.cpus[c] == Idle(c);
    }
    forall p | p in k.state ensures Agrees(k, p) {
      if p.Idle? {
        assert k.cpus[p.cpu] == p;
      }
    }
  }

  lemma BootPlace(ncpu: nat)
    ensures PlaceInv(Boot(ncpu)) && SemInv(Boot(ncpu)) && LockInv(Boot(ncpu))
  {
    var k := Boot(ncpu);
    assert forall p | p in k.pc :: k.pc[p] == Outside;
  }

  lemma BootShape(ncpu: nat)
    ensures var k := Boot(ncpu);
      && k.parent == map[ROOT := ROOT] && k.children == map[ROOT := []] && k.sems == map[Child(ROOT) := NewCell(0)]
          && k.plock == None
      && k.killed == {} && k.reaped == [] && k.maxPid == 1 && PcOf(k, ROOT) == Outside && ROOT in k.state
      && (forall p | p in k.state :: p.Named? ==> p == ROOT)
  {
  }

  lemma BootFamily(ncpu: nat)
    ensures TreeInv(Boot(ncpu)) && PidInv(Boot(ncpu)) && TokenInv(Boot(ncpu))
  {
    hide Boot, PcOf;
    BootShape(ncpu);
    var k := Boot(ncpu);
    assert MembersRight(k) && RootRight(k);
    assert ChildrenRight(k, ROOT) && ParentRight(k, ROOT);
    BootTokens(k);
  }

  lemma BootTokens(k: Kernel)
    requires k.children == map[ROOT := []] && k.sems == map[Child(ROOT) := NewCell(0)] && k.plock == None
        && PcOf(k, ROOT) == Outside
    ensures TokenInv(k)
  {
    assert ChildrenOf(k, ROOT) == [];
    assert DeadKids(k, ROOT) == {};
  }

  lemma BootInv(ncpu: nat)
    ensures Inv(Boot(ncpu))
  {
    hide SchedInv, PlaceInv, SemInv, LockInv, TreeInv, PidInv, TokenInv, Boot;
    BootSched(ncpu);
    BootPlace(ncpu);
    BootFamily(ncpu);
  }

  lemma {:induction false} RunKeeps(ncpu: nat, run: seq<Step>)
    requires After(ncpu, run).Some?
    ensures Inv(After(ncpu, run).value)
    decreases |run|
  {
    hide Inv, Boot, Next, Enabled;
    if run == [] {
      BootInv(ncpu);
    } else {
      RunKeeps(ncpu, run[..|run| - 1]);
      StepKeeps(After(ncpu, run[..|run| - 1]).value, run[|run| - 1]);
    }
  }

  // ----- what holds in every reachable state -----

  /** No ASSERT fails and no PANIC is reached in any run: neither those of the scheduler, nor those of
      the semaphores, nor the one at the end of `wait`. */
  lemma NothingFails(ncpu: nat, run: seq<Step>, step: Step)
    requires After(ncpu, run).Some? && Enabled(After(ncpu, run).value, step)
    ensures AssertsHold(After(ncpu, run).value, step)
  {
    hide *;
    RunKeeps(ncpu, run);
    StepKeeps(After(ncpu, run).value, step);
  }

  /** A process is runnable exactly when it is in the run queue, and then once; it is running exactly
      when it is current on a CPU, and then on one. */
  lemma SchedulerAgreement(ncpu: nat, run: seq<Step>, p: Pid)
    requires After(ncpu, run).Some? && p in After(ncpu, run).value.state && p.Named?
    ensures var k := After(ncpu, run).value;
      && (k.state[p] == RUNNABLE <==> p in k.queue) && (k.state[p] == RUNNING <==> p in k.cpus)
      && (forall i, j | 0 <= i < |k.queue| && 0 <= j < |k.queue| && k.queue[i] == k.queue[j] :: i == j)
      && (forall i, j | 0 <= i < |k.cpus| && 0 <= j < |k.cpus| && k.cpus[i] == k.cpus[j] :: i == j)
  {
    hide After, PlaceInv, SemInv, LockInv, TreeInv, PidInv, TokenInv;
    RunKeeps(ncpu, run);
    var k := After(ncpu, run).value;
    assert Agrees(k, p);
    Injective(k.queue);
    Injective(k.cpus);
  }

  lemma Injective<T>(s: seq<T>)
    requires Distinct(s)
    ensures forall i, j | 0 <= i < |s| && 0 <= j < |s| && s[i] == s[j] :: i == j
  {
  }

  /** The books of every semaphore balance, its sleepers are the processes blocked on it, and nobody
      stays asleep once its unit has been granted. */
  lemma SemaphoreBooks(ncpu: nat, run: seq<Step>, s: SemId)
    requires After(ncpu, run).Some? && s in After(ncpu, run).value.sems
    ensures var k := After(ncpu, run).value; var cell := k.sems[s];
      && |cell.sem.sleepers| == Shortfall(cell.sem.val)
      && cell.init + cell.posts == cell.grants + (if cell.sem.val > 0 then cell.sem.val else 0)
      && (forall w :: w in cell.sem.sleepers <==> w.p in k.pc && k.pc[w.p] == Blocked(s, w, false))
      && (forall p | p in k.pc && k.pc[p].Blocked? && k.pc[p].up ::
          StateOf(k, p) == RUNNABLE || StateOf(k, p) == RUNNING)
  {
    hide After, SchedInv, LockInv, TreeInv, PidInv, TokenInv;
    RunKeeps(ncpu, run);
    var k := After(ncpu, run).value;
    assert CellInv(k.sems[s]);
    forall w ensures w in k.sems[s].sem.sleepers <==> w.p in k.pc && k.pc[w.p] == Blocked(s, w, false) {
      if w in k.sems[s].sem.sleepers {
        assert Listed(k, s, w);
      } else if w.p in k.pc {
        assert BlockedRight(k, w.p, k.pc[w.p]);
      }
    }
    forall p | p in k.pc && k.pc[p].Blocked? && k.pc[p].up ensures StateOf(k, p) == RUNNABLE
      || StateOf(k, p) == RUNNING {
      assert Fits(k.state[p], PcOf(k, p));
    }
  }

  /** First come, first served: a post wakes whoever has slept longest, and nobody else. */
  lemma PostIsFifo(ncpu: nat, run: seq<Step>, s: SemId)
    requires After(ncpu, run).Some? && s in After(ncpu, run).value.sems
        && After(ncpu, run).value.sems[s].sem.sleepers != []
    ensures var k := After(ncpu, run).value; var k1 := PostOn(k, s);
      exists w | w in k.sems[s].sem.sleepers ::
        && PcOf(k1, w.p) == Blocked(s, w, true) && StateOf(k1, w.p) != SLEEPING && StateOf(k1, w.p) != DEEPSLEEPING
        && (forall v | v in k1.sems[s].sem.sleepers :: w.ticket < v.ticket)
        && (forall v :: v in k1.sems[s].sem.sleepers <==> v in k.sems[s].sem.sleepers && v != w)
        && (forall p | p != w.p :: PcOf(k1, p) == PcOf(k, p) && StateOf(k1, p) == StateOf(k, p))
  {
    hide After, SchedInv, LockInv, TreeInv, PidInv, TokenInv;
    RunKeeps(ncpu, run);
    FifoStep(After(ncpu, run).value, s);
  }

  lemma FifoStep(k: Kernel, s: SemId)
    requires SemInv(k) && PlaceInv(k) && s in k.sems && k.sems[s].sem.sleepers != []
    ensures var k1 := PostOn(k, s);
      exists w | w in k.sems[s].sem.sleepers ::
        && PcOf(k1, w.p) == Blocked(s, w, true) && StateOf(k1, w.p) != SLEEPING && StateOf(k1, w.p) != DEEPSLEEPING
        && (forall v | v in k1.sems[s].sem.sleepers :: w.ticket < v.ticket)
        && (forall v :: v in k1.sems[s].sem.sleepers <==> v in k.sems[s].sem.sleepers && v != w)
        && (forall p | p != w.p :: PcOf(k1, p) == PcOf(k, p) && StateOf(k1, p) == StateOf(k, p))
  {
    var cell := k.sems[s];
    assert CellInv(cell);
    PostCellKeeps(cell);
    PostGood(cell.sem);
    var w := Woken(cell.sem)[0];
    assert w in Woken(cell.sem) && w in cell.sem.sleepers && Listed(k, s, w);
    hide CellInv, SemInv, Woken, PostCell, Good;
    FifoWoken(k, s, w);
  }

  lemma FifoWoken(k: Kernel, s: SemId, w: Waiter)
    requires s in k.sems && Woken(k.sems[s].sem) == [w] && w.p in k.state && Fits(k.state[w.p], Blocked(s, w, false))
    ensures var k1 := PostOn(k, s);
      && PcOf(k1, w.p) == Blocked(s, w, true) && StateOf(k1, w.p) != SLEEPING && StateOf(k1, w.p) != DEEPSLEEPING
      && k1.sems == k.sems[s := PostCell(k.sems[s])]
      && (forall p | p != w.p :: PcOf(k1, p) == PcOf(k, p) && StateOf(k1, p) == StateOf(k, p))
  {
    hide Woken, PostCell;
  }

  /** Exact reaping: whenever the process-list lock is free, the units on a process's childexit and the
      one it may have taken are exactly its zombie children. */
  lemma ExactReaping(ncpu: nat, run: seq<Step>, q: Pid)
    requires After(ncpu, run).Some? && q in After(ncpu, run).value.children && After(ncpu, run).value.plock == None
    ensures var k := After(ncpu, run).value;
      && Own(k, q) == |set c | c in ChildrenOf(k, q) && IsZombie(k, c)|
      && (PcOf(k, q) == Reaping ==> exists c :: c in ChildrenOf(k, q) && IsZombie(k, c))
  {
    hide After, SchedInv, SemInv, PlaceInv, LockInv, TreeInv, PidInv, DeadKids, Own, ChildrenOf, PcOf, IsZombie;
    RunKeeps(ncpu, run);
    var k := After(ncpu, run).value;
    assert Owed(k, q) == |DeadKids(k, q)|;
    DeadAreZombies(k, q);
    if PcOf(k, q) == Reaping {
      Split(k);
      ZombieFound(k, q);
    }
  }

  lemma DeadAreZombies(k: Kernel, q: Pid)
    requires PlaceInv(k) && LockInv(k) && k.plock == None
    ensures DeadKids(k, q) == set c | c in ChildrenOf(k, q) && IsZombie(k, c)
  {
    hide PlaceInv, LockInv, PcOf, IsZombie, ChildrenOf;
    forall c ensures DeadPc(PcOf(k, c)) <==> IsZombie(k, c) {
      NobodyDying(k, c);
      GoneZombie(k, c);
    }
  }

  /** Also while a process exits: what it has not yet passed on is owed to the root. */
  lemma ReapingDuringExit(ncpu: nat, run: seq<Step>, q: Pid)
    requires After(ncpu, run).Some? && q in After(ncpu, run).value.children
    ensures var k := After(ncpu, run).value;
      Own(k, q) + (if q == ROOT then InFlight(k) else 0) == |DeadKids(k, q)|
  {
    hide After, SchedInv, SemInv, PlaceInv, LockInv, TreeInv, PidInv;
    RunKeeps(ncpu, run);
  }

  /** `wait` returns a zombie child, and each process is reaped at most once. */
  lemma ReapedOnce(ncpu: nat, run: seq<Step>, c: nat)
    requires After(ncpu, run).Some? && Enabled(After(ncpu, run).value, ReapChild(c))
    ensures var k := After(ncpu, run).value; var k1 := Next(k, ReapChild(c));
      && (exists z ::
          z in ChildrenOf(k, This(k, c)) && IsZombie(k, z) && k1.reaped == k.reaped + [z] && z !in k1.state
          && z !in ChildrenOf(k1, This(k, c)))
      && Distinct(k1.reaped)
  {
    hide After, SchedInv, SemInv, LockInv, TokenInv, Distinct, ChildrenOf, FirstZombie, Next, Enabled;
    RunKeeps(ncpu, run);
    var k := After(ncpu, run).value;
    StepKeeps(k, ReapChild(c));
    ReapKeeps(k, c);
    ReapedIs(k, c);
  }

  lemma ReapedIs(k: Kernel, c: nat)
    requires Inv(k) && Enabled(k, ReapChild(c))
    ensures var q, k1 := This(k, c), Next(k, ReapChild(c));
      exists z ::
        z in ChildrenOf(k, q) && IsZombie(k, z) && k1.reaped == k.reaped + [z] && z !in k1.state
        && z !in ChildrenOf(k1, q)
  {
    hide SchedInv, SemInv, LockInv, TokenInv, PidInv, Distinct, FirstZombie, TreeInv, ChildrenOf, Reap;
    ReapKeeps(k, c);
    Current(k, c);
    Split(k);
    var q := This(k, c);
    var z := FirstZombie(k, ChildrenOf(k, q)).value;
    FirstZombieIs(k, ChildrenOf(k, q));
    GoneZombie(k, z);
    DeadChild(k, q, z);
    ReapAt(k, q, z, q);
    RemoveOnce(ChildrenOf(k, q), z);
    ReapFields(k, q, z);
  }

  lemma ReapFields(k: Kernel, q: Pid, z: Pid)
    ensures z !in Reap(k, q, z).state && Reap(k, q, z).reaped == k.reaped + [z]
  {
    hide Remove, ChildrenOf;
  }

  /** No wake-up is lost: whoever sleeps in `wait` without a unit has children, and while the process-list
      lock is free all of them are still to exit. */
  lemma NoLostWakeup(ncpu: nat, run: seq<Step>, q: Pid)
    requires After(ncpu, run).Some? && q in After(ncpu, run).value.children
    requires var pc := PcOf(After(ncpu, run).value, q); pc.Blocked? && pc.s == Child(q) && !pc.up
    ensures var k := After(ncpu, run).value;
      && ChildrenOf(k, q) != []
      && (k.plock == None ==> forall c | c in ChildrenOf(k, q) :: !IsZombie(k, c))
  {
    hide After, Inv, ChildrenOf, PcOf, IsZombie, Own, SchedInv, PlaceInv, LockInv, TokenInv, PidInv, TreeInv, SemInv;
    RunKeeps(ncpu, run);
    var k := After(ncpu, run).value;
    AsleepInFamily(k, q);
    NoUnits(k, q);
    if k.plock == None {
      ExactReaping(ncpu, run, q);
      var zombies := set c | c in ChildrenOf(k, q) && IsZombie(k, c);
      assert |zombies| == 0;
      forall c | c in ChildrenOf(k, q) ensures !IsZombie(k, c) {
        assert c !in zombies;
      }
    }
  }

  lemma AsleepInFamily(k: Kernel, q: Pid)
    requires Inv(k) && q in k.children && WaitsForChild(PcOf(k, q), q)
    ensures ChildrenOf(k, q) != []
  {
    hide SchedInv, SemInv, PlaceInv, LockInv, TokenInv, PidInv, ChildrenOf, PcOf, WaitsForChild;
    InFamily(k, q);
    Waiters(k, q);
  }

  lemma NoUnits(k: Kernel, q: Pid)
    requires Inv(k) && q in k.children && PcOf(k, q).Blocked? && PcOf(k, q).s == Child(q) && !PcOf(k, q).up
    ensures Own(k, q) == 0
  {
    hide SchedInv, SemInv, PlaceInv, LockInv, TokenInv, PidInv, ChildrenRight, ParentRight, RootRight;
    InFamily(k, q);
    OwnerSleeps(k, q);
  }

  lemma InFamily(k: Kernel, q: Pid)
    requires TreeInv(k) && q in k.children
    ensures q in k.parent
  {
    assert MembersRight(k);
    hide ChildrenRight, ParentRight, RootRight;
  }
}
