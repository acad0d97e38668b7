// The run queue over a run: who is first takes the CPU, who yields goes to the end, who is woken comes first.
module KernelQueue {
  import opened SemSpec
  import opened KernelSpec

  /** The step calls sched, and sched does switch. */
  predicate Switches(k: Kernel, step: Step)
    requires Enabled(k, step)
  {
    var me := This(k, step.c);
    match step
    case Yield(c) => me !in k.killed
    case Wait(c, s, alertable) => MustSleep(CellOf(k, s).sem) && (alertable ==> me !in k.killed)
    case WaitChild(c) => MustSleep(CellOf(k, Child(me)).sem) && me !in k.killed
    case ExitDie(c) => true
    case _ => false
  }

  predicate Still(k: Kernel, k1: Kernel) {
    k1.queue == k.queue && k1.cpus == k.cpus
  }

  /** Somebody has been put in front of everybody who waits. */
  ghost predicate Preempts(k: Kernel, k1: Kernel) {
    k1.cpus == k.cpus && exists p, rest :: k1.queue == [p] + rest + k.queue
  }

  /** The first of the queue takes CPU c; whoever had it goes to the end, if it wants to go on. */
  predicate Advances(k: Kernel, k1: Kernel, c: nat, again: bool)
    requires c < |k.cpus|
  {
    var line := k.queue + if again then [k.cpus[c]] else [];
    line != [] && k1.queue == line[1..] && k1.cpus == k.cpus[c := line[0]]
  }

  lemma SchedAdvances(k: Kernel, c: nat, to: PState)
    requires c < |k.cpus| && !Refuses(k, c, to) && !k.panic && k.queue != []
    ensures Advances(k, Sched(k, c, to), c, to == RUNNABLE && !This(k, c).Idle?)
  {
  }

  lemma SchedStays(k: Kernel, c: nat, to: PState)
    requires c < |k.cpus| && Refuses(k, c, to)
    ensures Still(k, Sched(k, c, to))
  {
  }

  lemma ActivateFront(k: Kernel, p: Pid, onalert: bool)
    ensures Still(k, Activate(k, p, onalert)) || Preempts(k, Activate(k, p, onalert))
    ensures p in k.state && Wakes(k.state[p], onalert) ==>
      Activate(k, p, onalert).queue == [p] + k.queue && Activate(k, p, onalert).cpus == k.cpus
  {
    assert [p] + [] + k.queue == [p] + k.queue;
  }

  lemma PostFront(k: Kernel, s: SemId)
    ensures Still(k, PostOn(k, s)) || Preempts(k, PostOn(k, s))
  {
    var cell := CellOf(k, s);
    if Woken(cell.sem) != [] {
      var w := Woken(cell.sem)[0];
      ActivateFront(GoTo(k.(sems := k.sems[s := PostCell(cell)]), w.p, Blocked(s, w, true)), w.p, false);
    }
  }

  lemma {:induction false} PostTurnsFront(k: Kernel, s: SemId, n: nat)
    ensures Still(k, PostTurns(k, s, n)) || Preempts(k, PostTurns(k, s, n))
  {
    hide PostOn;
    if n > 0 {
      var k1 := PostTurns(k, s, n - 1);
      PostTurnsFront(k, s, n - 1);
      PostFront(k1, s);
      FrontAgain(k, k1, PostOn(k1, s));
    }
  }

  lemma FrontAgain(k: Kernel, k1: Kernel, k2: Kernel)
    requires Still(k, k1) || Preempts(k, k1)
    requires Still(k1, k2) || Preempts(k1, k2)
    ensures Still(k, k2) || Preempts(k, k2)
  {
    if Preempts(k, k1) && Preempts(k1, k2) {
      var p, rest :| k1.queue == [p] + rest + k.queue;
      var q, more :| k2.queue == [q] + more + k1.queue;
      assert k2.queue == [q] + (more + [p] + rest) + k.queue;
    }
  }

  lemma WaitFront(k: Kernel, c: nat, s: SemId, alertable: bool, then_: Pc)
    requires c < |k.cpus| && !k.panic && k.queue != []
    ensures var k1 := WaitOn(k, c, s, alertable, then_);
      if MustSleep(CellOf(k, s).sem) && (alertable ==> This(k, c) !in k.killed) then Advances(k, k1, c, false)
      else Still(k, k1)
  {
    hide Sched;
    var p, cell := This(k, c), CellOf(k, s);
    var to := if alertable then SLEEPING else DEEPSLEEPING;
    if MustSleep(cell.sem) {
      var k1 := GoTo(k.(sems := k.sems[s := EnterCell(cell, p)]), p, Blocked(s, Waiting(cell, p), false));
      if Refuses(k1, c, to) {
        SchedStays(k1, c, to);
      } else {
        SchedAdvances(k1, c, to);
      }
    }
  }

  /** Every step of every CPU either lets the first of the queue run, or leaves queue and CPUs alone, or puts
      somebody in front. */
  lemma StepOnQueue(k: Kernel, step: Step)
    requires Enabled(k, step) && !k.panic && k.queue != []
    ensures if Switches(k, step) then Advances(k, Next(k, step), step.c, step.Yield? && !This(k, step.c).Idle?)
            else Still(k, Next(k, step)) || Preempts(k, Next(k, step))
  {
    hide Sched, WaitOn, PostOn, PostTurns, Activate, Preempts, ChildrenOf, CreateUnder, KillNamed, Orphan, Reap,
        FirstZombie;
    var p := This(k, step.c);
    match step
    case Yield(c) => YieldOnQueue(k, c);
    case Wait(c, s, alertable) => WaitFront(k, c, s, alertable, Outside);
    case Leave(c) =>
    case PostSem(c, s) => PostFront(k, s);
    case GetSem(c, s, all) =>
    case PostAllSem(c, s) =>
      var n := |CellOf(k, s).sem.sleepers| + 1;
      PostTurnsFront(k, s, n);
      SameFront(k, PostTurns(k, s, n), PostAllOn(k, s));
    case InitSem(c, s, val) =>
    case Create(c, underRoot) => CreateStill(k, if underRoot then ROOT else p);
    case Start(c, q) => ActivateFront(k, q, false);
    case Kill(c, q) => KillFront(k, q);
    case WaitCall(c) =>
    case WaitChild(c) => WaitFront(k, c, Child(p), true, Reaping);
    case ReapChild(c) => ReapStill(k, c);
    case Exit(c) => OrphanStill(k, p);
    case ExitGet(c) =>
    case ExitPass(c) =>
      PostFront(k, Child(ROOT));
      SameFront(k, PostOn(k, Child(ROOT)), Next(k, step));
    case ExitNotify(c) =>
      PostFront(k, Child(ParentOf(k, p)));
      SameFront(k, PostOn(k, Child(ParentOf(k, p))), Next(k, step));
    case ExitDie(c) => SchedAdvances(GoTo(k.(plock := None), p, Gone), c, ZOMBIE);
    case Panic(c) =>
  }

  lemma YieldOnQueue(k: Kernel, c: nat)
    requires c < |k.cpus| && !k.panic && k.queue != []
    ensures if This(k, c) !in k.killed then Advances(k, Sched(k, c, RUNNABLE), c, !This(k, c).Idle?)
            else Still(k, Sched(k, c, RUNNABLE))
  {
    hide Sched;
    if Refuses(k, c, RUNNABLE) {
      SchedStays(k, c, RUNNABLE);
    } else {
      SchedAdvances(k, c, RUNNABLE);
    }
  }

  lemma SameFront(k: Kernel, k1: Kernel, k2: Kernel)
    requires Still(k, k1) || Preempts(k, k1)
    requires Still(k1, k2)
    ensures Still(k, k2) || Preempts(k, k2)
  {
    FrontAgain(k, k1, k2);
  }

  lemma KillFront(k: Kernel, q: Pid)
    ensures Still(k, KillNamed(k, q)) || Preempts(k, KillNamed(k, q))
  {
    hide Activate;
    var k1 := k.(killed := k.killed + {q});
    ActivateFront(k1, q, true);
    FrontAgain(k, k1, Activate(k1, q, true));
  }

  lemma CreateStill(k: Kernel, par: Pid)
    ensures Still(k, CreateUnder(k, par))
  {
  }

  lemma OrphanStill(k: Kernel, p: Pid)
    ensures Still(k, Orphan(k, p))
  {
  }

  lemma ReapStill(k: Kernel, c: nat)
    requires Enabled(k, ReapChild(c))
    ensures Still(k, Next(k, ReapChild(c)))
  {
    hide ChildrenOf, FirstZombie, Remove;
  }

  // ----- over any stretch of steps -----

  /** Where the steps lead from k, if each of them is enabled in turn. */
  function From(k: Kernel, steps: seq<Step>): Option<Kernel>
    decreases |steps|
  {
    if steps == [] then Some(k)
    else if Enabled(k, steps[0]) then From(Next(k, steps[0]), steps[1..])
    else None
  }

  /** How often the steps switch. */
  function Turns(k: Kernel, steps: seq<Step>): nat
    requires From(k, steps).Some?
    decreases |steps|
  {
    if steps == [] then 0
    else (if Switches(k, steps[0]) then 1 else 0) + Turns(Next(k, steps[0]), steps[1..])
  }

  /** No step puts anybody in front of the queue, and there is no panic. */
  predicate Calm(k: Kernel, steps: seq<Step>)
    requires From(k, steps).Some?
    decreases |steps|
  {
    steps != [] ==>
      && !k.panic && (Switches(k, steps[0]) || Still(k, Next(k, steps[0])))
      && Calm(Next(k, steps[0]), steps[1..])
  }

  /** While nobody is put in front, a process in the queue moves up by one place with every switch. */
  lemma {:induction false} MovesUp(k: Kernel, steps: seq<Step>, i: nat)
    requires From(k, steps).Some? && Calm(k, steps) && i < |k.queue| && Turns(k, steps) <= i
    ensures var k1 := From(k, steps).value;
      i - Turns(k, steps) < |k1.queue| && k1.queue[i - Turns(k, steps)] == k.queue[i]
    decreases |steps|
  {
    hide Enabled, Next, Switches;
    if steps != [] {
      StepOnQueue(k, steps[0]);
      MovesUp(Next(k, steps[0]), steps[1..], if Switches(k, steps[0]) then i - 1 else i);
    }
  }

  /** And at the switch after it has reached the front, it gets the CPU: from place i, at switch i + 1. */
  lemma {:induction false} GetsItsTurn(k: Kernel, steps: seq<Step>, i: nat) returns (m: nat)
    requires From(k, steps).Some? && Calm(k, steps) && i < |k.queue| && Turns(k, steps) >= i + 1
    ensures 0 < m <= |steps| && From(k, steps[..m]).Some? && Turns(k, steps[..m]) == i + 1
    ensures var c, k1 := steps[m - 1].c, From(k, steps[..m]).value; c < |k1.cpus| && k1.cpus[c] == k.queue[i]
    decreases |steps|
  {
    hide Next, Switches;
    StepOnQueue(k, steps[0]);
    var k1, rest := Next(k, steps[0]), steps[1..];
    if Switches(k, steps[0]) && i == 0 {
      m := 1;
      assert steps[..1][1..] == [];
    } else {
      m := GetsItsTurn(k1, rest, if Switches(k, steps[0]) then i - 1 else i);
      assert steps[..m + 1][1..] == rest[..m] && steps[..m + 1][0] == steps[0];
      m := m + 1;
    }
  }

  /** Every step is a yield, by a process that is not killed. */
  predicate Yielding(k: Kernel, steps: seq<Step>)
    decreases |steps|
  {
    steps != [] ==>
      && steps[0].Yield? && Enabled(k, steps[0]) && !k.panic && This(k, steps[0].c) !in k.killed
      && Yielding(Next(k, steps[0]), steps[1..])
  }

  lemma {:induction false} YieldsAreTurns(k: Kernel, steps: seq<Step>)
    requires Yielding(k, steps)
    ensures From(k, steps).Some? && Calm(k, steps) && Turns(k, steps) == |steps|
    decreases |steps|
  {
    hide Enabled, Next;
    if steps != [] {
      YieldsAreTurns(Next(k, steps[0]), steps[1..]);
    }
  }

  /** If everybody yields in turn, place i of the queue has the CPU after i + 1 yields: the one that yielded last. */
  lemma YieldsReach(k: Kernel, steps: seq<Step>)
    requires Yielding(k, steps) && 0 < |steps| <= |k.queue|
    ensures From(k, steps).Some?
    ensures var c, k1 := steps[|steps| - 1].c, From(k, steps).value; c < |k1.cpus| && k1.cpus[c] == k.queue[|steps| - 1]
  {
    YieldsAreTurns(k, steps);
    var m := GetsItsTurn(k, steps, |steps| - 1);
    YieldingPrefix(k, steps, m);
    YieldsAreTurns(k, steps[..m]);
    assert steps[..|steps|] == steps;
  }

  lemma {:induction false} YieldingPrefix(k: Kernel, steps: seq<Step>, m: nat)
    requires Yielding(k, steps) && m <= |steps|
    ensures Yielding(k, steps[..m])
    decreases |steps|
  {
    hide Enabled, Next;
    if m > 0 {
      YieldingPrefix(Next(k, steps[0]), steps[1..], m - 1);
      assert steps[..m][1..] == steps[1..][..m - 1];
    }
  }
}
