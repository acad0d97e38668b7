// What every reachable state of the machine satisfies.
module KernelInv {
  import opened SemSpec
  import opened KernelSpec

  // ----- scheduler -----

  /** A current process is running, and an idle process only ever runs on its own CPU. */
  predicate OnCpu(k: Kernel, c: nat)
    requires c < |k.cpus|
  {
    k.cpus[c] in k.state && k.state[k.cpus[c]] == RUNNING && Idle(c) in k.state
      && (k.cpus[c].Idle? ==> k.cpus[c] == Idle(c))
  }

  /** The state of a process agrees with the run queue and the CPUs. */
  predicate Agrees(k: Kernel, p: Pid)
    requires p in k.state
  {
    && (k.state[p] == RUNNING <==> p in k.cpus)
    && (p.Named? ==> (k.state[p] == RUNNABLE <==> p in k.queue))
    && (p.Idle? ==> p.cpu < |k.cpus| && (k.state[p] == RUNNABLE || k.state[p] == RUNNING))
  }

  ghost predicate SchedInv(k: Kernel) {
    && (forall c: nat | c < |k.cpus| :: OnCpu(k, c))
    && (forall p | p in k.state :: Agrees(k, p))
    && (forall p | p in k.queue :: p.Named? && p in k.state)
    && Distinct(k.cpus) && Distinct(k.queue)
  }

  // ----- state and place -----

  predicate InExit(pc: Pc) {
    pc == Moving || pc == Passing || pc == Notifying || pc == Dying
  }

  predicate Fits(st: PState, pc: Pc) {
    match pc
    case Outside => st == UNUSED || st == RUNNABLE || st == RUNNING
    case Blocked(_, _, up) => st == RUNNABLE || st == RUNNING || (!up && (st == SLEEPING || st == DEEPSLEEPING))
    case Gone => st == ZOMBIE
    case _ => st == RUNNING
  }

  predicate PlaceInv(k: Kernel) {
    && k.pc.Keys == k.state.Keys
    && (forall p | p in k.state :: Fits(k.state[p], PcOf(k, p)) && (p.Idle? ==> PcOf(k, p) == Outside))
  }

  // ----- semaphores -----

  /** Sleepers in the order they came: the ring has the newest first. */
  predicate Ordered(cell: Cell) {
    && (forall i, j | 0 <= i < j < |cell.sem.sleepers| :: cell.sem.sleepers[i].ticket > cell.sem.sleepers[j].ticket)
    && (forall w | w in cell.sem.sleepers :: w.ticket < cell.waits)
  }

  /** Units are conserved. */
  predicate Conserved(cell: Cell) {
    cell.init + cell.posts == cell.grants + if cell.sem.val > 0 then cell.sem.val else 0
  }

  ghost predicate CellInv(cell: Cell) {
    Good(cell.sem) && Ordered(cell) && Conserved(cell)
  }

  /** Whoever is on a sleep list is blocked there, and knows no better. */
  predicate Listed(k: Kernel, s: SemId, w: Waiter) {
    PcOf(k, w.p) == Blocked(s, w, false)
  }

  predicate BlockedRight(k: Kernel, p: Pid, pc: Pc) {
    pc.Blocked? ==>
      pc.w.p == p && pc.s in k.sems && (!pc.up ==> pc.w in k.sems[pc.s].sem.sleepers) && (pc.s.Child? ==> pc.s.p == p)
  }

  ghost predicate SemInv(k: Kernel) {
    && (forall s | s in k.sems :: CellInv(k.sems[s]) && forall w | w in k.sems[s].sem.sleepers :: Listed(k, s, w))
    && (forall p | p in k.pc :: BlockedRight(k, p, k.pc[p]))
  }

  // ----- family -----

  predicate LockInv(k: Kernel) {
    && (forall p | p in k.pc :: InExit(k.pc[p]) <==> k.plock == Some(p))
    && (k.plock.Some? ==> k.plock.value in k.pc)
  }

  predicate WaitsForChild(pc: Pc, p: Pid) {
    pc == Willing || pc == Reaping || (pc.Blocked? && pc.s == Child(p))
  }

  ghost predicate ChildrenRight(k: Kernel, q: Pid) {
    && Distinct(ChildrenOf(k, q))
    && (forall c | c in ChildrenOf(k, q) :: c in k.parent && c != ROOT && k.parent[c] == q)
    && (InExit(PcOf(k, q)) || PcOf(k, q) == Gone ==> ChildrenOf(k, q) == [])
    && (WaitsForChild(PcOf(k, q), q) ==> ChildrenOf(k, q) != [])
  }

  predicate ParentRight(k: Kernel, p: Pid) {
    ParentOf(k, p) in k.parent && (p != ROOT ==> p in ChildrenOf(k, ParentOf(k, p)))
  }

  /** Exactly the named processes are in the family. */
  predicate MembersRight(k: Kernel) {
    && k.children.Keys == k.parent.Keys
    && (forall p | p in k.state && p.Named? :: p in k.parent && Child(p) in k.sems)
    && (forall p | p in k.parent :: p.Named? && p in k.state)
  }

  predicate RootRight(k: Kernel) {
    ROOT in k.parent && k.parent[ROOT] == ROOT && !InExit(PcOf(k, ROOT)) && PcOf(k, ROOT) != Gone
  }

  ghost predicate TreeInv(k: Kernel) {
    && MembersRight(k) && RootRight(k)
    && (forall p | p in k.parent :: ParentRight(k, p))
    && (forall q | q in k.children :: ChildrenRight(k, q))
  }

  ghost predicate PidInv(k: Kernel) {
    && Distinct(k.reaped)
    && (forall p | p in k.state && p.Named? :: p.n <= k.maxPid)
    && (forall s | s in k.sems && s.Child? :: s.p.Named? && s.p.n <= k.maxPid)
    && (forall p | p in k.killed :: p in k.state && p.Named?)
    && (forall p | p in k.reaped :: p.Named? && p.n <= k.maxPid && p !in k.state)
  }

  // ----- reaping -----

  predicate DeadPc(pc: Pc) {
    pc == Dying || pc == Gone
  }

  /** The zombies among the children of q, and a child that has announced itself as one. */
  function DeadKids(k: Kernel, q: Pid): set<Pid> {
    set c | c in ChildrenOf(k, q) && DeadPc(PcOf(k, c))
  }

  function Tokens(k: Kernel, q: Pid): nat {
    if CellOf(k, Child(q)).sem.val > 0 then CellOf(k, Child(q)).sem.val else 0
  }

  /** Units that the process in `exit` still has to pass on to the root. */
  function InFlight(k: Kernel): nat {
    if k.plock == None then 0
    else match PcOf(k, k.plock.value)
      case Moving => Tokens(k, k.plock.value)
      case Passing => Tokens(k, k.plock.value) + 1
      case _ => 0
  }

  /** Units on q's childexit, and a unit q has taken and not used yet. */
  function Own(k: Kernel, q: Pid): nat {
    match PcOf(k, q)
    case Moving => 0
    case Passing => 0
    case Reaping => Tokens(k, q) + 1
    case Blocked(s, _, up) => Tokens(k, q) + if up && s == Child(q) then 1 else 0
    case _ => Tokens(k, q)
  }

  function Owed(k: Kernel, q: Pid): nat {
    Own(k, q) + if q == ROOT then InFlight(k) else 0
  }

  /** One unit for each zombie child that has not been reaped. */
  predicate TokenInv(k: Kernel) {
    forall q | q in k.children :: Owed(k, q) == |DeadKids(k, q)|
  }

  ghost predicate Inv(k: Kernel) {
    SchedInv(k) && PlaceInv(k) && SemInv(k) && LockInv(k) && TreeInv(k) && PidInv(k) && TokenInv(k)
  }

  // ----- the scheduler's own steps -----

  predicate Newly(to: PState) {
    to == RUNNABLE || to == SLEEPING || to == DEEPSLEEPING || to == ZOMBIE
  }

  lemma IdleHome(k: Kernel, c: nat)
    requires SchedInv(k) && c < |k.cpus| && Idle(c) in k.cpus
    ensures k.cpus[c] == Idle(c)
  {
    var d :| 0 <= d < |k.cpus| && k.cpus[d] == Idle(c);
    assert OnCpu(k, d);
  }

  /** Between `update_this_state` and `pick_next`: the queue holds exactly the processes that can run. */
  ghost predicate Between(k: Kernel, c: nat) {
    && c < |k.cpus|
    && (forall d: nat | d < |k.cpus| && d != c :: OnCpu(k, d))
    && Idle(c) in k.state && k.state[Idle(c)] == RUNNABLE && k.cpus[c] in k.state && k.state[k.cpus[c]] != RUNNING
    && (forall p | p in k.state && p != k.cpus[c] :: Agrees(k, p))
    && (k.cpus[c].Named? ==> (k.state[k.cpus[c]] == RUNNABLE <==> k.cpus[c] in k.queue))
    && (k.cpus[c].Idle? ==> k.cpus[c] == Idle(c))
    && (forall p | p in k.queue :: p.Named? && p in k.state)
    && Distinct(k.cpus) && Distinct(k.queue)
  }

  lemma UpdateKeeps(k: Kernel, c: nat, to: PState)
    requires SchedInv(k) && c < |k.cpus| && Newly(to) && (k.cpus[c].Idle? ==> to == RUNNABLE)
    ensures Between(UpdateThisState(k, c, to), c)
  {
    assert OnCpu(k, c);
    assert Agrees(k, k.cpus[c]) && Agrees(k, Idle(c));
    if Idle(c) in k.cpus {
      IdleHome(k, c);
    }
    var k1 := UpdateThisState(k, c, to);
    forall d: nat | d < |k1.cpus| && d != c ensures OnCpu(k1, d) {
      assert OnCpu(k, d);
    }
    forall p | p in k1.state && p != k.cpus[c] ensures Agrees(k1, p) {
      assert Agrees(k, p);
    }
  }

  lemma PickKeeps(k: Kernel, c: nat)
    requires Between(k, c)
    ensures var n := PickNext(k, c);
      && n.0 in k.state && k.state[n.0] == RUNNABLE && (n.0.Idle? ==> n.0 == Idle(c)) && n.0 !in n.1
      && (forall p | p != n.0 :: p in n.1 <==> p in k.queue) && Distinct(n.1)
          && (forall d: nat | d < |k.cpus| && d != c :: k.cpus[d] != n.0)
  {
    var n := PickNext(k, c);
    forall d: nat | d < |k.cpus| && d != c ensures k.cpus[d] != n.0 {
      assert OnCpu(k, d);
    }
    if !k.panic && k.queue != [] {
      assert k.queue == [k.queue[0]] + k.queue[1..];
      assert k.queue[0] in k.queue;
    }
  }

  lemma SwitchKeeps(k: Kernel, c: nat, n: Pid, q: seq<Pid>)
    requires Between(k, c) && n in k.state && k.state[n] == RUNNABLE && (n.Idle? ==> n == Idle(c)) && n !in q
    requires (forall p | p != n :: p in q <==> p in k.queue) && Distinct(q)
        && forall d: nat | d < |k.cpus| && d != c :: k.cpus[d] != n
    ensures SchedInv(k.(queue := q, cpus := k.cpus[c := n], state := k.state[n := RUNNING]))
  {
    var k2 := k.(queue := q, cpus := k.cpus[c := n], state := k.state[n := RUNNING]);
    forall d: nat | d < |k2.cpus| ensures OnCpu(k2, d) {
      if d != c {
        assert OnCpu(k, d);
      }
    }
    forall p ensures p in k2.cpus <==> p == n || (p in k.cpus && p != k.cpus[c]) {
      if p in k.cpus && p != k.cpus[c] {
        var d :| 0 <= d < |k.cpus| && k.cpus[d] == p;
        assert k2.cpus[d] == p;
      }
      if p == n {
        assert k2.cpus[c] == n;
      }
    }
    forall p | p in k2.state ensures Agrees(k2, p) {
      if p != k.cpus[c] {
        assert Agrees(k, p);
      }
    }
  }

  lemma SchedKeeps(k: Kernel, c: nat, to: PState)
    requires SchedInv(k) && c < |k.cpus| && Newly(to) && (k.cpus[c].Idle? ==> to == RUNNABLE)
    ensures SchedInv(Sched(k, c, to)) && SchedAsserts(k, c, to)
  {
    assert OnCpu(k, c);
    if !Refuses(k, c, to) {
      UpdateKeeps(k, c, to);
      hide SchedInv, Between;
      var k1 := UpdateThisState(k, c, to);
      PickKeeps(k1, c);
      SwitchKeeps(k1, c, PickNext(k1, c).0, PickNext(k1, c).1);
    }
  }

  lemma ActivateKeeps(k: Kernel, p: Pid, onalert: bool)
    requires SchedInv(k) && p.Named?
    ensures SchedInv(Activate(k, p, onalert))
  {
    var k1 := Activate(k, p, onalert);
    if p in k.state && Wakes(k.state[p], onalert) {
      assert Agrees(k, p);
      forall d: nat | d < |k1.cpus| ensures OnCpu(k1, d) {
        assert OnCpu(k, d);
      }
      forall q | q in k1.state ensures Agrees(k1, q) {
        assert Agrees(k, q);
      }
    }
  }
}
