// Processes, scheduler and semaphores as one machine: src/kernel/sched.c, src/kernel/proc.c and
// src/common/sem.c over any number of CPUs. A step is one region under its locks: the run queue and
// process states change under the sched lock, a semaphore under its own, the family tree under the
// process-list lock. Where a region hands one lock on to the next (semaphore or process-list lock to
// sched lock) both parts are one step; `exit` holds the process-list lock over many steps.
module KernelSpec {
  import opened SemSpec

  /** A process, named by its pid, or the idle process of a CPU. */
  datatype Pid = Named(n: nat) | Idle(cpu: nat)

  /** `childexit` of a process, or any other semaphore. */
  datatype SemId = Child(p: Pid) | Plain(n: nat)

  datatype PState = UNUSED | RUNNABLE | RUNNING | SLEEPING | DEEPSLEEPING | ZOMBIE

  /** A sleeper with the number of waits on its semaphore before it. */
  datatype Waiter = Waiter(p: Pid, ticket: nat)

  /** Where a process is. */
  datatype Pc =
    | Outside
    | Willing                                      // in wait, has children
    | Blocked(s: SemId, w: Waiter, up: bool)       // in _wait_sem, after calling sched
    | Reaping                                      // in wait, holds a unit of its childexit
    | Moving | Passing | Notifying | Dying         // in exit, holding the process-list lock
    | Gone

  /** A semaphore and its history: units it began with, posts, takes that were granted, waits begun. */
  datatype Cell = Cell(sem: Sem<Waiter>, init: nat, posts: nat, grants: nat, waits: nat)

  datatype Option<T> = None | Some(value: T)

  datatype Kernel = Kernel(
    state: map<Pid, PState>, killed: set<Pid>, parent: map<Pid, Pid>, children: map<Pid, seq<Pid>>, pc: map<Pid, Pc>,
    queue: seq<Pid>, cpus: seq<Pid>, panic: bool,
    sems: map<SemId, Cell>,
    plock: Option<Pid>, maxPid: nat, reaped: seq<Pid>)

  const ROOT: Pid := Named(1)

  function StateOf(k: Kernel, p: Pid): PState {
    if p in k.state then k.state[p] else UNUSED
  }

  function PcOf(k: Kernel, p: Pid): Pc {
    if p in k.pc then k.pc[p] else Outside
  }

  function ChildrenOf(k: Kernel, p: Pid): seq<Pid> {
    if p in k.children then k.children[p] else []
  }

  function ParentOf(k: Kernel, p: Pid): Pid {
    if p in k.parent then k.parent[p] else ROOT
  }

  function NewCell(val: nat): Cell {
    Cell(Sem(val, []), val, 0, 0, 0)
  }

  function CellOf(k: Kernel, s: SemId): Cell {
    if s in k.sems then k.sems[s] else NewCell(0)
  }

  function This(k: Kernel, c: nat): Pid {
    if c < |k.cpus| then k.cpus[c] else Idle(c)
  }

  function GoTo(k: Kernel, p: Pid, to: Pc): Kernel {
    k.(pc := k.pc[p := to])
  }

  // ----- sched.c -----

  predicate Wakes(st: PState, onalert: bool) {
    st == UNUSED || st == SLEEPING || (st == DEEPSLEEPING && !onalert)
  }

  /** `_activate_proc`. */
  function Activate(k: Kernel, p: Pid, onalert: bool): Kernel {
    if p in k.state && Wakes(k.state[p], onalert) then k.(state := k.state[p := RUNNABLE], queue := [p] + k.queue)
      else k
  }

  /** `simple_sched` leaves a killed process where it is, unless it dies or must not be alerted. */
  predicate Refuses(k: Kernel, c: nat, to: PState) {
    This(k, c) in k.killed && to != ZOMBIE && to != DEEPSLEEPING
  }

  /** `update_this_state`. */
  function UpdateThisState(k: Kernel, c: nat, to: PState): Kernel {
    var p := This(k, c);
    k.(state := k.state[p := to], queue := if to == RUNNABLE && !p.Idle? then k.queue + [p] else k.queue)
  }

  /** `pick_next`: the process, and the queue without it. */
  function PickNext(k: Kernel, c: nat): (Pid, seq<Pid>) {
    if k.panic || k.queue == [] then (Idle(c), k.queue) else (k.queue[0], k.queue[1..])
  }

  /** The second half of `simple_sched`: the next process becomes current. */
  function Switch(k: Kernel, c: nat): Kernel
    requires c < |k.cpus|
  {
    var next := PickNext(k, c);
    k.(queue := next.1, cpus := k.cpus[c := next.0], state := k.state[next.0 := RUNNING])
  }

  /** `simple_sched`. */
  function Sched(k: Kernel, c: nat, to: PState): Kernel
    requires c < |k.cpus|
  {
    if Refuses(k, c, to) then k else Switch(UpdateThisState(k, c, to), c)
  }

  /** The ASSERTs of `simple_sched` and `pick_next`. */
  predicate SchedAsserts(k: Kernel, c: nat, to: PState) {
    && StateOf(k, This(k, c)) == RUNNING
    && (!Refuses(k, c, to) ==> var k1 := UpdateThisState(k, c, to); StateOf(k1, PickNext(k1, c).0) == RUNNABLE)
  }

  // ----- sem.c -----

  function Waiting(cell: Cell, p: Pid): Waiter {
    Waiter(p, cell.waits)
  }

  /** `_wait_sem` up to the switch. */
  function EnterCell(cell: Cell, p: Pid): Cell {
    cell.(sem := Enter(cell.sem, Waiting(cell, p)), waits := cell.waits + 1,
          grants := cell.grants + if MustSleep(cell.sem) then 0 else 1)
  }

  function PostCell(cell: Cell): Cell {
    cell.(sem := Post(cell.sem), posts := cell.posts + 1, grants := cell.grants + |Woken(cell.sem)|)
  }

  /** `_wait_sem` by the process on CPU c; `then` is where it goes on if it does not have to sleep. */
  function WaitOn(k: Kernel, c: nat, s: SemId, alertable: bool, then_: Pc): Kernel
    requires c < |k.cpus|
  {
    var p, cell := This(k, c), CellOf(k, s);
    var k1 := k.(sems := k.sems[s := EnterCell(cell, p)]);
    if MustSleep(cell.sem)
      then Sched(GoTo(k1, p, Blocked(s, Waiting(cell, p), false)), c, if alertable then SLEEPING else DEEPSLEEPING)
    else GoTo(k1, p, then_)
  }

  /** `_wait_sem` after the switch. */
  function LeaveOn(k: Kernel, p: Pid): Kernel {
    var pc := PcOf(k, p);
    if !pc.Blocked? then k
    else if pc.up then GoTo(k, p, if pc.s == Child(p) then Reaping else Outside)
    else
      var cell := CellOf(k, pc.s);
      GoTo(k.(sems := k.sems[pc.s := cell.(sem := Undo(cell.sem, pc.w))]), p, Outside)
  }

  /** Tell a waiter that its unit was granted, and activate it. */
  function Grant(k: Kernel, s: SemId, w: Waiter): Kernel {
    Activate(GoTo(k, w.p, Blocked(s, w, true)), w.p, false)
  }

  /** `_post_sem`. */
  function PostOn(k: Kernel, s: SemId): Kernel {
    var cell := CellOf(k, s);
    var k1 := k.(sems := k.sems[s := PostCell(cell)]);
    if Woken(cell.sem) == [] then k1 else Grant(k1, s, Woken(cell.sem)[0])
  }

  function TakeCell(cell: Cell, n: nat): Cell {
    cell.(sem := Sem(cell.sem.val - n, cell.sem.sleepers), grants := cell.grants + n)
  }

  /** `_get_sem` and `get_all_sem`. */
  function GetOn(k: Kernel, s: SemId, all: bool): Kernel {
    var cell := CellOf(k, s);
    if cell.sem.val > 0 then k.(sems := k.sems[s := TakeCell(cell, if all then cell.sem.val else 1)]) else k
  }

  /** n turns of the loop of `post_all_sem`. */
  function PostTurns(k: Kernel, s: SemId, n: nat): Kernel {
    if n == 0 then k else PostOn(PostTurns(k, s, n - 1), s)
  }

  /** `post_all_sem`: it posts until a unit is left over, and takes that one back. */
  function PostAllOn(k: Kernel, s: SemId): Kernel {
    GetOn(PostTurns(k, s, |CellOf(k, s).sem.sleepers| + 1), s, false)
  }

  // ----- proc.c -----

  /** `create_proc` and `_set_proc_parent`. */
  function CreateUnder(k: Kernel, par: Pid): Kernel {
    var q := Named(k.maxPid + 1);
    k.(maxPid := k.maxPid + 1, state := k.state[q := UNUSED], pc := k.pc[q := Outside], parent := k.parent[q := par],
       children := k.children[q := []][par := [q] + ChildrenOf(k, par)], sems := k.sems[Child(q) := NewCell(0)])
  }

  /** `kill` of the process named q. */
  function KillNamed(k: Kernel, q: Pid): Kernel {
    if q in ChildrenOf(k, ROOT) && StateOf(k, q) != UNUSED then Activate(k.(killed := k.killed + {q}), q, true) else k
  }

  /** The order in which `exit` splices its ring of children in: the detached ring is entered at its last node. */
  function Rotated<T>(s: seq<T>): seq<T> {
    if s == [] then [] else [s[|s| - 1]] + s[..|s| - 1]
  }

  /** `exit` takes the process-list lock and gives its children to the root. */
  function Orphan(k: Kernel, e: Pid): Kernel {
    var mine := ChildrenOf(k, e);
    GoTo(k.(plock := Some(e),
            parent := map p | p in k.parent :: if p in mine then ROOT else k.parent[p],
            children := k.children[e := []][ROOT := Rotated(mine) + ChildrenOf(k, ROOT)]), e, Moving)
  }

  predicate IsZombie(k: Kernel, p: Pid) {
    StateOf(k, p) == ZOMBIE
  }

  /** The child `wait` picks: the first zombie in list order. */
  function FirstZombie(k: Kernel, s: seq<Pid>): Option<Pid> {
    if s == [] then None else if IsZombie(k, s[0]) then Some(s[0]) else FirstZombie(k, s[1..])
  }

  /** The end of `wait`: the child leaves its parent's list and is freed. */
  function Reap(k: Kernel, q: Pid, c: Pid): Kernel {
    GoTo(k.(state := k.state - {c}, pc := k.pc - {c}, parent := k.parent - {c}, killed := k.killed - {c},
            children := (k.children - {c})[q := Remove(ChildrenOf(k, q), c)], reaped := k.reaped + [c]), q, Outside)
  }

  // ----- the machine -----

  datatype Step =
    | Yield(c: nat)
    | Wait(c: nat, s: SemId, alertable: bool)      // _wait_sem on a semaphore that is no childexit
    | Leave(c: nat)                                // the rest of _wait_sem
    | PostSem(c: nat, s: SemId)
    | GetSem(c: nat, s: SemId, all: bool)
    | PostAllSem(c: nat, s: SemId)
    | InitSem(c: nat, s: SemId, val: nat)
    | Create(c: nat, underRoot: bool)
    | Start(c: nat, q: Pid)
    | Kill(c: nat, q: Pid)
    | WaitCall(c: nat)                             // wait: are there children?
    | WaitChild(c: nat)                            // wait: _wait_sem on childexit
    | ReapChild(c: nat)                            // wait: the rest
    | Exit(c: nat)                                 // exit: take the lock, give the children away
    | ExitGet(c: nat)                              // exit: get_sem(&this->childexit)
    | ExitPass(c: nat)                             // exit: post_sem(&root_proc.childexit)
    | ExitNotify(c: nat)                           // exit: post_sem(&this->parent->childexit)
    | ExitDie(c: nat)                              // exit: release the lock, sched(ZOMBIE)
    | Panic(c: nat)

  /** Where the running process must be for the step, and what its callers must respect. */
  predicate Enabled(k: Kernel, step: Step) {
    var p := This(k, step.c);
    && step.c < |k.cpus|
    && match step
       case Yield(c) => PcOf(k, p) == Outside
       case Wait(c, s, alertable) => PcOf(k, p) == Outside && p.Named? && s.Plain? && s in k.sems
       case Leave(c) => PcOf(k, p).Blocked?
       case PostSem(c, s) => PcOf(k, p) == Outside && s.Plain? && s in k.sems
       case GetSem(c, s, all) => PcOf(k, p) == Outside && s.Plain? && s in k.sems
       case PostAllSem(c, s) => PcOf(k, p) == Outside && s.Plain? && s in k.sems
       case InitSem(c, s, val) => PcOf(k, p) == Outside && s.Plain? && s !in k.sems
       case Create(c, underRoot) => PcOf(k, p) == Outside && p.Named? && k.plock == None
       case Start(c, q) => PcOf(k, p) == Outside && StateOf(k, q) == UNUSED && q in k.state
       case Kill(c, q) => PcOf(k, p) == Outside && q.Named? && k.plock == None
       case WaitCall(c) => PcOf(k, p) == Outside && p.Named? && k.plock == None
       case WaitChild(c) => PcOf(k, p) == Willing
       case ReapChild(c) => PcOf(k, p) == Reaping && k.plock == None
       case Exit(c) => PcOf(k, p) == Outside && p.Named? && p != ROOT && k.plock == None
       case ExitGet(c) => PcOf(k, p) == Moving
       case ExitPass(c) => PcOf(k, p) == Passing
       case ExitNotify(c) => PcOf(k, p) == Notifying
       case ExitDie(c) => PcOf(k, p) == Dying
       case Panic(c) => true
  }

  function Next(k: Kernel, step: Step): Kernel
    requires Enabled(k, step)
  {
    var p := This(k, step.c);
    match step
    case Yield(c) => Sched(k, c, RUNNABLE)
    case Wait(c, s, alertable) => WaitOn(k, c, s, alertable, Outside)
    case Leave(c) => LeaveOn(k, p)
    case PostSem(c, s) => PostOn(k, s)
    case GetSem(c, s, all) => GetOn(k, s, all)
    case PostAllSem(c, s) => PostAllOn(k, s)
    case InitSem(c, s, val) => k.(sems := k.sems[s := NewCell(val)])
    case Create(c, underRoot) => CreateUnder(k, if underRoot then ROOT else p)
    case Start(c, q) => Activate(k, q, false)
    case Kill(c, q) => KillNamed(k, q)
    case WaitCall(c) => if ChildrenOf(k, p) == [] then k else GoTo(k, p, Willing)
    case WaitChild(c) => WaitOn(k, c, Child(p), true, Reaping)
    case ReapChild(c) =>
      var z := FirstZombie(k, ChildrenOf(k, p));
      if z.Some? then Reap(k, p, z.value) else k
    case Exit(c) => Orphan(k, p)
    case ExitGet(c) =>
      if CellOf(k, Child(p)).sem.val > 0 then GoTo(GetOn(k, Child(p), false), p, Passing) else GoTo(k, p, Notifying)
    case ExitPass(c) => GoTo(PostOn(k, Child(ROOT)), p, Moving)
    case ExitNotify(c) => GoTo(PostOn(k, Child(ParentOf(k, p))), p, Dying)
    case ExitDie(c) => Sched(GoTo(k.(plock := None), p, Gone), c, ZOMBIE)
    case Panic(c) => k.(panic := true)
  }

  /** The ASSERTs and PANICs on the way. */
  predicate AssertsHold(k: Kernel, step: Step)
    requires Enabled(k, step)
  {
    var p := This(k, step.c);
    match step
    case Yield(c) => SchedAsserts(k, c, RUNNABLE)
    case Wait(c, s, alertable) => MustSleep(CellOf(k, s).sem) ==>
      SchedAsserts(k, c, if alertable then SLEEPING else DEEPSLEEPING)
    case Leave(c) =>
      var pc := PcOf(k, p);
      !pc.up ==> pc.w in CellOf(k, pc.s).sem.sleepers && Undo(CellOf(k, pc.s).sem, pc.w).val <= 0
    case PostSem(c, s) => PostAsserts(CellOf(k, s).sem)
    case PostAllSem(c, s) => forall n: nat | n <= |CellOf(k, s).sem.sleepers| ::
      PostAsserts(CellOf(PostTurns(k, s, n), s).sem)
    case Start(c, q) => q.Named?
    case WaitChild(c) => MustSleep(CellOf(k, Child(p)).sem) ==> SchedAsserts(k, c, SLEEPING)
    case ReapChild(c) => FirstZombie(k, ChildrenOf(k, p)).Some?
    case ExitPass(c) => PostAsserts(CellOf(k, Child(ROOT)).sem)
    case ExitNotify(c) => PostAsserts(CellOf(k, Child(ParentOf(k, p))).sem)
    case ExitDie(c) => SchedAsserts(k, c, ZOMBIE)
    case _ => true
  }

  /** Every CPU runs its idle process, the root is about to run, nothing has been posted. */
  function Boot(ncpu: nat): Kernel {
    Kernel(map p | p in Idles(ncpu) + {ROOT} :: if p == ROOT then RUNNABLE else RUNNING,
           {}, map[ROOT := ROOT], map[ROOT := []], map p | p in Idles(ncpu) + {ROOT} :: Outside,
           [ROOT], seq(ncpu, c requires 0 <= c => Idle(c)), false, map[Child(ROOT) := NewCell(0)], None, 1, [])
  }

  function Idles(ncpu: nat): set<Pid> {
    set c | 0 <= c < ncpu :: Idle(c)
  }

  /** Where a run of steps leads, if each of them is enabled in turn. */
  function After(ncpu: nat, run: seq<Step>): Option<Kernel> {
    if run == [] then Some(Boot(ncpu))
    else
      var before, step := After(ncpu, run[..|run| - 1]), run[|run| - 1];
      if before.Some? && Enabled(before.value, step) then Some(Next(before.value, step)) else None
  }
}
