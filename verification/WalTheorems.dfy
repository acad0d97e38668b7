/** The theorems about every run. */
module WalTheorems {
  import opened Blocks
  import opened WalSpec
  import opened SemSpec
  import opened LogSpec
  import opened WalMachine
  import opened WalCounters
  import opened WalDisk
  import opened WalHistory

  ghost predicate Inv(sb: SuperBlock, d0: Disk, s: State) {
    && DiskInv(sb, d0, s)
    && (s.mode.Serving? ==> LogInv(sb, |s.disk|, s.mode.up, s.used))
    && HistInv(s)
  }

  lemma InitInv(sb: SuperBlock, s: State)
    requires Init(sb, s)
    ensures Inv(sb, Recovered(sb, s.disk), s)
  {
    hide Recovered, RecoverWrites, DecodeHeader, HeaderOk;
  }

  lemma CrashKeeps(sb: SuperBlock, d0: Disk, s: State)
    requires Inv(sb, d0, s) && Shape(sb, s) && Enabled(sb, s, Crash)
    ensures Inv(sb, d0, Do(sb, s, Crash))
  {
    hide Durable, Recovered, LogInv, HistInv, DecodeHeader, HeaderOk;
    AlwaysRecoverable(sb, d0, s);
    Forgotten(s, Do(sb, s, Crash));
  }

  lemma BootKeeps(sb: SuperBlock, d0: Disk, s: State, step: Step)
    requires Inv(sb, d0, s) && Shape(sb, s) && Enabled(sb, s, step) && (step.BootWrite? || step.BootFinish?)
    ensures Inv(sb, d0, Do(sb, s, step))
  {
    hide DiskInv, HistInv, DecodeHeader, HeaderOk;
    var t := Do(sb, s, step);
    if step.BootWrite? {
      BootWriteKeeps(sb, d0, s);
      Forgotten(s, t) by { assert s.mode.Booting?; }
    } else {
      BootFinishKeeps(sb, d0, s);
      FreshLog(sb, |s.disk|, DiskHeader(sb, s.disk), s.disk, s.used);
      Unchanged(s, t);
    }
  }

  lemma FreshLog(sb: SuperBlock, size: nat, h: Header, d: Disk, used: set<OpId>)
    requires h.numBlocks == 0
    ensures LogInv(sb, size, Up(Log(h, 0, false, 0, FRESH_SEM, FRESH_SEM), d, {}, map[], None, d, 0), used)
  {
  }

  lemma StartKeeps(sb: SuperBlock, d0: Disk, s: State, op: OpId)
    requires Inv(sb, d0, s) && Shape(sb, s) && Enabled(sb, s, Start(op))
    ensures Inv(sb, d0, Do(sb, s, Start(op)))
  {
    hide HistInv, DecodeHeader, HeaderOk, Durable, Apply, CommitWrites, LogInv;
    StartLog(sb, |s.disk|, s.mode.up, s.used, op);
    StartHistory(s, s.mode.up, op);
  }

  lemma StartLog(sb: SuperBlock, size: nat, u: Up, used: set<OpId>, op: OpId)
    requires LogInv(sb, size, u, used) && op !in used
    ensures LogInv(sb, size, u.(starting := u.starting + {op}), used + {op})
  {
    hide HeaderOk, Good;
  }

  lemma StartHistory(s: State, u: Up, op: OpId)
    requires HistInv(s) && s.mode == Serving(u) && op !in s.used
    ensures HistInv(s.(mode := Serving(u.(starting := u.starting + {op})), used := s.used + {op}))
  {
    hide HistInv;
    assert op !in Uncommitted(s) && op !in Waiting(s) by { NewOpIsNowhere(s, op); }
    var t := s.(mode := Serving(u.(starting := u.starting + {op})), used := s.used + {op});
    assert Uncommitted(t) == Uncommitted(s);
    assert Waiting(t) == Waiting(s) + {op};
    WaitingApart(s);
    Unchanged(s, t);
  }

  lemma NewOpIsNowhere(s: State, op: OpId)
    requires HistInv(s) && op !in s.used
    ensures op !in Uncommitted(s) && op !in Waiting(s)
  {
  }

  lemma AttemptStepKeeps(sb: SuperBlock, d0: Disk, s: State, op: OpId)
    requires Inv(sb, d0, s) && Shape(sb, s) && Enabled(sb, s, Attempt(op))
    ensures Inv(sb, d0, Do(sb, s, Attempt(op)))
  {
    hide HistInv, LogInv, DecodeHeader, HeaderOk, Durable, Apply, CommitWrites, Good;
    var u := s.mode.up;
    AttemptKeeps(sb, |s.disk|, s, u, op);
    AttemptHistory(sb, s, u, op);
  }

  lemma AttemptHistory(sb: SuperBlock, s: State, u: Up, op: OpId)
    requires HistInv(s) && s.mode == Serving(u) && LogInv(sb, |s.disk|, u, s.used) && op in u.starting
    ensures HistInv(DoAttempt(sb, s, u, op))
  {
    hide HistInv, HeaderOk, Good, CountersOk;
    var t := DoAttempt(sb, s, u, op);
    var v := t.mode.up;
    assert v.log.outSem == u.log.outSem && v.log.header == u.log.header && v.done == u.done
      && v.committer == u.committer;
    assert Members(v) == Members(u);
    if Admits(u.log, LogCapacity(sb)) {
      assert v.running.Keys == u.running.Keys + {op};
      assert Uncommitted(t) == Uncommitted(s) + {op};
      assert Waiting(t) == Waiting(s) - {op};
    } else {
      assert v.running == u.running;
      assert forall x :: x in v.log.sem.sleepers <==> x == op || x in u.log.sem.sleepers;
      assert Uncommitted(t) == Uncommitted(s);
      assert Waiting(t) == Waiting(s);
    }
    Unchanged(s, t);
  }

  lemma SyncStepKeeps(sb: SuperBlock, d0: Disk, s: State, op: OpId, no: U64, data: Block)
    requires Inv(sb, d0, s) && Shape(sb, s) && Enabled(sb, s, Sync(op, no, data))
    ensures Inv(sb, d0, Do(sb, s, Sync(op, no, data)))
  {
    hide HistInv, HeaderOk, Durable, Apply, CommitWrites, Good, DecodeHeader;
    var u := s.mode.up;
    var t := Do(sb, s, Sync(op, no, data));
    WalCounters.SyncKeeps(sb, |s.disk|, s, u, op, no, data);
    WalDisk.SyncKeeps(sb, d0, s, u, op, no, data);
    if t.mode.Halted? {
      Forgotten(s, t);
    } else {
      OneUpdate(s, t, Update(op, no, data));
    }
  }

  lemma EndStepKeeps(sb: SuperBlock, d0: Disk, s: State, op: OpId)
    requires Inv(sb, d0, s) && Shape(sb, s) && Enabled(sb, s, End(op))
    ensures Inv(sb, d0, Do(sb, s, End(op)))
  {
    hide HistInv, LogInv, DiskInv, HeaderOk, Durable, Apply, CommitWrites, DecodeHeader;
    var u := s.mode.up;
    RunningMeansOpen(sb, |s.disk|, u, s.used, op);
    WalCounters.EndKeeps(sb, |s.disk|, s, u, op);
    WalDisk.EndKeeps(sb, d0, s, u, op);
    EndHistory(sb, s, u, op);
  }

  lemma RunningMeansOpen(sb: SuperBlock, size: nat, u: Up, used: set<OpId>, op: OpId)
    requires LogInv(sb, size, u, used) && op in u.running
    ensures !u.log.committing && u.committer == None && u.log.outSem.val <= 0
    ensures op !in u.log.outSem.sleepers
  {
  }

  lemma EndHistory(sb: SuperBlock, s: State, u: Up, op: OpId)
    requires HistInv(s) && s.mode == Serving(u) && LogInv(sb, |s.disk|, u, s.used) && op in u.running
    ensures HistInv(DoEnd(s, u, op))
  {
    hide HistInv, LogInv;
    RunningMeansOpen(sb, |s.disk|, u, s.used, op);
    var rest := u.running - {op};
    assert rest.Keys == u.running.Keys - {op};
    match EndTurn(u.log, u.running[op], op)
    case EndPanic =>
    case MustWait(l) =>
      var t := DoEnd(s, u, op);
      var v := t.mode.up;
      assert forall x :: x in l.outSem.sleepers <==> x == op || x in u.log.outSem.sleepers;
      assert Uncommitted(t) == Uncommitted(s);
      assert Waiting(t) == Waiting(s);
      WaitingApart(s);
      Unchanged(s, t);
    case MustCommit(l) =>
      LastRunner(sb, |s.disk|, u, s.used, op);
      var v := u.(log := l, running := rest, committer := Some(op), start := s.disk, done := 0);
      var m := s.(mode := Serving(v));
      assert Members(v) == Members(u) + {op};
      assert Waiting(m) == Waiting(s);
      WaitingApart(s);
      if l.header.numBlocks == 0 {
        GroupCommitted(s, DoEnd(s, u, op), Group(Members(v), s.pending));
      } else {
        assert Uncommitted(m) == Uncommitted(s);
        Unchanged(s, m);
      }
  }

  lemma WaitingApart(s: State)
    requires HistInv(s)
    ensures forall op | op in Waiting(s) :: op !in Uncommitted(s)
  {
  }

  lemma LastRunner(sb: SuperBlock, size: nat, u: Up, used: set<OpId>, op: OpId)
    requires LogInv(sb, size, u, used) && op in u.running && u.log.outstanding - 1 == 0
    ensures u.running.Keys == {op}
  {
    hide HeaderOk, QueuesOk, PhaseOk;
    assert |u.running.Keys| == 1;
    assert |u.running.Keys - {op}| == 0;
    assert u.running.Keys == (u.running.Keys - {op}) + {op};
  }

  lemma CommitStepKeeps(sb: SuperBlock, d0: Disk, s: State, step: Step)
    requires Inv(sb, d0, s) && Shape(sb, s) && Enabled(sb, s, step) && (step.CommitWrite? || step.CommitFinish?)
    ensures Inv(sb, d0, Do(sb, s, step))
  {
    hide HistInv, LogInv, HeaderOk, Durable, Apply, CommitWrites, DecodeHeader;
    var u := s.mode.up;
    NoRunners(sb, |s.disk|, u, s.used);
    CommitLength(sb, u.log.header, u.mem);
    if step.CommitWrite? {
      CommitWriteKeeps(sb, d0, s, u);
      LogIgnoresProgress(sb, |s.disk|, u, s.used);
      CommitWriteHistory(sb, s, u);
    } else {
      CommitFinishKeeps(sb, d0, s, u);
      WalCounters.FinishKeeps(sb, |s.disk|, s, u);
      CommitFinishHistory(sb, s, u);
    }
  }

  lemma NoRunners(sb: SuperBlock, size: nat, u: Up, used: set<OpId>)
    requires LogInv(sb, size, u, used) && u.log.committing
    ensures u.running == map[] && HeaderOk(sb, size, u.log.header)
  {
  }

  lemma LogIgnoresProgress(sb: SuperBlock, size: nat, u: Up, used: set<OpId>)
    requires LogInv(sb, size, u, used) && u.log.committing
    ensures LogInv(sb, size, u.(done := u.done + 1), used)
  {
    hide HeaderOk, Good;
  }

  lemma CommitWriteHistory(sb: SuperBlock, s: State, u: Up)
    requires HistInv(s) && s.mode == Serving(u) && u.log.committing && u.running == map[]
    requires UpShape(sb, |s.disk|, u) && u.done < |CommitWrites(sb, u.log.header, u.mem)|
    ensures HistInv(DoCommitWrite(sb, s, u))
  {
    hide HistInv, HeaderOk, CommitWrites;
    CommitLength(sb, u.log.header, u.mem);
    var t := DoCommitWrite(sb, s, u);
    assert Waiting(t) == Waiting(s);
    WaitingApart(s);
    if u.done == u.log.header.numBlocks {
      assert Uncommitted(s) == Members(u);
      GroupCommitted(s, t, Group(Members(u), s.pending));
    } else {
      assert Uncommitted(t) == Uncommitted(s);
      Unchanged(s, t);
    }
  }

  lemma CommitFinishHistory(sb: SuperBlock, s: State, u: Up)
    requires HistInv(s) && s.mode == Serving(u) && LogInv(sb, |s.disk|, u, s.used) && u.log.committing
    requires Past(u) && s.pending == []
    ensures HistInv(DoCommitFinish(s, u))
  {
    hide HistInv, HeaderOk, Good, CountersOk;
    WalHistory.FinishKeeps(sb, s, u);
  }

  lemma StepKeeps(sb: SuperBlock, d0: Disk, s: State, step: Step, t: State)
    requires Inv(sb, d0, s) && StepTo(sb, s, step, t)
    ensures Inv(sb, d0, t)
  {
    hide Inv, Shape, Enabled, Do;
    match step
    case Start(op) => StartKeeps(sb, d0, s, op);
    case Attempt(op) => AttemptStepKeeps(sb, d0, s, op);
    case Sync(op, no, data) => SyncStepKeeps(sb, d0, s, op, no, data);
    case End(op) => EndStepKeeps(sb, d0, s, op);
    case CommitWrite => CommitStepKeeps(sb, d0, s, step);
    case CommitFinish => CommitStepKeeps(sb, d0, s, step);
    case BootWrite => BootKeeps(sb, d0, s, step);
    case BootFinish => BootKeeps(sb, d0, s, step);
    case Crash => CrashKeeps(sb, d0, s);
  }

  lemma InvShape(sb: SuperBlock, d0: Disk, s: State)
    ensures Inv(sb, d0, s) ==> Shape(sb, s)
  {
    hide HistInv, LogInv;
    if Inv(sb, d0, s) {
      DiskInvShape(sb, d0, s);
    }
  }

  lemma {:induction false} Reachable(sb: SuperBlock, s0: State, steps: seq<Step>, s: State)
    requires Init(sb, s0) && Runs(sb, s0, steps, s)
    ensures Shape(sb, s) && Recoverable(sb, s0.disk) && Inv(sb, Recovered(sb, s0.disk), s)
  {
    assert Recoverable(sb, s0.disk);
    assert Inv(sb, Recovered(sb, s0.disk), s) ==> Shape(sb, s) by { InvShape(sb, Recovered(sb, s0.disk), s); }
    hide Inv, Init, Recovered, StepTo, HeaderOk, DecodeHeader;
    if steps == [] {
      InitInv(sb, s0);
    } else {
      var m: State :| Runs(sb, s0, Earlier(steps), m) && StepTo(sb, m, Latest(steps), s);
      Reachable(sb, s0, Earlier(steps), m);
      StepKeeps(sb, Recovered(sb, s0.disk), m, Latest(steps), s);
    }
  }

  // ----- what every run satisfies -----

  /** Crash atomicity: after any steps, crashes and interrupted recoveries included, recovering the
      disk gives the initial home blocks overwritten by the committed groups, whole and in order.
      Whenever operations may run, the disk already is that. */
  lemma CrashAtomicity(sb: SuperBlock, s0: State, steps: seq<Step>, s: State)
    requires Init(sb, s0) && Runs(sb, s0, steps, s)
    ensures Recoverable(sb, s.disk)
    ensures SameHome(sb, Recovered(sb, s.disk), Durable(Recovered(sb, s0.disk), s.groups))
    ensures s.mode.Serving? && !s.mode.up.log.committing ==>
              SameHome(sb, s.disk, Durable(Recovered(sb, s0.disk), s.groups))
  {
    hide HistInv, LogInv, Init, Runs, Recovered, Durable, HeaderOk, DecodeHeader;
    Reachable(sb, s0, steps, s);
    AlwaysRecoverable(sb, Recovered(sb, s0.disk), s);
  }

  /** Durability and all-or-nothing: an operation whose end_op returned is in a committed group; an
      operation in a committed group is in no other, and that group holds all the updates it ever
      made; the updates of an operation in no group are in no group. */
  lemma OperationsAreAtomic(sb: SuperBlock, s0: State, steps: seq<Step>, s: State, op: OpId)
    requires Init(sb, s0) && Runs(sb, s0, steps, s)
    ensures op in s.returned ==> InSomeGroup(s, op)
    ensures forall i, j | 0 <= i < |s.groups| && 0 <= j < |s.groups| && op in s.groups[i].ops ::
              Of(s.groups[j].updates, op) == if i == j then Of(s.performed, op) else []
    ensures !InSomeGroup(s, op) ==> forall j | 0 <= j < |s.groups| :: Of(s.groups[j].updates, op) == []
  {
    Reachable(sb, s0, steps, s);
    forall j | 0 <= j < |s.groups| && op !in s.groups[j].ops ensures Of(s.groups[j].updates, op) == [] {
      OfNone(s.groups[j].updates, op);
    }
  }

  /** Reservation, whenever the cache serves: what is reserved is what running operations have left, what is
      logged and reserved fits the log, and with nobody running or committing both are nothing. */
  lemma ReservationHolds(sb: SuperBlock, s0: State, steps: seq<Step>, s: State)
    requires Init(sb, s0) && Runs(sb, s0, steps, s) && s.mode.Serving?
    ensures var u := s.mode.up; var h := u.log.header;
            && u.log.mu == SumRm(u.running)
            && h.numBlocks + u.log.mu <= LogCapacity(sb) <= LOG_MAX_SIZE
            && (!u.log.committing && u.running == map[] ==> h.numBlocks == 0 && u.log.mu == 0)
            && (forall i, j | 0 <= i < j < h.numBlocks :: h.blockNo[i] != h.blockNo[j])
  {
    Reachable(sb, s0, steps, s);
    hide Runs, DiskInv, HistInv, Init, QueuesOk;
  }

  /** So a running operation's sync panics only when its budget is used up, and then exactly when the block
      is new or the log is full. */
  lemma SyncPanicsOnly(sb: SuperBlock, s0: State, steps: seq<Step>, s: State, op: OpId, no: U64)
    requires Init(sb, s0) && Runs(sb, s0, steps, s) && s.mode.Serving? && op in s.mode.up.running
    ensures var u := s.mode.up;
            u.log.header.numBlocks <= LOG_MAX_SIZE &&
            (SyncLog(u.log, LogCapacity(sb), u.running[op], no).SyncPanic? <==>
              && u.running[op] == 0
              && (u.log.header.numBlocks == LogCapacity(sb) || !Logged(u.log.header, no)))
  {
    Reachable(sb, s0, steps, s);
    SyncPanicsWhen(sb, |s.disk|, s.mode.up, s.used, op, no);
  }

  /** Committing excludes running operations, so end_op's PANIC is unreachable. */
  lemma EndNeverPanics(sb: SuperBlock, s0: State, steps: seq<Step>, s: State, op: OpId)
    requires Init(sb, s0) && Runs(sb, s0, steps, s) && s.mode.Serving?
    ensures var u := s.mode.up;
            && (u.log.committing ==> u.running == map[])
            && (op in u.running ==> !EndTurn(u.log, u.running[op], op).EndPanic?)
  {
    Reachable(sb, s0, steps, s);
  }

  /** Some thread sleeps on one of the two log semaphores. */
  predicate SomebodySleeps(u: Up) {
    u.log.sem.sleepers != [] || u.log.outSem.sleepers != []
  }

  /** Stranded: asleep with nobody left to post. */
  predicate Stranded(s: State) {
    s.mode.Serving? && SomebodySleeps(s.mode.up) && Quiet(s.mode.up)
  }

  lemma NotStranded(sb: SuperBlock, s0: State, steps: seq<Step>, s: State)
    requires Init(sb, s0) && Runs(sb, s0, steps, s) && OP_MAX_NUM_BLOCKS <= LogCapacity(sb)
    ensures !Stranded(s)
  {
    Reachable(sb, s0, steps, s);
  }

  lemma RunsOne(sb: SuperBlock, s0: State, steps: seq<Step>, m: State, step: Step)
    requires Runs(sb, s0, steps, m) && Shape(sb, m) && Enabled(sb, m, step)
    ensures Runs(sb, s0, steps + [step], Do(sb, m, step))
  {
    hide Do, Shape, Enabled;
    var all := steps + [step];
    assert Earlier(all) == steps;
    assert StepTo(sb, m, step, Do(sb, m, step));
  }

  /** The exact condition: begin_op can strand a thread if and only if the log holds fewer than ten
      blocks. With such a log a lone first caller already sleeps for ever. */
  lemma StrandingNeedsSmallLog(sb: SuperBlock, s0: State)
    requires Init(sb, s0)
    ensures (exists steps: seq<Step>, s: State :: Runs(sb, s0, steps, s) && Stranded(s)) <==>
        LogCapacity(sb) < OP_MAX_NUM_BLOCKS
  {
    if LogCapacity(sb) < OP_MAX_NUM_BLOCKS {
      var steps, m := BootRun(sb, s0, |RecoverWrites(sb, s0.disk)|);
      Reachable(sb, s0, steps, m);
      LoneCallerSleeps(sb, s0, steps, m);
    } else if steps: seq<Step>, s: State :| Runs(sb, s0, steps, s) && Stranded(s) {
      NotStranded(sb, s0, steps, s);
    }
  }

  /** An undisturbed boot. */
  lemma BootRun(sb: SuperBlock, s0: State, k: nat) returns (steps: seq<Step>, m: State)
    requires Init(sb, s0) && k <= |RecoverWrites(sb, s0.disk)|
    ensures Runs(sb, s0, steps, m) && m.mode == Booting(s0.disk, k) && m.used == {} && Recoverable(sb, s0.disk)
  {
    hide RecoverWrites, Runs, HeaderOk, DecodeHeader;
    if k == 0 {
      steps, m := [], s0;
      assert Runs(sb, s0, [], s0) by { EmptyRun(sb, s0); }
    } else {
      steps, m := BootRun(sb, s0, k - 1);
      Reachable(sb, s0, steps, m);
      RunsOne(sb, s0, steps, m, BootWrite);
      steps, m := steps + [BootWrite], Do(sb, m, BootWrite);
    }
  }

  lemma EmptyRun(sb: SuperBlock, s: State)
    ensures Runs(sb, s, [], s)
  {
  }

  lemma LoneCallerSleeps(sb: SuperBlock, s0: State, steps: seq<Step>, m: State)
    requires Init(sb, s0) && Runs(sb, s0, steps, m) && m.mode.Booting? && m.used == {}
    requires m.mode.done == |RecoverWrites(sb, m.mode.start)|
    requires LogCapacity(sb) < OP_MAX_NUM_BLOCKS
    ensures exists all: seq<Step>, s: State :: Runs(sb, s0, all, s) && Stranded(s)
  {
    hide Runs, Init, HistInv, LogInv, RecoverWrites, HeaderOk, DecodeHeader, Recovered, Shape;
    Reachable(sb, s0, steps, m);
    RunsOne(sb, s0, steps, m, BootFinish);
    WalDisk.BootFinishKeeps(sb, Recovered(sb, s0.disk), m);
    var steps1, m1 := steps + [BootFinish], Do(sb, m, BootFinish);
    Reachable(sb, s0, steps1, m1);
    RunsOne(sb, s0, steps1, m1, Start(0));
    var steps2, m2 := steps1 + [Start(0)], Do(sb, m1, Start(0));
    Reachable(sb, s0, steps2, m2);
    RunsOne(sb, s0, steps2, m2, Attempt(0));
    var m3 := Do(sb, m2, Attempt(0));
    assert Stranded(m3);
  }
}
