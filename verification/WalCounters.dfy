/** Counters and queues: reservations, who may commit, who may sleep. */
module WalCounters {
  import opened Blocks
  import opened WalSpec
  import opened SemSpec
  import opened LogSpec
  import opened WalMachine

  ghost function SumRm(m: map<OpId, nat>): nat {
    if m == map[] then 0
    else
      var k :| k in m;
      m[k] + SumRm(m - {k})
  }

  lemma {:induction false} SumRemove(m: map<OpId, nat>, k: OpId)
    requires k in m
    ensures SumRm(m) == m[k] + SumRm(m - {k})
    decreases m
  {
    var j :| j in m && SumRm(m) == m[j] + SumRm(m - {j});
    if j != k {
      SumRemove(m - {j}, k);
      SumRemove(m - {k}, j);
      assert (m - {j}) - {k} == (m - {k}) - {j};
    }
  }

  lemma SumUpdate(m: map<OpId, nat>, k: OpId, v: nat)
    ensures SumRm(m[k := v]) == v + SumRm(m - {k})
  {
    SumRemove(m[k := v], k);
    assert m[k := v] - {k} == m - {k};
  }

  lemma SumAtLeast(m: map<OpId, nat>, k: OpId)
    requires k in m
    ensures m[k] <= SumRm(m)
  {
    SumRemove(m, k);
  }

  /** Nobody runs an operation and nobody is committing. */
  predicate Quiet(u: Up) {
    !u.log.committing && u.running == map[]
  }

  ghost predicate QueuesOk(u: Up, used: set<OpId>) {
    && Good(u.log.sem) && u.log.sem.val <= 0
    && Good(u.log.outSem) && u.log.outSem.val <= 0
    && (forall op | op in u.starting ::
        op in used && op !in u.running && op !in u.log.sem.sleepers && op !in u.log.outSem.sleepers)
    && (forall op | op in u.running :: op in used && op !in u.log.sem.sleepers && op !in u.log.outSem.sleepers)
    && (forall op | op in u.log.sem.sleepers :: op in used && op !in u.log.outSem.sleepers)
    && (forall op | op in u.log.outSem.sleepers :: op in used)
    && (u.committer.Some? ==>
          var c := u.committer.value;
          c in used && c !in u.starting && c !in u.running && c !in u.log.sem.sleepers && c !in u.log.outSem.sleepers)
  }

  ghost predicate CountersOk(sb: SuperBlock, u: Up) {
    && u.log.outstanding == |u.running|
    && u.log.mu == SumRm(u.running)
    && u.log.header.numBlocks + u.log.mu <= LogCapacity(sb)
  }

  /** The group-commit invariant. */
  ghost predicate PhaseOk(sb: SuperBlock, u: Up) {
    && (u.log.committing <==> u.committer.Some?)
    && (u.log.committing ==> u.running == map[])
    && (!u.log.committing ==> u.done == 0)
    && (Quiet(u) ==> u.log.header.numBlocks == 0 && u.log.outSem.sleepers == [])
    && (Quiet(u) && OP_MAX_NUM_BLOCKS <= LogCapacity(sb) ==> u.log.sem.sleepers == [])
  }

  ghost predicate LogInv(sb: SuperBlock, size: nat, u: Up, used: set<OpId>) {
    && HeaderOk(sb, size, u.log.header)
    && QueuesOk(u, used)
    && CountersOk(sb, u)
    && PhaseOk(sb, u)
  }

  lemma AttemptKeeps(sb: SuperBlock, size: nat, s: State, u: Up, op: OpId)
    requires LogInv(sb, size, u, s.used) && op in u.starting
    ensures var m := DoAttempt(sb, s, u, op).mode;
            m.Serving? && LogInv(sb, size, m.up, s.used)
  {
    hide HeaderOk, Good;
    if Admits(u.log, LogCapacity(sb)) {
      hide Enter, QueuesOk;
      SumUpdate(u.running, op, OP_MAX_NUM_BLOCKS);
      StartingIsIdle(u, s.used, op);
      assert u.running - {op} == u.running;
      assert u.running[op := OP_MAX_NUM_BLOCKS].Keys == u.running.Keys + {op};
      assert |u.running[op := OP_MAX_NUM_BLOCKS].Keys| == |u.running.Keys| + 1;
      AdmitQueues(u, s.used, op, DoAttempt(sb, s, u, op).mode.up);
    } else {
      StartingIsIdle(u, s.used, op);
      EnterGood(u.log.sem, op);
      RefuseQueues(u, s.used, op, DoAttempt(sb, s, u, op).mode.up);
    }
  }

  lemma StartingIsIdle(u: Up, used: set<OpId>, op: OpId)
    requires QueuesOk(u, used) && op in u.starting
    ensures op !in u.running && op !in u.log.sem.sleepers && Good(u.log.sem) && u.log.sem.val <= 0
  {
  }

  lemma AdmitQueues(u: Up, used: set<OpId>, op: OpId, v: Up)
    requires QueuesOk(u, used) && op in u.starting
    requires v.log.sem == u.log.sem && v.log.outSem == u.log.outSem && v.committer == u.committer
    requires v.starting == u.starting - {op} && v.running == u.running[op := OP_MAX_NUM_BLOCKS]
    ensures QueuesOk(v, used)
  {
    hide Good;
  }

  lemma RefuseQueues(u: Up, used: set<OpId>, op: OpId, v: Up)
    requires QueuesOk(u, used) && op in u.starting && Good(Enter(u.log.sem, op))
    requires v.log.sem == Enter(u.log.sem, op) && v.log.outSem == u.log.outSem && v.committer == u.committer
    requires v.starting == u.starting - {op} && v.running == u.running
    ensures QueuesOk(v, used)
  {
    hide Good;
    assert forall x :: x in v.log.sem.sleepers <==> x == op || x in u.log.sem.sleepers;
  }

  /** `cache_sync` by a running operation panics exactly when it has used up its ten blocks and
      the block is new to the log or the log is full. */
  lemma SyncPanicsWhen(sb: SuperBlock, size: nat, u: Up, used: set<OpId>, op: OpId, no: U64)
    requires LogInv(sb, size, u, used) && op in u.running
    ensures SyncLog(u.log, LogCapacity(sb), u.running[op], no).SyncPanic? <==>
              && u.running[op] == 0
              && (u.log.header.numBlocks == LogCapacity(sb) || !Logged(u.log.header, no))
  {
    SumAtLeast(u.running, op);
    assert |u.running.Keys| > 0;
  }

  lemma NewSlot(sb: SuperBlock, size: nat, h: Header, no: U64)
    requires HeaderOk(sb, size, h) && h.numBlocks < LogCapacity(sb) && no < size && !IsLog(sb, no)
    ensures var i := SlotOf(h, no, 0);
            && (i < h.numBlocks ==> h.blockNo[i := no] == h.blockNo)
            && (i == h.numBlocks ==> HeaderOk(sb, size, LogHeader(h.numBlocks + 1, h.blockNo[i := no])))
  {
  }

  lemma SyncKeeps(sb: SuperBlock, size: nat, s: State, u: Up, op: OpId, no: U64, data: Block)
    requires LogInv(sb, size, u, s.used) && op in u.running && |u.mem| == size && no < size && !IsLog(sb, no)
    ensures var m := DoSync(sb, s, u, op, no, data).mode;
            m.Halted? || (m.Serving? && LogInv(sb, size, m.up, s.used))
  {
    hide HeaderOk, QueuesOk;
    var rm := u.running[op];
    match SyncLog(u.log, LogCapacity(sb), rm, no)
    case SyncPanic =>
    case Synced(l, rm') =>
      NewSlot(sb, size, u.log.header, no);
      SumRemove(u.running, op);
      SumUpdate(u.running, op, rm');
      assert u.running[op := rm'].Keys == u.running.Keys;
      assert |u.running[op := rm'].Keys| == |u.running.Keys|;
      QueuesFrame(u, u.(log := l, mem := u.mem[no := data], running := u.running[op := rm']), s.used);
  }

  lemma QueuesFrame(u: Up, v: Up, used: set<OpId>)
    requires QueuesOk(u, used) && v.log.sem == u.log.sem && v.log.outSem == u.log.outSem
    requires v.starting == u.starting && v.committer == u.committer && v.running.Keys == u.running.Keys
    ensures QueuesOk(v, used)
  {
  }

  lemma EndKeeps(sb: SuperBlock, size: nat, s: State, u: Up, op: OpId)
    requires LogInv(sb, size, u, s.used) && op in u.running
    ensures var m := DoEnd(s, u, op).mode;
            m.Serving? && LogInv(sb, size, m.up, s.used)
  {
    hide HeaderOk, Good, QueuesOk, PostAll, Enter;
    var rest := u.running - {op};
    SumRemove(u.running, op);
    assert rest.Keys == u.running.Keys - {op};
    assert |rest.Keys| == |u.running.Keys| - 1;
    var v := DoEnd(s, u, op).mode.up;
    if |rest.Keys| == 0 {
      assert rest == map[];
      LastEndQueues(u, s.used, op, v);
    } else {
      WaitingEndQueues(u, s.used, op, v);
    }
  }

  lemma LastEndQueues(u: Up, used: set<OpId>, op: OpId, v: Up)
    requires QueuesOk(u, used) && op in u.running && u.committer == None
    requires v.log.sem == u.log.sem && v.log.outSem == u.log.outSem && v.committer == Some(op)
    requires v.starting == u.starting && v.running == u.running - {op}
    ensures QueuesOk(v, used)
  {
    hide Good;
  }

  lemma WaitingEndQueues(u: Up, used: set<OpId>, op: OpId, v: Up)
    requires QueuesOk(u, used) && op in u.running && u.committer == None
    requires v.log.sem == PostAll(u.log.sem) && v.log.outSem == Enter(u.log.outSem, op) && v.committer == None
    requires v.starting == u.starting + ElementsOf(u.log.sem.sleepers) && v.running == u.running - {op}
    ensures QueuesOk(v, used)
  {
    EnterGood(u.log.outSem, op);
    assert forall x :: x in v.log.outSem.sleepers <==> x == op || x in u.log.outSem.sleepers;
  }

  lemma FinishKeeps(sb: SuperBlock, size: nat, s: State, u: Up)
    requires LogInv(sb, size, u, s.used) && u.log.committing
    ensures var m := DoCommitFinish(s, u).mode;
            m.Serving? && LogInv(sb, size, m.up, s.used)
  {
    hide HeaderOk, QueuesOk;
    FinishQueues(u, s.used, DoCommitFinish(s, u).mode.up);
    assert HeaderOk(sb, size, Cleared(u.log.header)) by { EmptyHeaderOk(sb, size, u.log.header); }
  }

  lemma EmptyHeaderOk(sb: SuperBlock, size: nat, h: Header)
    ensures HeaderOk(sb, size, Cleared(h))
  {
  }

  lemma FinishQueues(u: Up, used: set<OpId>, v: Up)
    requires QueuesOk(u, used)
    requires v.log.sem == PostAll(u.log.sem) && v.log.outSem == PostAll(u.log.outSem) && v.committer == None
    requires v.starting == u.starting + ElementsOf(u.log.sem.sleepers) && v.running == u.running
    ensures QueuesOk(v, used)
  {
  }
}
