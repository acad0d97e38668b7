// The log's bookkeeping in src/fs/cache.c: one function per region run under `log.lock`.
module LogSpec {
  import opened Blocks
  import opened WalSpec
  import opened SemSpec

  type OpId = nat

  /** `struct LOG` (without `mx`, which never changes) and the in-memory header. */
  datatype Log = Log(header: Header, outstanding: int, committing: bool, mu: int, sem: Sem<OpId>, outSem: Sem<OpId>)

  const FRESH_SEM: Sem<OpId> := Sem(0, [])

  // ----- begin_op -----

  predicate Admits(log: Log, mx: nat) {
    !log.committing && log.header.numBlocks + log.mu + OP_MAX_NUM_BLOCKS <= mx
  }

  /** One turn of the loop in `cache_begin_op`: in, or waiting on `log.sem`. */
  function BeginTurn(log: Log, mx: nat, op: OpId): Log {
    if Admits(log, mx) then log.(outstanding := log.outstanding + 1, mu := log.mu + OP_MAX_NUM_BLOCKS)
    else log.(sem := Enter(log.sem, op))
  }

  // ----- sync -----

  datatype SyncOutcome = SyncPanic | Synced(log: Log, rm: nat)

  /** The first live slot holding `no`, or the number of live slots. */
  function SlotOf(h: Header, no: nat, from: nat): (i: nat)
    requires from <= h.numBlocks <= LOG_MAX_SIZE
    ensures from <= i <= h.numBlocks
    ensures i < h.numBlocks ==> h.blockNo[i] == no
    ensures forall j | from <= j < i :: h.blockNo[j] != no
    decreases h.numBlocks - from
  {
    if from == h.numBlocks || h.blockNo[from] == no then from else SlotOf(h, no, from + 1)
  }

  function SyncLog(log: Log, mx: nat, rm: nat, no: U64): SyncOutcome
    requires mx <= LOG_MAX_SIZE
  {
    var h := log.header;
    if h.numBlocks >= mx || log.outstanding < 1 then SyncPanic
    else
      var i := SlotOf(h, no, 0);
      var h' := h.(blockNo := h.blockNo[i := no]);
      if i < h.numBlocks then Synced(log.(header := h'), rm)
      else if rm > 0 then Synced(log.(header := h'.(numBlocks := h.numBlocks + 1), mu := log.mu - 1), rm - 1)
      else SyncPanic
  }

  /** Whether two syncs in a row go through, of block a and then of block b. */
  predicate SyncsTwo(log: Log, mx: nat, rm: nat, a: U64, b: U64)
    requires mx <= LOG_MAX_SIZE
  {
    match SyncLog(log, mx, rm, a)
    case SyncPanic => false
    case Synced(l, rm') => SyncLog(l, mx, rm', b).Synced?
  }

  // ----- end_op -----

  datatype EndOutcome = EndPanic | MustCommit(log: Log) | MustWait(log: Log)

  function EndTurn(log: Log, rm: nat, op: OpId): EndOutcome {
    var l := log.(outstanding := log.outstanding - 1, mu := log.mu - rm);
    if l.committing then EndPanic
    else if l.outstanding == 0 then MustCommit(l.(committing := true))
    else MustWait(l.(sem := PostAll(l.sem), outSem := Enter(l.outSem, op)))
  }

  /** The committing thread's last region, after `commit` has emptied the header. */
  function CommitOver(log: Log): Log {
    log.(header := Cleared(log.header), committing := false, sem := PostAll(log.sem), outSem := PostAll(log.outSem))
  }

  function ElementsOf<T(==)>(s: seq<T>): set<T> {
    set x | x in s
  }
}
