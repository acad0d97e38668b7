// The group-commit protocol of src/fs/cache.c as a machine: threads running begin_op, sync and
// end_op, the committing thread writing one block at a time, and a crash at any moment.
// Each region run under `log.lock` and each device write is one step.
module WalMachine {
  import opened Blocks
  import opened WalSpec
  import opened SemSpec
  import opened LogSpec

  datatype Option<T> = None | Some(value: T)

  /** One block rewritten by one operation. */
  datatype Update = Update(op: OpId, no: U64, data: Block)

  /** The operations one commit carries, and their updates in the order they were made. */
  datatype Group = Group(ops: set<OpId>, updates: seq<Update>)

  /** Everything in memory. A thread inside begin_op is in `starting` or asleep on `log.sem`, a
      thread inside end_op is the committer or asleep on `log.outSem`. `start` is the disk the
      current commit began on, `done` the number of its writes that have reached the disk. */
  datatype Up = Up(log: Log, mem: Disk, starting: set<OpId>, running: map<OpId, nat>,
                   committer: Option<OpId>, start: Disk, done: nat)

  datatype Mode = Halted | Booting(start: Disk, done: nat) | Serving(up: Up)

  /** The machine, and its history: committed groups, the updates of the group being built, every
      update ever made, the operations whose end_op returned, and all operations begun. */
  datatype State = State(disk: Disk, mode: Mode, groups: seq<Group>, pending: seq<Update>,
                         performed: seq<Update>, returned: set<OpId>, used: set<OpId>)

  datatype Step =
    | Start(op: OpId)
    | Attempt(op: OpId)
    | Sync(op: OpId, no: U64, data: Block)
    | End(op: OpId)
    | CommitWrite
    | CommitFinish
    | BootWrite
    | BootFinish
    | Crash

  function Members(u: Up): set<OpId> {
    ElementsOf(u.log.outSem.sleepers) + if u.committer.Some? then {u.committer.value} else {}
  }

  predicate UpShape(sb: SuperBlock, size: nat, u: Up) {
    |u.mem| == size && HeaderOk(sb, size, u.log.header) && u.done <= |CommitWrites(sb, u.log.header, u.mem)|
  }

  predicate Shape(sb: SuperBlock, s: State) {
    && LayoutOk(sb, |s.disk|)
    && (s.mode.Booting? ==> Recoverable(sb, s.mode.start) && s.mode.done <= |RecoverWrites(sb, s.mode.start)|)
    && (s.mode.Serving? ==> UpShape(sb, |s.disk|, s.mode.up))
  }

  predicate Enabled(sb: SuperBlock, s: State, step: Step)
    requires Shape(sb, s)
  {
    match step
    case Crash => Recoverable(sb, s.disk)
    case BootWrite => s.mode.Booting? && s.mode.done < |RecoverWrites(sb, s.mode.start)|
    case BootFinish => s.mode.Booting? && s.mode.done == |RecoverWrites(sb, s.mode.start)|
    case Start(op) => s.mode.Serving? && op !in s.used
    case Attempt(op) => s.mode.Serving? && op in s.mode.up.starting
    case Sync(op, no, _) => s.mode.Serving? && op in s.mode.up.running && no < |s.disk| && !IsLog(sb, no)
    case End(op) => s.mode.Serving? && op in s.mode.up.running
    case CommitWrite =>
      && s.mode.Serving? && s.mode.up.log.committing
      && s.mode.up.done < |CommitWrites(sb, s.mode.up.log.header, s.mode.up.mem)|
    case CommitFinish =>
      && s.mode.Serving? && s.mode.up.log.committing
      && s.mode.up.done == |CommitWrites(sb, s.mode.up.log.header, s.mode.up.mem)|
  }

  function Put(d: Disk, w: Write): (r: Disk)
    ensures |r| == |d|
  {
    if w.no < |d| then d[w.no := w.data] else d
  }

  /** The group becomes durable. */
  function Commit(s: State, u: Up): State {
    s.(groups := s.groups + [Group(Members(u), s.pending)], pending := [])
  }

  function DoAttempt(sb: SuperBlock, s: State, u: Up, op: OpId): State {
    var mx := LogCapacity(sb);
    var l := BeginTurn(u.log, mx, op);
    if Admits(u.log, mx) then
      s.(mode := Serving(u.(log := l, starting := u.starting - {op}, running := u.running[op := OP_MAX_NUM_BLOCKS])))
    else if MustSleep(u.log.sem) then
      s.(mode := Serving(u.(log := l, starting := u.starting - {op})))
    else
      s.(mode := Serving(u.(log := l)))
  }

  function DoSync(sb: SuperBlock, s: State, u: Up, op: OpId, no: U64, data: Block): State
    requires op in u.running && no < |u.mem|
  {
    match SyncLog(u.log, LogCapacity(sb), u.running[op], no)
    case SyncPanic => s.(mode := Halted, pending := [])
    case Synced(l, rm) =>
      var e := Update(op, no, data);
      s.(mode := Serving(u.(log := l, mem := u.mem[no := data], running := u.running[op := rm])),
         pending := s.pending + [e], performed := s.performed + [e])
  }

  function DoEnd(s: State, u: Up, op: OpId): State
    requires op in u.running
  {
    match EndTurn(u.log, u.running[op], op)
    case EndPanic => s.(mode := Halted, pending := [])
    case MustCommit(l) =>
      var u' := u.(log := l, running := u.running - {op}, committer := Some(op), start := s.disk, done := 0);
      var s' := s.(mode := Serving(u'));
      if l.header.numBlocks == 0 then Commit(s', u') else s'
    case MustWait(l) =>
      s.(mode := Serving(u.(log := l, running := u.running - {op},
                            starting := u.starting + ElementsOf(u.log.sem.sleepers))))
  }

  /** The write after the log body is the header: the commit point. */
  function DoCommitWrite(sb: SuperBlock, s: State, u: Up): State
    requires UpShape(sb, |s.disk|, u) && u.done < |CommitWrites(sb, u.log.header, u.mem)|
  {
    var s' := s.(disk := Put(s.disk, CommitWrites(sb, u.log.header, u.mem)[u.done]),
                 mode := Serving(u.(done := u.done + 1)));
    if u.done == u.log.header.numBlocks then Commit(s', u) else s'
  }

  function DoCommitFinish(s: State, u: Up): State {
    s.(mode := Serving(u.(log := CommitOver(u.log), committer := None, done := 0,
                          starting := u.starting + ElementsOf(u.log.sem.sleepers))),
       returned := s.returned + Members(u))
  }

  function DoBootFinish(sb: SuperBlock, s: State): State
    requires LayoutOk(sb, |s.disk|)
  {
    var log := Log(DiskHeader(sb, s.disk), 0, false, 0, FRESH_SEM, FRESH_SEM);
    s.(mode := Serving(Up(log, s.disk, {}, map[], None, s.disk, 0)))
  }

  function Do(sb: SuperBlock, s: State, step: Step): State
    requires Shape(sb, s) && Enabled(sb, s, step)
  {
    match step
    case Crash => s.(mode := Booting(s.disk, 0), pending := [])
    case BootWrite =>
      s.(disk := Put(s.disk, RecoverWrites(sb, s.mode.start)[s.mode.done]), mode := s.mode.(done := s.mode.done + 1))
    case BootFinish => DoBootFinish(sb, s)
    case Start(op) => s.(mode := Serving(s.mode.up.(starting := s.mode.up.starting + {op})), used := s.used + {op})
    case Attempt(op) => DoAttempt(sb, s, s.mode.up, op)
    case Sync(op, no, data) => DoSync(sb, s, s.mode.up, op, no, data)
    case End(op) => DoEnd(s, s.mode.up, op)
    case CommitWrite => DoCommitWrite(sb, s, s.mode.up)
    case CommitFinish => DoCommitFinish(s, s.mode.up)
  }

  /** Power-on with any disk whose header is recoverable, and no history. */
  predicate Init(sb: SuperBlock, s: State) {
    && Recoverable(sb, s.disk) && s.mode == Booting(s.disk, 0)
    && s.groups == [] && s.pending == [] && s.performed == [] && s.returned == {} && s.used == {}
  }

  ghost predicate StepTo(sb: SuperBlock, s: State, step: Step, t: State) {
    Shape(sb, s) && Enabled(sb, s, step) && t == Do(sb, s, step)
  }

  function Earlier(steps: seq<Step>): seq<Step>
    requires steps != []
  {
    steps[..|steps| - 1]
  }

  function Latest(steps: seq<Step>): Step
    requires steps != []
  {
    steps[|steps| - 1]
  }

  /** s is reached from s0 by the given steps. */
  ghost predicate Runs(sb: SuperBlock, s0: State, steps: seq<Step>, s: State) {
    if steps == [] then s == s0
    else exists m: State :: Runs(sb, s0, Earlier(steps), m) && StepTo(sb, m, Latest(steps), s)
  }
}
