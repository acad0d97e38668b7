/** Disk and memory contents: the log absorbs updates without losing any, and the disk is always
    one recovery away from whole groups. */
module WalDisk {
  import opened Blocks
  import opened WalSpec
  import opened SemSpec
  import opened LogSpec
  import opened WalMachine

  /** The meaning of a list of updates: each rewrites its block. */
  function Replay(d: Disk, us: seq<Update>): (r: Disk)
    ensures |r| == |d|
  {
    if us == [] then d
    else
      var e := Replay(d, us[..|us| - 1]);
      var u := us[|us| - 1];
      if u.no < |d| then e[u.no := u.data] else e
  }

  /** The home blocks that a list of committed groups promises. */
  function Durable(d: Disk, gs: seq<Group>): (r: Disk)
    ensures |r| == |d|
  {
    if gs == [] then d else Replay(Durable(d, gs[..|gs| - 1]), gs[|gs| - 1].updates)
  }

  lemma ReplayOne(d: Disk, us: seq<Update>, u: Update)
    requires u.no < |d|
    ensures Replay(d, us + [u]) == Replay(d, us)[u.no := u.data]
  {
    assert (us + [u])[..|us|] == us;
  }

  lemma DurableOne(d: Disk, gs: seq<Group>, g: Group)
    ensures Durable(d, gs + [g]) == Replay(Durable(d, gs), g.updates)
  {
    assert (gs + [g])[..|gs|] == gs;
  }

  /** Has the current commit passed its header write? An empty group commits at once. */
  predicate Past(u: Up) {
    u.log.committing && (u.log.header.numBlocks == 0 || u.done > u.log.header.numBlocks)
  }

  /** Blocks not in the log are in memory what they are on disk d. */
  ghost predicate UnloggedAgree(sb: SuperBlock, d: Disk, h: Header, mem: Disk)
    requires h.numBlocks <= LOG_MAX_SIZE
  {
    |d| == |mem| && forall no | 0 <= no < |d| && !IsLog(sb, no) && !Logged(h, no) :: mem[no] == d[no]
  }

  /** While operations run: the disk holds the committed groups, memory also the pending updates. */
  ghost predicate OpenPhase(sb: SuperBlock, base: Disk, s: State, u: Up)
    requires HeaderOk(sb, |s.disk|, u.log.header)
  {
    && Clean(sb, s.disk) && SameHome(sb, s.disk, base)
    && UnloggedAgree(sb, s.disk, u.log.header, u.mem)
    && SameHome(sb, u.mem, Replay(base, s.pending))
    && (u.log.header.numBlocks == 0 ==> s.pending == [])
  }

  /** During a commit: the disk is the starting disk plus a prefix of the commit's writes. */
  ghost predicate CommitPhase(sb: SuperBlock, base: Disk, s: State, u: Up)
    requires HeaderOk(sb, |s.disk|, u.log.header)
  {
    && |u.mem| == |s.disk| == |u.start|
    && Clean(sb, u.start)
    && u.done <= |CommitWrites(sb, u.log.header, u.mem)|
    && s.disk == Apply(u.start, CommitWrites(sb, u.log.header, u.mem), u.done)
    && UnloggedAgree(sb, u.start, u.log.header, u.mem)
    && (!Past(u) ==> SameHome(sb, u.start, base) && SameHome(sb, u.mem, Replay(base, s.pending)))
    && (Past(u) ==> SameHome(sb, u.mem, base) && s.pending == [])
  }

  ghost predicate BootPhase(sb: SuperBlock, base: Disk, s: State)
    requires s.mode.Booting?
  {
    && Recoverable(sb, s.mode.start) && s.mode.done <= |RecoverWrites(sb, s.mode.start)|
    && s.disk == Apply(s.mode.start, RecoverWrites(sb, s.mode.start), s.mode.done)
    && SameHome(sb, Recovered(sb, s.mode.start), base)
    && s.pending == []
  }

  ghost predicate DiskInv(sb: SuperBlock, d0: Disk, s: State) {
    var base := Durable(d0, s.groups);
    && LayoutOk(sb, |s.disk|) && |d0| == |s.disk|
    && match s.mode
       case Booting(_, _) => BootPhase(sb, base, s)
       case Serving(u) =>
         && HeaderOk(sb, |s.disk|, u.log.header)
         && (if u.log.committing then CommitPhase(sb, base, s, u) else u.done == 0 && OpenPhase(sb, base, s, u))
       case Halted => Clean(sb, s.disk) && SameHome(sb, s.disk, base)
  }

  lemma DiskInvShape(sb: SuperBlock, d0: Disk, s: State)
    requires DiskInv(sb, d0, s)
    ensures Shape(sb, s)
  {
  }

  lemma SameHomeTrans(sb: SuperBlock, a: Disk, b: Disk, c: Disk)
    requires SameHome(sb, a, b) && SameHome(sb, b, c)
    ensures SameHome(sb, a, c) && SameHome(sb, b, a)
  {
  }

  /** When memory and disk differ only in logged blocks, the overlay of memory is memory. */
  lemma OverlayIsMemory(sb: SuperBlock, d: Disk, h: Header, mem: Disk)
    requires h.numBlocks <= LOG_MAX_SIZE && UnloggedAgree(sb, d, h, mem)
    ensures SameHome(sb, Overlay(d, h, mem), mem)
  {
  }

  /** The heart of crash safety: at every moment recovery would yield exactly the committed groups. */
  lemma AlwaysRecoverable(sb: SuperBlock, d0: Disk, s: State)
    requires DiskInv(sb, d0, s)
    ensures Recoverable(sb, s.disk) && SameHome(sb, Recovered(sb, s.disk), Durable(d0, s.groups))
  {
    hide Recovered, Apply, CommitWrites, RecoverWrites, DecodeHeader, Overlay, Durable, Replay;
    var base := Durable(d0, s.groups);
    match s.mode
    case Booting(start, done) =>
      RecoveryRestarts(sb, start, done);
      SameHomeTrans(sb, Recovered(sb, s.disk), Recovered(sb, start), base);
    case Halted =>
      CleanRecovery(sb, s.disk);
      SameHomeTrans(sb, Recovered(sb, s.disk), s.disk, base);
    case Serving(u) =>
      if !u.log.committing {
        CleanRecovery(sb, s.disk);
        SameHomeTrans(sb, Recovered(sb, s.disk), s.disk, base);
      } else {
        CommitIsAtomic(sb, u.start, u.log.header, u.mem, u.done);
        if u.done <= u.log.header.numBlocks && u.log.header.numBlocks > 0 {
          SameHomeTrans(sb, Recovered(sb, s.disk), u.start, base);
        } else {
          OverlayIsMemory(sb, u.start, u.log.header, u.mem);
          EmptyOverlay(sb, u.start, u.log.header, u.mem);
          SameHomeTrans(sb, Recovered(sb, s.disk), Overlay(u.start, u.log.header, u.mem), u.mem);
          SameHomeTrans(sb, Recovered(sb, s.disk), u.mem, base);
        }
      }
  }

  lemma EmptyOverlay(sb: SuperBlock, d: Disk, h: Header, mem: Disk)
    requires h.numBlocks <= LOG_MAX_SIZE && |mem| == |d|
    ensures h.numBlocks == 0 ==> Overlay(d, h, mem) == d
  {
  }

  // ----- every step keeps the invariant -----

  lemma BootWriteKeeps(sb: SuperBlock, d0: Disk, s: State)
    requires DiskInv(sb, d0, s) && Shape(sb, s) && Enabled(sb, s, BootWrite)
    ensures DiskInv(sb, d0, Do(sb, s, BootWrite))
  {
    hide Recovered, RecoverWrites, DecodeHeader, Durable, HeaderOk;
    var ws := RecoverWrites(sb, s.mode.start);
    assert Put(s.disk, ws[s.mode.done]) == Apply(s.mode.start, ws, s.mode.done + 1);
  }

  lemma BootFinishKeeps(sb: SuperBlock, d0: Disk, s: State)
    requires DiskInv(sb, d0, s) && Shape(sb, s) && Enabled(sb, s, BootFinish)
    ensures DiskInv(sb, d0, Do(sb, s, BootFinish)) && DiskHeader(sb, s.disk).numBlocks == 0
  {
    hide RecoverWrites, DecodeHeader, Durable, Apply;
    assert s.disk == Recovered(sb, s.mode.start);
    RecoveredIsClean(sb, s.mode.start);
  }

  lemma SyncKeeps(sb: SuperBlock, d0: Disk, s: State, u: Up, op: OpId, no: U64, data: Block)
    requires DiskInv(sb, d0, s) && s.mode == Serving(u) && !u.log.committing
    requires op in u.running && no < |s.disk| && !IsLog(sb, no)
    requires var m := DoSync(sb, s, u, op, no, data).mode; m.Serving? ==> HeaderOk(sb, |s.disk|, m.up.log.header)
    ensures DiskInv(sb, d0, DoSync(sb, s, u, op, no, data))
  {
    hide Durable, DecodeHeader, Replay;
    var base := Durable(d0, s.groups);
    var h := u.log.header;
    match SyncLog(u.log, LogCapacity(sb), u.running[op], no)
    case SyncPanic =>
    case Synced(l, rm) =>
      ReplayOne(base, s.pending, Update(op, no, data));
      var i := SlotOf(h, no, 0);
      assert Logged(l.header, no) by { assert l.header.blockNo[i] == no; }
      StaysLogged(h, l.header, i, no);
  }

  lemma StaysLogged(h: Header, k: Header, i: nat, no: U64)
    requires h.numBlocks <= k.numBlocks <= LOG_MAX_SIZE && i == SlotOf(h, no, 0) < LOG_MAX_SIZE
    requires k.blockNo == h.blockNo[i := no]
    ensures forall b | Logged(h, b) :: Logged(k, b)
  {
    forall b | Logged(h, b) ensures Logged(k, b) {
      var j :| 0 <= j < h.numBlocks && h.blockNo[j] == b;
      assert k.blockNo[j] == b;
    }
  }

  lemma EndKeeps(sb: SuperBlock, d0: Disk, s: State, u: Up, op: OpId)
    requires DiskInv(sb, d0, s) && s.mode == Serving(u) && !u.log.committing && op in u.running
    ensures DiskInv(sb, d0, DoEnd(s, u, op))
  {
    hide Durable, DecodeHeader, HeaderOk;
    var base := Durable(d0, s.groups);
    match EndTurn(u.log, u.running[op], op)
    case EndPanic =>
    case MustWait(_) =>
    case MustCommit(l) =>
      if l.header.numBlocks == 0 {
        var u' := u.(log := l, running := u.running - {op}, committer := Some(op), start := s.disk, done := 0);
        DurableOne(d0, s.groups, Group(Members(u'), s.pending));
        assert Replay(base, []) == base;
      }
  }

  lemma CommitWriteKeeps(sb: SuperBlock, d0: Disk, s: State, u: Up)
    requires DiskInv(sb, d0, s) && s.mode == Serving(u) && u.log.committing
    requires u.done < |CommitWrites(sb, u.log.header, u.mem)|
    ensures DiskInv(sb, d0, DoCommitWrite(sb, s, u))
  {
    hide Durable, DecodeHeader, HeaderOk, CommitWrites;
    var base := Durable(d0, s.groups);
    var ws := CommitWrites(sb, u.log.header, u.mem);
    assert Put(s.disk, ws[u.done]) == Apply(u.start, ws, u.done + 1);
    CommitLength(sb, u.log.header, u.mem);
    if u.done == u.log.header.numBlocks {
      DurableOne(d0, s.groups, Group(Members(u), s.pending));
    }
  }

  lemma CommitLength(sb: SuperBlock, h: Header, view: Disk)
    requires HeaderOk(sb, |view|, h)
    ensures |CommitWrites(sb, h, view)| == if h.numBlocks == 0 then 0 else 2 * h.numBlocks + 2
  {
  }

  lemma CommitFinishKeeps(sb: SuperBlock, d0: Disk, s: State, u: Up)
    requires DiskInv(sb, d0, s) && s.mode == Serving(u) && u.log.committing
    requires u.done == |CommitWrites(sb, u.log.header, u.mem)|
    ensures DiskInv(sb, d0, DoCommitFinish(s, u))
  {
    hide Durable, DecodeHeader, CommitWrites, Apply, Overlay;
    var base := Durable(d0, s.groups);
    CommitLength(sb, u.log.header, u.mem);
    CommitDone(sb, u.start, u.log.header, u.mem);
    OverlayIsMemory(sb, u.start, u.log.header, u.mem);
    SameHomeTrans(sb, s.disk, Overlay(u.start, u.log.header, u.mem), u.mem);
    SameHomeTrans(sb, s.disk, u.mem, base);
    assert Replay(base, []) == base;
  }
}
