// What the write-ahead log of src/fs/cache.c puts on disk, as sequences of single-block
// writes, and what a crash between any two of those writes leaves for recovery.
module WalSpec {
  import opened Blocks

  /** The part of the super block that the cache reads. */
  datatype SuperBlock = SuperBlock(numBlocks: nat, numLogBlocks: nat, logStart: nat, bitmapStart: nat)

  type Disk = seq<Block>

  datatype Write = Write(no: nat, data: Block)

  const OP_MAX_NUM_BLOCKS := 10

  /** `log.mx`: a u32 subtraction (0 - 1 wraps to a huge value), then the smaller of the two limits. */
  function LogCapacity(sb: SuperBlock): (mx: nat)
    ensures mx <= LOG_MAX_SIZE
  {
    if 1 <= sb.numLogBlocks <= LOG_MAX_SIZE then sb.numLogBlocks - 1 else LOG_MAX_SIZE
  }

  /** The capacity is the largest that the header's slots and, behind the header block, the log area allow. */
  lemma CapacityIs(sb: SuperBlock, n: nat)
    requires sb.numLogBlocks >= 1
    ensures n <= LogCapacity(sb) <==> n <= LOG_MAX_SIZE && sb.logStart + 1 + n <= sb.logStart + sb.numLogBlocks
  {
  }

  predicate LayoutOk(sb: SuperBlock, size: nat) {
    1 <= sb.numLogBlocks && sb.logStart + sb.numLogBlocks <= size
  }

  predicate IsLog(sb: SuperBlock, no: nat) {
    sb.logStart <= no < sb.logStart + sb.numLogBlocks
  }

  /** The header's live entries are distinct home blocks and fit the log area. */
  predicate HeaderOk(sb: SuperBlock, size: nat, h: Header) {
    && h.numBlocks <= LogCapacity(sb)
    && (forall i | 0 <= i < h.numBlocks :: h.blockNo[i] < size && !IsLog(sb, h.blockNo[i]))
    && (forall i, j | 0 <= i < j < h.numBlocks :: h.blockNo[i] != h.blockNo[j])
  }

  predicate Logged(h: Header, no: nat)
    requires h.numBlocks <= LOG_MAX_SIZE
  {
    exists i | 0 <= i < h.numBlocks :: h.blockNo[i] == no
  }

  predicate SameHome(sb: SuperBlock, d: Disk, e: Disk) {
    |d| == |e| && forall no | 0 <= no < |d| && !IsLog(sb, no) :: d[no] == e[no]
  }

  /** The disk after the first k of the given writes. */
  function Apply(d: Disk, ws: seq<Write>, k: nat): (r: Disk)
    requires k <= |ws|
    ensures |r| == |d|
  {
    if k == 0 then d
    else
      var e := Apply(d, ws, k - 1);
      var w := ws[k - 1];
      if w.no < |d| then e[w.no := w.data] else e
  }

  function ApplyAll(d: Disk, ws: seq<Write>): (r: Disk)
    ensures |r| == |d|
  {
    Apply(d, ws, |ws|)
  }

  // ----- the writes of commit and recovery -----

  /** `write_log`: the i-th logged block goes to the i-th slot of the log body. */
  function LogWrites(sb: SuperBlock, cs: seq<Block>): (ws: seq<Write>)
    ensures |ws| == |cs|
  {
    seq(|cs|, i requires 0 <= i < |cs| => Write(sb.logStart + 1 + i, cs[i]))
  }

  /** `install_trans`: the content of the i-th slot goes to the i-th home block. */
  function HomeWrites(h: Header, cs: seq<Block>): (ws: seq<Write>)
    requires |cs| <= LOG_MAX_SIZE
    ensures |ws| == |cs|
  {
    seq(|cs|, i requires 0 <= i < |cs| => Write(h.blockNo[i], cs[i]))
  }

  function HeaderWrite(sb: SuperBlock, h: Header): Write {
    Write(sb.logStart, EncodeHeader(h))
  }

  function Cleared(h: Header): Header {
    h.(numBlocks := 0)
  }

  /** Every device write of one `commit` that logs the contents cs, in order. */
  function CommitPlan(sb: SuperBlock, h: Header, cs: seq<Block>): (ws: seq<Write>)
    requires |cs| <= LOG_MAX_SIZE
    ensures |ws| == 2 * |cs| + 2
  {
    LogWrites(sb, cs) + [HeaderWrite(sb, h)] + HomeWrites(h, cs) + [HeaderWrite(sb, Cleared(h))]
  }

  /** What `commit` finds in memory for the logged blocks. */
  function Contents(h: Header, view: Disk): (cs: seq<Block>)
    requires h.numBlocks <= LOG_MAX_SIZE && forall i | 0 <= i < h.numBlocks :: h.blockNo[i] < |view|
    ensures |cs| == h.numBlocks
  {
    seq(h.numBlocks, i requires 0 <= i < h.numBlocks => view[h.blockNo[i]])
  }

  function CommitWrites(sb: SuperBlock, h: Header, view: Disk): (ws: seq<Write>)
    requires HeaderOk(sb, |view|, h)
  {
    if h.numBlocks == 0 then [] else CommitPlan(sb, h, Contents(h, view))
  }

  function DiskHeader(sb: SuperBlock, d: Disk): Header
    requires LayoutOk(sb, |d|)
  {
    DecodeHeader(d[sb.logStart])
  }

  predicate Recoverable(sb: SuperBlock, d: Disk) {
    LayoutOk(sb, |d|) && HeaderOk(sb, |d|, DiskHeader(sb, d))
  }

  predicate Clean(sb: SuperBlock, d: Disk) {
    LayoutOk(sb, |d|) && DiskHeader(sb, d).numBlocks == 0
  }

  /** The contents of the live log slots on disk d. */
  function Slots(sb: SuperBlock, h: Header, d: Disk): (cs: seq<Block>)
    requires LayoutOk(sb, |d|) && HeaderOk(sb, |d|, h)
    ensures |cs| == h.numBlocks
  {
    d[sb.logStart + 1..sb.logStart + 1 + h.numBlocks]
  }

  /** Every device write of one `recover_from_log`, in order. */
  function RecoverWrites(sb: SuperBlock, d: Disk): (ws: seq<Write>)
    requires Recoverable(sb, d)
  {
    var h := DiskHeader(sb, d);
    HomeWrites(h, Slots(sb, h, d)) + [HeaderWrite(sb, Cleared(h))]
  }

  /** The disk after an undisturbed recovery. */
  function Recovered(sb: SuperBlock, d: Disk): (r: Disk)
    requires Recoverable(sb, d)
    ensures |r| == |d|
  {
    ApplyAll(d, RecoverWrites(sb, d))
  }

  /** The k-th device write of a commit of n blocks: n slots behind the header block, the header, the n home
      blocks, the header again with no live entry. */
  lemma CommitTrace(sb: SuperBlock, h: Header, view: Disk, k: nat)
    requires HeaderOk(sb, |view|, h) && h.numBlocks > 0
    ensures var n, ws := h.numBlocks, CommitWrites(sb, h, view);
      && |ws| == 2 * n + 2
      && (k < n ==> ws[k] == Write(sb.logStart + 1 + k, view[h.blockNo[k]]))
      && ws[n] == Write(sb.logStart, EncodeHeader(h))
      && (n < k <= 2 * n ==> ws[k] == Write(h.blockNo[k - n - 1], view[h.blockNo[k - n - 1]]))
      && ws[2 * n + 1] == Write(sb.logStart, EncodeHeader(LogHeader(0, h.blockNo)))
  {
    hide EncodeHeader;
  }

  /** The k-th device write of a recovery. */
  lemma RecoverTrace(sb: SuperBlock, d: Disk, k: nat)
    requires Recoverable(sb, d)
    ensures var h, ws := DiskHeader(sb, d), RecoverWrites(sb, d);
      && |ws| == h.numBlocks + 1
      && (k < h.numBlocks ==>
          sb.logStart + 1 + k < |d| && ws[k] == Write(h.blockNo[k], d[sb.logStart + 1 + k]))
      && ws[h.numBlocks] == Write(sb.logStart, EncodeHeader(LogHeader(0, h.blockNo)))
  {
    hide EncodeHeader, DecodeHeader;
  }

  // ----- effect of write sequences -----

  lemma ApplyNext(d: Disk, ws: seq<Write>, k: nat)
    requires k < |ws| && ws[k].no < |d|
    ensures Apply(d, ws, k + 1) == Apply(d, ws, k)[ws[k].no := ws[k].data]
    ensures ws[..k + 1] == ws[..k] + [ws[k]]
  {
  }

  lemma {:induction false} ApplyLeft(d: Disk, a: seq<Write>, b: seq<Write>, k: nat)
    requires k <= |a|
    ensures Apply(d, a + b, k) == Apply(d, a, k)
  {
    if k > 0 {
      ApplyLeft(d, a, b, k - 1);
    }
  }

  lemma {:induction false} ApplyRight(d: Disk, a: seq<Write>, b: seq<Write>, k: nat)
    requires k <= |b|
    ensures Apply(d, a + b, |a| + k) == Apply(ApplyAll(d, a), b, k)
  {
    if k == 0 {
      ApplyLeft(d, a, b, |a|);
    } else {
      ApplyRight(d, a, b, k - 1);
      assert (a + b)[|a| + k - 1] == b[k - 1];
    }
  }

  lemma {:induction false} ApplyMiss(d: Disk, ws: seq<Write>, k: nat, no: nat)
    requires k <= |ws| && no < |d|
    requires forall i | 0 <= i < k :: ws[i].no != no
    ensures Apply(d, ws, k)[no] == d[no]
  {
    if k > 0 {
      ApplyMiss(d, ws, k - 1, no);
    }
  }

  lemma {:induction false} ApplyHit(d: Disk, ws: seq<Write>, k: nat, j: nat)
    requires j < k <= |ws| && ws[j].no < |d|
    requires forall i | j < i < k :: ws[i].no != ws[j].no
    ensures Apply(d, ws, k)[ws[j].no] == ws[j].data
  {
    if j < k - 1 {
      ApplyHit(d, ws, k - 1, j);
    }
  }

  /** What the first k installs do, block by block. */
  lemma InstallPrefix(sb: SuperBlock, d: Disk, h: Header, cs: seq<Block>, k: nat, no: nat)
    requires HeaderOk(sb, |d|, h) && |cs| == h.numBlocks && k <= |cs| && no < |d|
    ensures IsLog(sb, no) ==> Apply(d, HomeWrites(h, cs), k)[no] == d[no]
    ensures forall i | 0 <= i < k :: h.blockNo[i] == no ==> Apply(d, HomeWrites(h, cs), k)[no] == cs[i]
    ensures (forall i | 0 <= i < k :: h.blockNo[i] != no) ==> Apply(d, HomeWrites(h, cs), k)[no] == d[no]
  {
    var ws := HomeWrites(h, cs);
    if IsLog(sb, no) {
      ApplyMiss(d, ws, k, no);
    } else if i :| 0 <= i < k && h.blockNo[i] == no {
      ApplyHit(d, ws, k, i);
    } else {
      ApplyMiss(d, ws, k, no);
    }
  }

  /** Filling k log slots, block by block. */
  lemma LogPrefix(sb: SuperBlock, d: Disk, cs: seq<Block>, k: nat, no: nat)
    requires LayoutOk(sb, |d|) && |cs| < sb.numLogBlocks && k <= |cs| && no < |d|
    ensures no == sb.logStart || !IsLog(sb, no) ==> Apply(d, LogWrites(sb, cs), k)[no] == d[no]
    ensures sb.logStart < no <= sb.logStart + k ==>
              Apply(d, LogWrites(sb, cs), k)[no] == cs[no - sb.logStart - 1]
  {
    var ws := LogWrites(sb, cs);
    if sb.logStart < no <= sb.logStart + k {
      ApplyHit(d, ws, k, no - sb.logStart - 1);
    } else {
      ApplyMiss(d, ws, k, no);
    }
  }

  /** The home blocks a committed group leaves behind: logged blocks take their value from `view`. */
  function Overlay(d: Disk, h: Header, view: Disk): (r: Disk)
    requires |view| == |d| && h.numBlocks <= LOG_MAX_SIZE
    ensures |r| == |d|
  {
    seq(|d|, no requires 0 <= no < |d| => if Logged(h, no) then view[no] else d[no])
  }

  // ----- recovery -----

  /** A full recovery, home block by home block. */
  lemma RecoveredAt(sb: SuperBlock, d: Disk, no: nat)
    requires Recoverable(sb, d) && no < |d| && !IsLog(sb, no)
    ensures var h := DiskHeader(sb, d);
            && (forall i | 0 <= i < h.numBlocks :: h.blockNo[i] == no ==>
                Recovered(sb, d)[no] == d[sb.logStart + 1 + i])
            && (!Logged(h, no) ==> Recovered(sb, d)[no] == d[no])
  {
    hide DecodeHeader, EncodeHeader;
    var h := DiskHeader(sb, d);
    var home := HomeWrites(h, Slots(sb, DiskHeader(sb, d), d));
    ApplyLeft(d, home, [HeaderWrite(sb, Cleared(h))], |home|);
    InstallPrefix(sb, d, h, Slots(sb, DiskHeader(sb, d), d), |home|, no);
  }

  lemma RecoveredIsClean(sb: SuperBlock, d: Disk)
    requires Recoverable(sb, d)
    ensures Clean(sb, Recovered(sb, d))
    ensures DiskHeader(sb, Recovered(sb, d)) == Cleared(DiskHeader(sb, d))
  {
    hide DecodeHeader, EncodeHeader;
    DecodeEncodeHeader(Cleared(DiskHeader(sb, d)));
  }

  /** With an empty header recovery changes no home block. */
  lemma CleanRecovery(sb: SuperBlock, d: Disk)
    requires Clean(sb, d)
    ensures Recoverable(sb, d) && SameHome(sb, Recovered(sb, d), d)
  {
    hide DecodeHeader, EncodeHeader;
    forall no | 0 <= no < |d| && !IsLog(sb, no) ensures Recovered(sb, d)[no] == d[no] {
      RecoveredAt(sb, d, no);
    }
  }

  /** Any interrupted recovery can be rerun: the header is still good and a full rerun
      ends with the home blocks the first one was heading for. */
  lemma RecoveryRestarts(sb: SuperBlock, d: Disk, k: nat)
    requires Recoverable(sb, d) && k <= |RecoverWrites(sb, d)|
    ensures var c := Apply(d, RecoverWrites(sb, d), k);
            Recoverable(sb, c) && SameHome(sb, Recovered(sb, c), Recovered(sb, d))
  {
    hide DecodeHeader, EncodeHeader, Apply;
    var h := DiskHeader(sb, d);
    var home := HomeWrites(h, Slots(sb, DiskHeader(sb, d), d));
    if k <= |home| {
      ApplyLeft(d, home, [HeaderWrite(sb, Cleared(h))], k);
      InterruptedInstall(sb, d, k);
    } else {
      RecoveredIsClean(sb, d);
      CleanRecovery(sb, Recovered(sb, d));
    }
  }

  lemma InterruptedInstall(sb: SuperBlock, d: Disk, k: nat)
    requires Recoverable(sb, d) && k <= DiskHeader(sb, d).numBlocks
    ensures var c := Apply(d, HomeWrites(DiskHeader(sb, d), Slots(sb, DiskHeader(sb, d), d)), k);
            Recoverable(sb, c) && SameHome(sb, Recovered(sb, c), Recovered(sb, d))
  {
    hide DecodeHeader, EncodeHeader, Recovered;
    var h := DiskHeader(sb, d);
    var c := Apply(d, HomeWrites(h, Slots(sb, DiskHeader(sb, d), d)), k);
    forall no | 0 <= no < |d| ensures IsLog(sb, no) ==> c[no] == d[no] {
      InstallPrefix(sb, d, h, Slots(sb, DiskHeader(sb, d), d), k, no);
    }
    forall no | 0 <= no < |d| && !IsLog(sb, no) ensures Recovered(sb, c)[no] == Recovered(sb, d)[no] {
      InstallPrefix(sb, d, h, Slots(sb, DiskHeader(sb, d), d), k, no);
      RecoveredAt(sb, d, no);
      RecoveredAt(sb, c, no);
    }
  }

  // ----- commit -----

  /** The state right after the header write and j installs. */
  function MidCommit(sb: SuperBlock, d: Disk, h: Header, cs: seq<Block>, j: nat): (c: Disk)
    requires LayoutOk(sb, |d|) && |cs| <= LOG_MAX_SIZE && j <= |cs|
    ensures |c| == |d|
  {
    var e := ApplyAll(d, LogWrites(sb, cs))[sb.logStart := EncodeHeader(h)];
    Apply(e, HomeWrites(h, cs), j)
  }

  lemma MidCommitAt(sb: SuperBlock, d: Disk, h: Header, cs: seq<Block>, j: nat, no: nat)
    requires LayoutOk(sb, |d|) && HeaderOk(sb, |d|, h) && |cs| == h.numBlocks && j <= |cs| && no < |d|
    ensures no == sb.logStart ==> MidCommit(sb, d, h, cs, j)[no] == EncodeHeader(h)
    ensures sb.logStart < no <= sb.logStart + |cs| ==> MidCommit(sb, d, h, cs, j)[no] == cs[no - sb.logStart - 1]
    ensures forall i | 0 <= i < j :: no == h.blockNo[i] ==> MidCommit(sb, d, h, cs, j)[no] == cs[i]
    ensures !IsLog(sb, no) && (forall i | 0 <= i < j :: no != h.blockNo[i]) ==> MidCommit(sb, d, h, cs, j)[no] == d[no]
  {
    hide EncodeHeader, Apply;
    LogPrefix(sb, d, cs, |cs|, no);
    var e := ApplyAll(d, LogWrites(sb, cs))[sb.logStart := EncodeHeader(h)];
    InstallPrefix(sb, e, h, cs, j, no);
  }

  /** The commit's write sequence passes through `MidCommit`. */
  lemma CommitReachesMid(sb: SuperBlock, d: Disk, h: Header, cs: seq<Block>, j: nat)
    requires LayoutOk(sb, |d|) && |cs| <= LOG_MAX_SIZE && j <= |cs|
    ensures Apply(d, CommitPlan(sb, h, cs), |cs| + 1 + j) == MidCommit(sb, d, h, cs, j)
  {
    hide EncodeHeader, LogWrites, HomeWrites;
    var body := LogWrites(sb, cs);
    var w := [HeaderWrite(sb, h)];
    var home := HomeWrites(h, cs);
    var last := [HeaderWrite(sb, Cleared(h))];
    ApplyLeft(d, body + w + home, last, |cs| + 1 + j);
    ApplyRight(d, body + w, home, j);
    ApplyRight(d, body, w, 1);
  }

  lemma BeforeHeaderWrite(sb: SuperBlock, d: Disk, h: Header, cs: seq<Block>, k: nat)
    requires Clean(sb, d) && |cs| <= LOG_MAX_SIZE && |cs| < sb.numLogBlocks && k <= |cs|
    ensures var c := Apply(d, CommitPlan(sb, h, cs), k);
            Recoverable(sb, c) && SameHome(sb, Recovered(sb, c), d)
  {
    hide DecodeHeader, EncodeHeader, LogWrites, HomeWrites, Apply, Recovered;
    var body := LogWrites(sb, cs);
    var rest := [HeaderWrite(sb, h)] + HomeWrites(h, cs) + [HeaderWrite(sb, Cleared(h))];
    assert CommitPlan(sb, h, cs) == body + rest;
    ApplyLeft(d, body, rest, k);
    var c := Apply(d, body, k);
    forall no | 0 <= no < |d| && (no == sb.logStart || !IsLog(sb, no)) ensures c[no] == d[no] {
      LogPrefix(sb, d, cs, k, no);
    }
    CleanRecovery(sb, c);
  }

  lemma AfterHeaderWrite(sb: SuperBlock, d: Disk, h: Header, view: Disk, j: nat)
    requires LayoutOk(sb, |d|) && |view| == |d| && HeaderOk(sb, |d|, h)
    requires j <= h.numBlocks
    ensures var c := MidCommit(sb, d, h, Contents(h, view), j);
            && Recoverable(sb, c)
            && SameHome(sb, Recovered(sb, c), Overlay(d, h, view))
  {
    hide DecodeHeader, EncodeHeader, MidCommit, Recovered;
    var cs := Contents(h, view);
    var c := MidCommit(sb, d, h, cs, j);
    MidCommitAt(sb, d, h, cs, j, sb.logStart);
    DecodeEncodeHeader(h);
    forall no | 0 <= no < |d| && !IsLog(sb, no) ensures Recovered(sb, c)[no] == Overlay(d, h, view)[no] {
      RecoveredAt(sb, c, no);
      MidCommitAt(sb, d, h, cs, j, no);
      if i :| 0 <= i < h.numBlocks && h.blockNo[i] == no {
        MidCommitAt(sb, d, h, cs, j, sb.logStart + 1 + i);
      }
    }
  }

  /** A finished commit leaves the group in place and an empty header. */
  lemma CommitDone(sb: SuperBlock, d: Disk, h: Header, view: Disk)
    requires Clean(sb, d) && |view| == |d| && HeaderOk(sb, |d|, h)
    ensures var c := ApplyAll(d, CommitWrites(sb, h, view));
            && Clean(sb, c) && SameHome(sb, c, Overlay(d, h, view))
  {
    hide DecodeHeader, EncodeHeader, MidCommit, HomeWrites, LogWrites;
    if h.numBlocks > 0 {
      var n := h.numBlocks;
      var cs := Contents(h, view);
      var plan := CommitPlan(sb, h, cs);
      CommitReachesMid(sb, d, h, cs, n);
      assert plan[2 * n + 1] == HeaderWrite(sb, Cleared(h));
      var c := ApplyAll(d, plan);
      assert c == MidCommit(sb, d, h, cs, n)[sb.logStart := EncodeHeader(Cleared(h))];
      DecodeEncodeHeader(Cleared(h));
      forall no | 0 <= no < |d| && !IsLog(sb, no) ensures c[no] == Overlay(d, h, view)[no] {
        MidCommitAt(sb, d, h, cs, n, no);
      }
    }
  }

  /** Crash atomicity of one commit. Whatever prefix of its writes reaches the disk,
      recovery yields the old home blocks if the header write is not among them and
      the whole group if it is. */
  lemma CommitIsAtomic(sb: SuperBlock, d: Disk, h: Header, view: Disk, k: nat)
    requires Clean(sb, d) && |view| == |d| && HeaderOk(sb, |d|, h)
    requires k <= |CommitWrites(sb, h, view)|
    ensures var c := Apply(d, CommitWrites(sb, h, view), k);
            && Recoverable(sb, c)
            && SameHome(sb, Recovered(sb, c), if k <= h.numBlocks then d else Overlay(d, h, view))
  {
    hide DecodeHeader, EncodeHeader, CommitPlan, Recovered, Overlay;
    var cs := Contents(h, view);
    if h.numBlocks == 0 {
      CleanRecovery(sb, d);
    } else if k <= h.numBlocks {
      BeforeHeaderWrite(sb, d, h, cs, k);
    } else if k <= 2 * h.numBlocks + 1 {
      CommitReachesMid(sb, d, h, cs, k - h.numBlocks - 1);
      AfterHeaderWrite(sb, d, h, view, k - h.numBlocks - 1);
    } else {
      CommitDone(sb, d, h, view);
      CleanRecovery(sb, ApplyAll(d, CommitWrites(sb, h, view)));
    }
  }

  // ----- what the imperative commit and recovery do -----

  /** `install_trans` finds in the slots what `write_log` put there. */
  lemma SlotsFilled(sb: SuperBlock, d: Disk, h: Header, view: Disk, image: Block)
    requires LayoutOk(sb, |d|) && |view| == |d| && HeaderOk(sb, |d|, h)
    ensures Slots(sb, h, ApplyAll(d, LogWrites(sb, Contents(h, view)))[sb.logStart := image]) == Contents(h, view)
  {
    hide LogWrites, Apply;
    var cs := Contents(h, view);
    forall i | 0 <= i < h.numBlocks ensures ApplyAll(d, LogWrites(sb, cs))[sb.logStart + 1 + i] == cs[i] {
      LogPrefix(sb, d, cs, |cs|, sb.logStart + 1 + i);
    }
  }

  /** The four stages of `commit` on any disk-like sequence, as one list of writes. */
  lemma CommitStages(sb: SuperBlock, d: Disk, h: Header, cs: seq<Block>)
    requires LayoutOk(sb, |d|) && |cs| <= LOG_MAX_SIZE
    ensures var d1 := ApplyAll(d, LogWrites(sb, cs))[sb.logStart := EncodeHeader(h)];
            var d2 := ApplyAll(d1, HomeWrites(h, cs))[sb.logStart := EncodeHeader(Cleared(h))];
            d2 == ApplyAll(d, CommitPlan(sb, h, cs))
  {
    hide EncodeHeader, LogWrites, HomeWrites;
    CommitReachesMid(sb, d, h, cs, |cs|);
    var plan := CommitPlan(sb, h, cs);
    assert plan[2 * |cs| + 1] == HeaderWrite(sb, Cleared(h));
  }

  /** Copying a block's own content to its log slot and back leaves it as it was. */
  lemma CommitKeepsView(sb: SuperBlock, view: Disk, h: Header)
    requires LayoutOk(sb, |view|) && HeaderOk(sb, |view|, h)
    ensures SameHome(sb, view, ApplyAll(view, CommitPlan(sb, h, Contents(h, view))))
  {
    hide EncodeHeader, LogWrites, HomeWrites, Apply, MidCommit;
    var cs := Contents(h, view);
    CommitStages(sb, view, h, cs);
    MidCommitIs(sb, view, h, cs);
    forall no | 0 <= no < |view| && !IsLog(sb, no) ensures MidCommit(sb, view, h, cs, |cs|)[no] == view[no] {
      MidCommitAt(sb, view, h, cs, |cs|, no);
    }
  }

  lemma MidCommitIs(sb: SuperBlock, d: Disk, h: Header, cs: seq<Block>)
    requires LayoutOk(sb, |d|) && |cs| <= LOG_MAX_SIZE
    ensures MidCommit(sb, d, h, cs, |cs|) ==
        ApplyAll(ApplyAll(d, LogWrites(sb, cs))[sb.logStart := EncodeHeader(h)], HomeWrites(h, cs))
  {
  }

  lemma RecoverStages(sb: SuperBlock, d: Disk)
    requires Recoverable(sb, d)
    ensures var h := DiskHeader(sb, d);
            Recovered(sb, d) == ApplyAll(d, HomeWrites(h, Slots(sb, h, d)))[sb.logStart := EncodeHeader(Cleared(h))]
  {
    hide EncodeHeader, DecodeHeader, HomeWrites;
    var h := DiskHeader(sb, d);
    ApplyRight(d, HomeWrites(h, Slots(sb, h, d)), [HeaderWrite(sb, Cleared(h))], 1);
  }
}
