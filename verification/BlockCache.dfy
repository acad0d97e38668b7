// The block cache of src/fs/cache.c, run one region at a time.
module Devices {
  import opened Blocks
  import opened WalSpec

  /** A disk with atomic single-block writes; `trace` remembers them all. */
  class Device {
    var disk: Disk
    ghost var trace: seq<Write>

    constructor (disk: Disk)
      ensures this.disk == disk && trace == []
    {
      this.disk := disk;
      trace := [];
    }

    method Read(no: nat) returns (data: Block)
      requires no < |disk|
      ensures data == disk[no]
    {
      data := disk[no];
    }

    method Write(no: nat, data: Block)
      requires no < |disk|
      modifies this
      ensures disk == old(disk)[no := data] && trace == old(trace) + [WalSpec.Write(no, data)]
    {
      disk := disk[no := data];
      trace := trace + [WalSpec.Write(no, data)];
    }
  }
}

/** `struct LOG` and the regions run under `log.lock`. */
module Logs {
  import opened Blocks
  import opened WalSpec
  import opened Semaphores
  import opened LogSpec

  class LogState {
    const mx: nat
    var outstanding: int
    var committing: bool
    var mu: int
    const sem: Semaphore<OpId>
    const outSem: Semaphore<OpId>

    constructor (sb: SuperBlock)
      ensures mx == LogCapacity(sb) && fresh(sem) && fresh(outSem) && Valid()
      ensures forall h :: View(h) == Log(h, 0, false, 0, FRESH_SEM, FRESH_SEM)
    {
      mx := LogCapacity(sb);
      outstanding, committing, mu := 0, false, 0;
      var s := new Semaphore(0);
      var t := new Semaphore(0);
      sem, outSem := s, t;
    }

    ghost predicate Valid()
      reads this, sem, sem.sleeplist, outSem, outSem.sleeplist
    {
      && sem != outSem && sem.Valid() && outSem.Valid()
      && (forall w | w in sem.sleeplist :: w !in outSem.sleeplist)
      && mx <= LOG_MAX_SIZE
    }

    ghost function View(header: Header): Log
      reads this, sem, outSem
    {
      Log(header, outstanding, committing, mu, sem.View(), outSem.View())
    }

    /** One turn of the loop in `cache_begin_op`; a refused thread is left on `log.sem`. */
    method BeginTurn(header: Header, op: OpId) returns (admitted: bool)
      requires Valid() && op !in sem.View().sleepers
      modifies this, sem
      ensures Valid() && View(header) == LogSpec.BeginTurn(old(View(header)), mx, op)
      ensures admitted <==> !old(committing) && header.numBlocks + old(mu) + OP_MAX_NUM_BLOCKS <= mx
      ensures outstanding == old(outstanding) + (if admitted then 1 else 0) && committing == old(committing)
      ensures mu == old(mu) + if admitted then OP_MAX_NUM_BLOCKS else 0
      ensures admitted ==> sem.sleeplist == old(sem.sleeplist)
      ensures !admitted && old(sem.val) <= 0 ==> sem.View().sleepers == [op] + old(sem.View().sleepers)
    {
      admitted := false;
      if committing {
        var w := sem.WaitEnter(op);
      } else if header.numBlocks + mu + OP_MAX_NUM_BLOCKS > mx {
        var w := sem.WaitEnter(op);
      } else {
        outstanding := outstanding + 1;
        mu := mu + OP_MAX_NUM_BLOCKS;
        admitted := true;
      }
    }

    /** `cache_end_op` up to the point where it commits or falls asleep on `log.outstandingsem`. */
    method EndTurn(header: Header, rm: nat, op: OpId) returns (panicked: bool, doCommit: bool)
      requires Valid() && op !in outSem.View().sleepers
      modifies this, sem, sem.sleeplist, outSem
      ensures match LogSpec.EndTurn(old(View(header)), rm, op)
              case EndPanic => panicked
              case MustCommit(l) => !panicked && doCommit && Valid() && View(header) == l
              case MustWait(l) => !panicked && !doCommit && Valid() && View(header) == l
      ensures panicked <==> old(committing)
      ensures outstanding == old(outstanding) - 1 && mu == old(mu) - rm
      ensures !panicked ==> doCommit == committing == (outstanding == 0)
      ensures doCommit ==> sem.sleeplist == old(sem.sleeplist) && outSem.sleeplist == old(outSem.sleeplist)
      ensures !panicked && !doCommit ==>
        && sem.View().sleepers == [] && (forall w | w in old(sem.sleeplist) :: w.up)
        && (old(outSem.val) <= 0 ==> outSem.View().sleepers == [op] + old(outSem.View().sleepers))
    {
      panicked, doCommit := false, false;
      outstanding := outstanding - 1;
      mu := mu - rm;
      if committing {
        return true, false;
      }
      if outstanding == 0 {
        doCommit := true;
        committing := true;
      } else {
        var ret, woken := sem.PostAll();
        var w := outSem.WaitEnter(op);
      }
    }

    /** The last region of a committing `cache_end_op`. */
    method CommitOver(header: Header)
      requires Valid()
      modifies this, sem, sem.sleeplist, outSem, outSem.sleeplist
      ensures Valid() && View(Cleared(header)) == LogSpec.CommitOver(old(View(header)))
      ensures !committing && outstanding == old(outstanding) && mu == old(mu)
      ensures sem.View().sleepers == [] && outSem.View().sleepers == []
      ensures forall w | w in old(sem.sleeplist) || w in old(outSem.sleeplist) :: w.up
    {
      committing := false;
      var r1, w1 := outSem.PostAll();
      var r2, w2 := sem.PostAll();
    }
  }
}

module BlockCaches {
  import opened Blocks
  import opened WalSpec
  import opened LruSpec
  import opened CacheSpec
  import opened Devices
  import opened Bitmap
  import LogSpec
  import opened Logs

  datatype Option<+T> = None | Some(value: T)

  class OpContext {
    var rm: nat

    constructor ()
      ensures rm == 0
    {
      rm := 0;
    }
  }

  class CachedBlock {
    var blockNo: nat
    var acquired: bool
    var pinned: bool
    var valid: bool
    var data: Block

    /** `init_block`. */
    constructor ()
      ensures blockNo == 0 && !acquired && !pinned && !valid && data == ZeroBlock()
    {
      blockNo := 0;
      acquired := false;
      pinned := false;
      valid := false;
      data := ZeroBlock();
    }

    function Value(): Entry
      reads this
    {
      Entry(blockNo, acquired, pinned, data)
    }
  }

  function Values(bs: seq<CachedBlock>): (es: seq<Entry>)
    reads bs
    ensures |es| == |bs|
  {
    seq(|bs|, i requires 0 <= i < |bs| reads bs => bs[i].Value())
  }

  class Cache {
    const sb: SuperBlock
    const device: Device
    const log: LogState
    var lru: seq<CachedBlock>
    var header: Header

    /** `init_bcache` before it replays the log. */
    constructor (sb: SuperBlock, device: Device)
      requires LayoutOk(sb, |device.disk|)
      ensures this.sb == sb && this.device == device && lru == [] && Valid()
      ensures fresh(log) && log.mx == LogCapacity(sb) && log.Valid()
    {
      this.sb := sb;
      this.device := device;
      log := new LogState(sb);
      lru := [];
      header := LogHeader(0, seq(LOG_MAX_SIZE, i => 0));
    }

    ghost function Entries(): seq<Entry>
      reads this, lru
    {
      Values(lru)
    }

    ghost function Members(): set<CachedBlock>
      reads this
    {
      set b | b in lru
    }

    ghost function View(): Disk
      reads this, lru, device
    {
      ViewOf(Entries(), device.disk)
    }

    /** The list is sound, whatever the header says. */
    ghost predicate ListOk()
      reads this, lru, device
    {
      CacheOk(sb, Entries(), device.disk) && forall b | b in lru :: b.valid
    }

    ghost predicate Valid()
      reads this, lru, device
    {
      ListOk() && HeaderOk(sb, |device.disk|, header) && LoggedHeld(Entries(), header)
    }

    /** `cache_acquire` without its sleep lock. */
    method Acquire(no: nat) returns (b: CachedBlock)
      requires ListOk() && no < |device.disk| && no != sb.logStart
      modifies this`lru
      ensures ListOk()
      ensures Entries() == LruSpec.Acquire(old(Entries()), no, device.disk[no])
      ensures View() == old(View())
      ensures lru != [] && lru[0] == b && b.blockNo == no && b.data == View()[no]
      ensures b !in old(lru) ==> fresh(b)
      ensures forall x | x in lru && x != b :: x in old(lru)
      ensures forall x | x in old(lru) && (x.pinned || x.acquired) :: x in lru
      ensures forall x | Held(old(Entries()), x) :: Held(Entries(), x)
      ensures Nos(Entries()) <= old(Nos(Entries())) + {no}
      ensures header.numBlocks <= LOG_MAX_SIZE && LoggedHeld(old(Entries()), header) ==> LoggedHeld(Entries(), header)
      ensures b in old(lru) ==> forall x :: x in lru <==> x in old(lru)
      ensures b in old(lru) <==> LruSpec.Cached(old(Entries()), no)
      ensures b !in old(lru) ==> b.acquired && !b.pinned
    {
      hide CacheOk, ViewOf, Held, Evict, Evictable, ContentOf, Nos, LoggedHeld;
      ghost var es := Entries();
      AcquireKeeps(sb, es, device.disk, no);
      var p := Lookup(no);
      if p < |lru| {
        b := MoveToFront(p);
      } else {
        EvictLoop();
        b := LoadInFront(no);
      }
      LoggedStaysHeld(es, Entries(), header);
    }

    /** The search loop of `cache_acquire`. */
    method Lookup(no: nat) returns (p: nat)
      ensures p == Find(Entries(), no)
    {
      ghost var es := Entries();
      p := 0;
      while p < |lru| && lru[p].blockNo != no
        invariant 0 <= p <= |lru|
        invariant Find(es, no) == p + Find(es[p..], no)
      {
        assert es[p] == lru[p].Value();
        assert es[p..][1..] == es[p + 1..];
        p := p + 1;
      }
    }

    method MoveToFront(p: nat) returns (b: CachedBlock)
      requires p < |lru|
      modifies this`lru
      ensures b == old(lru)[p] && lru == [b] + Without(old(lru), p)
      ensures Entries() == [old(Entries())[p]] + Without(old(Entries()), p)
      ensures forall x :: x in lru <==> x in old(lru)
    {
      b := lru[p];
      assert Entries()[p] == b.Value();
      Discard(p);
      ghost var rest := Entries();
      lru := [b] + lru;
      assert Entries() == [b.Value()] + rest;
    }

    method LoadInFront(no: nat) returns (b: CachedBlock)
      requires no < |device.disk|
      modifies this`lru
      ensures fresh(b) && lru == [b] + old(lru) && b.valid
      ensures Entries() == [Entry(no, true, false, device.disk[no])] + old(Entries())
    {
      b := new CachedBlock();
      lru := [b] + lru;
      b.data := device.disk[no];
      b.blockNo := no;
      b.valid := true;
      b.acquired := true;
    }

    /** Unlinks and frees one block of the list. */
    method Discard(p: nat)
      requires p < |lru|
      modifies this`lru
      ensures lru == old(lru)[..p] + old(lru)[p + 1..]
      ensures Entries() == Without(old(Entries()), p)
      ensures forall x | x in lru :: x in old(lru)
      ensures forall x | x in old(lru) && x != old(lru)[p] :: x in lru
    {
      assert lru == lru[..p] + [lru[p]] + lru[p + 1..];
      lru := lru[..p] + lru[p + 1..];
    }

    /** The eviction loop inside `cache_acquire`. */
    method EvictLoop()
      modifies this`lru
      ensures Entries() == Evict(old(Entries()), |old(lru)|)
      ensures forall x | x in lru :: x in old(lru)
      ensures forall x | x in old(lru) && (x.pinned || x.acquired) :: x in lru
    {
      hide Without;
      var q := |lru|;
      while |lru| >= EVICTION_THRESHOLD && q != 0
        invariant 0 <= q <= |lru|
        invariant forall x | x in lru :: x in old(lru)
        invariant forall x | x in old(lru) && (x.pinned || x.acquired) :: x in lru
        invariant Evict(Entries(), q) == Evict(old(Entries()), |old(lru)|)
        decreases q
      {
        ghost var es := Entries();
        var b := lru[q - 1];
        assert es[q - 1] == b.Value();
        if !b.pinned && !b.acquired {
          Discard(q - 1);
        }
        q := q - 1;
      }
    }

    /** `cache_release` without its sleep lock. */
    method Release(b: CachedBlock)
      requires ListOk() && b in lru
      modifies b`acquired
      ensures ListOk() && !b.acquired
      ensures View() == old(View())
      ensures forall x | Held(old(Entries()), x) :: Held(Entries(), x)
      ensures header.numBlocks <= LOG_MAX_SIZE && LoggedHeld(old(Entries()), header) ==> LoggedHeld(Entries(), header)
      ensures Nos(Entries()) <= old(Nos(Entries()))
    {
      hide CacheOk, ViewOf, Held, Nos, LoggedHeld;
      ghost var es := Entries();
      ghost var i :| 0 <= i < |lru| && lru[i] == b;
      ListEntry(i);
      b.acquired := false;
      Rewritten(es, i, b.Value());
      PutKeeps(sb, es, device.disk, device.disk, i, b.Value());
      ghost var v := ViewOf(es, device.disk);
      assert v[b.blockNo := v[b.blockNo]] == v;
      LoggedStaysHeld(es, Entries(), header);
    }

    lemma ListEntry(i: nat)
      requires ListOk() && i < |lru|
      ensures Entries()[i] == lru[i].Value() && EntryOk(sb, device.disk, lru[i].Value())
      ensures ViewOf(Entries(), device.disk)[lru[i].blockNo] == lru[i].data
      ensures lru[i].pinned <==> Held(Entries(), lru[i].blockNo)
      ensures forall j | 0 <= j < |lru| && j != i :: lru[j] != lru[i] && lru[j].blockNo != lru[i].blockNo
    {
      var es := Entries();
      assert es[i] == lru[i].Value() && es[i] in es;
      ContentIs(es, device.disk, i);
      forall j | 0 <= j < |lru| && j != i ensures lru[j].blockNo != lru[i].blockNo {
        assert es[j].no != es[i].no;
      }
    }

    /** If only the i-th block has changed since the list's value was es, the value is es with that
        entry replaced. */
    lemma Rewritten(es: seq<Entry>, i: nat, e: Entry)
      requires i < |es| == |lru| && e == lru[i].Value() && e.no == es[i].no
      requires forall j | 0 <= j < |lru| && j != i :: es[j] == lru[j].Value()
      ensures Entries() == Put(es, i, e)
    {
    }

    /** `memmove` into a held block, then `device_write`, then `pinned = 0` if asked. */
    method StoreThrough(b: CachedBlock, data: Block, unpin: bool)
      requires ListOk() && b in lru && b.blockNo < |device.disk|
      modifies b`data, b`pinned, device
      ensures ListOk() && b.data == data
      ensures device.disk == old(device.disk)[b.blockNo := data]
      ensures device.trace == old(device.trace) + [Write(b.blockNo, data)]
      ensures View() == old(View())[b.blockNo := data]
      ensures !unpin ==> forall x | Held(old(Entries()), x) :: Held(Entries(), x)
      ensures Nos(Entries()) <= old(Nos(Entries()))
    {
      hide CacheOk, ViewOf, Held, Nos;
      ghost var es, d := Entries(), device.disk;
      ghost var i :| 0 <= i < |lru| && lru[i] == b;
      ListEntry(i);
      b.data := data;
      device.Write(b.blockNo, b.data);
      if unpin {
        b.pinned := false;
      }
      Rewritten(es, i, b.Value());
      PutKeeps(sb, es, d, device.disk, i, b.Value());
    }

    method WriteHeader()
      requires ListOk()
      modifies device
      ensures ListOk() && |device.disk| == |old(device.disk)|
      ensures device.disk == old(device.disk)[sb.logStart := EncodeHeader(header)]
      ensures device.trace == old(device.trace) + [HeaderWrite(sb, header)]
      ensures View() == old(View())[sb.logStart := EncodeHeader(header)]
    {
      hide DistinctNos, EncodeHeader, ViewOf;
      HeaderWriteKeeps(sb, Entries(), device.disk, EncodeHeader(header));
      device.Write(sb.logStart, EncodeHeader(header));
    }

    /** One turn of `write_log`: a pinned block goes to its log slot. Because it is pinned, acquiring
        the slot cannot evict it. */
    method LogOne(no: nat, slot: nat)
      requires ListOk() && Held(Entries(), no)
      requires no < |device.disk| && slot < |device.disk| && no != sb.logStart && slot != sb.logStart
      modifies this`lru, Members(), device
      ensures ListOk() && fresh(Members() - old(Members()))
      ensures device.trace == old(device.trace) + [Write(slot, old(View())[no])]
      ensures device.disk == old(device.disk)[slot := old(View())[no]]
      ensures View() == old(View())[slot := old(View())[no]]
      ensures forall x | Held(old(Entries()), x) :: Held(Entries(), x)
    {
      hide CacheOk, ViewOf, Held, LruSpec.Acquire;
      var from := Acquire(no);
      PinnedIfHeld(0);
      var to := Acquire(slot);
      assert from in lru;
      StoreThrough(to, from.data, false);
      Release(from);
      Release(to);
    }

    /** `write_log`. */
    method WriteLog()
      requires Valid()
      modifies this`lru, Members(), device
      ensures Valid() && fresh(Members() - old(Members()))
      ensures var ws := LogWrites(sb, Contents(header, old(View())));
              && device.trace == old(device.trace) + ws
              && device.disk == ApplyAll(old(device.disk), ws)
              && View() == ApplyAll(old(View()), ws)
    {
      hide CacheOk, ViewOf, Held, HeaderOk, ListOk, Apply, LogWrites, Contents;
      ghost var v := View();
      SlotsInLog(header);
      ghost var ws := LogWrites(sb, Contents(header, v));
      LogWritesAt(sb, header, v);
      var tail := 0;
      assert device.disk == Apply(old(device.disk), ws, 0) && v == Apply(v, ws, 0) && ws[..0] == [] by {
        ApplyNone(device.disk, ws);
        ApplyNone(v, ws);
      }
      while tail < header.numBlocks
        invariant 0 <= tail <= header.numBlocks
        invariant Valid()
        invariant fresh(Members() - old(Members()))
        invariant device.trace == old(device.trace) + ws[..tail]
        invariant device.disk == Apply(old(device.disk), ws, tail)
        invariant View() == Apply(v, ws, tail)
      {
        SlotsInLog(header);
        ghost var home := header.blockNo[tail];
        ApplyMiss(v, ws, tail, home);
        LogOne(header.blockNo[tail], sb.logStart + tail + 1);
        ApplyNext(old(device.disk), ws, tail);
        ApplyNext(v, ws, tail);
        tail := tail + 1;
      }
      assert ws[..tail] == ws;
    }

    /** One turn of `install_trans`. Either the home block is pinned, so that acquiring it evicts
        nothing, or the log slot has just been read in, so that it is marked acquired. */
    method InstallOne(slot: nat, no: nat, unpin: bool)
      requires ListOk() && (Held(Entries(), no) || !LruSpec.Cached(Entries(), slot))
      requires no < |device.disk| && slot < |device.disk| && no != sb.logStart && slot != sb.logStart
      modifies this`lru, Members(), device
      ensures ListOk() && fresh(Members() - old(Members()))
      ensures device.trace == old(device.trace) + [Write(no, old(View())[slot])]
      ensures device.disk == old(device.disk)[no := old(View())[slot]]
      ensures View() == old(View())[no := old(View())[slot]]
      ensures !unpin ==> forall x | Held(old(Entries()), x) :: Held(Entries(), x)
      ensures Nos(Entries()) <= old(Nos(Entries())) + {slot, no}
    {
      hide CacheOk, ViewOf, Held, LruSpec.Acquire, LruSpec.Cached, Nos;
      ghost var pinned := Held(Entries(), no);
      var lbuf := Acquire(slot);
      if pinned {
        HeldIsCached(Entries(), no);
      }
      var dbuf := Acquire(no);
      assert lbuf in lru;
      StoreThrough(dbuf, lbuf.data, unpin);
      Release(lbuf);
      Release(dbuf);
    }

    /** `install_trans`. */
    method InstallTrans(recovering: bool)
      requires ListOk() && HeaderOk(sb, |device.disk|, header)
      requires if recovering then lru == [] else LoggedHeld(Entries(), header)
      modifies this`lru, Members(), device
      ensures ListOk() && fresh(Members() - old(Members()))
      ensures !recovering ==> LoggedHeld(Entries(), header)
      ensures var ws := HomeWrites(header, Slots(sb, header, old(device.disk)));
              && device.trace == old(device.trace) + ws
              && device.disk == ApplyAll(old(device.disk), ws)
              && View() == ApplyAll(old(View()), ws)
    {
      hide CacheOk, ViewOf, Held, HeaderOk, ListOk, Apply, HomeWrites, LruSpec.Cached, Nos, Slots, LoggedHeld;
      ghost var v, d := View(), device.disk;
      SlotsInLog(header);
      SlotsAsViewed();
      ghost var ws := HomeWrites(header, Slots(sb, header, d));
      HomeWritesAt(header, Slots(sb, header, d));
      ApplyNone(d, ws);
      ApplyNone(v, ws);
      if recovering {
        NothingCached();
      }
      var tail := 0;
      while tail < header.numBlocks
        invariant 0 <= tail <= header.numBlocks
        invariant ListOk() && (!recovering ==> LoggedHeld(Entries(), header))
        invariant recovering ==>
            forall x | sb.logStart + tail < x < sb.logStart + sb.numLogBlocks :: x !in Nos(Entries())
        invariant fresh(Members() - old(Members()))
        invariant device.trace == old(device.trace) + ws[..tail]
        invariant device.disk == Apply(d, ws, tail)
        invariant View() == Apply(v, ws, tail)
      {
        SlotsInLog(header);
        ghost var slot := sb.logStart + tail + 1;
        ApplyMiss(v, ws, tail, slot);
        NosAreCached(Entries(), slot);
        ghost var es := Entries();
        LoggedHeldAt(es, header, tail);
        InstallOne(sb.logStart + tail + 1, header.blockNo[tail], recovering);
        LoggedStaysHeld(es, Entries(), header);
        ApplyNext(d, ws, tail);
        ApplyNext(v, ws, tail);
        tail := tail + 1;
      }
      assert ws[..tail] == ws;
    }

    lemma SlotsAsViewed()
      requires ListOk() && HeaderOk(sb, |device.disk|, header)
      ensures LayoutOk(sb, |device.disk|)
      ensures |Slots(sb, header, device.disk)| == header.numBlocks
      ensures forall x | sb.logStart < x <= sb.logStart + header.numBlocks ::
                View()[x] == Slots(sb, header, device.disk)[x - sb.logStart - 1] == device.disk[x]
    {
      forall x | sb.logStart < x <= sb.logStart + header.numBlocks ensures View()[x] == device.disk[x] {
        ViewIsDisk(sb, Entries(), device.disk, x);
      }
    }

    lemma NothingCached()
      requires lru == []
      ensures Nos(Entries()) == {}
    {
    }

    /** `commit`. */
    method Commit()
      requires Valid()
      modifies this`lru, this`header, Members(), device
      ensures Valid() && header == Cleared(old(header)) && fresh(Members() - old(Members()))
      ensures device.trace == old(device.trace) + CommitWrites(sb, old(header), old(View()))
      ensures device.disk == ApplyAll(old(device.disk), CommitWrites(sb, old(header), old(View())))
      ensures SameHome(sb, old(View()), View())
    {
      hide CacheOk, ViewOf, Held, Apply, LogWrites, HomeWrites, Contents, EncodeHeader, LoggedHeld;
      if header.numBlocks > 0 {
        SlotsInLog(header);
        ghost var h, v, d := header, View(), device.disk;
        ghost var cs := Contents(h, v);
        WriteLog();
        WriteHeader();
        SlotsFilled(sb, d, h, v, EncodeHeader(h));
        InstallTrans(false);
        header := header.(numBlocks := 0);
        NothingLogged(Entries(), header);
        WriteHeader();
        CommitStages(sb, d, h, cs);
        CommitStages(sb, v, h, cs);
        CommitKeepsView(sb, v, h);
      } else {
        ApplyNone(device.disk, []);
      }
    }

    /** `recover_from_log`, on the empty cache of `init_bcache`. */
    method Recover()
      requires lru == [] && Recoverable(sb, device.disk)
      modifies this`lru, this`header, Members(), device
      ensures Valid() && header == Cleared(DiskHeader(sb, old(device.disk)))
      ensures device.trace == old(device.trace) + RecoverWrites(sb, old(device.disk))
      ensures device.disk == Recovered(sb, old(device.disk))
      ensures View() == device.disk
    {
      hide CacheOk, ViewOf, Held, Apply, HomeWrites, EncodeHeader, DecodeHeader, LoggedHeld;
      ghost var d := device.disk;
      EmptyCache();
      var image := device.Read(sb.logStart);
      header := DecodeHeader(image);
      ghost var h := header;
      InstallTrans(true);
      header := header.(numBlocks := 0);
      NothingLogged(Entries(), header);
      WriteHeader();
      RecoverStages(sb, d);
    }

    lemma EmptyCache()
      requires lru == [] && LayoutOk(sb, |device.disk|)
      ensures ListOk() && View() == device.disk
    {
    }

    /** `cache_sync` with a context: log the block once, and charge the operation for a new one. */
    method Sync(ctx: OpContext, block: CachedBlock) returns (panicked: bool)
      requires log.mx <= LOG_MAX_SIZE && header.numBlocks <= LOG_MAX_SIZE
      requires block.blockNo < 0x1_0000_0000_0000_0000
      modifies this`header, ctx, block`pinned, log`mu
      ensures match LogSpec.SyncLog(old(log.View(header)), log.mx, old(ctx.rm), block.blockNo)
              case SyncPanic => panicked
              case Synced(l, rm) =>
                && !panicked && log.View(header) == l && ctx.rm == rm
                && block.pinned == (old(block.pinned) || l.header.numBlocks > old(header.numBlocks))
    {
      panicked := false;
      if header.numBlocks >= log.mx {
        return true;
      }
      if log.outstanding < 1 {
        return true;
      }
      var cnt := header.numBlocks;
      ghost var h := header;
      var i := 0;
      while i < cnt && header.blockNo[i] != block.blockNo
        invariant 0 <= i <= cnt
        invariant LogSpec.SlotOf(h, block.blockNo, 0) == LogSpec.SlotOf(h, block.blockNo, i)
      {
        i := i + 1;
      }
      header := header.(blockNo := header.blockNo[i := block.blockNo]);
      if i == header.numBlocks {
        header := header.(numBlocks := header.numBlocks + 1);
        block.pinned := true;
        if ctx.rm > 0 {
          ctx.rm := ctx.rm - 1;
          log.mu := log.mu - 1;
        } else {
          panicked := true;
        }
      }
    }

    /** The operation holding ctx has reserved what it may still log. */
    ghost predicate Reserved(ctx: OpContext)
      reads this, ctx, log
    {
      header.numBlocks + ctx.rm <= log.mx <= LogCapacity(sb) && log.outstanding >= 1
    }

    /** A client's rewrite of a held home block followed by `cache_sync`. With budget left it never panics. */
    method Rewrite(ctx: OpContext, b: CachedBlock, data: Block) returns (panicked: bool)
      requires Valid() && b in lru && b.blockNo < |device.disk| < 0x1_0000_0000 && !IsLog(sb, b.blockNo)
      requires Reserved(ctx)
      modifies this`header, ctx, b`data, b`pinned, log`mu
      ensures panicked <==> LogSpec.SyncLog(old(log.View(header)), log.mx, old(ctx.rm), b.blockNo).SyncPanic?
      ensures old(ctx.rm) > 0 ==> !panicked
      ensures !panicked ==>
        && Valid() && View() == old(View())[b.blockNo := data]
        && Reserved(ctx) && ctx.rm >= old(ctx.rm) - 1
        && LogSpec.SyncLog(old(log.View(header)), log.mx, old(ctx.rm), b.blockNo) ==
            LogSpec.Synced(log.View(header), ctx.rm)
    {
      hide CacheOk, ViewOf, Held, HeaderOk, LoggedHeld, LogSpec.SlotOf;
      SlotsInLog(header);
      ghost var es, h := Entries(), header;
      ghost var i :| 0 <= i < |lru| && lru[i] == b;
      ListEntry(i);
      OneMoreSlot(sb, |device.disk|, h, b.blockNo);
      LoggedIsHeld(es, h, b.blockNo);
      b.data := data;
      panicked := Sync(ctx, b);
      if panicked {
        return;
      }
      assert b.pinned;
      Rewritten(es, i, b.Value());
      HomeEntryOk(i);
      PutKeeps(sb, es, device.disk, device.disk, i, b.Value());
      HeldAt(Put(es, i, b.Value()), i);
      StillLoggedHeld(es, Entries(), h, header, b.blockNo);
    }

    lemma HomeEntryOk(i: nat)
      requires i < |lru| && LayoutOk(sb, |device.disk|) && lru[i].blockNo < |device.disk|
      requires lru[i].pinned && !IsLog(sb, lru[i].blockNo)
      ensures EntryOk(sb, device.disk, lru[i].Value())
    {
    }

    /** `bzero`. */
    method Bzero(ctx: OpContext, no: nat) returns (panicked: bool)
      requires Valid() && no < |device.disk| < 0x1_0000_0000 && !IsLog(sb, no) && Reserved(ctx)
      modifies this`lru, this`header, Members(), ctx, log`mu
      ensures panicked <==> LogSpec.SyncLog(old(log.View(header)), log.mx, old(ctx.rm), no).SyncPanic?
      ensures old(ctx.rm) > 0 ==> !panicked
      ensures !panicked ==> Valid() && View() == old(View())[no := ZeroBlock()] && Reserved(ctx)
      ensures fresh(Members() - old(Members()))
    {
      hide CacheOk, ViewOf, HeaderOk, LruSpec.Acquire, LogSpec.SyncLog, LoggedHeld, Held;
      LayoutHolds();
      var bp := Acquire(no);
      panicked := Rewrite(ctx, bp, ZeroBlock());
      if !panicked {
        Release(bp);
      }
    }

    /** `cache_alloc`: the lowest free block number, marked and zeroed. None stands for a PANIC: every bit is
        set, or the operation may not log the two blocks; with budget for two it may. */
    method Alloc(ctx: OpContext) returns (found: Option<nat>)
      requires Valid() && |device.disk| < 0x1_0000_0000 && BitmapOk(sb, |device.disk|)
      requires Reserved(ctx)
      requires forall n | 0 <= n < sb.numBlocks && IsLog(sb, n) :: InUse(sb, View(), n)
      modifies this`lru, this`header, Members(), ctx, log`mu
      ensures var n := FirstFree(sb, old(View()), 0);
              if n == sb.numBlocks then found == None && Valid() && Reserved(ctx) && View() == old(View())
              else
                && (found.None? <==> !LogSpec.SyncsTwo(old(log.View(header)), log.mx, old(ctx.rm), BBlock(n, sb), n))
                && (found.Some? ==>
                    found == Some(n) && Valid() && Reserved(ctx) && View() == AllocView(sb, old(View()), n))
      ensures found.Some? ==>
        && found.value < sb.numBlocks && Allocated(sb, old(View()), View(), found.value)
        && !InUse(sb, old(View()), found.value) && forall m | 0 <= m < found.value :: InUse(sb, old(View()), m)
      ensures old(ctx.rm) >= 2 && FirstFree(sb, old(View()), 0) < sb.numBlocks ==> found.Some?
    {
      hide Allocated, CacheOk, ViewOf, HeaderOk, LoggedHeld, BitmapOk, InUse, AllocView, Reserved, LogSpec.SyncsTwo,
          LogSpec.SyncLog;
      ghost var v := View();
      var b := 0;
      while b < sb.numBlocks
        invariant Valid() && Reserved(ctx) && ctx.rm == old(ctx.rm) && log.View(header) == old(log.View(header))
        invariant View() == v && |device.disk| == |v| && b % BIT_PER_BLOCK == 0
        invariant fresh(Members() - old(Members()))
        invariant b < sb.numBlocks ==> FirstFree(sb, v, 0) == FirstFree(sb, v, b)
        invariant b >= sb.numBlocks ==> FirstFree(sb, v, 0) == sb.numBlocks
      {
        var bi, panicked := SearchBlock(ctx, b);
        if panicked {
          return None;
        }
        if bi < BIT_PER_BLOCK && b + bi < sb.numBlocks {
          AllocatedIs(sb, v, b + bi);
          return Some(b + bi);
        }
        b := b + BIT_PER_BLOCK;
      }
      return None;
    }

    /** One turn of the outer loop of `cache_alloc`: search one bitmap block and take what is found. */
    method SearchBlock(ctx: OpContext, b: nat) returns (bi: nat, panicked: bool)
      requires Valid() && |device.disk| < 0x1_0000_0000 && BitmapOk(sb, |device.disk|)
      requires Reserved(ctx)
      requires b < sb.numBlocks && b % BIT_PER_BLOCK == 0
      requires forall n | 0 <= n < sb.numBlocks && IsLog(sb, n) :: InUse(sb, View(), n)
      modifies this`lru, this`header, Members(), ctx, log`mu
      ensures fresh(Members() - old(Members()))
      ensures bi <= BIT_PER_BLOCK && b + bi <= sb.numBlocks
      ensures FirstFree(sb, old(View()), b) == FirstFree(sb, old(View()), b + bi)
      ensures !panicked ==> Valid() && Reserved(ctx)
      ensures if bi < BIT_PER_BLOCK && b + bi < sb.numBlocks
              then
                && FirstFree(sb, old(View()), b) == b + bi
                && (panicked <==>
                    !LogSpec.SyncsTwo(old(log.View(header)), log.mx, old(ctx.rm), BBlock(b + bi, sb), b + bi))
                && (old(ctx.rm) >= 2 ==> !panicked)
                && (!panicked ==> View() == AllocView(sb, old(View()), b + bi))
              else
                && !panicked && View() == old(View())
                && ctx.rm == old(ctx.rm) && log.View(header) == old(log.View(header))
    {
      hide CacheOk, ViewOf, HeaderOk, LruSpec.Acquire, LoggedHeld, Held, BitOf, AllocView, LogSpec.SyncLog;
      LayoutHolds();
      ghost var v := View();
      panicked := false;
      assert BBlock(b, sb) < sb.numBlocks && !IsLog(sb, BBlock(b, sb));
      var bp := Acquire(BBlock(b, sb));
      bi := Scan(bp.data, v, b);
      if bi < BIT_PER_BLOCK && b + bi < sb.numBlocks {
        panicked := TakeBit(ctx, bp, b, bi);
      } else {
        Release(bp);
      }
    }

    /** Setting the bit found, and zeroing its block. */
    method TakeBit(ctx: OpContext, bp: CachedBlock, b: nat, bi: nat) returns (panicked: bool)
      requires Valid() && |device.disk| < 0x1_0000_0000 && BitmapOk(sb, |device.disk|)
      requires Reserved(ctx) && b + bi < sb.numBlocks && !IsLog(sb, b + bi)
      requires b % BIT_PER_BLOCK == 0 && bi < BIT_PER_BLOCK
      requires bp in lru && bp.blockNo == BBlock(b, sb) && bp.data == View()[BBlock(b, sb)]
      modifies this`lru, this`header, Members(), ctx, log`mu
      ensures panicked <==> !LogSpec.SyncsTwo(old(log.View(header)), log.mx, old(ctx.rm), BBlock(b + bi, sb), b + bi)
      ensures old(ctx.rm) >= 2 ==> !panicked
      ensures !panicked ==> Valid() && Reserved(ctx) && View() == AllocView(sb, old(View()), b + bi)
      ensures fresh(Members() - old(Members()))
    {
      hide CacheOk, ViewOf, HeaderOk, LogSpec.SyncLog, LoggedHeld, Held, BitOf, Mark;
      SameBitmapBlock(b, bi);
      assert BBlock(b + bi, sb) < sb.numBlocks && !IsLog(sb, BBlock(b + bi, sb));
      panicked := Rewrite(ctx, bp, Mark(bp.data, bi, true));
      if !panicked {
        Release(bp);
        panicked := Bzero(ctx, b + bi);
      }
    }

    /** The inner loop of `cache_alloc`: the first clear bit of one bitmap block, if any. */
    method Scan(data: Block, ghost v: Disk, b: nat) returns (bi: nat)
      requires BitmapOk(sb, |v|) && b % BIT_PER_BLOCK == 0 && b < sb.numBlocks && v[BBlock(b, sb)] == data
      ensures bi <= BIT_PER_BLOCK && b + bi <= sb.numBlocks
      ensures FirstFree(sb, v, b) == FirstFree(sb, v, b + bi)
      ensures bi < BIT_PER_BLOCK && b + bi < sb.numBlocks ==> FirstFree(sb, v, b) == b + bi
    {
      hide BitOf;
      bi := 0;
      while bi < BIT_PER_BLOCK && b + bi < sb.numBlocks && BitOf(data, bi)
        invariant 0 <= bi <= BIT_PER_BLOCK && b + bi <= sb.numBlocks
        invariant FirstFree(sb, v, b) == FirstFree(sb, v, b + bi)
      {
        SameBitmapBlock(b, bi);
        bi := bi + 1;
      }
      if bi < BIT_PER_BLOCK {
        SameBitmapBlock(b, bi);
      }
    }

    lemma LayoutHolds()
      requires ListOk()
      ensures LayoutOk(sb, |device.disk|)
    {
    }

    lemma SameBitmapBlock(b: nat, bi: nat)
      requires b % BIT_PER_BLOCK == 0 && bi < BIT_PER_BLOCK
      ensures BBlock(b + bi, sb) == BBlock(b, sb) && (b + bi) % BIT_PER_BLOCK == bi
    {
    }

    /** `cache_free`: clear exactly that bit; PANIC if it is clear already, or may not be logged. */
    method Free(ctx: OpContext, no: nat) returns (panicked: bool)
      requires Valid() && |device.disk| < 0x1_0000_0000 && BitmapOk(sb, |device.disk|) && no < sb.numBlocks
      requires Reserved(ctx)
      modifies this`lru, this`header, Members(), ctx, log`mu
      ensures panicked <==>
          !InUse(sb, old(View()), no)
          || LogSpec.SyncLog(old(log.View(header)), log.mx, old(ctx.rm), BBlock(no, sb)).SyncPanic?
      ensures old(ctx.rm) > 0 ==> (panicked <==> !InUse(sb, old(View()), no))
      ensures !panicked ==> Valid() && Reserved(ctx) && View() == MarkView(sb, old(View()), no, false)
      ensures !panicked ==> Freed(sb, old(View()), View(), no)
    {
      hide CacheOk, ViewOf, HeaderOk, LruSpec.Acquire, LogSpec.SyncLog, LoggedHeld, Held, BitOf, Mark;
      LayoutHolds();
      FreedIs(sb, View(), no);
      var bp := Acquire(BBlock(no, sb));
      var bi := no % BIT_PER_BLOCK;
      if !BitOf(bp.data, bi) {
        return true;
      }
      panicked := Rewrite(ctx, bp, Mark(bp.data, bi, false));
      if !panicked {
        Release(bp);
      }
    }

    lemma SlotsInLog(h: Header)
      requires ListOk() && HeaderOk(sb, |device.disk|, h)
      ensures sb.logStart + sb.numLogBlocks <= |device.disk|
      ensures h.numBlocks <= LOG_MAX_SIZE && h.numBlocks < sb.numLogBlocks
      ensures forall i | 0 <= i < h.numBlocks :: h.blockNo[i] < |device.disk| && !IsLog(sb, h.blockNo[i])
    {
    }

    lemma PinnedIfHeld(i: nat)
      requires ListOk() && i < |lru|
      ensures lru[i].pinned <==> Held(Entries(), lru[i].blockNo)
    {
      ListEntry(i);
    }
  }

  lemma ApplyNone(d: Disk, ws: seq<Write>)
    ensures Apply(d, ws, 0) == d
  {
  }

  lemma NothingLogged(es: seq<Entry>, h: Header)
    requires h.numBlocks == 0
    ensures LoggedHeld(es, h)
  {
  }

  lemma HeldAt(es: seq<Entry>, i: nat)
    requires i < |es| && es[i].pinned
    ensures Held(es, es[i].no)
  {
  }

  lemma LoggedIsHeld(es: seq<Entry>, h: Header, no: nat)
    requires h.numBlocks <= LOG_MAX_SIZE && LoggedHeld(es, h)
    ensures Logged(h, no) ==> Held(es, no)
  {
  }

  /** Logging a block twice changes nothing; logging a new one appends it. */
  lemma OneMoreSlot(sb: SuperBlock, size: nat, h: Header, no: U64)
    requires HeaderOk(sb, size, h) && no < size && !IsLog(sb, no)
    ensures var i := LogSpec.SlotOf(h, no, 0);
            && (i < h.numBlocks ==> Logged(h, no) && LogHeader(h.numBlocks, h.blockNo[i := no]) == h)
            && (i == h.numBlocks < LogCapacity(sb) ==>
                  && HeaderOk(sb, size, LogHeader(h.numBlocks + 1, h.blockNo[i := no]))
                  && h.blockNo[i := no][..i] == h.blockNo[..i])
  {
  }

  lemma StillLoggedHeld(es: seq<Entry>, r: seq<Entry>, h: Header, k: Header, no: U64)
    requires h.numBlocks <= k.numBlocks <= LOG_MAX_SIZE && LoggedHeld(es, h)
    requires (forall x | Held(es, x) :: Held(r, x)) && Held(r, no)
    requires k == h || (k.numBlocks == h.numBlocks + 1 && k.blockNo[..h.numBlocks] == h.blockNo[..h.numBlocks]
        && k.blockNo[h.numBlocks] == no)
    ensures LoggedHeld(r, k)
  {
    forall i | 0 <= i < k.numBlocks ensures Held(r, k.blockNo[i]) {
      if i < h.numBlocks {
        assert k.blockNo[i] == k.blockNo[..h.numBlocks][i] == h.blockNo[..h.numBlocks][i] == h.blockNo[i];
      }
    }
  }

  lemma LoggedHeldAt(es: seq<Entry>, h: Header, i: nat)
    requires h.numBlocks <= LOG_MAX_SIZE && i < h.numBlocks
    ensures LoggedHeld(es, h) ==> Held(es, h.blockNo[i])
  {
  }

  lemma LoggedStaysHeld(es: seq<Entry>, r: seq<Entry>, h: Header)
    ensures h.numBlocks <= LOG_MAX_SIZE && LoggedHeld(es, h) && (forall x | Held(es, x) :: Held(r, x)) ==>
        LoggedHeld(r, h)
  {
  }

  lemma HomeWritesAt(h: Header, cs: seq<Block>)
    requires |cs| <= LOG_MAX_SIZE
    ensures var ws := HomeWrites(h, cs);
            |ws| == |cs| && forall i | 0 <= i < |ws| :: ws[i] == Write(h.blockNo[i], cs[i])
  {
  }

  lemma LogWritesAt(sb: SuperBlock, h: Header, v: Disk)
    requires h.numBlocks <= LOG_MAX_SIZE && forall i | 0 <= i < h.numBlocks :: h.blockNo[i] < |v|
    ensures var ws := LogWrites(sb, Contents(h, v));
            |ws| == h.numBlocks && forall i | 0 <= i < |ws| :: ws[i] == Write(sb.logStart + 1 + i, v[h.blockNo[i]])
  {
  }
}
