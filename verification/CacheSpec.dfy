// What every operation of the block cache keeps, over the value of the block list.
module CacheSpec {
  import opened Blocks
  import opened WalSpec
  import opened LruSpec

  /** What readers see, block by block. */
  function ViewOf(es: seq<Entry>, d: Disk): (v: Disk)
    ensures |v| == |d|
  {
    seq(|d|, no requires 0 <= no < |d| => ContentOf(es, d, no))
  }

  /** A block is in the list as a pinned entry. */
  ghost predicate Held(es: seq<Entry>, no: nat) {
    exists i | 0 <= i < |es| :: es[i].no == no && es[i].pinned
  }

  /** An entry that may differ from its disk copy is a pinned home block. */
  ghost predicate EntryOk(sb: SuperBlock, d: Disk, e: Entry) {
    && e.no < |d| && e.no != sb.logStart
    && (!e.pinned || IsLog(sb, e.no) ==> e.data == d[e.no])
  }

  ghost predicate CacheOk(sb: SuperBlock, es: seq<Entry>, d: Disk) {
    && LayoutOk(sb, |d|)
    && DistinctNos(es)
    && forall e | e in es :: EntryOk(sb, d, e)
  }

  /** Every block in the log is pinned in memory. */
  ghost predicate LoggedHeld(es: seq<Entry>, h: Header)
    requires h.numBlocks <= LOG_MAX_SIZE
  {
    forall i | 0 <= i < h.numBlocks :: Held(es, h.blockNo[i])
  }

  lemma HeldIsMember(es: seq<Entry>, no: nat)
    ensures Held(es, no) <==> exists e: Entry :: e in es && e.no == no && e.pinned
  {
    if e: Entry :| e in es && e.no == no && e.pinned {
      var i :| 0 <= i < |es| && es[i] == e;
    }
  }

  lemma CacheIsClean(sb: SuperBlock, es: seq<Entry>, d: Disk)
    requires CacheOk(sb, es, d)
    ensures EvictableClean(es, d)
  {
    forall i | 0 <= i < |es| && Evictable(es[i]) ensures es[i].no < |d| && es[i].data == d[es[i].no] {
      assert es[i] in es;
    }
  }

  /** A block that is in the log area, or not pinned in memory, reads as it is on disk. */
  lemma ViewIsDisk(sb: SuperBlock, es: seq<Entry>, d: Disk, no: nat)
    requires CacheOk(sb, es, d) && no < |d| && (IsLog(sb, no) || !Held(es, no))
    ensures ViewOf(es, d)[no] == d[no]
  {
    var i := Find(es, no);
    if i < |es| {
      assert es[i] in es;
    }
  }

  lemma HeldIsCached(es: seq<Entry>, no: nat)
    requires Held(es, no)
    ensures Cached(es, no)
  {
  }

  /** The block numbers in the list. */
  ghost function Nos(es: seq<Entry>): set<nat> {
    set e | e in es :: e.no
  }

  lemma NosAreCached(es: seq<Entry>, no: nat)
    ensures no in Nos(es) <==> Cached(es, no)
  {
    if Cached(es, no) {
      var i :| 0 <= i < |es| && es[i].no == no;
      assert es[i] in es;
    }
  }

  lemma AcquireKeeps(sb: SuperBlock, es: seq<Entry>, d: Disk, no: nat)
    requires CacheOk(sb, es, d) && no < |d| && no != sb.logStart
    ensures var r := Acquire(es, no, d[no]);
            && CacheOk(sb, r, d)
            && ViewOf(r, d) == ViewOf(es, d)
            && r != [] && r[0].no == no && r[0].data == ViewOf(es, d)[no]
            && (forall e | e in es && !Evictable(e) :: e in r)
            && (forall x | Held(es, x) :: Held(r, x))
            && Nos(r) <= Nos(es) + {no}
  {
    hide Acquire, DistinctNos, ContentOf, Evictable;
    CacheIsClean(sb, es, d);
    var r := Acquire(es, no, d[no]);
    forall other | 0 <= other < |d| ensures ViewOf(r, d)[other] == ViewOf(es, d)[other] {
      AcquireIsTransparent(es, d, no, other);
    }
    AcquireIsTransparent(es, d, no, no);
    AcquireKeepsHeld(es, no, d[no]);
    forall x | Held(es, x) ensures Held(r, x) {
      var i :| 0 <= i < |es| && es[i].no == x && es[i].pinned;
      assert es[i] in r by { assert es[i] in es && !Evictable(es[i]) by { PinnedStays(es[i]); } }
      HeldIsMember(r, x);
    }
  }

  lemma PinnedStays(e: Entry)
    requires e.pinned
    ensures !Evictable(e)
  {
  }

  lemma AcquireKeepsHeld(es: seq<Entry>, no: nat, onDisk: Block)
    ensures forall e | e in es && !Evictable(e) :: e in Acquire(es, no, onDisk)
  {
    hide Evictable;
    var i := Find(es, no);
    if i == |es| {
      EvictKeepsHeld(es, |es|);
    } else {
      assert es == es[..i] + [es[i]] + es[i + 1..];
    }
  }

  lemma {:induction false} EvictKeepsHeld(es: seq<Entry>, i: nat)
    requires i <= |es|
    ensures forall e | e in es && !Evictable(e) :: e in Evict(es, i)
    decreases i
  {
    hide Evictable;
    if i > 0 && |es| >= EVICTION_THRESHOLD {
      if Evictable(es[i - 1]) {
        assert es == es[..i - 1] + [es[i - 1]] + es[i..];
        EvictKeepsHeld(Without(es, i - 1), i - 1);
      } else {
        EvictKeepsHeld(es, i - 1);
      }
    }
  }

  /** The header block is never in the list, so it can be written behind the list's back. */
  lemma HeaderWriteKeeps(sb: SuperBlock, es: seq<Entry>, d: Disk, image: Block)
    requires CacheOk(sb, es, d)
    ensures CacheOk(sb, es, d[sb.logStart := image])
    ensures ViewOf(es, d[sb.logStart := image]) == ViewOf(es, d)[sb.logStart := image]
  {
    forall i | 0 <= i < |es| ensures es[i].no != sb.logStart {
      assert es[i] in es;
    }
  }

  // ----- changing one entry -----

  /** Entry i rewritten, its number kept. */
  function Put(es: seq<Entry>, i: nat, e: Entry): seq<Entry>
    requires i < |es| && e.no == es[i].no
  {
    es[i := e]
  }

  lemma PutView(es: seq<Entry>, d: Disk, c: Disk, i: nat, e: Entry)
    requires i < |es| && e.no == es[i].no < |d| && DistinctNos(es)
    requires c == d || c == d[e.no := e.data]
    ensures DistinctNos(Put(es, i, e))
    ensures ViewOf(Put(es, i, e), c) == ViewOf(es, d)[e.no := e.data]
  {
    var r := Put(es, i, e);
    forall no | 0 <= no < |d| ensures ViewOf(r, c)[no] == ViewOf(es, d)[e.no := e.data][no] {
      if no == e.no {
        ContentIs(r, c, i);
      } else {
        var j := Find(es, no);
        if j < |es| {
          ContentIs(r, c, j);
        } else {
          assert Find(r, no) == |r|;
        }
      }
    }
  }

  /** Rewriting an entry's content, on disk too if `through`; it ends up pinned or clean. */
  lemma PutKeeps(sb: SuperBlock, es: seq<Entry>, d: Disk, c: Disk, i: nat, e: Entry)
    requires CacheOk(sb, es, d) && i < |es| && e.no == es[i].no < |d|
    requires c == d || c == d[e.no := e.data]
    requires EntryOk(sb, c, e)
    ensures CacheOk(sb, Put(es, i, e), c)
    ensures ViewOf(Put(es, i, e), c) == ViewOf(es, d)[e.no := e.data]
    ensures forall x | Held(es, x) && (x != e.no || e.pinned) :: Held(Put(es, i, e), x)
    ensures Nos(Put(es, i, e)) <= Nos(es)
  {
    hide ViewOf;
    PutView(es, d, c, i, e);
    var r := Put(es, i, e);
    forall f | f in r ensures EntryOk(sb, c, f) {
      var j :| 0 <= j < |r| && r[j] == f;
      if j != i {
        assert es[j] in es && es[j].no != es[i].no;
      }
      assert f.no == es[j].no && es[j] in es;
    }
    forall x | Held(es, x) && (x != e.no || e.pinned) ensures Held(r, x) {
      var j :| 0 <= j < |es| && es[j].no == x && es[j].pinned;
      assert r[j].no == x && r[j].pinned;
    }
  }
}
