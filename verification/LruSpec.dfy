// The in-memory block list of `cache_acquire` (src/fs/cache.c) as a value: most recently used
// entry first.
module LruSpec {
  import opened Blocks
  import opened WalSpec

  datatype Entry = Entry(no: nat, acquired: bool, pinned: bool, data: Block)

  const EVICTION_THRESHOLD := 20

  predicate Evictable(e: Entry) {
    !e.acquired && !e.pinned
  }

  predicate DistinctNos(es: seq<Entry>) {
    forall i, j | 0 <= i < j < |es| :: es[i].no != es[j].no
  }

  predicate Cached(es: seq<Entry>, no: nat) {
    exists i | 0 <= i < |es| :: es[i].no == no
  }

  /** First position of a block number, or the length of the list. */
  function Find(es: seq<Entry>, no: nat): (i: nat)
    ensures i <= |es|
    ensures i < |es| ==> es[i].no == no
    ensures forall j | 0 <= j < i :: es[j].no != no
  {
    if es == [] || es[0].no == no then 0 else 1 + Find(es[1..], no)
  }

  /** What a reader of block `no` sees: the cached copy, else the disk. */
  function ContentOf(es: seq<Entry>, d: Disk, no: nat): Block
    requires no < |d|
  {
    var i := Find(es, no);
    if i < |es| then es[i].data else d[no]
  }

  function Without<T>(s: seq<T>, i: nat): seq<T>
    requires i < |s|
  {
    s[..i] + s[i + 1..]
  }

  /** The eviction loop: walk from the i-th entry towards the front, dropping evictable entries
      while the list is at or over the threshold. */
  function Evict(es: seq<Entry>, i: nat): (r: seq<Entry>)
    requires i <= |es|
  {
    if i == 0 || |es| < EVICTION_THRESHOLD then es
    else if Evictable(es[i - 1]) then Evict(Without(es, i - 1), i - 1)
    else Evict(es, i - 1)
  }

  function Acquire(es: seq<Entry>, no: nat, onDisk: Block): seq<Entry> {
    var i := Find(es, no);
    if i < |es| then [es[i]] + Without(es, i)
    else [Entry(no, true, false, onDisk)] + Evict(es, |es|)
  }

  // ----- what eviction drops -----

  /** The entries of es at the first n positions that are not dropped, in order. */
  ghost function Kept(es: seq<Entry>, n: nat, gone: set<nat>): seq<Entry>
    requires n <= |es|
  {
    if n == 0 then [] else Kept(es, n - 1, gone) + if n - 1 in gone then [] else [es[n - 1]]
  }

  ghost predicate FlagsClear(es: seq<Entry>, gone: set<nat>) {
    forall g | g in gone :: g < |es| && Evictable(es[g])
  }

  /** Less recently used entries go first: nothing evictable behind a dropped entry survives. */
  ghost predicate OldestFirst(es: seq<Entry>, n: nat, gone: set<nat>)
    requires n <= |es|
  {
    forall g, k | g in gone && g < k < n && Evictable(es[k]) :: k in gone
  }

  ghost predicate NothingLeftToDrop(es: seq<Entry>, n: nat, gone: set<nat>)
    requires n <= |es|
  {
    forall k | 0 <= k < n && Evictable(es[k]) :: k in gone
  }

  lemma {:induction false} KeptAll(es: seq<Entry>, n: nat)
    requires n <= |es|
    ensures Kept(es, n, {}) == es[..n]
  {
    if n > 0 {
      KeptAll(es, n - 1);
      assert es[..n] == es[..n - 1] + [es[n - 1]];
    }
  }

  lemma {:induction false} KeptSame(es: seq<Entry>, fs: seq<Entry>, n: nat, gone: set<nat>, more: set<nat>)
    requires n <= |es| && n <= |fs| && es[..n] == fs[..n]
    requires forall k | 0 <= k < n :: k in gone <==> k in more
    ensures Kept(es, n, gone) == Kept(fs, n, more)
  {
    if n > 0 {
      assert es[n - 1] == es[..n][n - 1] == fs[..n][n - 1] == fs[n - 1];
      assert es[..n - 1] == es[..n][..n - 1] == fs[..n - 1];
      KeptSame(es, fs, n - 1, gone, more);
    }
  }

  /** r is es after a least-recently-used eviction that looked at the first i entries: it dropped
      only entries with both flags clear, less recently used ones first, kept the rest in order, and
      stopped as soon as the list was short enough, or when nothing it had passed could go. */
  ghost predicate LruEvicted(es: seq<Entry>, i: nat, gone: set<nat>, r: seq<Entry>)
    requires i <= |es|
  {
    && (forall g | g in gone :: g < i)
    && FlagsClear(es, gone) && OldestFirst(es, i, gone)
    && r == Kept(es, i, gone) + es[i..]
    && |r| == |es| - |gone|
    && (|r| < EVICTION_THRESHOLD || NothingLeftToDrop(es, i, gone))
    && (gone != {} ==> |r| >= EVICTION_THRESHOLD - 1)
  }

  lemma {:induction false} EvictionIsLru(es: seq<Entry>, i: nat) returns (gone: set<nat>)
    requires i <= |es|
    ensures LruEvicted(es, i, gone, Evict(es, i))
    decreases i
  {
    hide Evictable, LruEvicted;
    if i == 0 || |es| < EVICTION_THRESHOLD {
      gone := {};
      EvictNone(es, i);
    } else if Evictable(es[i - 1]) {
      var g := EvictionIsLru(Without(es, i - 1), i - 1);
      gone := g + {i - 1};
      DropOne(es, i, g, Evict(es, i));
    } else {
      gone := EvictionIsLru(es, i - 1);
      KeepOne(es, i, gone, Evict(es, i));
    }
  }

  lemma EvictNone(es: seq<Entry>, i: nat)
    requires i <= |es| && (i == 0 || |es| < EVICTION_THRESHOLD)
    ensures LruEvicted(es, i, {}, es)
  {
    KeptAll(es, i);
  }

  lemma DropOne(es: seq<Entry>, i: nat, g: set<nat>, r: seq<Entry>)
    requires 0 < i <= |es| && Evictable(es[i - 1]) && LruEvicted(Without(es, i - 1), i - 1, g, r)
    requires |es| >= EVICTION_THRESHOLD
    ensures LruEvicted(es, i, g + {i - 1}, r)
  {
    hide Evictable, FlagsClear, OldestFirst, NothingLeftToDrop;
    var rest, gone := Without(es, i - 1), g + {i - 1};
    assert |gone| == |g| + 1;
    DropOneFlags(es, i, g, gone);
    assert rest[i - 1..] == es[i..];
    KeptSame(es, rest, i - 1, gone, g) by { assert rest[..i - 1] == es[..i - 1]; }
    assert Kept(es, i, gone) == Kept(rest, i - 1, g);
  }

  lemma DropOneFlags(es: seq<Entry>, i: nat, g: set<nat>, gone: set<nat>)
    requires 0 < i <= |es| && Evictable(es[i - 1]) && gone == g + {i - 1} && forall k | k in g :: k < i - 1
    requires FlagsClear(Without(es, i - 1), g) && OldestFirst(Without(es, i - 1), i - 1, g)
    ensures FlagsClear(es, gone) && OldestFirst(es, i, gone)
    ensures NothingLeftToDrop(Without(es, i - 1), i - 1, g) ==> NothingLeftToDrop(es, i, gone)
  {
    hide Evictable;
    assert forall k | 0 <= k < i - 1 :: Without(es, i - 1)[k] == es[k];
  }

  lemma KeepOne(es: seq<Entry>, i: nat, gone: set<nat>, r: seq<Entry>)
    requires 0 < i <= |es| && !Evictable(es[i - 1]) && LruEvicted(es, i - 1, gone, r)
    ensures LruEvicted(es, i, gone, r)
  {
    hide Evictable;
    assert es[i - 1..] == [es[i - 1]] + es[i..];
  }

  /** In which order `cache_acquire` leaves the list: the requested block in front and the others as they
      were; on a miss, less what eviction dropped. */
  lemma AcquireOrder(es: seq<Entry>, no: nat, onDisk: Block) returns (i: nat, gone: set<nat>)
    ensures if exists j :: 0 <= j < |es| && es[j].no == no then
              && i < |es| && es[i].no == no && (forall j | 0 <= j < i :: es[j].no != no)
              && Acquire(es, no, onDisk) == [es[i]] + es[..i] + es[i + 1..]
            else
              var r := Acquire(es, no, onDisk);
              r != [] && r[0] == Entry(no, true, false, onDisk) && LruEvicted(es, |es|, gone, r[1..])
  {
    i := Find(es, no);
    gone := EvictionIsLru(es, |es|);
    if i < |es| {
      assert [es[i]] + Without(es, i) == [es[i]] + es[..i] + es[i + 1..];
    } else {
      assert Acquire(es, no, onDisk)[1..] == Evict(es, |es|);
    }
  }

  /** The list never exceeds the threshold unless everything but the new entry is in use. */
  lemma AcquireBound(es: seq<Entry>, no: nat, onDisk: Block)
    ensures var r := Acquire(es, no, onDisk);
            && (Cached(es, no) ==> |r| == |es|)
            && (!Cached(es, no) ==> |r| <= EVICTION_THRESHOLD || forall k | 1 <= k < |r| :: !Evictable(r[k]))
  {
    hide Evictable;
    if !Cached(es, no) {
      assert Find(es, no) == |es|;
      var gone := EvictionIsLru(es, |es|);
      KeptMembers(es, |es|, gone);
      var r := Evict(es, |es|);
      if |r| >= EVICTION_THRESHOLD {
        forall k | 0 <= k < |r| ensures !Evictable(r[k]) {
          assert r[k] in Kept(es, |es|, gone);
        }
      }
    }
  }

  lemma {:induction false} KeptMembers(es: seq<Entry>, n: nat, gone: set<nat>)
    requires n <= |es|
    ensures forall e | e in Kept(es, n, gone) :: exists k :: 0 <= k < n && k !in gone && es[k] == e
    ensures forall k | 0 <= k < n && k !in gone :: es[k] in Kept(es, n, gone)
  {
    if n > 0 {
      KeptMembers(es, n - 1, gone);
    }
  }

  // ----- transparency -----

  ghost predicate EvictableClean(es: seq<Entry>, d: Disk) {
    forall i | 0 <= i < |es| && Evictable(es[i]) :: es[i].no < |d| && es[i].data == d[es[i].no]
  }

  /** With distinct numbers, a block's content is that of whichever entry carries its number. */
  lemma ContentIs(es: seq<Entry>, d: Disk, i: nat)
    requires i < |es| && DistinctNos(es) && es[i].no < |d|
    ensures ContentOf(es, d, es[i].no) == es[i].data
  {
  }

  /** Dropping clean entries changes no block's visible content. */
  lemma {:induction false} EvictKeepsContent(es: seq<Entry>, i: nat, d: Disk, no: nat)
    requires i <= |es| && DistinctNos(es) && EvictableClean(es, d) && no < |d|
    ensures DistinctNos(Evict(es, i)) && ContentOf(Evict(es, i), d, no) == ContentOf(es, d, no)
    ensures forall e | e in Evict(es, i) :: e in es
    decreases i
  {
    hide Evictable, DistinctNos, EvictableClean, ContentOf, Without;
    if i == 0 || |es| < EVICTION_THRESHOLD {
    } else if Evictable(es[i - 1]) {
      DropClean(es, i - 1, d);
      DropContent(es, i - 1, d, no);
      EvictKeepsContent(Without(es, i - 1), i - 1, d, no);
    } else {
      EvictKeepsContent(es, i - 1, d, no);
    }
  }

  lemma DropClean(es: seq<Entry>, j: nat, d: Disk)
    requires j < |es| && EvictableClean(es, d) && Evictable(es[j])
    ensures EvictableClean(Without(es, j), d) && es[j].no < |d| && es[j].data == d[es[j].no]
    ensures |Without(es, j)| == |es| - 1 && forall e | e in Without(es, j) :: e in es
  {
    hide Evictable;
    var rest := Without(es, j);
    assert forall k | 0 <= k < |rest| :: rest[k] == es[if k < j then k else k + 1];
  }

  lemma DropContent(es: seq<Entry>, j: nat, d: Disk, no: nat)
    requires j < |es| && DistinctNos(es) && no < |d|
    requires es[j].no < |d| && es[j].data == d[es[j].no]
    ensures DistinctNos(Without(es, j)) && ContentOf(Without(es, j), d, no) == ContentOf(es, d, no)
  {
    var rest := Without(es, j);
    assert forall k | 0 <= k < |rest| :: rest[k] == es[if k < j then k else k + 1];
    var i := Find(es, no);
    if i < |es| && i != j {
      var k := if i < j then i else i - 1;
      assert rest[k] == es[i];
      ContentIs(rest, d, k);
    } else {
      assert Find(rest, no) == |rest|;
    }
  }

  lemma FrontContent(es: seq<Entry>, j: nat, d: Disk, no: nat)
    requires j < |es| && DistinctNos(es) && no < |d|
    ensures DistinctNos([es[j]] + Without(es, j))
    ensures ContentOf([es[j]] + Without(es, j), d, no) == ContentOf(es, d, no)
  {
    hide Evictable;
    var r := [es[j]] + Without(es, j);
    assert forall k | 0 <= k < |r| :: r[k] == es[if k == 0 then j else if k <= j then k - 1 else k];
    assert DistinctNos(r);
    var i := Find(es, no);
    if i < |es| {
      var k := if i == j then 0 else if i < j then i + 1 else i;
      assert r[k] == es[i];
      ContentIs(r, d, k);
    } else {
      assert Find(r, no) == |r|;
    }
  }

  /** `cache_acquire` is transparent: one entry per block number, the requested block in front, and
      every block's visible content as before. */
  lemma AcquireIsTransparent(es: seq<Entry>, d: Disk, no: nat, other: nat)
    requires DistinctNos(es) && EvictableClean(es, d) && no < |d| && other < |d|
    ensures var r := Acquire(es, no, d[no]);
            && DistinctNos(r)
            && r != [] && r[0].no == no && r[0].data == ContentOf(es, d, no)
            && ContentOf(r, d, other) == ContentOf(es, d, other)
            && (forall e | e in r :: e in es || e == Entry(no, true, false, d[no]))
  {
    hide Evictable, DistinctNos, Evict;
    var i := Find(es, no);
    if i < |es| {
      FrontContent(es, i, d, other);
    } else {
      EvictKeepsContent(es, |es|, d, other);
      EvictKeepsContent(es, |es|, d, no);
      NewContent(Evict(es, |es|), es, d, no, other);
    }
  }

  lemma NewContent(rest: seq<Entry>, es: seq<Entry>, d: Disk, no: nat, other: nat)
    requires DistinctNos(rest) && no < |d| && other < |d|
    requires (forall e | e in rest :: e in es) && Find(es, no) == |es|
    ensures var r := [Entry(no, true, false, d[no])] + rest;
            DistinctNos(r) && ContentOf(r, d, other) == if other == no then d[no] else ContentOf(rest, d, other)
  {
    var r := [Entry(no, true, false, d[no])] + rest;
    forall k | 0 <= k < |rest| ensures rest[k].no != no {
      assert rest[k] in es;
    }
    assert forall k | 1 <= k < |r| :: r[k] == rest[k - 1];
    assert r[1..] == rest;
    if other != no {
      assert Find(r, other) == 1 + Find(rest, other);
    }
  }
}
