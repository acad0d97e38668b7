// The power-of-two pool allocator of src/kernel/mem.c. An address is a natural number; a free block is
// known by its place in a pool's stack, a live block by the header word in front of what the caller got.
module PoolSpec {
  const PAGE_SIZE := 4096

  datatype Option<T> = None | Some(value: T)

  // ----- size classes -----

  function Pow2(n: nat): (r: nat)
    ensures r >= 1
  {
    if n == 0 then 1 else 2 * Pow2(n - 1)
  }

  /** `32 - clz(x)`. */
  function BitLen(x: nat): nat {
    if x == 0 then 0 else 1 + BitLen(x / 2)
  }

  /** `16u << i`. */
  function Unit(i: nat): nat {
    16 * Pow2(i)
  }

  lemma {:induction false} BitLenBounds(x: nat)
    ensures x < Pow2(BitLen(x)) && (x > 0 ==> Pow2(BitLen(x) - 1) <= x)
  {
    if x > 1 {
      BitLenBounds(x / 2);
      BitLenStep(x);
      hide Pow2, BitLen;
      Doubled(x, Pow2(BitLen(x / 2)), Pow2(BitLen(x / 2) - 1));
    }
  }

  lemma Doubled(x: nat, p: nat, q: nat)
    requires q <= x / 2 < p
    ensures 2 * q <= x < 2 * p
  {
  }

  lemma BitLenStep(x: nat)
    requires x > 1
    ensures BitLen(x) == 1 + BitLen(x / 2) > 1
    ensures Pow2(BitLen(x)) == 2 * Pow2(BitLen(x / 2)) && Pow2(BitLen(x) - 1) == 2 * Pow2(BitLen(x / 2) - 1)
  {
    var n := BitLen(x / 2);
    assert n > 0;
    hide BitLen;
    assert Pow2(n) == 2 * Pow2(n - 1);
  }

  lemma {:induction false} Pow2Add(a: nat, b: nat)
    ensures Pow2(a + b) == Pow2(a) * Pow2(b)
  {
    if a > 0 {
      Pow2Add(a - 1, b);
    }
  }

  lemma {:induction false} Pow2Grows(a: nat, b: nat)
    requires a < b
    ensures 2 * Pow2(a) <= Pow2(b)
    decreases b
  {
    if a < b - 1 {
      Pow2Grows(a, b - 1);
    }
  }

  /** The class `simple_pool_alloc` computes. */
  function ClassOf(size: nat): int {
    BitLen(size + 8 - 1) - 4
  }

  lemma SmallPowers()
    ensures Pow2(4) == 16 && Pow2(12) == 4096
  {
    assert Pow2(2) == 4;
    Pow2Add(2, 2);
    Pow2Add(4, 4);
    Pow2Add(8, 4);
  }

  lemma UnitIs(n: nat)
    requires n >= 4
    ensures Unit(n - 4) == Pow2(n)
  {
    SmallPowers();
    hide Pow2;
    Pow2Add(4, n - 4);
  }

  /** The class is the smallest whose blocks hold the request and its header. */
  lemma ClassFits(size: nat)
    requires 1 <= size <= PAGE_SIZE - 8
    ensures 0 <= ClassOf(size) <= 8 && Unit(ClassOf(size)) >= size + 8
    ensures ClassOf(size) > 0 ==> Unit(ClassOf(size) - 1) < size + 8
  {
    hide Pow2, BitLen, Unit;
    var n := BitLen(size + 8 - 1);
    BitLenBounds(size + 8 - 1);
    SmallPowers();
    if n < 4 {
      Pow2Grows(n, 4);
    } else if n > 12 {
      if n > 13 {
        Pow2Grows(12, n - 1);
      }
    }
    UnitIs(n);
    if n > 4 {
      UnitIs(n - 1);
    }
  }

  /** Blocks of a class to the page. */
  function Count(i: nat): nat
    requires i <= 8
  {
    Pow2(8 - i)
  }

  lemma PageFull(i: nat)
    requires i <= 8
    ensures Count(i) * Unit(i) == PAGE_SIZE
  {
    Pow2Add(i, 8 - i);
    assert Pow2(8) == 256 by { Pow2Add(4, 4); assert Pow2(4) == 16; }
    Assoc(Pow2(8 - i), Pow2(i));
  }

  lemma Assoc(a: nat, b: nat)
    ensures a * (16 * b) == 16 * (b * a)
  {
  }

  /** Block k of a page carved for class i. */
  function Spot(page: nat, i: nat, k: nat): nat {
    page + k * Unit(i)
  }

  predicate Aligned(b: nat, page: nat, i: nat) {
    i <= 8 && exists k: nat :: k < Count(i) && Spot(page, i, k) == b
  }

  lemma Step(j: nat, k: nat, u: nat)
    requires j < k
    ensures j * u + u <= k * u
  {
    assert (k - j) * u >= u by { Times(k - j, u); }
    assert k * u == j * u + (k - j) * u;
  }

  lemma Times(n: nat, u: nat)
    requires n >= 1
    ensures n * u >= u
  {
  }

  lemma InPage(b: nat, page: nat, i: nat)
    requires Aligned(b, page, i)
    ensures page <= b && b + Unit(i) <= page + PAGE_SIZE
  {
    var k: nat :| k < Count(i) && Spot(page, i, k) == b;
    PageFull(i);
    Step(k, Count(i), Unit(i));
  }

  /** Two blocks of one page do not overlap. */
  lemma SpotsApart(b: nat, c: nat, page: nat, i: nat)
    requires Aligned(b, page, i) && Aligned(c, page, i) && b != c
    ensures b + Unit(i) <= c || c + Unit(i) <= b
  {
    var j: nat :| j < Count(i) && Spot(page, i, j) == b;
    var k: nat :| k < Count(i) && Spot(page, i, k) == c;
    if j < k {
      Step(j, k, Unit(i));
    } else {
      Step(k, j, Unit(i));
    }
  }

  // ----- the state -----

  /** Pools of free blocks, headers of live blocks, carved pages with their class, free pages. */
  datatype State = State(pools: seq<seq<nat>>, header: map<nat, nat>, carved: map<nat, nat>, pages: seq<nat>)

  function PageOf(b: nat): nat {
    b - b % PAGE_SIZE
  }

  /** b is a block of a page carved for class i. */
  predicate Block(s: State, b: nat, i: nat) {
    PageOf(b) in s.carved && s.carved[PageOf(b)] == i && Aligned(b, PageOf(b), i)
  }

  ghost predicate NoRepeat(s: seq<nat>) {
    forall i, j | 0 <= i < j < |s| :: s[i] != s[j]
  }

  ghost predicate Inv(s: State) {
    && |s.pools| == 16
    && (forall p | p in s.carved :: p % PAGE_SIZE == 0 && s.carved[p] <= 8)
    && (forall p | p in s.pages :: p % PAGE_SIZE == 0 && p !in s.carved) && NoRepeat(s.pages)
    && (forall i, b | 0 <= i < 16 && b in s.pools[i] :: Block(s, b, i) && b !in s.header)
    && (forall i | 0 <= i < 16 :: NoRepeat(s.pools[i]))
    && (forall b | b in s.header :: Block(s, b, s.header[b]))
    && (forall b: nat, i: nat | Block(s, b, i) :: b in s.header || b in s.pools[i])
  }

  /** Live blocks, headers included, never overlap and each lies inside one carved page; none is on a free list. */
  lemma LiveApart(s: State, b: nat, c: nat)
    requires Inv(s) && b in s.header && c in s.header && b != c
    ensures b + Unit(s.header[b]) <= c || c + Unit(s.header[c]) <= b
    ensures PageOf(b) in s.carved && b + Unit(s.header[b]) <= PageOf(b) + PAGE_SIZE
    ensures forall i | 0 <= i < 16 :: b !in s.pools[i]
  {
    hide Unit, Aligned, NoRepeat;
    assert Block(s, b, s.header[b]) && Block(s, c, s.header[c]);
    InPage(b, PageOf(b), s.header[b]);
    InPage(c, PageOf(c), s.header[c]);
    if PageOf(b) == PageOf(c) {
      SpotsApart(b, c, PageOf(b), s.header[b]);
    } else {
      PagesApart(PageOf(b), PageOf(c));
    }
  }

  lemma PagesApart(p: nat, q: nat)
    requires p % PAGE_SIZE == 0 && q % PAGE_SIZE == 0 && p != q
    ensures p + PAGE_SIZE <= q || q + PAGE_SIZE <= p
  {
  }

  // ----- what the operations do to the state -----

  /** A page carved for class i, before its first block is handed out: blocks 1, 2, ... go onto the stack in turn. */
  function Carve(page: nat, i: nat, n: nat): seq<nat> {
    if n <= 1 then [] else [Spot(page, i, n - 1)] + Carve(page, i, n - 1)
  }

  predicate SpotFrom(page: nat, i: nat, low: nat, n: nat, b: nat) {
    exists k: nat :: low <= k < n && Spot(page, i, k) == b
  }

  lemma {:induction false} CarveHas(page: nat, i: nat, n: nat, b: nat)
    ensures b in Carve(page, i, n) <==> SpotFrom(page, i, 1, n, b)
    decreases n
  {
    hide Spot;
    if n > 1 {
      CarveHas(page, i, n - 1, b);
      if SpotFrom(page, i, 1, n, b) {
        var k: nat :| 1 <= k < n && Spot(page, i, k) == b;
        assert k < n - 1 ==> SpotFrom(page, i, 1, n - 1, b);
      }
      if SpotFrom(page, i, 1, n - 1, b) {
        var k: nat :| 1 <= k < n - 1 && Spot(page, i, k) == b;
        assert 1 <= k < n && Spot(page, i, k) == b;
      }
      assert Spot(page, i, n - 1) == b ==> SpotFrom(page, i, 1, n, b);
    }
  }

  lemma SpotsDiffer(page: nat, i: nat, j: nat, k: nat)
    requires j < k
    ensures Spot(page, i, j) < Spot(page, i, k)
  {
    UnitPositive(i);
    Step(j, k, Unit(i));
    hide Unit;
  }

  lemma {:induction false} CarveOnce(page: nat, i: nat, n: nat)
    ensures NoRepeat(Carve(page, i, n))
    decreases n
  {
    hide Spot, NoRepeat;
    if n > 1 {
      CarveOnce(page, i, n - 1);
      var b := Spot(page, i, n - 1);
      CarveHas(page, i, n - 1, b);
      if SpotFrom(page, i, 1, n - 1, b) {
        var k: nat :| 1 <= k < n - 1 && Spot(page, i, k) == b;
        SpotsDiffer(page, i, k, n - 1);
      }
      OneMore(b, Carve(page, i, n - 1));
    } else {
      NoneRepeat();
    }
  }

  lemma NoneRepeat()
    ensures NoRepeat([])
  {
  }

  lemma OneMore(b: nat, s: seq<nat>)
    requires NoRepeat(s) && b !in s
    ensures NoRepeat([b] + s)
  {
  }

  lemma UnitPositive(i: nat)
    ensures Unit(i) >= 16
  {
  }

  /** A block taken from its stack becomes live. */
  lemma TakeKeeps(s: State, i: nat)
    requires Inv(s) && i < 16 && s.pools[i] != []
    ensures var b := s.pools[i][0]; b !in s.header && Block(s, b, i) && i <= 8
    ensures var b := s.pools[i][0]; Inv(s.(pools := s.pools[i := s.pools[i][1..]], header := s.header[b := i]))
  {
    hide Aligned;
    var b := s.pools[i][0];
    assert b in s.pools[i] && Block(s, b, i);
    var s2 := s.(pools := s.pools[i := s.pools[i][1..]], header := s.header[b := i]);
    assert s.pools[i] == [b] + s.pools[i][1..];
    assert forall j, c | 0 <= j < 16 && c in s2.pools[j] :: c in s.pools[j];
    forall j, c | 0 <= j < 16 && c in s2.pools[j] ensures Block(s2, c, j) && c !in s2.header {
      assert Block(s, c, j);
    }
    forall c | c in s2.header ensures Block(s2, c, s2.header[c]) {
      assert c in s.header ==> Block(s, c, s.header[c]);
    }
    forall c: nat, j: nat | Block(s2, c, j) ensures c in s2.header || c in s2.pools[j] {
      assert Block(s, c, j);
    }
  }

  /** A freed block goes back to the stack its header names. */
  lemma GiveKeeps(s: State, b: nat)
    requires Inv(s) && b in s.header
    ensures s.header[b] < 16
    ensures var i := s.header[b]; Inv(s.(pools := s.pools[i := [b] + s.pools[i]], header := s.header - {b}))
  {
    hide Aligned;
    var i := s.header[b];
    assert Block(s, b, i);
    var s2 := s.(pools := s.pools[i := [b] + s.pools[i]], header := s.header - {b});
    assert forall j, c | 0 <= j < 16 && c in s2.pools[j] :: c in s.pools[j] || (j == i && c == b);
    forall j, c | 0 <= j < 16 && c in s2.pools[j] ensures Block(s2, c, j) && c !in s2.header {
      assert c != b ==> Block(s, c, j);
    }
    assert b !in s.pools[i];
    forall c | c in s2.header ensures Block(s2, c, s2.header[c]) {
      assert Block(s, c, s.header[c]);
    }
    forall c: nat, j: nat | Block(s2, c, j) ensures c in s2.header || c in s2.pools[j] {
      assert Block(s, c, j);
    }
  }

  /** The blocks of a page: its first one and the carved rest. */
  lemma CarvedBlocks(page: nat, i: nat, b: nat)
    requires i <= 8 && page % PAGE_SIZE == 0
    ensures b == page || b in Carve(page, i, Count(i)) <==> Aligned(b, page, i)
    ensures Aligned(b, page, i) ==> PageOf(b) == page
    ensures page !in Carve(page, i, Count(i))
  {
    hide Spot, Unit;
    CarveHas(page, i, Count(i), b);
    CarveHas(page, i, Count(i), page);
    SpotZero(page, i);
    if Aligned(b, page, i) {
      var k: nat :| k < Count(i) && Spot(page, i, k) == b;
      assert k >= 1 ==> SpotFrom(page, i, 1, Count(i), b);
      InPage(b, page, i);
      UnitPositive(i);
      SamePage(b, page);
    }
    if SpotFrom(page, i, 1, Count(i), page) {
      var k: nat :| 1 <= k < Count(i) && Spot(page, i, k) == page;
      SpotsDiffer(page, i, 0, k);
    }
  }

  lemma SpotZero(page: nat, i: nat)
    ensures Spot(page, i, 0) == page
  {
  }

  lemma SamePage(b: nat, page: nat)
    requires page % PAGE_SIZE == 0 && page <= b < page + PAGE_SIZE
    ensures PageOf(b) == page
  {
  }

  /** A fresh page is carved: its first block becomes live, the others go onto the empty stack. */
  function Carved(s: State, i: nat): State
    requires i <= 8 && |s.pools| == 16 && s.pages != []
  {
    var p := s.pages[0];
    State(s.pools[i := Carve(p, i, Count(i)) + s.pools[i]], s.header[p := i], s.carved[p := i], s.pages[1..])
  }

  lemma NewPage(s: State, i: nat)
    requires Inv(s) && i <= 8 && s.pages != []
    ensures var p := s.pages[0]; p % PAGE_SIZE == 0 && p !in s.carved && p !in s.header && p !in s.pages[1..]
    ensures var p := s.pages[0];
        forall b: nat, j: nat | Aligned(b, p, i) && j < 16 :: b !in s.header && b !in s.pools[j]
  {
    hide Spot, Unit, Aligned;
    var p := s.pages[0];
    assert p in s.pages && s.pages == [p] + s.pages[1..];
    forall b: nat, j: nat | Aligned(b, p, i) && j < 16 ensures b !in s.header && b !in s.pools[j] {
      CarvedBlocks(p, i, b);
      assert b in s.header ==> Block(s, b, s.header[b]);
      assert b in s.pools[j] ==> Block(s, b, j);
    }
    CarvedBlocks(p, i, p);
  }

  lemma CarveKeeps(s: State, i: nat)
    requires Inv(s) && i <= 8 && s.pages != [] && s.pools[i] == []
    ensures Inv(Carved(s, i)) && s.pages[0] !in s.header && Block(Carved(s, i), s.pages[0], i)
  {
    hide Spot, Unit, Aligned, Carve;
    var p, s2 := s.pages[0], Carved(s, i);
    NewPage(s, i);
    CarveOnce(p, i, Count(i));
    CarvedBlocks(p, i, p);
    forall b: nat, j: nat ensures Block(s2, b, j) <==> Block(s, b, j) || (j == i && Aligned(b, p, i)) {
      CarvedBlocks(p, i, b);
    }
    forall j, b | 0 <= j < 16 && b in s2.pools[j] ensures Block(s2, b, j) && b !in s2.header {
      CarvedBlocks(p, i, b);
      assert b in s.pools[j] ==> Block(s, b, j);
    }
    forall b | b in s2.header ensures Block(s2, b, s2.header[b]) {
      assert b in s.header ==> Block(s, b, s.header[b]);
    }
    forall b: nat, j: nat | Block(s2, b, j) ensures b in s2.header || b in s2.pools[j] {
      CarvedBlocks(p, i, b);
    }
    NoRepeatTail(s.pages);
    assert s2.pools[i] == Carve(p, i, Count(i));
    assert forall q | q in s2.pages :: q in s.pages && q != p;
  }

  lemma NoRepeatTail(s: seq<nat>)
    requires NoRepeat(s) && s != []
    ensures NoRepeat(s[1..])
  {
  }

  lemma LeakKeeps(s: State)
    requires Inv(s) && s.pages != []
    ensures Inv(s.(pages := s.pages[1..]))
  {
    hide Aligned;
    var s2 := s.(pages := s.pages[1..]);
    NoRepeatTail(s.pages);
    assert forall q | q in s2.pages :: q in s.pages;
    assert forall b: nat, i: nat :: Block(s2, b, i) == Block(s, b, i);
  }

  lemma GivePageKeeps(s: State, p: nat)
    requires Inv(s) && p % PAGE_SIZE == 0 && p !in s.pages && p !in s.carved
    ensures Inv(s.(pages := [p] + s.pages))
  {
    hide Aligned;
    var s2 := s.(pages := [p] + s.pages);
    OneMore(p, s.pages);
    assert forall b: nat, i: nat :: Block(s2, b, i) == Block(s, b, i);
  }

  /** Nothing allocated yet. */
  function Start(pages: seq<nat>): State {
    State(seq(16, i => []), map[], map[], pages)
  }

  predicate ClassEmpty(pools: seq<seq<nat>>, size: nat) {
    0 <= ClassOf(size) < |pools| && pools[ClassOf(size)] == []
  }

  /** The free pages that `simple_pool_alloc` looks at after its first three lines. */
  function Rest(pages: seq<nat>, size: int): seq<nat> {
    if size > PAGE_SIZE / 2 - 8 && pages != [] then pages[1..] else pages
  }

  /** The pages that are still accounted for. */
  function PageSet(s: State): set<nat> {
    s.carved.Keys + set p | p in s.pages
  }

  lemma LeakLoses(s: State)
    requires Inv(s) && s.pages != []
    ensures PageSet(s.(pages := s.pages[1..])) == PageSet(s) - {s.pages[0]} && s.pages[0] in PageSet(s)
  {
    hide Block;
    assert s.pages == [s.pages[0]] + s.pages[1..];
    assert s.pages[0] !in s.pages[1..];
  }

  lemma CarveLosesNone(s: State, i: nat)
    requires i <= 8 && |s.pools| == 16 && s.pages != []
    ensures PageSet(Carved(s, i)) == PageSet(s)
  {
    assert s.pages == [s.pages[0]] + s.pages[1..];
  }

  lemma SamePages(s: State, t: State)
    requires t.carved == s.carved && t.pages == s.pages
    ensures PageSet(t) == PageSet(s)
  {
  }

  // ----- the operations as functions -----

  /** The middle of `simple_pool_alloc`: a block of class i comes off its stack, or is the first block of a
      page that is carved for the class. */
  function TakeBlock(s: State, i: nat): (State, Option<nat>)
    requires i <= 8 && |s.pools| == 16
  {
    if s.pools[i] != [] then
      var b := s.pools[i][0];
      (s.(pools := s.pools[i := s.pools[i][1..]], header := s.header[b := i]), Some(b))
    else if s.pages == [] then (s, None)
    else (Carved(s, i), Some(s.pages[0]))
  }

  predicate Served(size: int) {
    0 < size <= PAGE_SIZE - 8
  }

  /** A request that makes `simple_pool_alloc` take a page and forget it. */
  predicate Forgets(s: State, size: int) {
    PAGE_SIZE / 2 - 8 < size <= PAGE_SIZE - 8 && s.pages != []
  }

  /** `simple_pool_alloc`. */
  function Alloc(s: State, size: int): (State, Option<nat>)
    requires |s.pools| == 16
  {
    if !Served(size) then (s, None)
    else
      ClassFits(size);
      var r := TakeBlock(s.(pages := Rest(s.pages, size)), ClassOf(size));
      (r.0, if r.1.None? then None else Some(r.1.value + 8))
  }

  /** `simple_pool_free`. */
  function Free(s: State, p: nat): State
    requires |s.pools| == 16 && p >= 8 && p - 8 in s.header && s.header[p - 8] < 16
  {
    var b, i := p - 8, s.header[p - 8];
    s.(pools := s.pools[i := [b] + s.pools[i]], header := s.header - {b})
  }

  lemma TakeBlockIs(s: State, i: nat)
    requires Inv(s) && i <= 8 && |s.pools| == 16
    ensures var (t, b) := TakeBlock(s, i);
      && Inv(t) && PageSet(t) == PageSet(s)
      && (b.None? <==> s.pools[i] == [] && s.pages == [])
      && (b.Some? ==> b.value !in s.header && t.header == s.header[b.value := i])
  {
    hide Inv, PageSet, Carve, Count;
    if s.pools[i] != [] {
      TakeKeeps(s, i);
      SamePages(s, TakeBlock(s, i).0);
    } else if s.pages != [] {
      CarveKeeps(s, i);
      CarveLosesNone(s, i);
    }
  }

  /** An allocation keeps everything in order. It fails exactly for a size it does not serve, or when class
      and pages are used up; otherwise a block becomes live that was not, large enough for the request and
      its header. It loses exactly the page it forgets. */
  lemma AllocIs(s: State, size: int)
    requires Inv(s) && |s.pools| == 16
    ensures var (t, r) := Alloc(s, size);
      && Inv(t)
      && (r.None? <==>
          !Served(size) || (ClassEmpty(s.pools, size) && |s.pages| <= if size > PAGE_SIZE / 2 - 8 then 1 else 0))
      && (r.None? ==> t.header == s.header && t.pools == s.pools)
      && (r.Some? ==> var b, i := r.value - 8, ClassOf(size);
            b >= 0 && i >= 0 && b !in s.header && t.header == s.header[b := i] && Unit(i) >= size + 8)
      && PageSet(t) == PageSet(s) - if Forgets(s, size) then {s.pages[0]} else {}
  {
    hide ClassOf, Inv, PageSet, Unit, TakeBlock;
    if Served(size) {
      ClassFits(size);
      var s1 := s.(pages := Rest(s.pages, size));
      if Forgets(s, size) {
        LeakKeeps(s);
        LeakLoses(s);
      }
      TakeBlockIs(s1, ClassOf(size));
      TakeBlockFails(s1, ClassOf(size));
    }
  }

  lemma TakeBlockFails(s: State, i: nat)
    requires i <= 8 && |s.pools| == 16
    ensures TakeBlock(s, i).1.None? ==> TakeBlock(s, i).0 == s
  {
  }
}
