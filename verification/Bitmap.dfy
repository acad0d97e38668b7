// The allocation bitmap of src/fs/cache.c: bits inside bytes inside blocks.
module Bitmap {
  import opened Blocks
  import opened WalSpec

  const BIT_PER_BLOCK := 4096

  /** `(b >> k) & 1`, as a truth value. */
  predicate BitAt(b: nat, k: nat) {
    if k == 0 then b % 2 == 1 else BitAt(b / 2, k - 1)
  }

  /** `b | (1 << k)` or `b & ~(1 << k)`, digit by digit. */
  function PutBit(b: nat, k: nat, on: bool): nat {
    if k == 0 then b / 2 * 2 + (if on then 1 else 0) else b % 2 + 2 * PutBit(b / 2, k - 1, on)
  }

  function Pow2(n: nat): (r: nat)
    ensures r > 0
  {
    if n == 0 then 1 else 2 * Pow2(n - 1)
  }

  lemma {:induction false} PutBitAt(b: nat, k: nat, on: bool, j: nat)
    ensures BitAt(PutBit(b, k, on), j) == if j == k then on else BitAt(b, j)
  {
    if k > 0 && j > 0 {
      PutBitAt(b / 2, k - 1, on, j - 1);
    }
  }

  lemma {:induction false} PutBitBound(b: nat, k: nat, on: bool, n: nat)
    requires k < n && b < Pow2(n)
    ensures PutBit(b, k, on) < Pow2(n)
  {
    if k > 0 {
      PutBitBound(b / 2, k - 1, on, n - 1);
    }
  }

  predicate Bit(b: Byte, k: nat) {
    BitAt(b, k)
  }

  function WithBit(b: Byte, k: nat, on: bool): (r: Byte)
    requires k < 8
    ensures forall j: nat :: Bit(r, j) == if j == k then on else Bit(b, j)
  {
    assert Pow2(8) == 256 by { assert Pow2(4) == 16; }
    PutBitBound(b, k, on, 8);
    assert forall j: nat :: BitAt(PutBit(b, k, on), j) == if j == k then on else BitAt(b, j) by {
      forall j: nat {
        PutBitAt(b, k, on, j);
      }
    }
    PutBit(b, k, on)
  }

  predicate BitOf(data: Block, bi: nat)
    requires bi < BIT_PER_BLOCK
  {
    Bit(data[bi / 8], bi % 8)
  }

  function Mark(data: Block, bi: nat, on: bool): (r: Block)
    requires bi < BIT_PER_BLOCK
    ensures forall j | 0 <= j < BIT_PER_BLOCK :: BitOf(r, j) == if j == bi then on else BitOf(data, j)
  {
    hide Bit;
    data[bi / 8 := WithBit(data[bi / 8], bi % 8, on)]
  }

  function BBlock(b: nat, sb: SuperBlock): nat {
    b / BIT_PER_BLOCK + sb.bitmapStart
  }

  /** Every block number below `numBlocks` has its bit on the disk, and the bitmap is home ground. */
  predicate BitmapOk(sb: SuperBlock, size: nat) {
    && 0 < sb.numBlocks <= size
    && (forall n | 0 <= n < sb.numBlocks :: BBlock(n, sb) < sb.numBlocks && !IsLog(sb, BBlock(n, sb)))
  }

  predicate InUse(sb: SuperBlock, view: Disk, n: nat)
    requires BitmapOk(sb, |view|) && n < sb.numBlocks
  {
    BitOf(view[BBlock(n, sb)], n % BIT_PER_BLOCK)
  }

  /** The lowest clear bit from `from` on, or `numBlocks`. */
  function FirstFree(sb: SuperBlock, view: Disk, from: nat): (n: nat)
    requires BitmapOk(sb, |view|) && from <= sb.numBlocks
    ensures from <= n <= sb.numBlocks
    ensures n < sb.numBlocks ==> !InUse(sb, view, n)
    ensures forall m | from <= m < n :: InUse(sb, view, m)
    decreases sb.numBlocks - from
  {
    if from == sb.numBlocks || !InUse(sb, view, from) then from else FirstFree(sb, view, from + 1)
  }

  function MarkView(sb: SuperBlock, view: Disk, n: nat, on: bool): (v: Disk)
    requires BitmapOk(sb, |view|) && n < sb.numBlocks
    ensures |v| == |view|
  {
    var no := BBlock(n, sb);
    view[no := Mark(view[no], n % BIT_PER_BLOCK, on)]
  }

  /** `cache_alloc` once it has found n: set the bit, then zero the block. */
  function AllocView(sb: SuperBlock, view: Disk, n: nat): (v: Disk)
    requires BitmapOk(sb, |view|) && n < sb.numBlocks
    ensures |v| == |view|
  {
    MarkView(sb, view, n, true)[n := ZeroBlock()]
  }

  predicate IsBitmap(sb: SuperBlock, no: nat) {
    exists m | 0 <= m < sb.numBlocks :: BBlock(m, sb) == no
  }

  /** Marking touches exactly one bit. */
  lemma MarkTouchesOneBit(sb: SuperBlock, view: Disk, n: nat, on: bool, m: nat)
    requires BitmapOk(sb, |view|) && n < sb.numBlocks && m < sb.numBlocks
    ensures InUse(sb, MarkView(sb, view, n, on), m) == if m == n then on else InUse(sb, view, m)
  {
    hide BitOf, Mark;
    var no := BBlock(n, sb);
    assert forall j | 0 <= j < BIT_PER_BLOCK ::
      BitOf(Mark(view[no], n % BIT_PER_BLOCK, on), j) == if j == n % BIT_PER_BLOCK then on else BitOf(view[no], j);
    if BBlock(m, sb) == no && m % BIT_PER_BLOCK == n % BIT_PER_BLOCK {
      assert m == n;
    }
  }

  lemma ZeroHasNoBits(j: nat)
    requires j < BIT_PER_BLOCK
    ensures !BitOf(ZeroBlock(), j)
  {
    ZeroBits(j % 8);
  }

  lemma {:induction false} ZeroBits(k: nat)
    ensures !BitAt(0, k)
  {
    if k > 0 {
      ZeroBits(k - 1);
    }
  }

  /** Exactly what allocation does to the bits: it sets the bit of n and no other, except that when n
      is itself a bitmap block the zeroing wipes every bit that block holds. */
  lemma AllocBits(sb: SuperBlock, view: Disk, n: nat, m: nat)
    requires BitmapOk(sb, |view|) && n < sb.numBlocks && m < sb.numBlocks
    ensures InUse(sb, AllocView(sb, view, n), m) <==> BBlock(m, sb) != n && (m == n || InUse(sb, view, m))
  {
    hide BitOf;
    MarkTouchesOneBit(sb, view, n, true, m);
    if BBlock(m, sb) == n {
      ZeroHasNoBits(m % BIT_PER_BLOCK);
    }
  }

  /** Allocation is sound for every bit if and only if the block found is not a bitmap block. */
  lemma AllocSoundWhen(sb: SuperBlock, view: Disk, n: nat)
    requires BitmapOk(sb, |view|) && n < sb.numBlocks && !InUse(sb, view, n)
    ensures (forall m | 0 <= m < sb.numBlocks && (m == n || InUse(sb, view, m)) :: InUse(sb, AllocView(sb, view, n), m))
            <==> (forall m | 0 <= m < sb.numBlocks && (m == n || InUse(sb, view, m)) :: BBlock(m, sb) != n)
    ensures !IsBitmap(sb, n) ==>
              forall m | 0 <= m < sb.numBlocks :: InUse(sb, AllocView(sb, view, n), m) == (m == n || InUse(sb, view, m))
  {
    hide InUse, AllocView;
    forall m | 0 <= m < sb.numBlocks
      ensures InUse(sb, AllocView(sb, view, n), m) <==> BBlock(m, sb) != n && (m == n || InUse(sb, view, m))
    {
      AllocBits(sb, view, n, m);
    }
  }

  /** When a bitmap block is found free in its own bitmap, allocating it leaves it unmarked: the next
      allocation hands it out again, or a block before it that was in use all along. */
  lemma BitmapBlockAgain(sb: SuperBlock, view: Disk)
    requires BitmapOk(sb, |view|)
    requires var n := FirstFree(sb, view, 0); n < sb.numBlocks && BBlock(n, sb) == n
    ensures var n := FirstFree(sb, view, 0); var v := AllocView(sb, view, n);
      && !InUse(sb, v, n) && FirstFree(sb, v, 0) <= n
      && (FirstFree(sb, v, 0) < n ==> InUse(sb, view, FirstFree(sb, v, 0)))
  {
    hide InUse, AllocView;
    AllocBits(sb, view, FirstFree(sb, view, 0), FirstFree(sb, view, 0));
  }

  /** Such a disk: three blocks, the last one the bitmap, with the first two marked. The next allocation
      hands out block 0, which was in use. */
  lemma BitmapBlockLost() returns (sb: SuperBlock, view: Disk)
    ensures BitmapOk(sb, |view|) && FirstFree(sb, view, 0) == 2 && BBlock(2, sb) == 2
    ensures InUse(sb, view, 0) && FirstFree(sb, AllocView(sb, view, 2), 0) == 0
  {
    sb := SuperBlock(3, 0, 3, 2);
    view := [ZeroBlock(), ZeroBlock(), Mark(Mark(ZeroBlock(), 0, true), 1, true)];
    ZeroHasNoBits(2);
    hide Mark;
    assert InUse(sb, view, 0) && InUse(sb, view, 1) && !InUse(sb, view, 2);
    assert FirstFree(sb, view, 2) == 2 && FirstFree(sb, view, 1) == 2;
    AllocBits(sb, view, 2, 0);
  }

  /** Block by block: n is marked in its bitmap block and zeroed, and no other block changes. */
  ghost predicate Allocated(sb: SuperBlock, was: Disk, now: Disk, n: nat)
    requires BitmapOk(sb, |was|) && n < sb.numBlocks
  {
    && |now| == |was| && now[n] == ZeroBlock()
    && (forall x | 0 <= x < |was| && x != n && x != BBlock(n, sb) :: now[x] == was[x])
    && (BBlock(n, sb) != n ==> OneBit(was[BBlock(n, sb)], now[BBlock(n, sb)], n % BIT_PER_BLOCK, true))
  }

  /** Block by block: n is unmarked in its bitmap block, and no other block changes. */
  ghost predicate Freed(sb: SuperBlock, was: Disk, now: Disk, n: nat)
    requires BitmapOk(sb, |was|) && n < sb.numBlocks
  {
    && |now| == |was| && (forall x | 0 <= x < |was| && x != BBlock(n, sb) :: now[x] == was[x])
    && OneBit(was[BBlock(n, sb)], now[BBlock(n, sb)], n % BIT_PER_BLOCK, false)
  }

  ghost predicate OneBit(was: Block, now: Block, bi: nat, on: bool) {
    forall j | 0 <= j < BIT_PER_BLOCK :: BitOf(now, j) == if j == bi then on else BitOf(was, j)
  }

  lemma AllocatedIs(sb: SuperBlock, view: Disk, n: nat)
    requires BitmapOk(sb, |view|) && n < sb.numBlocks
    ensures Allocated(sb, view, AllocView(sb, view, n), n)
  {
    hide BitOf, Mark;
  }

  lemma FreedIs(sb: SuperBlock, view: Disk, n: nat)
    requires BitmapOk(sb, |view|) && n < sb.numBlocks
    ensures Freed(sb, view, MarkView(sb, view, n, false), n)
  {
    hide BitOf, Mark;
  }

  /** Where the bit of block number n is: bit n % 8 of byte n / 8, counted over all bitmap blocks. */
  lemma InUseAt(sb: SuperBlock, view: Disk, n: nat)
    requires BitmapOk(sb, |view|) && n < sb.numBlocks
    ensures sb.bitmapStart + n / 8 / BLOCK_SIZE < |view|
    ensures var byte := view[sb.bitmapStart + n / 8 / BLOCK_SIZE][n / 8 % BLOCK_SIZE];
      InUse(sb, view, n) <==> byte / Pow2(n % 8) % 2 == 1
  {
    var q, r := n / BIT_PER_BLOCK, n % BIT_PER_BLOCK;
    assert n == q * 512 * 8 + r && r / 8 < 512;
    assert n / 8 == q * 512 + r / 8;
    assert n / 8 / 512 == q && n / 8 % 512 == r / 8 && n % 8 == r % 8;
    assert BBlock(n, sb) == q + sb.bitmapStart;
    BitAtIs(view[BBlock(n, sb)][r / 8], r % 8);
  }

  lemma {:induction false} BitAtIs(b: nat, k: nat)
    ensures BitAt(b, k) <==> b / Pow2(k) % 2 == 1
  {
    if k > 0 {
      BitAtIs(b / 2, k - 1);
      DivTwice(b, 2, Pow2(k - 1));
    }
  }

  // ----- histories -----

  datatype Action = Alloc | Free(n: nat)

  /** A client that frees only what it was given. `live` is what it holds. */
  datatype Client = Client(view: Disk, live: set<nat>)

  predicate May(sb: SuperBlock, c: Client, a: Action)
    requires BitmapOk(sb, |c.view|)
  {
    match a
    case Alloc => FirstFree(sb, c.view, 0) < sb.numBlocks
    case Free(n) => n in c.live && n < sb.numBlocks
  }

  function Act(sb: SuperBlock, c: Client, a: Action): (d: Client)
    requires BitmapOk(sb, |c.view|) && May(sb, c, a)
    ensures |d.view| == |c.view|
  {
    match a
    case Alloc =>
      var n := FirstFree(sb, c.view, 0);
      Client(AllocView(sb, c.view, n), c.live + {n})
    case Free(n) => Client(MarkView(sb, c.view, n, false), c.live - {n})
  }

  /** Metadata is marked in use, and so is everything handed out; nothing handed out is metadata. */
  ghost predicate Accounted(sb: SuperBlock, c: Client, meta: set<nat>)
    requires BitmapOk(sb, |c.view|)
  {
    && (forall n | n in meta || n in c.live :: n < sb.numBlocks && InUse(sb, c.view, n))
    && meta !! c.live
  }

  ghost predicate CoversBitmap(sb: SuperBlock, meta: set<nat>) {
    forall n | 0 <= n < sb.numBlocks :: BBlock(n, sb) in meta
  }

  /** No block is handed out twice without a free between. */
  lemma NeverTwice(sb: SuperBlock, c: Client, meta: set<nat>, a: Action)
    requires BitmapOk(sb, |c.view|) && CoversBitmap(sb, meta) && Accounted(sb, c, meta) && May(sb, c, a)
    ensures Accounted(sb, Act(sb, c, a), meta)
    ensures a.Alloc? ==> FirstFree(sb, c.view, 0) !in c.live && FirstFree(sb, c.view, 0) !in meta
  {
    hide InUse, AllocView, MarkView, FirstFree;
    match a
    case Free(n) =>
      forall m | m in meta || m in c.live - {n} ensures InUse(sb, MarkView(sb, c.view, n, false), m) {
        MarkTouchesOneBit(sb, c.view, n, false, m);
      }
    case Alloc =>
      var n := FirstFree(sb, c.view, 0);
      forall m | m in meta || m in c.live + {n} ensures m < sb.numBlocks && InUse(sb, AllocView(sb, c.view, n), m) {
        AllocBits(sb, c.view, n, m);
      }
  }

  ghost predicate Plays(sb: SuperBlock, c: Client, acts: seq<Action>)
    requires BitmapOk(sb, |c.view|)
    decreases |acts|
  {
    acts != [] ==> May(sb, c, acts[0]) && Plays(sb, Act(sb, c, acts[0]), acts[1..])
  }

  ghost function Outcome(sb: SuperBlock, c: Client, acts: seq<Action>): (d: Client)
    requires BitmapOk(sb, |c.view|) && Plays(sb, c, acts)
    ensures |d.view| == |c.view|
    decreases |acts|
  {
    if acts == [] then c else Outcome(sb, Act(sb, c, acts[0]), acts[1..])
  }

  lemma {:induction false} NeverTwiceInAnyHistory(sb: SuperBlock, c: Client, meta: set<nat>, acts: seq<Action>)
    requires BitmapOk(sb, |c.view|) && CoversBitmap(sb, meta) && Accounted(sb, c, meta) && Plays(sb, c, acts)
    ensures var d := Outcome(sb, c, acts);
            && Accounted(sb, d, meta)
            && (var n := FirstFree(sb, d.view, 0); n < sb.numBlocks ==> n !in d.live && n !in meta)
    decreases |acts|
  {
    hide Accounted, May, Act;
    if acts == [] {
      FreeIsUnaccounted(sb, c, meta);
    } else {
      NeverTwice(sb, c, meta, acts[0]);
      NeverTwiceInAnyHistory(sb, Act(sb, c, acts[0]), meta, acts[1..]);
    }
  }

  lemma FreeIsUnaccounted(sb: SuperBlock, c: Client, meta: set<nat>)
    requires BitmapOk(sb, |c.view|) && Accounted(sb, c, meta)
    ensures var n := FirstFree(sb, c.view, 0); n < sb.numBlocks ==> n !in c.live && n !in meta
  {
  }
}
