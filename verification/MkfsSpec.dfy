// What mkfs builds: inodes in shared sectors, files as chains of blocks, and the bytes of a file.
module MkfsSpec {
  import opened Blocks

  const FSSIZE := 1000
  const NINODES := 208               // slots in the 26 inode sectors
  const INODE_START := 65
  const NMETA := 92
  const NDIRECT := 12
  const MAX_BLOCKS := 140
  const U32_LIMIT := 0x1_0000_0000

  type Raw = s: seq<Byte> | |s| == 64 witness seq(64, i => 0)

  function ZeroSectors(n: nat): (s: seq<Block>)
    ensures |s| == n && forall i | 0 <= i < n :: s[i] == ZeroBlock()
  {
    if n == 0 then [] else ZeroSectors(n - 1) + [ZeroBlock()]
  }

  type Sectors = s: seq<Block> | |s| == 1000 witness ZeroSectors(1000)

  // ----- little-endian words inside byte sequences -----

  function Word(s: seq<Byte>, k: nat): nat
    requires 4 * k + 4 <= |s|
  {
    FromBytes(s[4 * k..4 * k + 4])
  }

  function PutWord(s: seq<Byte>, k: nat, v: nat): (r: seq<Byte>)
    requires 4 * k + 4 <= |s|
    ensures |r| == |s|
  {
    s[..4 * k] + ToBytes(v, 4) + s[4 * k + 4..]
  }

  lemma Pow256At4()
    ensures Pow256(4) == U32_LIMIT
  {
    assert Pow256(2) == 0x1_0000;
  }

  lemma WordPut(s: seq<Byte>, k: nat, v: nat, j: nat)
    requires 4 * k + 4 <= |s| && 4 * j + 4 <= |s| && v < U32_LIMIT
    ensures Word(PutWord(s, k, v), j) == if j == k then v else Word(s, j)
  {
    hide FromBytes, ToBytes;
    Pow256At4();
    FromToBytes(v, 4);
    var r := PutWord(s, k, v);
    if j == k {
      assert r[4 * k..4 * k + 4] == ToBytes(v, 4);
    } else {
      var a, b := 4 * j, 4 * k;
      assert a + 4 <= b || b + 4 <= a;
      forall i | a <= i < a + 4 ensures r[i] == s[i] {
      }
      assert r[a..a + 4] == s[a..a + 4];
    }
  }

  lemma {:induction false} ZeroWord(s: seq<Byte>)
    requires forall i | 0 <= i < |s| :: s[i] == 0
    ensures FromBytes(s) == 0
  {
    if s != [] {
      ZeroWord(s[1..]);
    }
  }

  // ----- inodes inside sectors -----

  function Slot(b: Block, k: nat): Raw
    requires k < 8
  {
    b[64 * k..64 * k + 64]
  }

  function PutSlot(b: Block, k: nat, d: Raw): Block
    requires k < 8
  {
    b[..64 * k] + d + b[64 * k + 64..]
  }

  lemma SlotPut(b: Block, k: nat, d: Raw, j: nat)
    requires k < 8 && j < 8
    ensures Slot(PutSlot(b, k, d), j) == if j == k then d else Slot(b, j)
  {
    var r := PutSlot(b, k, d);
    if j < k {
      assert r[64 * j..64 * j + 64] == b[64 * j..64 * j + 64];
    } else if j > k {
      assert r[64 * j..64 * j + 64] == b[64 * j..64 * j + 64];
    } else {
      assert r[64 * k..64 * k + 64] == d;
    }
  }

  /** `IBLOCK`. */
  function IBlock(inum: nat): nat {
    inum / 8 + INODE_START
  }

  function ISlot(inum: nat): (k: nat)
    ensures k < 8
  {
    inum % 8
  }

  lemma IPlace(i: nat, j: nat)
    ensures IBlock(i) == IBlock(j) && ISlot(i) == ISlot(j) ==> i == j
    ensures i < NINODES ==> INODE_START <= IBlock(i) < NMETA - 1
  {
  }

  function InodeOf(s: Sectors, inum: nat): Raw
    requires inum < NINODES
  {
    IPlace(inum, inum);
    Slot(s[IBlock(inum)], ISlot(inum))
  }

  function Inodes(s: Sectors): (t: seq<Raw>)
    ensures |t| == NINODES
  {
    seq(NINODES, i requires 0 <= i < NINODES => InodeOf(s, i))
  }

  // ----- files -----

  /** Inode table, sectors and the first block never handed out. */
  datatype Fs = Fs(table: seq<Raw>, sectors: Sectors, free: nat)

  function At(s: Sectors, x: nat): Block {
    if x < |s| then s[x] else ZeroBlock()
  }

  function Size(d: Raw): nat {
    Word(d, 2)
  }

  /** Block k of a file; index 140 stands for the indirect block itself. Zero means none. */
  function RefIn(d: Raw, s: Sectors, k: nat): nat {
    if k < NDIRECT then Word(d, 3 + k)
    else if k < MAX_BLOCKS then (if Word(d, 15) == 0 then 0 else Word(At(s, Word(d, 15)), k - NDIRECT))
    else if k == MAX_BLOCKS then Word(d, 15)
    else 0
  }

  function RefOf(fs: Fs, i: nat, k: nat): nat
    requires i < |fs.table|
  {
    RefIn(fs.table[i], fs.sectors, k)
  }

  function ByteAt(fs: Fs, i: nat, q: nat): Byte
    requires i < |fs.table|
  {
    At(fs.sectors, RefOf(fs, i, q / BLOCK_SIZE))[q % BLOCK_SIZE]
  }

  /** The content of a file. */
  function FileBytes(fs: Fs, i: nat): (r: seq<Byte>)
    requires i < |fs.table|
    ensures |r| == Size(fs.table[i])
  {
    seq(Size(fs.table[i]), q requires 0 <= q => ByteAt(fs, i, q))
  }

  // ----- the same, byte by byte on disk -----

  /** An unsigned 32-bit integer as the file system stores it. */
  function Le32(b: seq<Byte>, o: nat): nat
    requires o + 4 <= |b|
  {
    var p: int, q: int, r: int, s: int := b[o], b[o + 1], b[o + 2], b[o + 3];
    p + 0x100 * q + 0x1_0000 * r + 0x100_0000 * s
  }

  lemma WordIs(b: seq<Byte>, k: nat)
    requires 4 * k + 4 <= |b|
    ensures Word(b, k) == Le32(b, 4 * k)
  {
    var s := b[4 * k..4 * k + 4];
    assert s[1..][1..] == s[2..] && s[2..][1..] == s[3..] && s[3..][1..] == [];
    assert FromBytes(s[3..]) == s[3];
    assert FromBytes(s[2..]) == s[2] + 0x100 * FromBytes(s[3..]);
    assert FromBytes(s[1..]) == s[1] + 0x100 * FromBytes(s[2..]);
    assert s[0] == b[4 * k] && s[1] == b[4 * k + 1] && s[2] == b[4 * k + 2] && s[3] == b[4 * k + 3];
  }

  lemma SlotWord(b: Block, n: nat, k: nat)
    requires n < 8 && k < 16
    ensures Word(Slot(b, n), k) == Le32(b, 64 * n + 4 * k)
  {
    WordIs(Slot(b, n), k);
  }

  /** Where everything is: eight inodes of 64 bytes to a sector, from sector 65 on. In an inode the size is at
      byte 8, direct block k at byte 12 + 4k, the indirect block at byte 60; in the indirect block, block k
      of the file is at byte 4(k - 12). Byte q of the file is byte q % 512 of its block q / 512. */
  lemma OnDisk(s: Sectors, free: nat, i: nat, k: nat, q: nat)
    requires i < NINODES
    ensures 65 + i / 8 < |s|
    ensures var fs, at, o := Fs(Inodes(s), s, free), s[65 + i / 8], 64 * (i % 8);
      && |FileBytes(fs, i)| == Le32(at, o + 8)
      && (k < 12 ==> RefOf(fs, i, k) == Le32(at, o + 12 + 4 * k))
      && (12 <= k < 140 && 0 < Le32(at, o + 60) < |s| ==> RefOf(fs, i, k) == Le32(s[Le32(at, o + 60)], 4 * (k - 12)))
      && RefOf(fs, i, 140) == Le32(at, o + 60)
      && (q < |FileBytes(fs, i)| && RefOf(fs, i, q / 512) < |s| ==>
          FileBytes(fs, i)[q] == s[RefOf(fs, i, q / 512)][q % 512])
  {
    hide Le32, Word;
    IPlace(i, i);
    var b, n := s[65 + i / 8], i % 8;
    SlotWord(b, n, 2);
    SlotWord(b, n, 15);
    if k < 12 {
      SlotWord(b, n, 3 + k);
    } else if k < 140 && 0 < Word(Slot(b, n), 15) < |s| {
      WordIs(s[Word(Slot(b, n), 15)], k - 12);
    }
  }

  /** A file has exactly the blocks its size calls for, and the indirect block when the direct ones do not do. */
  predicate ChainOk(fs: Fs, i: nat)
    requires i < |fs.table|
  {
    && Size(fs.table[i]) <= MAX_BLOCKS * BLOCK_SIZE
    && (forall k: nat | k < MAX_BLOCKS :: RefOf(fs, i, k) != 0 <==> k * BLOCK_SIZE < Size(fs.table[i]))
    && (RefOf(fs, i, MAX_BLOCKS) != 0 <==> NDIRECT * BLOCK_SIZE < Size(fs.table[i]))
    && (forall k: nat | k <= MAX_BLOCKS && RefOf(fs, i, k) != 0 :: NMETA <= RefOf(fs, i, k) < fs.free)
  }

  /** No block is referenced twice. */
  predicate Separate(fs: Fs) {
    forall i: nat, k: nat, j: nat, l: nat | i < |fs.table| && j < |fs.table| && k <= MAX_BLOCKS && l <= MAX_BLOCKS
      && (i != j || k != l) ::
      RefOf(fs, i, k) == 0 || RefOf(fs, i, k) != RefOf(fs, j, l)
  }

  predicate Ok(fs: Fs) {
    && |fs.table| == NINODES && NMETA <= fs.free <= FSSIZE
    && (forall i: nat | i < NINODES :: ChainOk(fs, i))
    && Separate(fs)
    && (forall x | fs.free <= x < FSSIZE :: fs.sectors[x] == ZeroBlock())
  }

  /** b with data written at offset o. */
  function Splice(b: Block, o: nat, data: seq<Byte>): Block
    requires o + |data| <= BLOCK_SIZE
  {
    b[..o] + data + b[o + |data|..]
  }

  // ----- one turn of the loop of iappend -----

  /** The file i of fs grows by data: within its block fbn, or by a fresh one. ind is its indirect block afterwards. */
  ghost predicate Grown(fs: Fs, fs2: Fs, i: nat, fbn: nat, x: nat, ind: nat, o: nat, data: seq<Byte>) {
    && i < |fs.table| == |fs2.table| && fbn < MAX_BLOCKS && o + |data| <= BLOCK_SIZE && data != []
    && Size(fs.table[i]) == fbn * BLOCK_SIZE + o && Size(fs2.table[i]) == fbn * BLOCK_SIZE + o + |data|
    && (forall j: nat | j < |fs.table| && j != i :: fs2.table[j] == fs.table[j])
    && fs.free <= fs2.free <= FSSIZE
    && (if RefOf(fs, i, fbn) == 0 then fs.free <= x < fs2.free else x == RefOf(fs, i, fbn))
    && (if fbn >= NDIRECT && RefOf(fs, i, MAX_BLOCKS) == 0 then fs.free <= ind < fs2.free && ind != x
        else ind == RefOf(fs, i, MAX_BLOCKS))
    && (forall k: nat | k <= MAX_BLOCKS ::
        RefOf(fs2, i, k) == if k == fbn then x else if k == MAX_BLOCKS then ind else RefOf(fs, i, k))
    && x < FSSIZE && fs2.sectors[x] == Splice(fs.sectors[x], o, data)
    && (forall y | 0 <= y < FSSIZE && y != x && (fbn < NDIRECT || y != ind) :: fs2.sectors[y] == fs.sectors[y])
  }

  lemma Apart(fs: Fs, i: nat, k: nat, j: nat, l: nat)
    requires Separate(fs) && i < |fs.table| && j < |fs.table| && k <= MAX_BLOCKS && l <= MAX_BLOCKS
        && (i != j || k != l)
    ensures RefOf(fs, i, k) == 0 || RefOf(fs, i, k) != RefOf(fs, j, l)
  {
  }

  lemma InRange(fs: Fs, i: nat, k: nat)
    requires Ok(fs) && i < |fs.table| && k <= MAX_BLOCKS
    ensures RefOf(fs, i, k) == 0 || NMETA <= RefOf(fs, i, k) < fs.free
    ensures k < MAX_BLOCKS ==> (RefOf(fs, i, k) != 0 <==> k * BLOCK_SIZE < Size(fs.table[i]))
    ensures RefOf(fs, i, MAX_BLOCKS) != 0 <==> NDIRECT * BLOCK_SIZE < Size(fs.table[i])
    ensures Size(fs.table[i]) <= MAX_BLOCKS * BLOCK_SIZE
  {
    hide Separate, RefOf;
    assert ChainOk(fs, i);
  }

  /** The blocks written belong to no other file. */
  lemma NotMine(fs: Fs, fs2: Fs, i: nat, fbn: nat, x: nat, ind: nat, o: nat, data: seq<Byte>, j: nat, k: nat)
    requires Ok(fs) && Grown(fs, fs2, i, fbn, x, ind, o, data) && j < |fs.table| && k <= MAX_BLOCKS
        && RefOf(fs, j, k) != 0
    requires j != i || (k != fbn && k != MAX_BLOCKS)
    ensures RefOf(fs, j, k) != x && (ind != 0 ==> RefOf(fs, j, k) != ind)
  {
    hide RefOf, Ok;
    InRange(fs, j, k);
    OkParts(fs);
    Apart(fs, j, k, i, fbn);
    Apart(fs, j, k, i, MAX_BLOCKS);
  }

  lemma OkParts(fs: Fs)
    requires Ok(fs)
    ensures Separate(fs) && |fs.table| == NINODES && NMETA <= fs.free <= FSSIZE
  {
    hide Separate;
  }

  lemma OthersKeep(fs: Fs, fs2: Fs, i: nat, fbn: nat, x: nat, ind: nat, o: nat, data: seq<Byte>, j: nat, k: nat)
    requires Ok(fs) && Grown(fs, fs2, i, fbn, x, ind, o, data) && j < |fs.table| && j != i && k <= MAX_BLOCKS
    ensures RefOf(fs2, j, k) == RefOf(fs, j, k)
  {
    hide Ok, Separate, Splice;
    InRange(fs, j, MAX_BLOCKS);
    OkParts(fs);
    if RefOf(fs, j, MAX_BLOCKS) != 0 {
      NotMine(fs, fs2, i, fbn, x, ind, o, data, j, MAX_BLOCKS);
    }
  }

  lemma RefsNow(fs: Fs, fs2: Fs, i: nat, fbn: nat, x: nat, ind: nat, o: nat, data: seq<Byte>, j: nat, k: nat)
    requires Ok(fs) && Grown(fs, fs2, i, fbn, x, ind, o, data) && j < |fs.table| && k <= MAX_BLOCKS
    ensures RefOf(fs2, j, k) == if j != i then RefOf(fs, j, k) else if k == fbn then x else if k == MAX_BLOCKS then ind
        else RefOf(fs, j, k)
  {
    hide Ok, RefOf;
    if j != i {
      OthersKeep(fs, fs2, i, fbn, x, ind, o, data, j, k);
    }
  }

  lemma GrownChain(fs: Fs, fs2: Fs, i: nat, fbn: nat, x: nat, ind: nat, o: nat, data: seq<Byte>, j: nat)
    requires Ok(fs) && Grown(fs, fs2, i, fbn, x, ind, o, data) && j < |fs.table|
    ensures ChainOk(fs2, j)
  {
    hide Ok, RefOf, Separate, Splice;
    OkParts(fs);
    forall k: nat | k <= MAX_BLOCKS ensures
      (k < MAX_BLOCKS ==> (RefOf(fs2, j, k) != 0 <==> k * BLOCK_SIZE < Size(fs2.table[j])))
      && (k == MAX_BLOCKS ==> (RefOf(fs2, j, k) != 0 <==> NDIRECT * BLOCK_SIZE < Size(fs2.table[j])))
      && (RefOf(fs2, j, k) != 0 ==> NMETA <= RefOf(fs2, j, k) < fs2.free)
    {
      InRange(fs, j, k);
      InRange(fs, i, fbn);
      RefsNow(fs, fs2, i, fbn, x, ind, o, data, j, k);
    }
    InRange(fs, j, 0);
  }

  lemma GrownApart(fs: Fs, fs2: Fs, i: nat, fbn: nat, x: nat, ind: nat, o: nat, data: seq<Byte>, a: nat, k: nat,
      b: nat, l: nat)
    requires Ok(fs) && Grown(fs, fs2, i, fbn, x, ind, o, data) && a < |fs.table| && b < |fs.table| && k <= MAX_BLOCKS
        && l <= MAX_BLOCKS
    requires a != b || k != l
    ensures RefOf(fs2, a, k) == 0 || RefOf(fs2, a, k) != RefOf(fs2, b, l)
  {
    hide Ok, RefOf, Separate, Splice;
    OkParts(fs);
    RefsNow(fs, fs2, i, fbn, x, ind, o, data, a, k);
    RefsNow(fs, fs2, i, fbn, x, ind, o, data, b, l);
    Apart(fs, a, k, b, l);
    Apart(fs, i, fbn, i, MAX_BLOCKS);
    InRange(fs, i, fbn);
    InRange(fs, i, MAX_BLOCKS);
    InRange(fs, a, k);
    InRange(fs, b, l);
    if a != i || (k != fbn && k != MAX_BLOCKS) {
      if RefOf(fs, a, k) != 0 {
        NotMine(fs, fs2, i, fbn, x, ind, o, data, a, k);
      }
    }
    if b != i || (l != fbn && l != MAX_BLOCKS) {
      if RefOf(fs, b, l) != 0 {
        NotMine(fs, fs2, i, fbn, x, ind, o, data, b, l);
      }
    }
  }

  lemma GrownOk(fs: Fs, fs2: Fs, i: nat, fbn: nat, x: nat, ind: nat, o: nat, data: seq<Byte>)
    requires Ok(fs) && Grown(fs, fs2, i, fbn, x, ind, o, data)
    ensures Ok(fs2)
  {
    hide RefOf, Splice, Separate, ChainOk;
    InRange(fs, i, MAX_BLOCKS);
    InRange(fs, i, fbn);
    forall y | fs2.free <= y < FSSIZE ensures fs2.sectors[y] == ZeroBlock() {
      assert fs.sectors[y] == ZeroBlock();
    }
    forall j: nat | j < NINODES ensures ChainOk(fs2, j) {
      GrownChain(fs, fs2, i, fbn, x, ind, o, data, j);
    }
    assert Separate(fs2) by { GrownSeparate(fs, fs2, i, fbn, x, ind, o, data); }
  }

  lemma GrownSeparate(fs: Fs, fs2: Fs, i: nat, fbn: nat, x: nat, ind: nat, o: nat, data: seq<Byte>)
    requires Ok(fs) && Grown(fs, fs2, i, fbn, x, ind, o, data)
    ensures Separate(fs2)
  {
    hide RefOf, Splice, Ok, Grown;
    forall a: nat, k: nat, b: nat, l: nat | a < |fs2.table| && b < |fs2.table| && k <= MAX_BLOCKS && l <= MAX_BLOCKS
      && (a != b || k != l)
      ensures RefOf(fs2, a, k) == 0 || RefOf(fs2, a, k) != RefOf(fs2, b, l)
    {
      GrownTable(fs, fs2, i, fbn, x, ind, o, data);
      GrownApart(fs, fs2, i, fbn, x, ind, o, data, a, k, b, l);
    }
  }

  lemma GrownTable(fs: Fs, fs2: Fs, i: nat, fbn: nat, x: nat, ind: nat, o: nat, data: seq<Byte>)
    requires Grown(fs, fs2, i, fbn, x, ind, o, data)
    ensures |fs2.table| == |fs.table|
  {
    hide RefOf, Splice;
  }

  // ----- what that does to the files -----

  lemma OtherBytes(fs: Fs, fs2: Fs, i: nat, fbn: nat, x: nat, ind: nat, o: nat, data: seq<Byte>, j: nat, q: nat)
    requires Ok(fs) && Grown(fs, fs2, i, fbn, x, ind, o, data) && j < |fs.table| && j != i && q < Size(fs.table[j])
    ensures ByteAt(fs2, j, q) == ByteAt(fs, j, q)
  {
    hide Ok, RefOf, Splice;
    var k := q / BLOCK_SIZE;
    OkParts(fs);
    InRange(fs, j, MAX_BLOCKS);
    InRange(fs, j, k);
    RefsNow(fs, fs2, i, fbn, x, ind, o, data, j, k);
    NotMine(fs, fs2, i, fbn, x, ind, o, data, j, k);
  }

  lemma OldBytes(fs: Fs, fs2: Fs, i: nat, fbn: nat, x: nat, ind: nat, o: nat, data: seq<Byte>, q: nat)
    requires Ok(fs) && Grown(fs, fs2, i, fbn, x, ind, o, data) && q < Size(fs.table[i])
    ensures ByteAt(fs2, i, q) == ByteAt(fs, i, q)
  {
    hide Ok, RefOf;
    var k := q / BLOCK_SIZE;
    OkParts(fs);
    InRange(fs, i, MAX_BLOCKS);
    InRange(fs, i, k);
    RefsNow(fs, fs2, i, fbn, x, ind, o, data, i, k);
    if k < fbn {
      NotMine(fs, fs2, i, fbn, x, ind, o, data, i, k);
    }
  }

  lemma NewBytes(fs: Fs, fs2: Fs, i: nat, fbn: nat, x: nat, ind: nat, o: nat, data: seq<Byte>, q: nat)
    requires Ok(fs) && Grown(fs, fs2, i, fbn, x, ind, o, data) && Size(fs.table[i]) <= q < Size(fs2.table[i])
    ensures ByteAt(fs2, i, q) == data[q - Size(fs.table[i])]
  {
    hide Ok, RefOf;
    assert q / BLOCK_SIZE == fbn && q % BLOCK_SIZE == q - fbn * BLOCK_SIZE;
    OkParts(fs);
    RefsNow(fs, fs2, i, fbn, x, ind, o, data, i, fbn);
  }

  /** The file has the data at its end, and no other file has changed. */
  lemma GrownBytes(fs: Fs, fs2: Fs, i: nat, fbn: nat, x: nat, ind: nat, o: nat, data: seq<Byte>)
    requires Ok(fs) && Grown(fs, fs2, i, fbn, x, ind, o, data)
    ensures FileBytes(fs2, i) == FileBytes(fs, i) + data
    ensures forall j: nat | j < |fs.table| && j != i :: FileBytes(fs2, j) == FileBytes(fs, j)
  {
    hide Ok, RefOf, ByteAt, Splice;
    forall q: nat | q < Size(fs2.table[i]) ensures FileBytes(fs2, i)[q] == (FileBytes(fs, i) + data)[q] {
      if q < Size(fs.table[i]) {
        OldBytes(fs, fs2, i, fbn, x, ind, o, data, q);
      } else {
        NewBytes(fs, fs2, i, fbn, x, ind, o, data, q);
      }
    }
    forall j: nat | j < |fs.table| && j != i ensures FileBytes(fs2, j) == FileBytes(fs, j) {
      forall q: nat | q < Size(fs.table[j]) ensures FileBytes(fs2, j)[q] == FileBytes(fs, j)[q] {
        OtherBytes(fs, fs2, i, fbn, x, ind, o, data, j, q);
      }
    }
  }
}
