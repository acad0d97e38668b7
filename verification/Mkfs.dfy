// The file writer of src/user/mkfs/main.c over a sector image.
module Mkfs {
  import opened Blocks
  import opened MkfsSpec
  import opened Bitmap

  /** Finding or allocating block fbn of the inode d: the inode, the sectors and the free counter afterwards,
      the block, and the file's indirect block. */
  datatype Place = Place(d: Raw, sectors: Sectors, free: nat, x: nat, ind: nat)

  function IndirectOf(d: Raw, free: nat): nat {
    if Word(d, 15) == 0 then free else Word(d, 15)
  }

  function MapBlock(d: Raw, s: Sectors, free: nat, fbn: nat): Place
    requires fbn < MAX_BLOCKS && (fbn >= NDIRECT ==> IndirectOf(d, free) < FSSIZE)
  {
    if fbn < NDIRECT then
      if Word(d, 3 + fbn) == 0 then Place(PutWord(d, 3 + fbn, free), s, free + 1, free, Word(d, 15))
      else Place(d, s, free, Word(d, 3 + fbn), Word(d, 15))
    else
      var ind := IndirectOf(d, free);
      var d1, f1 := if Word(d, 15) == 0 then PutWord(d, 15, free) else d, if Word(d, 15) == 0 then free + 1 else free;
      var e := Word(s[ind], fbn - NDIRECT);
      if e == 0 then Place(d1, s[ind := PutWord(s[ind], fbn - NDIRECT, f1)], f1 + 1, f1, ind)
      else Place(d1, s, f1, e, ind)
  }

  /** The file system as it would be if the inode being worked on were written back with size off. */
  function Logical(t: seq<Raw>, i: nat, d: Raw, off: nat, s: Sectors, free: nat): Fs
    requires i < |t|
  {
    Fs(t[i := PutWord(d, 2, off)], s, free)
  }

  lemma SizeIs(d: Raw, off: nat, k: nat)
    requires off < U32_LIMIT && k < 16
    ensures Word(PutWord(d, 2, off), k) == if k == 2 then off else Word(d, k)
  {
    hide PutWord, Word;
    WordPut(d, 2, off, k);
  }

  lemma RefPut(d: Raw, off: nat, s: Sectors, k: nat)
    requires off < U32_LIMIT
    ensures RefIn(PutWord(d, 2, off), s, k) == RefIn(d, s, k)
  {
    hide PutWord, Word;
    if k < NDIRECT {
      SizeIs(d, off, 3 + k);
    }
    SizeIs(d, off, 15);
  }

  lemma ZeroSector(k: nat)
    requires k < 128
    ensures Word(ZeroBlock(), k) == 0
  {
    ZeroWord(ZeroBlock()[4 * k..4 * k + 4]);
  }

  /** References before and after a direct block is found or allocated. */
  lemma DirectRefs(d: Raw, s: Sectors, free: nat, fbn: nat, k: nat)
    requires fbn < NDIRECT && k <= MAX_BLOCKS && free < U32_LIMIT
    ensures var m := MapBlock(d, s, free, fbn); RefIn(m.d, s, k) == if k == fbn then m.x else RefIn(d, s, k)
    ensures var m := MapBlock(d, s, free, fbn);
        m.x == (if RefIn(d, s, fbn) == 0 then free else RefIn(d, s, fbn)) && m.ind == RefIn(d, s, MAX_BLOCKS)
  {
    hide PutWord, Word;
    WordPut(d, 3 + fbn, free, 15);
    if k < NDIRECT {
      WordPut(d, 3 + fbn, free, 3 + k);
    }
  }

  lemma IndirectRefs(d: Raw, s: Sectors, free: nat, fbn: nat, k: nat)
    requires NDIRECT <= fbn < MAX_BLOCKS && k <= MAX_BLOCKS && free + 1 < U32_LIMIT && 0 < IndirectOf(d, free) < FSSIZE
    requires Word(d, 15) == 0 ==> s[free] == ZeroBlock()
    ensures var m := MapBlock(d, s, free, fbn);
        RefIn(m.d, m.sectors, k) == if k == fbn then m.x else if k == MAX_BLOCKS then m.ind else RefIn(d, s, k)
    ensures var m := MapBlock(d, s, free, fbn);
      && m.ind == (if RefIn(d, s, MAX_BLOCKS) == 0 then free else RefIn(d, s, MAX_BLOCKS))
      && (RefIn(d, s, MAX_BLOCKS) == 0 ==> RefIn(d, s, fbn) == 0)
      && m.x == if RefIn(d, s, fbn) != 0 then RefIn(d, s, fbn) else if RefIn(d, s, MAX_BLOCKS) == 0 then free + 1
          else free
  {
    hide PutWord, Word;
    WordPut(d, 15, free, 15);
    if k < NDIRECT {
      WordPut(d, 15, free, 3 + k);
    }
    var ind := IndirectOf(d, free);
    var f1 := if Word(d, 15) == 0 then free + 1 else free;
    ZeroSector(fbn - NDIRECT);
    WordPut(s[ind], fbn - NDIRECT, f1, fbn - NDIRECT);
    if NDIRECT <= k < MAX_BLOCKS {
      ZeroSector(k - NDIRECT);
      WordPut(s[ind], fbn - NDIRECT, f1, k - NDIRECT);
    }
  }

  /** The part of a turn that the pointers decide, in terms of references. */
  lemma Located(t: seq<Raw>, i: nat, d: Raw, off: nat, s: Sectors, free: nat, fbn: nat, k: nat)
    requires i < |t| && fbn < MAX_BLOCKS && off < U32_LIMIT && Ok(Logical(t, i, d, off, s, free)) && k <= MAX_BLOCKS
    requires fbn >= NDIRECT ==> IndirectOf(d, free) < FSSIZE
    ensures var L, m := Logical(t, i, d, off, s, free), MapBlock(d, s, free, fbn);
      && RefIn(m.d, m.sectors, k) == (if k == fbn then m.x else if k == MAX_BLOCKS then m.ind else RefOf(L, i, k))
      && (if RefOf(L, i, fbn) == 0 then free <= m.x < m.free else m.x == RefOf(L, i, fbn))
      && (if fbn >= NDIRECT && RefOf(L, i, MAX_BLOCKS) == 0 then free <= m.ind < m.free && m.ind != m.x
          else m.ind == RefOf(L, i, MAX_BLOCKS))
      && m.x != m.ind && free <= m.free && NMETA <= m.x && |L.table| == NINODES
      && (fbn >= NDIRECT ==> NMETA <= m.ind < FSSIZE)
  {
    hide Ok, Separate, PutWord, Word, RefIn;
    var L := Logical(t, i, d, off, s, free);
    OkParts(L);
    RefPut(d, off, s, fbn);
    RefPut(d, off, s, MAX_BLOCKS);
    RefPut(d, off, s, k);
    InRange(L, i, fbn);
    InRange(L, i, MAX_BLOCKS);
    Apart(L, i, fbn, i, MAX_BLOCKS);
    if fbn < NDIRECT {
      DirectRefs(d, s, free, fbn, k);
      DirectFree(d, s, free, fbn);
    } else {
      IndirectWord(d, s);
      if Word(d, 15) == 0 {
        FreshZero(L, free);
      }
      IndirectRefs(d, s, free, fbn, k);
      IndirectFree(d, s, free, fbn);
    }
  }

  lemma IndirectWord(d: Raw, s: Sectors)
    ensures RefIn(d, s, MAX_BLOCKS) == Word(d, 15)
  {
    hide Word;
  }

  lemma FreshZero(fs: Fs, x: nat)
    requires Ok(fs) && fs.free <= x < FSSIZE
    ensures fs.sectors[x] == ZeroBlock()
  {
    hide Separate, ChainOk;
  }

  lemma DirectFree(d: Raw, s: Sectors, free: nat, fbn: nat)
    requires fbn < NDIRECT
    ensures var m := MapBlock(d, s, free, fbn);
        m.free == (if RefIn(d, s, fbn) == 0 then free + 1 else free) && m.sectors == s
  {
    hide PutWord, Word;
  }

  lemma IndirectFree(d: Raw, s: Sectors, free: nat, fbn: nat)
    requires NDIRECT <= fbn < MAX_BLOCKS && 0 < IndirectOf(d, free) < FSSIZE
        && (Word(d, 15) == 0 ==> s[free] == ZeroBlock())
    ensures var m := MapBlock(d, s, free, fbn);
      m.free == free + (if RefIn(d, s, MAX_BLOCKS) == 0 then 1 else 0) + (if RefIn(d, s, fbn) == 0 then 1 else 0)
    ensures var m := MapBlock(d, s, free, fbn); forall y | 0 <= y < FSSIZE && y != m.ind :: m.sectors[y] == s[y]
  {
    hide PutWord, Word;
    ZeroSector(fbn - NDIRECT);
  }

  lemma OtherSectors(d: Raw, s: Sectors, free: nat, fbn: nat)
    requires fbn < MAX_BLOCKS && (fbn >= NDIRECT ==> IndirectOf(d, free) < FSSIZE)
    ensures var m := MapBlock(d, s, free, fbn);
        forall y | 0 <= y < FSSIZE && (fbn < NDIRECT || y != m.ind) :: m.sectors[y] == s[y]
  {
    hide PutWord, Word;
  }

  /** Writing the data block does not disturb the references. */
  lemma DataWrite(d: Raw, s: Sectors, x: nat, b: Block, k: nat)
    requires x < FSSIZE && Word(d, 15) != x
    ensures RefIn(d, s[x := b], k) == RefIn(d, s, k)
  {
    hide Word;
  }

  /** One turn of the loop: find or allocate the block, then write into it. */
  lemma Turn(t: seq<Raw>, i: nat, d: Raw, off: nat, s: Sectors, free: nat, fbn: nat, o: nat, data: seq<Byte>)
    requires i < |t| && fbn < MAX_BLOCKS && off == fbn * BLOCK_SIZE + o && o + |data| <= BLOCK_SIZE && data != []
    requires Ok(Logical(t, i, d, off, s, free)) && (fbn >= NDIRECT ==> IndirectOf(d, free) < FSSIZE)
    requires MapBlock(d, s, free, fbn).x < FSSIZE && MapBlock(d, s, free, fbn).free <= FSSIZE
    ensures var m := MapBlock(d, s, free, fbn);
      Grown(Logical(t, i, d, off, s, free),
            Logical(t, i, m.d, off + |data|, m.sectors[m.x := Splice(m.sectors[m.x], o, data)], m.free), i, fbn, m.x,
              m.ind, o, data)
  {
    hide Ok, Separate, PutWord, Word, RefIn, MapBlock, Splice;
    var m, L := MapBlock(d, s, free, fbn), Logical(t, i, d, off, s, free);
    Located(t, i, d, off, s, free, fbn, fbn);
    OtherSectors(d, s, free, fbn);
    var b := Splice(m.sectors[m.x], o, data);
    var s2 := m.sectors[m.x := b];
    SizeIs(d, off, 2);
    SizeIs(m.d, off + |data|, 2);
    forall k: nat | k <= MAX_BLOCKS ensures RefIn(PutWord(m.d, 2, off + |data|), s2, k) == if k == fbn then m.x
      else if k == MAX_BLOCKS then m.ind else RefOf(L, i, k) {
      Located(t, i, d, off, s, free, fbn, k);
      Located(t, i, d, off, s, free, fbn, MAX_BLOCKS);
      IndirectWord(m.d, m.sectors);
      DataWrite(m.d, m.sectors, m.x, b, k);
      RefPut(m.d, off + |data|, s2, k);
    }
  }

  /** `main` ends by rounding the root directory's size up past its end. That is still the size of a
      well-formed file exactly when the directory did not end on a block boundary: otherwise the size
      covers a block that was never allocated. */
  lemma RootRounding(t: seq<Raw>, i: nat, d: Raw, off: nat, s: Sectors, free: nat)
    requires i < |t| && off < U32_LIMIT && Ok(Logical(t, i, d, off, s, free))
    ensures Ok(Logical(t, i, d, (off / BLOCK_SIZE + 1) * BLOCK_SIZE, s, free)) <==> off % BLOCK_SIZE != 0
  {
    hide Separate, PutWord, Word, RefIn;
    var up := (off / BLOCK_SIZE + 1) * BLOCK_SIZE;
    var was, now := Logical(t, i, d, off, s, free), Logical(t, i, d, up, s, free);
    SizeIs(d, off, 2);
    InRange(was, i, MAX_BLOCKS);
    SizeIs(d, up, 2);
    forall j: nat, k: nat | j < NINODES && k <= MAX_BLOCKS ensures RefOf(now, j, k) == RefOf(was, j, k) {
      RefPut(d, off, s, k);
      RefPut(d, up, s, k);
    }
    if off % BLOCK_SIZE != 0 {
      RoundedOk(was, now, i, off);
    } else if off / BLOCK_SIZE < MAX_BLOCKS {
      InRange(was, i, off / BLOCK_SIZE);
      assert !ChainOk(now, i);
    } else {
      assert !ChainOk(now, i);
    }
  }

  lemma RoundedOk(was: Fs, now: Fs, i: nat, off: nat)
    requires Ok(was) && i < |was.table| == |now.table| && now.free == was.free && now.sectors == was.sectors
        && off % BLOCK_SIZE != 0
    requires Size(was.table[i]) == off && Size(now.table[i]) == (off / BLOCK_SIZE + 1) * BLOCK_SIZE
    requires forall j: nat, k: nat | j < NINODES && k <= MAX_BLOCKS :: RefOf(now, j, k) == RefOf(was, j, k)
    requires forall j: nat | j < |was.table| && j != i :: now.table[j] == was.table[j]
    ensures Ok(now)
  {
    hide RefOf, Size;
    assert ChainOk(was, i);
    forall k: nat ensures k * BLOCK_SIZE < off <==> k * BLOCK_SIZE < (off / BLOCK_SIZE + 1) * BLOCK_SIZE {
    }
    forall j: nat | j < NINODES ensures ChainOk(now, j) {
      assert ChainOk(was, j);
    }
  }

  // ----- the inode area -----

  lemma InodesSame(s: Sectors, s2: Sectors)
    requires forall y | 0 <= y < NMETA :: s2[y] == s[y]
    ensures Inodes(s2) == Inodes(s)
  {
    forall i: nat | i < NINODES ensures InodeOf(s2, i) == InodeOf(s, i) {
      IPlace(i, i);
    }
  }

  lemma InodePut(s: Sectors, i: nat, d: Raw)
    requires i < NINODES
    ensures IBlock(i) < FSSIZE
    ensures Inodes(s[IBlock(i) := PutSlot(s[IBlock(i)], ISlot(i), d)]) == Inodes(s)[i := d]
  {
    hide PutSlot, Slot;
    IPlace(i, i);
    var s2 := s[IBlock(i) := PutSlot(s[IBlock(i)], ISlot(i), d)];
    forall j: nat | j < NINODES ensures InodeOf(s2, j) == Inodes(s)[i := d][j] {
      IPlace(i, j);
      IPlace(j, j);
      SlotPut(s[IBlock(i)], ISlot(i), d, ISlot(j));
    }
  }

  // ----- how many blocks -----

  /** The blocks of a file of this size, the indirect one included. */
  function Total(size: nat): nat {
    (size + 511) / 512 + if size > NDIRECT * BLOCK_SIZE then 1 else 0
  }

  lemma TotalGrows(a: nat, b: nat)
    requires a <= b
    ensures Total(a) <= Total(b)
  {
  }

  /** iappend of n bytes stays within the largest file and the image. */
  predicate Fits(fs: Fs, i: nat, n: nat)
    requires i < |fs.table|
  {
    var size := Size(fs.table[i]);
    n == 0 || (size + n <= MAX_BLOCKS * BLOCK_SIZE && fs.free + Total(size + n) <= FSSIZE + Total(size))
  }

  lemma Longer(f: seq<Byte>, p: seq<Byte>, i: nat, n: nat)
    requires i + n <= |p|
    ensures (f + p[..i]) + p[i..][..n] == f + p[..i + n]
  {
    assert p[..i] + p[i..][..n] == p[..i + n];
  }

  lemma FitsIs(fs: Fs, i: nat, n: nat)
    requires i < |fs.table|
    ensures var was := Size(fs.table[i]); var now := was + n;
      Fits(fs, i, n) <==> (n != 0 ==>
        && now <= 140 * 512
        && fs.free + (now + 511) / 512 + (if now > 12 * 512 then 1 else 0)
           <= 1000 + (was + 511) / 512 + (if was > 12 * 512 then 1 else 0))
  {
  }

  /** A turn takes as many fresh blocks as the size asks for. */
  lemma TurnCost(t: seq<Raw>, i: nat, d: Raw, off: nat, s: Sectors, free: nat, fbn: nat, o: nat, n: nat)
    requires i < |t| && fbn < MAX_BLOCKS && off == fbn * BLOCK_SIZE + o && 0 < n && o + n <= BLOCK_SIZE
    requires Ok(Logical(t, i, d, off, s, free)) && (fbn >= NDIRECT ==> IndirectOf(d, free) < FSSIZE)
    ensures MapBlock(d, s, free, fbn).free + Total(off) == free + Total(off + n)
    ensures var m := MapBlock(d, s, free, fbn); m.x == m.free - 1 || (m.x < free && m.free == free)
  {
    hide Ok, Separate, PutWord, Word, RefIn, MapBlock;
    var L := Logical(t, i, d, off, s, free);
    OkParts(L);
    SizeIs(d, off, 2);
    InRange(L, i, fbn);
    InRange(L, i, MAX_BLOCKS);
    RefPut(d, off, s, fbn);
    RefPut(d, off, s, MAX_BLOCKS);
    if fbn < NDIRECT {
      DirectFree(d, s, free, fbn);
      DirectRefs(d, s, free, fbn, 0);
    } else {
      IndirectWord(d, s);
      if Word(d, 15) == 0 {
        FreshZero(L, free);
      }
      IndirectFree(d, s, free, fbn);
      IndirectRefs(d, s, free, fbn, 0);
    }
  }

  /** Everything a turn keeps. */
  lemma TurnDone(t: seq<Raw>, i: nat, d: Raw, off: nat, s: Sectors, free: nat, fbn: nat, o: nat, data: seq<Byte>)
    requires i < |t| && t == Inodes(s) && fbn < MAX_BLOCKS && off == fbn * BLOCK_SIZE + o && o + |data| <= BLOCK_SIZE
        && data != []
    requires Ok(Logical(t, i, d, off, s, free)) && (fbn >= NDIRECT ==> IndirectOf(d, free) < FSSIZE)
        && MapBlock(d, s, free, fbn).x < FSSIZE
    ensures var m := MapBlock(d, s, free, fbn); var s2 := m.sectors[m.x := Splice(m.sectors[m.x], o, data)];
            var was, now := Logical(t, i, d, off, s, free), Logical(t, i, m.d, off + |data|, s2, m.free);
      && Ok(now) && Inodes(s2) == t && m.free <= FSSIZE && FileBytes(now, i) == FileBytes(was, i) + data
      && forall j: nat | j < NINODES && j != i :: FileBytes(now, j) == FileBytes(was, j)
  {
    hide Ok, Separate, FileBytes, PutWord, Word, Inodes, Splice, MapBlock, IndirectOf, Total, RefIn, Grown;
    var m, was := MapBlock(d, s, free, fbn), Logical(t, i, d, off, s, free);
    OkParts(was);
    TurnCost(t, i, d, off, s, free, fbn, o, |data|);
    Located(t, i, d, off, s, free, fbn, fbn);
    var s2 := m.sectors[m.x := Splice(m.sectors[m.x], o, data)];
    var now := Logical(t, i, m.d, off + |data|, s2, m.free);
    Turn(t, i, d, off, s, free, fbn, o, data);
    GrownOk(was, now, i, fbn, m.x, m.ind, o, data);
    GrownBytes(was, now, i, fbn, m.x, m.ind, o, data);
    OtherSectors(d, s, free, fbn);
    InodesSame(s, s2);
  }

  /** The first byte beyond the direct blocks takes two blocks at once. */
  lemma SecondLevel(off: nat, fbn: nat, end: nat)
    requires off == fbn * BLOCK_SIZE + off % BLOCK_SIZE && NDIRECT <= fbn && off <= NDIRECT * BLOCK_SIZE && off < end
    ensures Total(off) + 2 <= Total(end)
  {
  }

  /** Where the indirect block lies beyond the image, it would be fresh. */
  lemma IndirectOut(t: seq<Raw>, i: nat, d: Raw, off: nat, s: Sectors, free: nat)
    requires i < |t| && off < U32_LIMIT && Ok(Logical(t, i, d, off, s, free)) && IndirectOf(d, free) >= FSSIZE
    ensures Word(d, 15) == 0 && free == FSSIZE && off <= NDIRECT * BLOCK_SIZE
  {
    hide Ok, Separate, PutWord, Word, RefIn;
    var L := Logical(t, i, d, off, s, free);
    OkParts(L);
    InRange(L, i, MAX_BLOCKS);
    RefPut(d, off, s, MAX_BLOCKS);
    IndirectWord(d, s);
    SizeIs(d, off, 2);
  }

  /** The bits of a bitmap block below n are set, and no others. */
  predicate FirstBits(b: Block, n: nat) {
    forall i: nat | i < BIT_PER_BLOCK :: BitOf(b, i) <==> i < n
  }

  datatype Read = Bytes(b: Block) | Fail

  class Image {
    var sectors: Sectors
    var freeblock: nat
    var freeinode: nat

    ghost function View(): Fs
      reads this
    {
      Fs(Inodes(sectors), sectors, freeblock)
    }

    /** `rsect`: reading past the end of the image ends the program. */
    method RSect(sec: nat) returns (r: Read)
      ensures r == if sec < FSSIZE then Bytes(sectors[sec]) else Fail
    {
      if sec >= FSSIZE {
        return Fail;
      }
      return Bytes(sectors[sec]);
    }

    method WSect(sec: nat, b: Block)
      requires sec < FSSIZE
      modifies this`sectors
      ensures sectors == old(sectors)[sec := b]
    {
      sectors := sectors[sec := b];
    }

    method RInode(inum: nat) returns (d: Raw)
      requires inum < NINODES
      ensures d == Inodes(sectors)[inum]
    {
      IPlace(inum, inum);
      var r := RSect(IBlock(inum));
      d := Slot(r.b, ISlot(inum));
    }

    method WInode(inum: nat, d: Raw)
      requires inum < NINODES
      modifies this`sectors
      ensures Inodes(sectors) == old(Inodes(sectors))[inum := d]
      ensures forall y | NMETA <= y < FSSIZE :: sectors[y] == old(sectors)[y]
    {
      InodePut(sectors, inum, d);
      IPlace(inum, inum);
      var r := RSect(IBlock(inum));
      WSect(IBlock(inum), PutSlot(r.b, ISlot(inum), d));
    }

    /** The first half of a turn of `iappend`: the block that byte fbn * BSIZE falls into. */
    method FindBlock(d: Raw, fbn: nat) returns (ok: bool, din: Raw, x: nat)
      requires fbn < MAX_BLOCKS && freeblock + 2 < U32_LIMIT
      modifies this`sectors, this`freeblock
      ensures ok <==> (fbn >= NDIRECT ==> IndirectOf(d, old(freeblock)) < FSSIZE)
      ensures ok ==> var m := MapBlock(d, old(sectors), old(freeblock), fbn);
          din == m.d && sectors == m.sectors && freeblock == m.free && x == m.x
    {
      hide Word, PutWord;
      din := d;
      if fbn < NDIRECT {
        if Word(din, 3 + fbn) == 0 {
          WordPut(din, 3 + fbn, freeblock, 3 + fbn);
          din := PutWord(din, 3 + fbn, freeblock);
          freeblock := freeblock + 1;
        }
        return true, din, Word(din, 3 + fbn);
      }
      if Word(din, 15) == 0 {
        WordPut(din, 15, freeblock, 15);
        din := PutWord(din, 15, freeblock);
        freeblock := freeblock + 1;
      }
      var r := RSect(Word(din, 15));
      if r.Fail? {
        return false, din, 0;
      }
      var indirect := r.b;
      if Word(indirect, fbn - NDIRECT) == 0 {
        WordPut(indirect, fbn - NDIRECT, freeblock, fbn - NDIRECT);
        indirect := PutWord(indirect, fbn - NDIRECT, freeblock);
        freeblock := freeblock + 1;
        WSect(Word(din, 15), indirect);
      }
      return true, din, Word(indirect, fbn - NDIRECT);
    }

    /** One turn of the loop of `iappend`: as much of p as fits into the block that byte off falls into. */
    method AppendTurn(inum: nat, d: Raw, off: nat, p: seq<Byte>, ghost t: seq<Raw>)
        returns (ok: bool, din: Raw, n1: nat)
      requires inum < NINODES && p != [] && off < MAX_BLOCKS * BLOCK_SIZE
      requires t == Inodes(sectors) && Ok(Logical(t, inum, d, off, sectors, freeblock))
      modifies this`sectors, this`freeblock
      ensures !ok ==> old(freeblock) + Total(off + |p|) > FSSIZE + Total(off)
      ensures ok ==>
          0 < n1 <= |p| && Inodes(sectors) == t && freeblock <= FSSIZE
          && freeblock + Total(off) == old(freeblock) + Total(off + n1)
      ensures ok ==>
          var was, now := old(Logical(t, inum, d, off, sectors, freeblock)),
          Logical(t, inum, din, off + n1, sectors, freeblock);
        && Ok(now) && FileBytes(now, inum) == FileBytes(was, inum) + p[..n1]
        && forall j: nat | j < NINODES && j != inum :: FileBytes(now, j) == FileBytes(was, j)
    {
      hide Ok, Separate, FileBytes, PutWord, Word, Inodes, Splice, MapBlock, ToBytes, IndirectOf, Total;
      OkParts(Logical(t, inum, d, off, sectors, freeblock));
      var fbn := off / BLOCK_SIZE;
      ghost var o, s, f := off - fbn * BLOCK_SIZE, sectors, freeblock;
      var found, d1, x := FindBlock(d, fbn);
      if !found {
        IndirectOut(t, inum, d, off, s, f);
        SecondLevel(off, fbn, off + |p|);
        return false, d1, 0;
      }
      din := d1;
      n1 := if |p| < (fbn + 1) * BLOCK_SIZE - off then |p| else (fbn + 1) * BLOCK_SIZE - off;
      TurnCost(t, inum, d, off, s, f, fbn, o, n1);
      var r := RSect(x);
      if r.Fail? {
        TotalGrows(off + n1, off + |p|);
        return false, din, 0;
      }
      WSect(x, Splice(r.b, off - fbn * BLOCK_SIZE, p[..n1]));
      TurnDone(t, inum, d, off, s, f, fbn, o, p[..n1]);
      ok := true;
    }

    /** `iappend`: false where the program stops, because the file is at its largest or the image is full. */
    method IAppend(inum: nat, p: seq<Byte>) returns (ok: bool)
      requires inum < NINODES && Ok(View())
      modifies this`sectors, this`freeblock
      ensures ok <==> Fits(old(View()), inum, |p|)
      ensures var was := |old(FileBytes(View(), inum))|; var now := was + |p|;
        ok <==> (p != [] ==>
          && now <= 140 * 512
          && old(freeblock) + (now + 511) / 512 + (if now > 12 * 512 then 1 else 0)
             <= 1000 + (was + 511) / 512 + (if was > 12 * 512 then 1 else 0))
      ensures ok ==> Ok(View()) && FileBytes(View(), inum) == old(FileBytes(View(), inum)) + p
      ensures ok ==>
          freeblock + Total(old(|FileBytes(View(), inum)|)) == old(freeblock) + Total(|FileBytes(View(), inum)|)
      ensures ok ==> forall j: nat | j < NINODES && j != inum :: FileBytes(View(), j) == old(FileBytes(View(), j))
    {
      hide Ok, Separate, FileBytes, PutWord, Word, Inodes, ToBytes, Total;
      var din: Raw := RInode(inum);
      ghost var t, size, free := Inodes(sectors), Size(din), freeblock;
      FitsIs(View(), inum, |p|);
      var off := Word(din, 2);
      ghost var first := Logical(t, inum, din, off, sectors, freeblock);
      OkParts(View());
      InRange(View(), inum, 0);
      SameWord(din, 2);
      assert first == View();
      var i := 0;
      while i < |p|
        invariant 0 <= i <= |p| && off == size + i && off <= MAX_BLOCKS * BLOCK_SIZE && Inodes(sectors) == t
        invariant freeblock + Total(size) == free + Total(off) && freeblock <= FSSIZE
        invariant var now := Logical(t, inum, din, off, sectors, freeblock);
          && Ok(now) && FileBytes(now, inum) == FileBytes(first, inum) + p[..i]
          && forall j: nat | j < NINODES && j != inum :: FileBytes(now, j) == FileBytes(first, j)
      {
        if off / BLOCK_SIZE >= MAX_BLOCKS {
          return false;
        }
        var done, d1, n1 := AppendTurn(inum, din, off, p[i..], t);
        if !done {
          return false;
        }
        Longer(FileBytes(first, inum), p, i, n1);
        din, i, off := d1, i + n1, off + n1;
        InRange(Logical(t, inum, din, off, sectors, freeblock), inum, 0);
        SizeIs(din, off, 2);
      }
      assert p[..|p|] == p;
      ghost var done := Logical(t, inum, din, off, sectors, freeblock);
      din := PutWord(din, 2, off);
      WInode(inum, din);
      SameData(done, View());
      ok := true;
    }

    /** The blank image that `main` starts from. */
    constructor ()
      ensures Ok(View()) && freeblock == NMETA && freeinode == 1
      ensures forall i: nat | i < NINODES :: FileBytes(View(), i) == []
    {
      sectors := ZeroSectors(1000);
      freeblock := NMETA;
      freeinode := 1;
      new;
      Blank(sectors);
    }

    /** `ialloc`: the next inode becomes an empty file of this type with one link. */
    method IAlloc(kind: nat) returns (inum: nat)
      requires kind < 0x1_0000 && freeinode < NINODES && Ok(View())
      modifies this`sectors, this`freeinode
      ensures inum == old(freeinode) && freeinode == inum + 1
      ensures Ok(View()) && FileBytes(View(), inum) == [] && FromBytes(View().table[inum][..2]) == kind
          && FromBytes(View().table[inum][6..8]) == 1
      ensures forall j: nat | j < NINODES && j != inum ::
          FileBytes(View(), j) == old(FileBytes(View(), j)) && View().table[j] == old(View().table[j])
    {
      hide Ok, Separate, FileBytes, Word, Inodes, ToBytes, FromBytes;
      inum := freeinode;
      freeinode := freeinode + 1;
      var din: Raw := ToBytes(kind, 2) + [0, 0, 0, 0] + ToBytes(1, 2) + seq(56, i => 0);
      ghost var was := View();
      OkParts(was);
      NewInode(kind);
      WInode(inum, din);
      SetEmpty(was, inum, din);
      SameData(Fs(was.table[inum := din], was.sectors, was.free), View());
    }

    /** The end of `main`: the size of the root directory is rounded up past its end. */
    method FixRootSize(rootino: nat)
      requires rootino < NINODES && Ok(View())
      modifies this`sectors
      ensures Ok(View()) <==> |old(FileBytes(View(), rootino))| % BLOCK_SIZE != 0
      ensures |FileBytes(View(), rootino)| == (|old(FileBytes(View(), rootino))| / BLOCK_SIZE + 1) * BLOCK_SIZE
      ensures forall j: nat | j < NINODES && j != rootino :: View().table[j] == old(View().table[j])
    {
      hide Ok, Separate, PutWord, Word, Inodes;
      ghost var was, s := View(), sectors;
      OkParts(was);
      InRange(was, rootino, 0);
      var din := RInode(rootino);
      var off := Word(din, 2);
      SameWord(din, 2);
      assert Logical(was.table, rootino, din, off, s, freeblock) == was;
      RootRounding(was.table, rootino, din, off, s, freeblock);
      off := (off / BLOCK_SIZE + 1) * BLOCK_SIZE;
      SizeIs(din, off, 2);
      ghost var now := Logical(was.table, rootino, din, off, s, freeblock);
      WInode(rootino, PutWord(din, 2, off));
      if Ok(now) {
        SameData(now, View());
      }
      if Ok(View()) {
        SameData(View(), now);
      }
    }

    /** `balloc`: the bitmap says exactly of the first `used` blocks that they are in use. */
    method BAlloc(used: nat)
      requires used < BIT_PER_BLOCK && Ok(View())
      modifies this`sectors
      ensures FirstBits(sectors[NMETA - 1], used)
      ensures Ok(View()) && View().table == old(View().table)
      ensures forall j: nat | j < NINODES :: FileBytes(View(), j) == old(FileBytes(View(), j))
    {
      hide Ok, Separate, FileBytes, Word, BitOf, Mark;
      ghost var was := View();
      var buf: Block := ZeroBlock();
      NoBits();
      var i := 0;
      while i < used
        invariant 0 <= i <= used
        invariant FirstBits(buf, i)
      {
        buf := Mark(buf, i, true);
        i := i + 1;
      }
      ghost var s := sectors;
      WSect(NMETA - 1, buf);
      BitmapApart(s, buf);
      SameData(was, View());
    }
  }

  lemma EntryFits(fs: Fs, i: nat, n: nat)
    requires i < |fs.table| && Size(fs.table[i]) == 16 * n && n < NINODES && fs.free == NMETA + Total(16 * n)
    ensures Fits(fs, i, 16)
  {
  }

  /** The root directory as `main` builds it, one 16-byte entry after the other: "." and ".." and one for
      each input file. The finished image is well formed unless the number of entries is a multiple of 32. */
  method RootDirectory(entries: seq<seq<Byte>>) returns (image: Image)
    requires |entries| <= NINODES && forall e | e in entries :: |e| == 16
    ensures fresh(image) && (Ok(image.View()) <==> |entries| % 32 != 0)
  {
    hide Ok, FileBytes, Inodes, Size;
    image := new Image();
    var root := image.IAlloc(1);
    var n := 0;
    assert Total(0) == 0;
    hide Total, Fits;
    while n < |entries|
      invariant 0 <= n <= |entries| && fresh(image) && Ok(image.View())
      invariant |FileBytes(image.View(), root)| == 16 * n
      invariant image.freeblock == NMETA + Total(16 * n)
    {
      EntryFits(image.View(), root, n);
      var ok := image.IAppend(root, entries[n]);
      n := n + 1;
    }
    image.FixRootSize(root);
    assert 16 * n % BLOCK_SIZE == 0 <==> n % 32 == 0;
  }

  /** Thirty input files. */
  method ThirtyFiles() returns (image: Image)
    ensures fresh(image) && !Ok(image.View())
  {
    image := RootDirectory(seq(32, i => seq(16, j => 0)));
  }

  lemma Blank(s: Sectors)
    requires forall x | 0 <= x < FSSIZE :: s[x] == ZeroBlock()
    ensures var fs := Fs(Inodes(s), s, NMETA); Ok(fs) && forall i: nat | i < NINODES :: FileBytes(fs, i) == []
  {
    hide Word;
    var fs := Fs(Inodes(s), s, NMETA);
    forall i: nat, k: nat | i < NINODES && k < 16 ensures Word(fs.table[i], k) == 0 {
      IPlace(i, i);
      ZeroWords(fs.table[i], k);
    }
    forall i: nat, k: nat | i < NINODES && k <= MAX_BLOCKS ensures RefOf(fs, i, k) == 0 {
      assert Word(fs.table[i], 15) == 0;
    }
    hide RefOf;
  }

  lemma ZeroWords(d: Raw, k: nat)
    requires k < 16 && forall i | 0 <= i < 64 :: d[i] == 0
    ensures Word(d, k) == 0
  {
    ZeroWord(d[4 * k..4 * k + 4]);
  }

  lemma NewInode(kind: nat)
    requires kind < 0x1_0000
    ensures var d: Raw := ToBytes(kind, 2) + [0, 0, 0, 0] + ToBytes(1, 2) + seq(56, i => 0);
      && (forall k | 2 <= k < 16 :: Word(d, k) == 0) && FromBytes(d[..2]) == kind && FromBytes(d[6..8]) == 1
  {
    hide ToBytes, FromBytes;
    var d: Raw := ToBytes(kind, 2) + [0, 0, 0, 0] + ToBytes(1, 2) + seq(56, i => 0);
    assert Pow256(2) == 0x1_0000;
    FromToBytes(kind, 2);
    FromToBytes(1, 2);
    assert d[..2] == ToBytes(kind, 2) && d[6..8] == ToBytes(1, 2);
    forall k | 2 <= k < 16 ensures Word(d, k) == 0 {
      ZeroWord(d[4 * k..4 * k + 4]);
    }
  }

  /** An empty inode in place of any other. */
  lemma SetEmpty(fs: Fs, i: nat, d: Raw)
    requires Ok(fs) && i < NINODES && forall k | 2 <= k < 16 :: Word(d, k) == 0
    ensures var fs2 := Fs(fs.table[i := d], fs.sectors, fs.free);
      && Ok(fs2) && FileBytes(fs2, i) == []
          && forall j: nat | j < NINODES && j != i :: FileBytes(fs2, j) == FileBytes(fs, j)
  {
    hide Word;
    var fs2 := Fs(fs.table[i := d], fs.sectors, fs.free);
    forall j: nat, k: nat | j < NINODES && k <= MAX_BLOCKS ensures RefOf(fs2, j, k) == if j == i then 0
      else RefOf(fs, j, k) {
    }
    hide RefOf, RefIn;
    forall j: nat | j < NINODES ensures ChainOk(fs2, j) {
      assert ChainOk(fs, j);
    }
    forall j: nat | j < NINODES && j != i ensures FileBytes(fs2, j) == FileBytes(fs, j) {
      forall q: nat | q < Size(fs.table[j]) ensures FileBytes(fs2, j)[q] == FileBytes(fs, j)[q] {
        InRange(fs, j, MAX_BLOCKS);
      }
    }
  }

  lemma NoBits()
    ensures forall b: nat | b < BIT_PER_BLOCK :: !BitOf(ZeroBlock(), b)
  {
    forall b: nat | b < BIT_PER_BLOCK ensures !BitOf(ZeroBlock(), b) {
      NoBit(b % 8);
    }
  }

  lemma {:induction false} NoBit(k: nat)
    ensures !BitAt(0, k)
  {
    if k > 0 {
      NoBit(k - 1);
    }
  }

  lemma BitmapApart(s: Sectors, b: Block)
    ensures Inodes(s[NMETA - 1 := b]) == Inodes(s)
  {
    var s2 := s[NMETA - 1 := b];
    forall i: nat | i < NINODES ensures InodeOf(s2, i) == InodeOf(s, i) {
      IPlace(i, i);
    }
  }

  /** Writing the inode back makes the logical file system the real one. */
  lemma SameData(fs: Fs, fs2: Fs)
    requires Ok(fs) && fs2.table == fs.table && fs2.free == fs.free
        && forall y | NMETA <= y < FSSIZE :: fs2.sectors[y] == fs.sectors[y]
    ensures Ok(fs2) && forall j: nat | j < NINODES :: FileBytes(fs2, j) == FileBytes(fs, j)
  {
    hide Ok, Separate, FileBytes, RefIn;
    OkParts(fs);
    forall j: nat, k: nat | j < NINODES && k <= MAX_BLOCKS ensures RefOf(fs2, j, k) == RefOf(fs, j, k) {
      SameRef(fs, fs2, j, k);
    }
    SameOk(fs, fs2);
    forall j: nat | j < NINODES ensures FileBytes(fs2, j) == FileBytes(fs, j) {
      SameFile(fs, fs2, j);
    }
  }

  lemma SameRef(fs: Fs, fs2: Fs, j: nat, k: nat)
    requires Ok(fs) && fs2.table == fs.table && j < |fs.table| && k <= MAX_BLOCKS
        && forall y | NMETA <= y < FSSIZE :: fs2.sectors[y] == fs.sectors[y]
    ensures RefOf(fs2, j, k) == RefOf(fs, j, k)
  {
    hide Ok, Separate, Word;
    OkParts(fs);
    InRange(fs, j, MAX_BLOCKS);
  }

  lemma SameOk(fs: Fs, fs2: Fs)
    requires Ok(fs) && fs2.table == fs.table && fs2.free == fs.free
        && forall y | NMETA <= y < FSSIZE :: fs2.sectors[y] == fs.sectors[y]
    requires forall j: nat, k: nat | j < NINODES && k <= MAX_BLOCKS :: RefOf(fs2, j, k) == RefOf(fs, j, k)
    ensures Ok(fs2)
  {
    hide RefOf, Word;
    forall i: nat | i < NINODES ensures ChainOk(fs2, i) {
      assert ChainOk(fs, i);
    }
  }

  lemma SameFile(fs: Fs, fs2: Fs, j: nat)
    requires Ok(fs) && fs2.table == fs.table && j < |fs.table|
        && forall y | NMETA <= y < FSSIZE :: fs2.sectors[y] == fs.sectors[y]
    requires forall k: nat | k <= MAX_BLOCKS :: RefOf(fs2, j, k) == RefOf(fs, j, k)
    ensures FileBytes(fs2, j) == FileBytes(fs, j)
  {
    hide Ok, RefOf, Word;
    OkParts(fs);
    InRange(fs, j, MAX_BLOCKS);
    forall q: nat | q < Size(fs.table[j]) ensures FileBytes(fs2, j)[q] == FileBytes(fs, j)[q] {
      InRange(fs, j, q / BLOCK_SIZE);
    }
  }

  lemma SameWord(s: seq<Byte>, k: nat)
    requires 4 * k + 4 <= |s|
    ensures PutWord(s, k, Word(s, k)) == s
  {
    ToFromBytes(s[4 * k..4 * k + 4]);
    hide ToBytes, FromBytes;
    assert s == s[..4 * k] + s[4 * k..4 * k + 4] + s[4 * k + 4..];
  }
}
