// The four-level page table of src/kernel/pt.c as a tree of tables; the tables hold 64-bit entries.
module PageSpec {
  const ENTRIES := 512
  const FRAMES := 0x10_0000_0000       // 2^36 page frames of 4 KB: 48-bit addresses

  type Table = s: seq<nat> | |s| == 512 witness seq(512, i => 0)

  type Mem = map<nat, Table>

  function ZeroTable(): Table {
    seq(512, i => 0)
  }

  // ----- entries: bit 0 is PTE_VALID, bits 12 to 47 the frame -----

  predicate Valid(e: nat) {
    e % 2 == 1
  }

  /** `PTE_ADDRESS`, in frames. */
  function FrameOf(e: nat): nat {
    e / 4096 % FRAMES
  }

  /** `K2P(p) + PTE_TABLE`. */
  function TableEntry(frame: nat): nat {
    frame * 4096 + 3
  }

  lemma EntryRoundTrip(frame: nat)
    requires frame < FRAMES
    ensures Valid(TableEntry(frame)) && FrameOf(TableEntry(frame)) == frame
    ensures TableEntry(frame) % 0x1000 == 3 && TableEntry(frame) / 0x1000 == frame
  {
    assert TableEntry(frame) / 4096 == frame;
  }

  // ----- virtual addresses -----

  /** `VA_PART0` to `VA_PART3`. */
  function VaPart(va: nat, lv: nat): (r: nat)
    requires lv <= 3
    ensures r < ENTRIES
  {
    if lv == 0 then va / 0x80_0000_0000 % 512
    else if lv == 1 then va / 0x4000_0000 % 512
    else if lv == 2 then va / 0x20_0000 % 512
    else va / 0x1000 % 512
  }

  type Ids = s: seq<nat> | |s| == 4 && forall i | 0 <= i < 4 :: s[i] < 512 witness [0, 0, 0, 0]

  function Split(va: nat): Ids {
    [VaPart(va, 0), VaPart(va, 1), VaPart(va, 2), VaPart(va, 3)]
  }

  /** The page an address lies on, among the 2^36 that 48 bits can name. */
  function PageNo(va: nat): nat {
    va / 0x1000 % FRAMES
  }

  lemma SplitSum(x: nat)
    ensures x % FRAMES == ((x / 0x800_0000 % 512 * 512 + x / 0x4_0000 % 512) * 512 + x / 0x200 % 512) * 512 + x % 512
  {
    var a := x / 512;
    var b := a / 512;
    var c := b / 512;
    var d := c / 512;
    assert x / 0x4_0000 == b && x / 0x800_0000 == c && x / FRAMES == d;
  }

  /** The bits of a virtual address: nine for each level, the highest for the root, and twelve for the byte. */
  lemma SplitIs(va: nat)
    ensures var s := Split(va);
      va % 0x1_0000_0000_0000 == (((s[0] * 512 + s[1]) * 512 + s[2]) * 512 + s[3]) * 4096 + va % 4096
  {
    var x := va / 0x1000;
    assert va / 0x80_0000_0000 == x / 0x800_0000 && va / 0x4000_0000 == x / 0x4_0000 && va / 0x20_0000 == x / 0x200;
    SplitSum(x);
    PageAndByte(va);
  }

  lemma PageAndByte(va: nat)
    ensures va % 0x1_0000_0000_0000 == va / 0x1000 % FRAMES * 4096 + va % 4096
  {
    var x := va / 0x1000;
    var y := x / FRAMES;
    assert va == x * 4096 + va % 4096 && x == y * FRAMES + x % FRAMES;
    assert va == y * 0x1_0000_0000_0000 + (x % FRAMES * 4096 + va % 4096);
    OnlyRemainder(va, y, x % FRAMES * 4096 + va % 4096);
  }

  lemma OnlyRemainder(a: nat, y: nat, r: nat)
    requires a == y * 0x1_0000_0000_0000 + r && r < 0x1_0000_0000_0000
    ensures a % 0x1_0000_0000_0000 == r
  {
  }

  /** The four indices determine the page and are determined by it: distinct pages take distinct paths. */
  lemma SplitPages(va: nat, vb: nat)
    ensures Split(va) == Split(vb) <==> PageNo(va) == PageNo(vb)
  {
    var x, y := va / 0x1000, vb / 0x1000;
    assert va / 0x80_0000_0000 == x / 0x800_0000 && va / 0x4000_0000 == x / 0x4_0000 && va / 0x20_0000 == x / 0x200;
    assert vb / 0x80_0000_0000 == y / 0x800_0000 && vb / 0x4000_0000 == y / 0x4_0000 && vb / 0x20_0000 == y / 0x200;
    SplitSum(x);
    SplitSum(y);
    var s, t := Split(va), Split(vb);
    if PageNo(va) == PageNo(vb) {
      Digit((s[0] * 512 + s[1]) * 512 + s[2], s[3], (t[0] * 512 + t[1]) * 512 + t[2], t[3]);
      Digit(s[0] * 512 + s[1], s[2], t[0] * 512 + t[1], t[2]);
      Digit(s[0], s[1], t[0], t[1]);
    }
  }

  lemma Digit(a: nat, b: nat, c: nat, d: nat)
    requires a * 512 + b == c * 512 + d && b < 512 && d < 512
    ensures a == c && b == d
  {
  }

  // ----- the tree of tables -----

  /** A table and the tables its valid entries lead to; a table at level 3 leads nowhere. */
  datatype Dir = Dir(page: nat, kids: map<nat, Dir>)

  /** The tables in memory spell the tree d, whose root is at level lv. */
  predicate Spells(m: Mem, d: Dir, lv: nat)
    requires lv <= 3
    decreases 3 - lv
  {
    && d.page in m && d.page < FRAMES
    && (lv == 3 ==> d.kids == map[])
    && (lv < 3 ==> forall i: nat | i < ENTRIES :: Valid(m[d.page][i]) <==> i in d.kids)
    && (lv < 3 ==>
        forall i | i in d.kids ::
        i < ENTRIES && FrameOf(m[d.page][i]) == d.kids[i].page && Spells(m, d.kids[i], lv + 1))
  }

  /** The pages of all tables. */
  function PagesOf(d: Dir, lv: nat): set<nat>
    requires lv <= 3
    decreases 3 - lv, 1
  {
    {d.page} + if lv == 3 then {} else set i, x | i in d.kids && x in Below(d, lv, i) :: x
  }

  /** The pages under entry i. */
  function Below(d: Dir, lv: nat, i: nat): set<nat>
    requires lv < 3 && i in d.kids
    decreases 3 - lv, 0
  {
    PagesOf(d.kids[i], lv + 1)
  }

  /** No page is used for two tables. */
  predicate Apart(d: Dir, lv: nat)
    requires lv <= 3
    decreases 3 - lv
  {
    lv < 3 ==>
      && (forall i | i in d.kids :: d.page !in Below(d, lv, i) && Apart(d.kids[i], lv + 1))
      && (forall i, j | i in d.kids && j in d.kids && i != j :: Below(d, lv, i) !! Below(d, lv, j))
  }

  /** The node that the first n indices lead to, if it is there. */
  predicate Reaches(d: Dir, lv: nat, ids: Ids, n: nat)
    requires lv <= n <= 3
    decreases n - lv
  {
    lv < n ==> ids[lv] in d.kids && Reaches(d.kids[ids[lv]], lv + 1, ids, n)
  }

  function NodeAt(d: Dir, lv: nat, ids: Ids, n: nat): Dir
    requires lv <= n <= 3 && Reaches(d, lv, ids, n)
    decreases n - lv
  {
    if lv == n then d else NodeAt(d.kids[ids[lv]], lv + 1, ids, n)
  }

  /** d with an empty table p below that node. */
  function Hang(d: Dir, lv: nat, ids: Ids, n: nat, p: nat): Dir
    requires lv <= n < 3 && Reaches(d, lv, ids, n)
    decreases n - lv
  {
    d.(kids := d.kids[ids[lv] := if lv == n then Dir(p, map[]) else Hang(d.kids[ids[lv]], lv + 1, ids, n, p)])
  }

  // ----- frames -----

  lemma {:induction false} SpellsFrame(m: Mem, k: Mem, d: Dir, lv: nat)
    requires lv <= 3 && Spells(m, d, lv) && forall x | x in PagesOf(d, lv) :: x in k && x in m && k[x] == m[x]
    ensures Spells(k, d, lv)
    decreases 3 - lv
  {
    if lv < 3 {
      forall i | i in d.kids ensures Spells(k, d.kids[i], lv + 1) {
        assert Below(d, lv, i) <= PagesOf(d, lv);
        SpellsFrame(m, k, d.kids[i], lv + 1);
      }
    }
  }

  lemma {:induction false} PagesIn(m: Mem, d: Dir, lv: nat)
    requires lv <= 3 && Spells(m, d, lv)
    ensures PagesOf(d, lv) <= m.Keys
    decreases 3 - lv
  {
    if lv < 3 {
      forall i | i in d.kids ensures Below(d, lv, i) <= m.Keys {
        PagesIn(m, d.kids[i], lv + 1);
      }
    }
  }

  lemma {:induction false} NodeIn(m: Mem, d: Dir, lv: nat, ids: Ids, n: nat)
    requires lv <= n <= 3 && Spells(m, d, lv) && Reaches(d, lv, ids, n)
    ensures Spells(m, NodeAt(d, lv, ids, n), n) && PagesOf(NodeAt(d, lv, ids, n), n) <= PagesOf(d, lv)
    decreases n - lv
  {
    if lv < n {
      assert Below(d, lv, ids[lv]) <= PagesOf(d, lv);
      NodeIn(m, d.kids[ids[lv]], lv + 1, ids, n);
    }
  }

  lemma {:induction false} HangPages(d: Dir, lv: nat, ids: Ids, n: nat, p: nat)
    requires lv <= n < 3 && Reaches(d, lv, ids, n) && ids[n] !in NodeAt(d, lv, ids, n).kids
    ensures PagesOf(Hang(d, lv, ids, n, p), lv) == PagesOf(d, lv) + {p}
    decreases n - lv
  {
    var h, i := Hang(d, lv, ids, n, p), ids[lv];
    if lv < n {
      HangPages(d.kids[i], lv + 1, ids, n, p);
    } else {
      assert Below(h, lv, i) == {p};
    }
    assert forall j | j in h.kids && j != i :: j in d.kids && Below(h, lv, j) == Below(d, lv, j);
    assert Below(h, lv, i) == if lv < n then Below(d, lv, i) + {p} else {p};
    hide Below, Hang, NodeAt, Reaches;
    assert h.kids.Keys == d.kids.Keys + {i} && h.page == d.page;
    UnionOnce(d, h, lv, i, p);
  }

  /** Two trees that differ under entry i only, where one has the page p more. */
  lemma UnionOnce(d: Dir, h: Dir, lv: nat, i: nat, p: nat)
    requires lv < 3 && h.page == d.page && h.kids.Keys == d.kids.Keys + {i}
    requires forall j | j in h.kids && j != i :: j in d.kids && Below(h, lv, j) == Below(d, lv, j)
    requires Below(h, lv, i) == if i in d.kids then Below(d, lv, i) + {p} else {p}
    ensures PagesOf(h, lv) == PagesOf(d, lv) + {p}
  {
    hide Below;
    forall x ensures x in PagesOf(h, lv) <==> x in PagesOf(d, lv) + {p} {
      if x in PagesOf(d, lv) && x != d.page {
        var j :| j in d.kids && x in Below(d, lv, j);
        assert j in h.kids && x in Below(h, lv, j);
      }
      assert p in Below(h, lv, i);
    }
  }

  /** The memory after an empty table p has been entered below that node. */
  function Entered(m: Mem, node: nat, i: nat, p: nat): Mem
    requires node in m && i < ENTRIES
  {
    m[p := ZeroTable()][node := m[node][i := TableEntry(p)]]
  }

  lemma EmptySpells(m: Mem, p: nat, lv: nat)
    requires lv <= 3 && p in m && p < FRAMES && m[p] == ZeroTable()
    ensures Spells(m, Dir(p, map[]), lv) && Apart(Dir(p, map[]), lv) && PagesOf(Dir(p, map[]), lv) == {p}
  {
  }

  /** One table and the trees below it, some of them as they were. */
  lemma SpellsOnce(m: Mem, k: Mem, d: Dir, h: Dir, lv: nat, i: nat)
    requires lv < 3 && Spells(m, d, lv) && h.page == d.page && h.page in k && h.page in m
        && h.kids.Keys == d.kids.Keys + {i} && i < ENTRIES
    requires forall j: nat | j < ENTRIES && j != i :: k[h.page][j] == m[h.page][j]
    requires Valid(k[h.page][i]) && FrameOf(k[h.page][i]) == h.kids[i].page && Spells(k, h.kids[i], lv + 1)
    requires forall j | j in d.kids && j != i ::
        h.kids[j] == d.kids[j] && forall x | x in Below(d, lv, j) :: x in k && x in m && k[x] == m[x]
    ensures Spells(k, h, lv)
  {
    hide FrameOf, Valid;
    forall j | j in h.kids && j != i ensures Spells(k, h.kids[j], lv + 1) {
      SpellsFrame(m, k, d.kids[j], lv + 1);
    }
  }

  /** A table's children, as far as the pages go. */
  lemma ApartSays(d: Dir, lv: nat, i: nat)
    requires lv < 3 && Apart(d, lv) && i in d.kids
    ensures d.page !in Below(d, lv, i) && Apart(d.kids[i], lv + 1) && Below(d, lv, i) <= PagesOf(d, lv)
    ensures forall j | j in d.kids && j != i :: Below(d, lv, i) !! Below(d, lv, j)
  {
  }

  lemma SpellsSays(m: Mem, d: Dir, lv: nat, i: nat)
    requires lv < 3 && Spells(m, d, lv) && i in d.kids
    ensures d.page in m && d.page < FRAMES && i < ENTRIES && Valid(m[d.page][i])
        && FrameOf(m[d.page][i]) == d.kids[i].page
    ensures Spells(m, d.kids[i], lv + 1) && Below(d, lv, i) <= m.Keys
  {
    hide FrameOf, Valid;
    PagesIn(m, d.kids[i], lv + 1);
  }

  lemma HangHere(m: Mem, d: Dir, ids: Ids, n: nat, p: nat)
    requires n < 3 && Spells(m, d, n) && Apart(d, n) && ids[n] !in d.kids && p < FRAMES && p !in PagesOf(d, n)
        && d.page in m
    ensures Spells(Entered(m, d.page, ids[n], p), Hang(d, n, ids, n, p), n)
  {
    hide TableEntry, FrameOf, Valid, Spells, Apart;
    var i := ids[n];
    var k, h := Entered(m, d.page, i, p), Hang(d, n, ids, n, p);
    EntryRoundTrip(p);
    EmptySpells(k, p, n + 1);
    assert d.page in PagesOf(d, n);
    hide PagesOf, Below;
    forall j | j in d.kids && j != i ensures forall x | x in Below(d, n, j) :: x in k && x in m && k[x] == m[x] {
      ApartSays(d, n, j);
      SpellsSays(m, d, n, j);
    }
    SpellsOnce(m, k, d, h, n, i);
  }

  /** A fresh table entered where nothing was: the tables spell the larger tree. */
  lemma {:induction false} HangSpells(m: Mem, d: Dir, lv: nat, ids: Ids, n: nat, p: nat)
    requires lv <= n < 3 && Spells(m, d, lv) && Apart(d, lv) && Reaches(d, lv, ids, n)
        && ids[n] !in NodeAt(d, lv, ids, n).kids
    requires p < FRAMES && p !in PagesOf(d, lv)
    ensures NodeAt(d, lv, ids, n).page in m
        && Spells(Entered(m, NodeAt(d, lv, ids, n).page, ids[n], p), Hang(d, lv, ids, n, p), lv)
    decreases n - lv
  {
    NodeIn(m, d, lv, ids, n);
    if lv == n {
      HangHere(m, d, ids, n, p);
    } else {
      var i := ids[lv];
      var k, h := Entered(m, NodeAt(d, lv, ids, n).page, ids[n], p), Hang(d, lv, ids, n, p);
      assert Below(d, lv, i) <= PagesOf(d, lv) && d.page !in Below(d, lv, i);
      HangSpells(m, d.kids[i], lv + 1, ids, n, p);
      NodeIn(m, d.kids[i], lv + 1, ids, n);
      assert NodeAt(d, lv, ids, n).page in Below(d, lv, i);
      hide NodeAt, Hang, Entered;
      HangAbove(m, d, lv, ids, n, p);
    }
  }

  lemma HangAbove(m: Mem, d: Dir, lv: nat, ids: Ids, n: nat, p: nat)
    requires lv < n < 3 && Spells(m, d, lv) && Apart(d, lv) && Reaches(d, lv, ids, n) && p !in PagesOf(d, lv)
    requires var node := NodeAt(d, lv, ids, n);
        node.page in Below(d, lv, ids[lv]) && node.page in m && node == NodeAt(d.kids[ids[lv]], lv + 1, ids, n)
    requires Spells(Entered(m, NodeAt(d, lv, ids, n).page, ids[n], p), Hang(d.kids[ids[lv]], lv + 1, ids, n, p), lv + 1)
    ensures Spells(Entered(m, NodeAt(d, lv, ids, n).page, ids[n], p), Hang(d, lv, ids, n, p), lv)
  {
    hide NodeAt, TableEntry, FrameOf, Valid, Spells, Apart;
    var i, node := ids[lv], NodeAt(d, lv, ids, n).page;
    var k, h := Entered(m, node, ids[n], p), Hang(d, lv, ids, n, p);
    HangRoot(d.kids[i], lv + 1, ids, n, p);
    ApartSays(d, lv, i);
    SpellsSays(m, d, lv, i);
    assert d.page in PagesOf(d, lv);
    hide PagesOf, Below, Reaches;
    forall j | j in d.kids && j != i ensures forall x | x in Below(d, lv, j) :: x in k && x in m && k[x] == m[x] {
      ApartSays(d, lv, j);
      SpellsSays(m, d, lv, j);
    }
    SpellsOnce(m, k, d, h, lv, i);
  }

  lemma HangRoot(d: Dir, lv: nat, ids: Ids, n: nat, p: nat)
    requires lv <= n < 3 && Reaches(d, lv, ids, n)
    ensures Hang(d, lv, ids, n, p).page == d.page && Hang(d, lv, ids, n, p).kids.Keys == d.kids.Keys + {ids[lv]}
  {
  }

  lemma {:induction false} HangApart(d: Dir, lv: nat, ids: Ids, n: nat, p: nat)
    requires lv <= n < 3 && Apart(d, lv) && Reaches(d, lv, ids, n) && ids[n] !in NodeAt(d, lv, ids, n).kids
        && p !in PagesOf(d, lv)
    ensures Apart(Hang(d, lv, ids, n, p), lv)
    decreases n - lv
  {
    hide Apart, PagesOf;
    var i, h := ids[lv], Hang(d, lv, ids, n, p);
    PageIn(d, lv);
    if lv == n {
      EmptyApart(p, lv + 1);
      assert Below(h, lv, i) == {p};
    } else {
      ApartSays(d, lv, i);
      HangApart(d.kids[i], lv + 1, ids, n, p);
      HangPages(d.kids[i], lv + 1, ids, n, p);
      assert Below(h, lv, i) == Below(d, lv, i) + {p};
    }
    hide NodeAt, Reaches;
    assert forall j | j in h.kids && j != i ::
      j in d.kids && h.kids[j] == d.kids[j] && Below(h, lv, j) == Below(d, lv, j);
    assert h.page == d.page;
    hide Below, Hang;
    forall j | j in d.kids ensures Below(d, lv, j) <= PagesOf(d, lv) {
      ApartSays(d, lv, j);
    }
    ApartOnce(d, h, lv, i, p);
  }

  lemma PageIn(d: Dir, lv: nat)
    requires lv <= 3
    ensures d.page in PagesOf(d, lv)
  {
  }

  lemma EmptyApart(p: nat, lv: nat)
    requires lv <= 3
    ensures Apart(Dir(p, map[]), lv) && PagesOf(Dir(p, map[]), lv) == {p}
  {
  }

  lemma ApartOnce(d: Dir, h: Dir, lv: nat, i: nat, p: nat)
    requires lv < 3 && Apart(d, lv) && h.page == d.page && i in h.kids && Apart(h.kids[i], lv + 1)
        && p !in PagesOf(d, lv) && p != d.page
    requires Below(h, lv, i) == if i in d.kids then Below(d, lv, i) + {p} else {p}
    requires forall j | j in h.kids && j != i ::
        j in d.kids && h.kids[j] == d.kids[j] && Below(h, lv, j) == Below(d, lv, j) && Below(d, lv, j) <= PagesOf(d, lv)
    ensures Apart(h, lv)
  {
    hide PagesOf, Below;
  }

  // ----- the map a directory stands for -----

  datatype Option<T> = None | Some(value: T)

  /** Where the entry for a page is kept, if the tables for it exist. */
  function SlotOf(d: Dir, lv: nat, ids: Ids): Option<(nat, nat)>
    requires lv <= 3
    decreases 3 - lv
  {
    if lv == 3 then Some((d.page, ids[3])) else if ids[lv] in d.kids then SlotOf(d.kids[ids[lv]], lv + 1, ids) else None
  }

  /** The valid entry for a page, if there is one. */
  function Translate(m: Mem, d: Dir, ids: Ids): Option<nat> {
    var s := SlotOf(d, 0, ids);
    if s.Some? && s.value.0 in m && s.value.1 < ENTRIES && Valid(m[s.value.0][s.value.1])
      then Some(m[s.value.0][s.value.1]) else None
  }

  /** Where the translation hardware finds the entry of an address: bits 47 to 39 index the root, bits 38 to
      30, 29 to 21 and 20 to 12 the tables below; bit 0 of an entry says that it is valid, bits 47 to 12
      which frame it leads to. */
  function HardwareSlot(m: Mem, root: nat, va: nat): Option<(nat, nat)> {
    if root !in m || m[root][va / 0x80_0000_0000 % 512] % 2 == 0 then None
    else
      var a := m[root][va / 0x80_0000_0000 % 512] / 0x1000 % 0x10_0000_0000;
      if a !in m || m[a][va / 0x4000_0000 % 512] % 2 == 0 then None
      else
        var b := m[a][va / 0x4000_0000 % 512] / 0x1000 % 0x10_0000_0000;
        if b !in m || m[b][va / 0x20_0000 % 512] % 2 == 0 then None
        else Some((m[b][va / 0x20_0000 % 512] / 0x1000 % 0x10_0000_0000, va / 0x1000 % 512))
  }

  /** Tables that spell a directory are walked by the hardware as the directory says. */
  lemma SlotIsHardware(m: Mem, d: Dir, va: nat)
    requires Spells(m, d, 0)
    ensures SlotOf(d, 0, Split(va)) == HardwareSlot(m, d.page, va)
  {
    hide Spells;
    var ids := Split(va);
    StepDown(m, d, 0, ids);
    if ids[0] in d.kids {
      var e := d.kids[ids[0]];
      StepDown(m, e, 1, ids);
      if ids[1] in e.kids {
        StepDown(m, e.kids[ids[1]], 2, ids);
      }
    }
  }

  lemma StepDown(m: Mem, d: Dir, lv: nat, ids: Ids)
    requires lv < 3 && Spells(m, d, lv)
    ensures d.page in m && (Valid(m[d.page][ids[lv]]) <==> ids[lv] in d.kids)
    ensures ids[lv] in d.kids ==>
      d.kids[ids[lv]].page == FrameOf(m[d.page][ids[lv]]) && Spells(m, d.kids[ids[lv]], lv + 1)
  {
  }

  lemma {:induction false} SlotInside(d: Dir, lv: nat, ids: Ids)
    requires lv <= 3 && SlotOf(d, lv, ids).Some?
    ensures SlotOf(d, lv, ids).value.0 in PagesOf(d, lv) && SlotOf(d, lv, ids).value.1 == ids[3]
    decreases 3 - lv
  {
    if lv < 3 {
      SlotInside(d.kids[ids[lv]], lv + 1, ids);
      assert Below(d, lv, ids[lv]) <= PagesOf(d, lv);
    }
  }

  lemma SlotUnder(d: Dir, lv: nat, ids: Ids)
    requires lv < 3 && SlotOf(d, lv, ids).Some?
    ensures ids[lv] in d.kids && SlotOf(d, lv, ids) == SlotOf(d.kids[ids[lv]], lv + 1, ids)
    ensures SlotOf(d, lv, ids).value.0 in Below(d, lv, ids[lv])
  {
    SlotInside(d.kids[ids[lv]], lv + 1, ids);
  }

  /** Distinct pages have distinct slots. */
  lemma {:induction false} SlotsDiffer(d: Dir, lv: nat, ids: Ids, js: Ids)
    requires lv <= 3 && Apart(d, lv) && SlotOf(d, lv, ids).Some? && SlotOf(d, lv, js) == SlotOf(d, lv, ids)
    ensures ids[lv..] == js[lv..]
    decreases 3 - lv
  {
    hide Apart, PagesOf, Below;
    SlotInside(d, lv, ids);
    SlotInside(d, lv, js);
    if lv < 3 {
      SlotUnder(d, lv, ids);
      SlotUnder(d, lv, js);
      ApartSays(d, lv, ids[lv]);
      assert ids[lv] == js[lv];
      hide SlotOf;
      SlotsDiffer(d.kids[ids[lv]], lv + 1, ids, js);
      assert ids[lv..] == [ids[lv]] + ids[lv + 1..] && js[lv..] == [js[lv]] + js[lv + 1..];
    } else {
      assert ids[3..] == [ids[3]] && js[3..] == [js[3]];
    }
  }

  /** The slots of two addresses on different 48-bit pages are different entries. */
  lemma PagesDiffer(d: Dir, va: nat, vb: nat)
    requires Apart(d, 0) && SlotOf(d, 0, Split(va)).Some? && SlotOf(d, 0, Split(vb)).Some?
    ensures SlotOf(d, 0, Split(va)) == SlotOf(d, 0, Split(vb)) <==> PageNo(va) == PageNo(vb)
  {
    hide Split, PageNo, Apart;
    SplitPages(va, vb);
    if SlotOf(d, 0, Split(va)) == SlotOf(d, 0, Split(vb)) {
      SlotsDiffer(d, 0, Split(va), Split(vb));
      assert Split(va)[0..] == Split(va) && Split(vb)[0..] == Split(vb);
    }
  }

  lemma {:induction false} HangSlots(d: Dir, lv: nat, ids: Ids, n: nat, p: nat, js: Ids)
    requires lv <= n < 3 && Reaches(d, lv, ids, n) && ids[n] !in NodeAt(d, lv, ids, n).kids
    ensures SlotOf(d, lv, js).Some? ==> SlotOf(Hang(d, lv, ids, n, p), lv, js) == SlotOf(d, lv, js)
    ensures Reaches(Hang(d, lv, ids, n, p), lv, ids, n + 1) && NodeAt(Hang(d, lv, ids, n, p), lv, ids, n + 1) ==
        Dir(p, map[])
    decreases n - lv
  {
    if lv < n {
      HangSlots(d.kids[ids[lv]], lv + 1, ids, n, p, js);
    } else {
      assert NodeAt(Dir(p, map[]), lv + 1, ids, n + 1) == Dir(p, map[]);
    }
  }

  /** A slot that appears lies in the new table. */
  lemma {:induction false} HangNew(d: Dir, lv: nat, ids: Ids, n: nat, p: nat, js: Ids)
    requires lv <= n < 3 && Reaches(d, lv, ids, n) && ids[n] !in NodeAt(d, lv, ids, n).kids
    ensures SlotOf(d, lv, js).None? && SlotOf(Hang(d, lv, ids, n, p), lv, js).Some? ==>
        SlotOf(Hang(d, lv, ids, n, p), lv, js).value == (p, js[3])
    decreases n - lv
  {
    if lv < n {
      HangNew(d.kids[ids[lv]], lv + 1, ids, n, p, js);
    }
  }

  /** The tables on the way are not the last ones. */
  lemma {:induction false} LeafNotNode(d: Dir, lv: nat, ids: Ids, n: nat, js: Ids)
    requires lv <= n < 3 && Apart(d, lv) && Reaches(d, lv, ids, n) && SlotOf(d, lv, js).Some?
    ensures SlotOf(d, lv, js).value.0 != NodeAt(d, lv, ids, n).page
    decreases n - lv
  {
    hide Apart, PagesOf, Below;
    SlotUnder(d, lv, js);
    ApartSays(d, lv, js[lv]);
    if lv < n {
      NodePath(d, lv, ids, n);
      if ids[lv] == js[lv] {
        LeafNotNode(d.kids[ids[lv]], lv + 1, ids, n, js);
      }
    }
  }

  lemma {:induction false} NodePath(d: Dir, lv: nat, ids: Ids, n: nat)
    requires lv < n <= 3 && Reaches(d, lv, ids, n)
    ensures NodeAt(d, lv, ids, n).page in Below(d, lv, ids[lv])
    decreases n - lv
  {
    if lv + 1 < n {
      NodePath(d.kids[ids[lv]], lv + 1, ids, n);
    } else {
      PageIn(d.kids[ids[lv]], lv + 1);
    }
  }

  /** Entering a fresh table changes no translation. */
  lemma HangTranslates(m: Mem, d: Dir, ids: Ids, n: nat, p: nat, js: Ids)
    requires n < 3 && Spells(m, d, 0) && Apart(d, 0) && Reaches(d, 0, ids, n) && ids[n] !in NodeAt(d, 0, ids, n).kids
    requires p !in PagesOf(d, 0) && NodeAt(d, 0, ids, n).page in m
    ensures Translate(Entered(m, NodeAt(d, 0, ids, n).page, ids[n], p), Hang(d, 0, ids, n, p), js) ==
        Translate(m, d, js)
    ensures SlotOf(d, 0, js).Some? ==> SlotOf(Hang(d, 0, ids, n, p), 0, js) == SlotOf(d, 0, js)
  {
    hide Apart, TableEntry, SlotOf, Hang, NodeAt, Reaches, Spells, PagesOf;
    HangSlots(d, 0, ids, n, p, js);
    HangNew(d, 0, ids, n, p, js);
    NodePage(m, d, ids, n);
    if SlotOf(d, 0, js).Some? {
      SlotInside(d, 0, js);
      LeafNotNode(d, 0, ids, n, js);
    }
  }

  lemma NodePage(m: Mem, d: Dir, ids: Ids, n: nat)
    requires n <= 3 && Spells(m, d, 0) && Reaches(d, 0, ids, n)
    ensures NodeAt(d, 0, ids, n).page in PagesOf(d, 0) && NodeAt(d, 0, ids, n).page in m
  {
    hide Spells;
    NodeIn(m, d, 0, ids, n);
    PageIn(NodeAt(d, 0, ids, n), n);
    PagesIn(m, d, 0);
  }

  // ----- writing through a slot -----

  function Stored(m: Mem, slot: (nat, nat), e: nat): Mem
    requires slot.0 in m && slot.1 < ENTRIES
  {
    m[slot.0 := m[slot.0][slot.1 := e]]
  }

  /** Whatever is stored into a slot, the tables spell the same tree. */
  lemma {:induction false} StoreSpells(m: Mem, d: Dir, lv: nat, ids: Ids, e: nat)
    requires lv <= 3 && Spells(m, d, lv) && Apart(d, lv) && SlotOf(d, lv, ids).Some?
        && SlotOf(d, lv, ids).value.1 < ENTRIES
    ensures SlotOf(d, lv, ids).value.0 in m && Spells(Stored(m, SlotOf(d, lv, ids).value, e), d, lv)
    decreases 3 - lv
  {
    if lv < 3 {
      hide Spells, Apart, PagesOf, Below;
      var p := SlotOf(d, lv, ids).value.0;
      SlotUnder(d, lv, ids);
      ApartSays(d, lv, ids[lv]);
      SpellsSays(m, d, lv, ids[lv]);
      StoreSpells(m, d.kids[ids[lv]], lv + 1, ids, e);
      var k := Stored(m, SlotOf(d, lv, ids).value, e);
      hide SlotOf;
      forall j | j in d.kids ensures Spells(k, d.kids[j], lv + 1) {
        if j != ids[lv] {
          StoreFrame(m, k, d, lv, j, p);
        }
      }
      SpellsAgain(m, k, d, lv);
    }
  }

  lemma SpellsAgain(m: Mem, k: Mem, d: Dir, lv: nat)
    requires lv < 3 && Spells(m, d, lv) && d.page in m && d.page in k && k[d.page] == m[d.page]
    requires forall j | j in d.kids :: Spells(k, d.kids[j], lv + 1)
    ensures Spells(k, d, lv)
  {
    hide FrameOf, Valid;
  }

  lemma StoreFrame(m: Mem, k: Mem, d: Dir, lv: nat, j: nat, p: nat)
    requires lv < 3 && Spells(m, d, lv) && j in d.kids && p !in Below(d, lv, j) && p in m && p in k && k == m[p := k[p]]
    ensures Spells(k, d.kids[j], lv + 1)
  {
    SpellsSays(m, d, lv, j);
    hide Spells;
    SpellsFrame(m, k, d.kids[j], lv + 1);
  }

  /** The directory is a map from pages to entries: storing at the slot of one address changes what its
      page translates to, and no other page. */
  lemma StoreTranslates(m: Mem, d: Dir, va: nat, e: nat, vb: nat)
    requires Spells(m, d, 0) && Apart(d, 0) && SlotOf(d, 0, Split(va)).Some?
    ensures SlotOf(d, 0, Split(va)).value.0 in m && SlotOf(d, 0, Split(va)).value.1 < ENTRIES
    ensures var k := Stored(m, SlotOf(d, 0, Split(va)).value, e);
      && Spells(k, d, 0)
      && Translate(k, d, Split(vb)) == if PageNo(vb) != PageNo(va) then Translate(m, d, Split(vb))
          else if Valid(e) then Some(e) else None
  {
    hide Spells, Apart, Split, PageNo, Valid, SlotOf, PagesOf;
    SlotInside(d, 0, Split(va));
    StoreSpells(m, d, 0, Split(va), e);
    SplitPages(va, vb);
    if SlotOf(d, 0, Split(vb)).Some? {
      PagesDiffer(d, va, vb);
    }
  }
}
