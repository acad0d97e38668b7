// src/kernel/pt.c over the page frames of src/kernel/mem.c. Ghost values name the tree that the tables spell.
module PageTables {
  import opened PageSpec

  ghost predicate NoRepeat(s: seq<nat>) {
    forall i, j | 0 <= i < j < |s| :: s[i] != s[j]
  }

  ghost function ToSet(s: seq<nat>): set<nat> {
    set p | p in s
  }

  /** All page frames, and the stack of free ones. */
  class PageFrames {
    var pages: Mem
    var free: seq<nat>

    ghost predicate Valid()
      reads this
    {
      NoRepeat(free) && forall p | p in free :: p in pages && p < FRAMES
    }

    /** `kalloc_page`; the content of the page is whatever was there. */
    method KallocPage() returns (p: nat)
      requires Valid() && free != []
      modifies this`free
      ensures Valid() && p == old(free)[0] && free == old(free)[1..] && p !in free && p in pages && p < FRAMES
    {
      p := free[0];
      free := free[1..];
    }

    method Memset0(p: nat)
      requires p in pages
      modifies this`pages
      ensures pages == old(pages)[p := ZeroTable()]
    {
      pages := pages[p := ZeroTable()];
    }

    method Store(p: nat, i: nat, e: nat)
      requires p in pages && i < ENTRIES
      modifies this`pages
      ensures pages == old(pages)[p := old(pages)[p][i := e]]
    {
      pages := pages[p := pages[p][i := e]];
    }

    /** `kfree_page`: the page's first word becomes the link of the stack. */
    method KfreePage(p: nat)
      requires Valid() && p in pages && p < FRAMES && p !in free
      modifies this
      ensures Valid() && free == [p] + old(free) && pages.Keys == old(pages).Keys
      ensures forall q | q in pages && q != p :: pages[q] == old(pages)[q]
    {
      var junk: Table := *;
      pages := pages[p := junk];
      free := [p] + free;
    }
  }

  class PgDir {
    var pt: Option<nat>

    constructor ()
      ensures pt == None
    {
      pt := None;
    }

    /** The directory spells the tree d (or is empty), with pages of its own. */
    ghost predicate Holds(mem: PageFrames, d: Option<Dir>)
      reads this, mem
    {
      && mem.Valid() && (pt.None? <==> d.None?)
      && (d.Some? ==> pt.value == d.value.page && Spells(mem.pages, d.value, 0) && Apart(d.value, 0)
                      && forall p | p in mem.free :: p !in PagesOf(d.value, 0))
    }

    /** `get_pte`: the slot of a virtual address. An empty directory gets its root table even without alloc. */
    method GetPte(mem: PageFrames, va: nat, alloc: bool, ghost d0: Option<Dir>)
        returns (slot: Option<(nat, nat)>, ghost d: Dir)
      requires Holds(mem, d0) && |mem.free| >= 4
      modifies this, mem
      ensures Holds(mem, Some(d)) && slot == SlotOf(d, 0, Split(va)) && (alloc ==> slot.Some?)
      ensures pt.Some? && slot == HardwareSlot(mem.pages, pt.value, va)
      ensures Extends(old(mem.pages), d0, mem.pages, d)
      ensures d0.Some? && !alloc ==> d == d0.value && mem.pages == old(mem.pages) && mem.free == old(mem.free)
      ensures exists k ::
          0 <= k <= 4 && mem.free == old(mem.free)[k..] && PagesOf(d, 0) == DirPages(d0) + ToSet(old(mem.free)[..k])
    {
      hide Spells, Apart, PagesOf, Reaches, NodeAt, SlotOf, Hang, Translate, TableEntry, Split, Extends, FrameOf,
          PageSpec.Valid, ToSet, HardwareSlot;
      ghost var m := mem.pages;
      ghost var free := mem.free;
      if pt.None? {
        var p := mem.KallocPage();
        mem.Memset0(p);
        pt := Some(p);
        d := Dir(p, map[]);
        RootMade(m, mem.pages, p);
      } else {
        d := d0.value;
        NothingMade(m, d);
      }
      ghost var ids: Ids := Split(va);
      var at, i := pt.value, 0;
      ReachesRoot(d, ids);
      ghost var taken := if d0.None? then 1 else 0;
      TakeNone(free);
      if d0.None? {
        TakeOne(free, 0);
      }
      while i < 3
        invariant 0 <= i <= 3 && Holds(mem, Some(d)) && Reaches(d, 0, ids, i) && NodeAt(d, 0, ids, i).page == at
        invariant Extends(m, d0, mem.pages, d)
        invariant d0.Some? && !alloc ==> d == d0.value && mem.pages == m && taken == 0
        invariant 0 <= taken <= i + 1 && mem.free == free[taken..]
            && PagesOf(d, 0) == DirPages(d0) + ToSet(free[..taken])
      {
        ghost var was, n := mem.pages, NodeAt(d, 0, ids, i);
        NodeSays(was, d, ids, i);
        var e := mem.pages[at][Split(va)[i]];
        if !Valid(e) {
          NoSlot(d, ids, i);
          if !alloc {
            SlotIsHardware(mem.pages, d, va);
            return None, d;
          }
          ghost var p, f := MakeTable(mem, at, Split(va)[i], d, ids, i);
          TakeOne(free, taken);
          ExtendsMore(m, d0, was, d, mem.pages, f);
          d, taken := f, taken + 1;
        }
        at, i := FrameOf(mem.pages[at][Split(va)[i]]), i + 1;
      }
      SlotFound(d, 0, ids);
      SlotIsHardware(mem.pages, d, va);
      return Some((at, Split(va)[3])), d;
    }

    /** `free_pgdir`: every table page goes back to the free stack exactly once, and nothing else does. */
    method FreePgdir(mem: PageFrames, ghost d: Option<Dir>)
      requires Holds(mem, d)
      modifies this, mem
      ensures Holds(mem, None) && multiset(mem.free) == multiset(old(mem.free)) + multiset(DirPages(d))
      ensures mem.pages.Keys == old(mem.pages).Keys
          && forall q | q in mem.pages && q !in DirPages(d) :: mem.pages[q] == old(mem.pages)[q]
    {
      if pt.Some? {
        FreePt(mem, pt.value, 0, d.value);
      }
      pt := None;
    }
  }

  /** `_free_pt`. */
  method FreePt(mem: PageFrames, pt: nat, lv: nat, ghost d: Dir)
    requires mem.Valid() && lv <= 3 && pt == d.page && Spells(mem.pages, d, lv) && Apart(d, lv)
        && forall q | q in mem.free :: q !in PagesOf(d, lv)
    modifies mem
    ensures mem.Valid() && multiset(mem.free) == multiset(old(mem.free)) + multiset(PagesOf(d, lv))
    ensures mem.pages.Keys == old(mem.pages).Keys
        && forall q | q in mem.pages && q !in PagesOf(d, lv) :: mem.pages[q] == old(mem.pages)[q]
    decreases 3 - lv
  {
    hide Spells, Apart, PagesOf, Below, Freed, FrameOf, PageSpec.Valid, SoFar;
    ghost var m, free := mem.pages, mem.free;
    ghost var done: set<nat> := {};
    RootHere(m, d, lv);
    Started(m, free);
    var i := 0;
    while i < ENTRIES
      invariant 0 <= i <= ENTRIES && mem.Valid() && done == Freed(d, lv, i) && SoFar(m, mem.pages, free, mem.free, done)
    {
      FreedNext(m, d, lv, i);
      Untouched(m, mem.pages, free, mem.free, done, pt);
      if PageSpec.Valid(mem.pages[pt][i]) {
        if lv < 3 {
          ghost var k, now := mem.pages, mem.free;
          FreeStep(m, k, now, free, d, lv, i, done);
          FreePt(mem, FrameOf(mem.pages[pt][i]), lv + 1, d.kids[i]);
          FreeMore(m, k, mem.pages, free, now, mem.free, done, Below(d, lv, i));
          done := done + Below(d, lv, i);
        }
      }
      i := i + 1;
    }
    FreedAll(m, d, lv, mem.pages, free, mem.free, done);
    mem.KfreePage(pt);
    assert multiset(mem.free) == multiset(free) + multiset(PagesOf(d, lv));
  }

  /** The pages freed so far are done, each once; the others are as they were. */
  ghost predicate SoFar(m: Mem, k: Mem, free: seq<nat>, now: seq<nat>, done: set<nat>) {
    && k.Keys == m.Keys && multiset(now) == multiset(free) + multiset(done)
        && forall q | q in m && q !in done :: k[q] == m[q]
  }

  lemma Started(m: Mem, free: seq<nat>)
    ensures SoFar(m, m, free, free, {})
  {
  }

  lemma Untouched(m: Mem, k: Mem, free: seq<nat>, now: seq<nat>, done: set<nat>, q: nat)
    requires SoFar(m, k, free, now, done) && q in m && q !in done
    ensures q in k && k[q] == m[q]
  {
  }

  lemma FreeMore(m: Mem, k: Mem, l: Mem, free: seq<nat>, now: seq<nat>, next: seq<nat>, done: set<nat>, more: set<nat>)
    requires SoFar(m, k, free, now, done) && done !! more && multiset(next) == multiset(now) + multiset(more)
    requires l.Keys == k.Keys && forall q | q in l && q !in more :: l[q] == k[q]
    ensures SoFar(m, l, free, next, done + more)
  {
    SumOfSets(done, more);
  }

  /** The pages under the first n entries. */
  ghost function Freed(d: Dir, lv: nat, n: nat): set<nat>
    requires lv <= 3
  {
    if lv == 3 then {} else set i, x | i in d.kids && x in Below(d, lv, i) && i < n :: x
  }

  lemma RootHere(m: Mem, d: Dir, lv: nat)
    requires lv <= 3 && Spells(m, d, lv)
    ensures d.page in m && d.page < FRAMES && Freed(d, lv, 0) == {}
  {
    hide PagesOf, Below;
  }

  lemma FreedApart(d: Dir, lv: nat, n: nat)
    requires lv <= 3 && Apart(d, lv)
    ensures d.page !in Freed(d, lv, n) && Freed(d, lv, n) <= PagesOf(d, lv)
    ensures lv < 3 && n in d.kids ==> Below(d, lv, n) !! Freed(d, lv, n)
  {
    hide Below, Apart, PagesOf;
    if lv < 3 {
      forall i | i in d.kids ensures d.page !in Below(d, lv, i) && Below(d, lv, i) <= PagesOf(d, lv)
        && (n in d.kids && n != i ==> Below(d, lv, n) !! Below(d, lv, i)) {
        ApartSays(d, lv, i);
      }
    }
  }

  lemma FreedNext(m: Mem, d: Dir, lv: nat, i: nat)
    requires lv <= 3 && Spells(m, d, lv) && Apart(d, lv) && i < ENTRIES
    ensures d.page !in Freed(d, lv, i) && d.page in m
    ensures lv == 3 ==> Freed(d, lv, i + 1) == Freed(d, lv, i)
    ensures lv < 3 ==>
        (i in d.kids <==> PageSpec.Valid(m[d.page][i])) && Freed(d, lv, i + 1) == Freed(d, lv, i) + if i in d.kids
        then Below(d, lv, i) else {}
  {
    hide Below, PagesOf, Apart, PageSpec.Valid, Freed;
    FreedApart(d, lv, i);
    if lv < 3 {
      FreedGrows(d, lv, i);
    } else {
      FreedNone(d, i);
    }
  }

  lemma FreedNone(d: Dir, i: nat)
    ensures Freed(d, 3, i + 1) == Freed(d, 3, i)
  {
  }

  lemma FreedGrows(d: Dir, lv: nat, i: nat)
    requires lv < 3
    ensures Freed(d, lv, i + 1) == Freed(d, lv, i) + if i in d.kids then Below(d, lv, i) else {}
  {
    hide Below;
    forall x: nat ensures x in Freed(d, lv, i + 1) <==> x in Freed(d, lv, i) || (i in d.kids && x in Below(d, lv, i)) {
      if x in Freed(d, lv, i + 1) {
        var j :| j in d.kids && x in Below(d, lv, j) && j < i + 1;
        assert j < i ==> x in Freed(d, lv, i);
      }
      if x in Freed(d, lv, i) {
        var j :| j in d.kids && x in Below(d, lv, j) && j < i;
        assert j < i + 1;
      }
    }
  }

  /** What the recursive call needs, and what its result adds up to. */
  lemma FreeStep(m: Mem, k: Mem, now: seq<nat>, free: seq<nat>, d: Dir, lv: nat, i: nat, done: set<nat>)
    requires lv < 3 && Spells(m, d, lv) && Apart(d, lv) && i in d.kids && done == Freed(d, lv, i)
    requires SoFar(m, k, free, now, done) && forall q | q in free :: q !in PagesOf(d, lv)
    ensures Spells(k, d.kids[i], lv + 1) && Apart(d.kids[i], lv + 1) && Below(d, lv, i) == PagesOf(d.kids[i], lv + 1)
    ensures d.kids[i].page == FrameOf(m[d.page][i]) && forall q | q in now :: q !in Below(d, lv, i)
    ensures done !! Below(d, lv, i)
  {
    hide Spells, Apart, Freed, FrameOf;
    ApartSays(d, lv, i);
    SpellsSays(m, d, lv, i);
    FreedApart(d, lv, i);
    assert forall x | x in PagesOf(d.kids[i], lv + 1) :: x in Below(d, lv, i);
    SpellsFrame(m, k, d.kids[i], lv + 1);
    hide PagesOf;
    forall q | q in now ensures q !in Below(d, lv, i) {
      assert q in multiset(now);
    }
  }

  lemma SumOfSets(a: set<nat>, b: set<nat>)
    requires a !! b
    ensures multiset(a + b) == multiset(a) + multiset(b)
  {
  }

  lemma FreedAll(m: Mem, d: Dir, lv: nat, k: Mem, free: seq<nat>, now: seq<nat>, done: set<nat>)
    requires lv <= 3 && Spells(m, d, lv) && Apart(d, lv) && done == Freed(d, lv, ENTRIES)
    requires SoFar(m, k, free, now, done) && forall q | q in free :: q !in PagesOf(d, lv)
    ensures done + {d.page} == PagesOf(d, lv) && d.page !in now && d.page in k && k.Keys == m.Keys
    ensures multiset(now) + multiset{d.page} == multiset(free) + multiset(PagesOf(d, lv))
    ensures forall q | q in m && q !in PagesOf(d, lv) :: k[q] == m[q]
  {
    hide Spells, Apart, Freed, PagesOf;
    FreedApart(d, lv, ENTRIES);
    FreedPages(m, d, lv);
    RootHere(m, d, lv);
    PageIn(d, lv);
    assert d.page in now ==> d.page in multiset(now);
    SumOfSets(done, {d.page});
    assert multiset({d.page}) == multiset{d.page};
  }

  lemma FreedPages(m: Mem, d: Dir, lv: nat)
    requires lv <= 3 && Spells(m, d, lv)
    ensures Freed(d, lv, ENTRIES) + {d.page} == PagesOf(d, lv)
  {
    hide Below, PageSpec.Valid, FrameOf;
    forall x: nat ensures x in PagesOf(d, lv) <==> x in Freed(d, lv, ENTRIES) || x == d.page {
      if lv < 3 && x in PagesOf(d, lv) && x != d.page {
        var i :| i in d.kids && x in Below(d, lv, i);
        assert i < ENTRIES;
      }
    }
  }

  ghost function TranslateIn(m: Mem, d: Option<Dir>, js: Ids): Option<nat> {
    if d.None? then None else Translate(m, d.value, js)
  }

  ghost function DirPages(d: Option<Dir>): set<nat> {
    if d.None? then {} else PagesOf(d.value, 0)
  }

  /** After get_pte: the old tree, perhaps with more tables on the way to ids; nothing translates differently. */
  ghost predicate Extends(m: Mem, d: Option<Dir>, k: Mem, e: Dir) {
    && k.Keys == m.Keys
    && (forall js: Ids :: Translate(k, e, js) == TranslateIn(m, d, js))
    && (forall js: Ids | d.Some? && SlotOf(d.value, 0, js).Some? :: SlotOf(e, 0, js) == SlotOf(d.value, 0, js))
    && DirPages(d) <= PagesOf(e, 0)
    && (forall p | p in m && p !in PagesOf(e, 0) :: k[p] == m[p])
  }

  /** An empty directory has got its root. */
  lemma RootMade(m: Mem, k: Mem, p: nat)
    requires p in m && p < FRAMES && k == m[p := ZeroTable()]
    ensures Extends(m, None, k, Dir(p, map[])) && Spells(k, Dir(p, map[]), 0) && Apart(Dir(p, map[]), 0)
        && PagesOf(Dir(p, map[]), 0) == {p}
  {
    EmptySpells(k, p, 0);
  }

  lemma NothingMade(m: Mem, d: Dir)
    ensures Extends(m, Some(d), m, d)
  {
    hide SlotOf, Translate, PagesOf;
  }

  lemma ReachesRoot(d: Dir, ids: Ids)
    ensures Reaches(d, 0, ids, 0) && NodeAt(d, 0, ids, 0) == d
  {
  }

  lemma ExtendsMore(m: Mem, d: Option<Dir>, k: Mem, e: Dir, l: Mem, f: Dir)
    requires Extends(m, d, k, e) && Extends(k, Some(e), l, f)
    ensures Extends(m, d, l, f)
  {
    hide SlotOf, Translate, PagesOf;
  }

  /** What the entry that the walk looks at says. */
  lemma NodeSays(m: Mem, d: Dir, ids: Ids, n: nat)
    requires n < 3 && Spells(m, d, 0) && Reaches(d, 0, ids, n)
    ensures var x := NodeAt(d, 0, ids, n);
      && x.page in m && (Valid(m[x.page][ids[n]]) <==> ids[n] in x.kids)
      && (ids[n] in x.kids ==> Reaches(d, 0, ids, n + 1) && NodeAt(d, 0, ids, n + 1).page == FrameOf(m[x.page][ids[n]]))
  {
    NodeIn(m, d, 0, ids, n);
    if ids[n] in NodeAt(d, 0, ids, n).kids {
      StepOn(d, 0, ids, n);
    }
  }

  lemma {:induction false} StepOn(d: Dir, lv: nat, ids: Ids, n: nat)
    requires lv <= n < 3 && Reaches(d, lv, ids, n) && ids[n] in NodeAt(d, lv, ids, n).kids
    ensures Reaches(d, lv, ids, n + 1) && NodeAt(d, lv, ids, n + 1) == NodeAt(d, lv, ids, n).kids[ids[n]]
    decreases n - lv
  {
    if lv < n {
      StepOn(d.kids[ids[lv]], lv + 1, ids, n);
    } else {
      assert NodeAt(d.kids[ids[lv]], lv + 1, ids, n + 1) == d.kids[ids[lv]];
    }
  }

  lemma NoSlot(d: Dir, ids: Ids, n: nat)
    requires n < 3 && Reaches(d, 0, ids, n) && ids[n] !in NodeAt(d, 0, ids, n).kids
    ensures SlotOf(d, 0, ids) == None
  {
    NoSlotFrom(d, 0, ids, n);
  }

  lemma {:induction false} NoSlotFrom(d: Dir, lv: nat, ids: Ids, n: nat)
    requires lv <= n < 3 && Reaches(d, lv, ids, n) && ids[n] !in NodeAt(d, lv, ids, n).kids
    ensures SlotOf(d, lv, ids) == None
    decreases n - lv
  {
    if lv < n {
      NoSlotFrom(d.kids[ids[lv]], lv + 1, ids, n);
    }
  }

  lemma {:induction false} SlotFound(d: Dir, lv: nat, ids: Ids)
    requires lv <= 3 && Reaches(d, lv, ids, 3)
    ensures SlotOf(d, lv, ids) == Some((NodeAt(d, lv, ids, 3).page, ids[3]))
    decreases 3 - lv
  {
    if lv < 3 {
      SlotFound(d.kids[ids[lv]], lv + 1, ids);
    }
  }

  lemma TakeNone(free: seq<nat>)
    ensures free[0..] == free && ToSet(free[..0]) == {}
  {
  }

  lemma TakeOne(free: seq<nat>, k: nat)
    requires k < |free|
    ensures free[k..][1..] == free[k + 1..] && free[k..][0] == free[k]
    ensures ToSet(free[..k + 1]) == ToSet(free[..k]) + {free[k]}
  {
    assert free[..k + 1] == free[..k] + [free[k]];
  }

  /** Making the missing table at level n + 1: `kalloc_page`, `memset`, and the new entry. */
  method MakeTable(mem: PageFrames, node: nat, i: nat, ghost d: Dir, ghost ids: Ids, ghost n: nat)
      returns (p: nat, ghost e: Dir)
    requires mem.Valid() && mem.free != [] && n < 3 && Spells(mem.pages, d, 0) && Apart(d, 0)
        && forall q | q in mem.free :: q !in PagesOf(d, 0)
    requires Reaches(d, 0, ids, n) && NodeAt(d, 0, ids, n).page == node && i == ids[n]
        && i !in NodeAt(d, 0, ids, n).kids
    modifies mem
    ensures mem.Valid() && mem.free == old(mem.free)[1..] && e.page == d.page && Reaches(e, 0, ids, n + 1)
        && NodeAt(e, 0, ids, n + 1) == Dir(p, map[])
    ensures Spells(mem.pages, e, 0) && Apart(e, 0) && Extends(old(mem.pages), Some(d), mem.pages, e)
        && forall q | q in mem.free :: q !in PagesOf(e, 0)
    ensures PagesOf(e, 0) == PagesOf(d, 0) + {old(mem.free)[0]}
    ensures node in mem.pages && FrameOf(mem.pages[node][i]) == p
  {
    hide Spells, Apart, PagesOf, Reaches, NodeAt, SlotOf, Hang, Translate, TableEntry, FrameOf, PageSpec.Valid;
    ghost var m := mem.pages;
    NodePage(m, d, ids, n);
    p := mem.KallocPage();
    mem.Memset0(p);
    mem.Store(node, i, TableEntry(p));
    e := Hang(d, 0, ids, n, p);
    assert mem.pages == Entered(m, node, i, p);
    EntryRoundTrip(p);
    HangSpells(m, d, 0, ids, n, p);
    HangApart(d, 0, ids, n, p);
    HangPages(d, 0, ids, n, p);
    HangRoot(d, 0, ids, n, p);
    HangSlots(d, 0, ids, n, p, ids);
    forall js: Ids ensures Translate(mem.pages, e, js) == Translate(m, d, js)
      && (SlotOf(d, 0, js).Some? ==> SlotOf(e, 0, js) == SlotOf(d, 0, js)) {
      HangTranslates(m, d, ids, n, p, js);
    }
  }
}
