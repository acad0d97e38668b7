// Every history of the allocator: allocations, frees, and pages taken and given back directly.
module PoolHistory {
  import opened PoolSpec

  datatype Op = Alloc(size: int) | Free(p: nat) | TakePage | GivePage(p: nat)

  /** The allocator, the pages its callers hold, and the pages nobody knows of any more. */
  datatype World = World(s: State, held: set<nat>, lost: set<nat>)

  /** Callers free what is live, and give back pages that they hold. */
  predicate May(w: World, op: Op) {
    && |w.s.pools| == 16
    && match op
       case Free(p) => p >= 8 && p - 8 in w.s.header && w.s.header[p - 8] < 16
       case GivePage(p) => p in w.held
       case _ => true
  }

  function Do(w: World, op: Op): World
    requires May(w, op)
  {
    match op
    case Alloc(size) =>
      w.(s := PoolSpec.Alloc(w.s, size).0, lost := w.lost + if Forgets(w.s, size) then {w.s.pages[0]} else {})
    case Free(p) => w.(s := PoolSpec.Free(w.s, p))
    case TakePage =>
      if w.s.pages == [] then w else w.(s := w.s.(pages := w.s.pages[1..]), held := w.held + {w.s.pages[0]})
    case GivePage(p) => w.(s := w.s.(pages := [p] + w.s.pages), held := w.held - {p})
  }

  /** Where a history leads that starts with these free pages. */
  function After(pages: seq<nat>, run: seq<Op>): Option<World> {
    if run == [] then Some(World(Start(pages), {}, {}))
    else
      var w, op := After(pages, run[..|run| - 1]), run[|run| - 1];
      if w.Some? && May(w.value, op) then Some(Do(w.value, op)) else None
  }

  function Pages(pages: seq<nat>): set<nat> {
    set p | p in pages
  }

  predicate AllPages(pages: seq<nat>) {
    forall p | p in pages :: p % PAGE_SIZE == 0
  }

  /** The allocator is in order, and each of the pages is in exactly one place. */
  ghost predicate WorldInv(all: set<nat>, w: World) {
    && Inv(w.s)
    && all == PageSet(w.s) + w.held + w.lost
    && PageSet(w.s) !! w.held && PageSet(w.s) !! w.lost && w.held !! w.lost
    && forall p | p in all :: p % PAGE_SIZE == 0
  }

  lemma StartInv(pages: seq<nat>)
    requires NoRepeat(pages) && AllPages(pages)
    ensures WorldInv(Pages(pages), World(Start(pages), {}, {}))
  {
  }

  lemma FreePages(s: State)
    requires s.pages != []
    ensures s.pages[0] in PageSet(s)
  {
    assert s.pages[0] in s.pages;
  }

  lemma AllocKeeps(all: set<nat>, w: World, size: int)
    requires WorldInv(all, w) && May(w, Alloc(size))
    ensures WorldInv(all, Do(w, Alloc(size)))
  {
    hide Inv, PageSet, PoolSpec.Alloc;
    AllocIs(w.s, size);
    if Forgets(w.s, size) {
      FreePages(w.s);
    }
  }

  lemma FreeKeeps(all: set<nat>, w: World, p: nat)
    requires WorldInv(all, w) && May(w, Free(p))
    ensures WorldInv(all, Do(w, Free(p)))
  {
    hide Inv, PageSet;
    GiveKeeps(w.s, p - 8);
    SamePages(w.s, PoolSpec.Free(w.s, p));
  }

  lemma TakePageKeeps(all: set<nat>, w: World)
    requires WorldInv(all, w) && May(w, TakePage)
    ensures WorldInv(all, Do(w, TakePage))
  {
    hide Inv, PageSet;
    if w.s.pages != [] {
      LeakKeeps(w.s);
      LeakLoses(w.s);
    }
  }

  lemma GivePageKeeps(all: set<nat>, w: World, p: nat)
    requires WorldInv(all, w) && May(w, GivePage(p))
    ensures WorldInv(all, Do(w, GivePage(p)))
  {
    hide Inv;
    assert p in all && p !in PageSet(w.s);
    assert p !in w.s.pages && p !in w.s.carved;
    PoolSpec.GivePageKeeps(w.s, p);
    assert PageSet(w.s.(pages := [p] + w.s.pages)) == PageSet(w.s) + {p};
  }

  lemma StepKeeps(all: set<nat>, w: World, op: Op)
    requires WorldInv(all, w) && May(w, op)
    ensures WorldInv(all, Do(w, op))
  {
    hide WorldInv, Do;
    match op
    case Alloc(size) => AllocKeeps(all, w, size);
    case Free(p) => FreeKeeps(all, w, p);
    case TakePage => TakePageKeeps(all, w);
    case GivePage(p) => GivePageKeeps(all, w, p);
  }

  lemma {:induction false} RunKeeps(pages: seq<nat>, run: seq<Op>)
    requires NoRepeat(pages) && AllPages(pages) && After(pages, run).Some?
    ensures WorldInv(Pages(pages), After(pages, run).value)
    decreases |run|
  {
    hide WorldInv, Do, May;
    if run == [] {
      StartInv(pages);
    } else {
      RunKeeps(pages, run[..|run| - 1]);
      StepKeeps(Pages(pages), After(pages, run[..|run| - 1]).value, run[|run| - 1]);
    }
  }

  /** After any history: two live blocks, headers included, do not overlap; a live block lies inside one page
      that was carved for its class, so one that no caller holds, and is on no free list. */
  lemma NeverOverlap(pages: seq<nat>, run: seq<Op>, b: nat, c: nat)
    requires NoRepeat(pages) && AllPages(pages) && After(pages, run).Some?
    requires b in After(pages, run).value.s.header && c in After(pages, run).value.s.header && b != c
    ensures var w := After(pages, run).value;
      && (b + Unit(w.s.header[b]) <= c || c + Unit(w.s.header[c]) <= b)
      && PageOf(b) <= b && b + Unit(w.s.header[b]) <= PageOf(b) + PAGE_SIZE
      && PageOf(b) in pages && PageOf(b) !in w.held && PageOf(b) !in w.s.pages
      && forall i | 0 <= i < |w.s.pools| :: b !in w.s.pools[i]
  {
    hide After, Unit, Aligned, NoRepeat;
    RunKeeps(pages, run);
    var w := After(pages, run).value;
    LiveApart(w.s, b, c);
    assert PageOf(b) in PageSet(w.s);
  }

  /** After any history every page is in one place: free, carved, held by a caller, or lost. */
  lemma PagesAccounted(pages: seq<nat>, run: seq<Op>, p: nat)
    requires NoRepeat(pages) && AllPages(pages) && After(pages, run).Some? && p in pages
    ensures var w := After(pages, run).value;
      && (p in w.s.pages || p in w.s.carved || p in w.held || p in w.lost)
      && !(p in w.s.pages && p in w.s.carved) && !(p in w.held && p in w.lost)
      && (p in w.s.pages || p in w.s.carved ==> p !in w.held && p !in w.lost)
  {
    hide After, Block, NoRepeat;
    RunKeeps(pages, run);
    var w := After(pages, run).value;
    assert p in PageSet(w.s) <==> p in w.s.pages || p in w.s.carved;
  }

  /** No page is lost if and only if no request above half a page was made while a page was free. */
  lemma {:induction false} LostWhen(pages: seq<nat>, run: seq<Op>)
    requires After(pages, run).Some?
    ensures After(pages, run).value.lost == {} <==>
      forall n | 0 <= n < |run| && run[n].Alloc? && After(pages, run[..n]).Some? ::
        !Forgets(After(pages, run[..n]).value.s, run[n].size)
    decreases |run|
  {
    hide Forgets, PoolSpec.Alloc, PoolSpec.Free;
    if run != [] {
      var last := |run| - 1;
      LostWhen(pages, run[..last]);
      assert forall n | 0 <= n < last :: run[..last][n] == run[n] && run[..last][..n] == run[..n];
    }
  }

  /** The shortest way to lose a page: with one page free, a request above half a page takes it, forgets it,
      and then finds none. */
  lemma LastPageLost(page: nat, size: int)
    requires page % PAGE_SIZE == 0 && PAGE_SIZE / 2 - 8 < size <= PAGE_SIZE - 8
    ensures var w := After([page], [Alloc(size)]);
      w.Some? && w.value.lost == {page} && w.value.s.pages == [] && w.value.s.header == map[]
      && PoolSpec.Alloc(Start([page]), size).1 == None
  {
    ClassFits(size);
    assert [Alloc(size)][..0] == [];
    hide ClassOf;
  }
}
