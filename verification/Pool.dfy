/** `simple_pool_alloc`, `simple_pool_free` and the page stack over pools that are updated in place. */
module Pool {
  import opened PoolSpec

  class Allocator {
    var pools: seq<seq<nat>>
    var header: map<nat, nat>
    var pages: seq<nat>
    ghost var carved: map<nat, nat>

    ghost function View(): State
      reads this
    {
      State(pools, header, carved, pages)
    }

    constructor (pages: seq<nat>)
      requires NoRepeat(pages) && forall p | p in pages :: p % PAGE_SIZE == 0
      ensures Inv(View()) && View() == Start(pages)
    {
      this.pages := pages;
      pools := seq(16, i => []);
      header := map[];
      carved := map[];
    }

    /** `kalloc_page`. */
    method KallocPage() returns (p: Option<nat>)
      modifies this`pages
      ensures if old(pages) == [] then p == None && pages == []
          else p == Some(old(pages)[0]) && pages == old(pages)[1..]
    {
      if pages == [] {
        return None;
      }
      p := Some(pages[0]);
      pages := pages[1..];
    }

    /** `kfree_page` of a page that no pool was carved from. */
    method KfreePage(p: nat)
      requires Inv(View()) && p % PAGE_SIZE == 0 && p !in pages && p !in carved
      modifies this`pages
      ensures Inv(View()) && pages == [p] + old(pages)
    {
      GivePageKeeps(View(), p);
      pages := [p] + pages;
    }

    /** A fresh page for class i, all but its first block pushed onto the class's stack. */
    method CarvePage(i: nat) returns (r: Option<nat>)
      requires i <= 8 && |pools| == 16 && pools[i] == []
      modifies this`pages, this`pools
      ensures old(pages) == [] ==> r == None && pages == [] && pools == old(pools)
      ensures old(pages) != [] ==>
        r == Some(old(pages)[0]) && pages == old(pages)[1..]
          && pools == old(pools)[i := Carve(old(pages)[0], i, Count(i))]
    {
      hide Pow2;
      r := KallocPage();
      if r.None? {
        return;
      }
      var s := Unit(i);
      var o := s;
      ghost var k, was := 1, pools;
      PageFull(i);
      hide Unit;
      UnitPositive(i);
      while o < PAGE_SIZE
        invariant o == k * s && 1 <= k <= Count(i) && |pools| == 16
        invariant pools == was[i := Carve(r.value, i, k)] && pages == old(pages)[1..]
        decreases PAGE_SIZE - o
      {
        if k == Count(i) {
          assert false;
        }
        pools := pools[i := [r.value + o] + pools[i]];
        assert r.value + o == Spot(r.value, i, k);
        o, k := o + s, k + 1;
        assert o == k * s;
      }
      Complete(k, Count(i), s);
    }

    method TakeBlock(i: nat) returns (b: Option<nat>)
      requires i <= 8 && |pools| == 16
      modifies this
      ensures (View(), b) == PoolSpec.TakeBlock(old(View()), i)
    {
      hide Carve, Count;
      if pools[i] != [] {
        b := Some(pools[i][0]);
        pools := pools[i := pools[i][1..]];
      } else {
        b := CarvePage(i);
        if b.None? {
          return;
        }
        carved := carved[b.value := i];
        assert Carve(b.value, i, Count(i)) + [] == Carve(b.value, i, Count(i));
      }
      header := header[b.value := i];
    }

    /** `simple_pool_alloc`. */
    method Alloc(size: int) returns (r: Option<nat>)
      requires Inv(View()) && |pools| == 16
      modifies this
      ensures (View(), r) == PoolSpec.Alloc(old(View()), size) && Inv(View())
    {
      hide ClassOf, Inv;
      AllocIs(View(), size);
      hide PoolSpec.TakeBlock;
      if size > PAGE_SIZE - 8 || size <= 0 {
        return None;
      }
      ClassFits(size);
      if size > PAGE_SIZE / 2 - 8 {
        var _ := KallocPage();
      }
      var b := TakeBlock(ClassOf(size));
      if b.None? {
        return None;
      }
      return Some(b.value + 8);
    }

    /** `simple_pool_free`: the block goes back to the pool it came from. */
    method Free(p: nat)
      requires Inv(View()) && |pools| == 16 && p >= 8 && p - 8 in header && header[p - 8] < 16
      modifies this
      ensures View() == PoolSpec.Free(old(View()), p) && Inv(View())
    {
      hide Inv;
      var b := p - 8;
      GiveKeeps(View(), b);
      var i := header[b];
      pools := pools[i := [b] + pools[i]];
      header := header - {b};
    }
  }

  lemma Complete(k: nat, n: nat, u: nat)
    requires k <= n && u >= 16 && n * u == PAGE_SIZE && k * u >= PAGE_SIZE
    ensures k == n
  {
    if k < n {
      Step(k, n, u);
    }
  }
}
