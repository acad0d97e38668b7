// Taking one node out of the pointers: src/common/rbtree.c, `__rb_erase`.
module RbErase {
  import opened RbSpec
  import opened RbMem
  import opened RbSteps

  /** Split, but for the node x, which nothing points to any more. */
  predicate SplitBut(m: Mem, root: RbNode?, p: Path, t: Tree, x: RbNode) {
    Linked(m, t, HoleOf(p)) && PathLinked(m, p, RootOf(t), root) && Whole(m, multiset{x} + (Bag(t) + PathBag(p)))
  }

  lemma Drop(m: Mem, k: Mem, root: RbNode?, p: Path, t: Tree, x: RbNode)
    requires SplitBut(m, root, p, t, x) && k == m - {x}
    ensures Split(k, root, p, t)
  {
    hide Bag, PathBag, Linked, PathLinked;
    var b := Bag(t) + PathBag(p);
    DropWhole(m, k, x, b);
    AgreeSum(m, k, Bag(t), PathBag(p));
    LinkedFrame(m, k, t, HoleOf(p));
    PathFrame(m, k, p, RootOf(t), root);
  }

  lemma DropWhole(m: Mem, k: Mem, x: RbNode, b: Nodes)
    requires Whole(m, multiset{x} + b) && k == m - {x}
    ensures Whole(k, b) && Agree(m, k, b) && x in m
  {
    forall n ensures b[n] == if n in k then 1 else 0 {
      Once(m, multiset{x} + b, n);
    }
  }

  /** Erasure's three shapes, as EraseAt has them. */
  lemma EraseAtCases(p: Path, l: Tree, x: RbNode, red: bool, r: Tree)
    ensures l.Leaf? && r.Node? ==> EraseAt(p, l, x, red, r) == Fill(p, Recolour(r, red))
    ensures l.Leaf? && r.Leaf? ==> EraseAt(p, l, x, red, r) == if red then Fill(p, Leaf) else EraseFix(p, Leaf)
    ensures l.Node? && r.Leaf? ==> EraseAt(p, l, x, red, r) == Fill(p, Recolour(l, red))
    ensures l.Node? && r.Node? ==>
      EraseAt(p, l, x, red, r) == Close(FirstHole(r, Up(R, Leftmost(r), red, l, p)), FirstRed(r), FirstRest(r))
  {
  }

  // ----- one child or none -----

  /** x's only subtree, moved into x's place and coloured like x. */
  lemma Spliced(m: Mem, k: Mem, root: RbNode?, top: RbNode?, p: Path, x: RbNode, red: bool, l: Tree, r: Tree, ch: Tree)
    requires Split(m, root, p, Node(l, x, red, r)) && ((l.Leaf? && ch == r) || (r.Leaf? && ch == l))
    requires k.Keys == m.Keys && Hung(m, k, ch, HoleOf(p), red)
    requires if p.Top? then top == RootOf(ch)
        else top == root && p.n in k && k[p.n] == MkCell(p.s, RootOf(ch), RootOf(p.sib), HoleOf(p.up), p.red)
    requires forall n | n in m && n != x && n != RootOf(ch) && n != HoleOf(p) :: k[n] == m[n]
    ensures SplitBut(k, top, p, Recolour(ch, red), x)
  {
    hide Bag, PathBag, Linked, PathLinked, Recolour, Below, PathRest, Hung, RootBag, HoleBag, Under;
    SplicedLinked(m, p, l, x, red, r, ch);
    BagParts(ch);
    PathBagParts(p);
    var touched := multiset{x} + RootBag(ch) + HoleBag(p);
    assert Bag(Node(l, x, red, r)) + PathBag(p) == touched + (Below(ch) + PathRest(p));
    SplicedChanged(m, k, x, ch, p);
    AgreeRest(m, k, touched, Below(ch) + PathRest(p));
    AgreeSum(m, k, Below(ch), PathRest(p));
    Rehung(m, k, ch, HoleOf(p), red);
    RecolourFacts(ch, red);
    PathChild(m, k, p, x, root, RootOf(ch), top);
    assert touched + (Below(ch) + PathRest(p)) == multiset{x} + (Bag(ch) + PathBag(p));
  }

  /** What splicing x out needs to know beforehand. */
  lemma SpliceStart(m: Mem, root: RbNode?, p: Path, l: Tree, x: RbNode, red: bool, r: Tree)
    requires Split(m, root, p, Node(l, x, red, r))
    ensures x in m && m[x] == Cell(RootOf(l), RootOf(r), HoleOf(p), red) && PathLinked(m, p, x, root)
    ensures p.Up? ==> RootOf(p.sib) != x && p.n != x && p.n in m
    ensures l.Node? ==> l.n in m && l.n != x && HoleOf(p) != l.n && (p.Up? ==> RootOf(p.sib) != l.n)
    ensures r.Node? ==> r.n in m && r.n != x && HoleOf(p) != r.n
  {
    var b := Bag(Node(l, x, red, r)) + PathBag(p);
    BagParts(l);
    BagParts(r);
    Once(m, b, x);
    if p.Up? {
      PathBagParts(p);
      Once(m, b, p.n);
      BagParts(p.sib);
    }
    if l.Node? {
      Once(m, b, l.n);
    }
    if r.Node? {
      Once(m, b, r.n);
    }
  }

  lemma SpliceFrame(m: Mem, k: Mem, root: RbNode?, p: Path, l: Tree, x: RbNode, red: bool, r: Tree)
    requires Split(m, root, p, Node(l, x, red, r)) && l.Node?
    requires k.Keys == m.Keys && forall n | n in m && n != l.n :: k[n] == m[n]
    ensures PathLinked(k, p, x, root)
  {
    BagParts(l);
    assert Bag(Node(l, x, red, r)) == Bag(l) + multiset{x} + Bag(r);
    assert PathLinked(m, p, x, root) && Whole(m, Bag(Node(l, x, red, r)) + PathBag(p)) && l.n in Bag(l);
    hide Bag, PathBag, PathLinked, Split;
    AgreeRest(m, k, Bag(l) + multiset{x} + Bag(r), PathBag(p));
    PathFrame(m, k, p, x, root);
  }

  lemma SplicedChanged(m: Mem, k: Mem, x: RbNode, ch: Tree, p: Path)
    requires k.Keys == m.Keys && forall n | n in m && n != x && n != RootOf(ch) && n != HoleOf(p) :: k[n] == m[n]
    ensures Changed(m, k, multiset{x} + RootBag(ch) + HoleBag(p))
  {
  }

  lemma SplicedLinked(m: Mem, p: Path, l: Tree, x: RbNode, red: bool, r: Tree, ch: Tree)
    requires Linked(m, Node(l, x, red, r), HoleOf(p)) && ((l.Leaf? && ch == r) || (r.Leaf? && ch == l))
    ensures Under(m, ch) && Bag(Node(l, x, red, r)) == multiset{x} + Bag(ch)
  {
    LinkedUnder(m, ch, x);
    hide Linked, Under;
    assert Bag(Node(l, x, red, r)) == Bag(l) + multiset{x} + Bag(r);
    assert Bag(Leaf) == multiset{};
  }

  // ----- two children: the leftmost node of the right subtree moves up -----

  /** t without its leftmost node, whose right subtree takes its place and turns black. */
  function Detach(t: Tree): (d: Tree)
    requires t.Node?
    ensures t.l.Node? ==> d.Node? && d.n == t.n && d.red == t.red
  {
    if t.l.Leaf? then Blacken(t.r) else Node(Detach(t.l), t.n, t.red, t.r)
  }

  function FirstParent(t: Tree): RbNode
    requires t.Node? && t.l.Node?
  {
    if t.l.l.Leaf? then t.n else FirstParent(t.l)
  }

  lemma {:induction false} DetachFill(t: Tree, q: Path)
    requires t.Node?
    ensures Fill(FirstHole(t, q), Blacken(FirstRest(t))) == Fill(q, Detach(t))
    decreases t
  {
    if t.l.Node? {
      DetachFill(t.l, Up(L, t.n, t.red, t.r, q));
    }
  }

  lemma DetachClose(p: Path, l: Tree, red: bool, r: Tree)
    requires r.Node?
    ensures var h := FirstHole(r, Up(R, Leftmost(r), red, l, p));
            && Fill(h, Blacken(FirstRest(r))) == Fill(p, Node(l, Leftmost(r), red, Detach(r)))
            && h.Up? && h.n == (if r.l.Leaf? then Leftmost(r) else FirstParent(r))
            && Close(h, FirstRed(r), FirstRest(r)) ==
                 if FirstRest(r).Node? || FirstRed(r) then Fill(p, Node(l, Leftmost(r), red, Detach(r)))
                   else EraseFix(h, Leaf)
  {
    var q := Up(R, Leftmost(r), red, l, p);
    DetachFill(r, q);
    FirstHoleAt(r, q);
  }

  lemma {:induction false} FirstHoleAt(t: Tree, q: Path)
    requires t.Node? && q.Up?
    ensures FirstHole(t, q).Up? && FirstHole(t, q).n == if t.l.Leaf? then q.n else FirstParent(t)
    decreases t
  {
    if t.l.Node? {
      FirstHoleAt(t.l, Up(L, t.n, t.red, t.r, q));
    }
  }

  lemma {:induction false} DetachBag(t: Tree)
    requires t.Node?
    ensures Bag(t) == multiset{Leftmost(t)} + Bag(Detach(t))
    decreases t
  {
    if t.l.Leaf? {
      RecolourFacts(t.r, false);
      hide Recolour;
      assert Bag(t.l) == multiset{};
    } else {
      DetachBag(t.l);
      var a, b, c, d := Bag(t.l), multiset{t.n}, Bag(t.r), Bag(Detach(t.l));
      assert Bag(t) == a + b + c && Bag(Detach(t)) == d + b + c;
      hide Bag, Detach;
      assert (multiset{Leftmost(t)} + d) + b + c == multiset{Leftmost(t)} + (d + b + c);
    }
  }

  lemma {:induction false} DetachMembers(t: Tree)
    requires t.Node?
    ensures FirstRest(t).Node? ==> FirstRest(t).n in Bag(Detach(t))
    ensures t.l.Node? ==> t.n in Bag(Detach(t)) && FirstParent(t) in Bag(Detach(t))
    decreases t
  {
    if t.l.Leaf? {
      RecolourFacts(t.r, false);
    } else {
      DetachMembers(t.l);
      assert Bag(Detach(t)) == Bag(Detach(t.l)) + multiset{t.n} + Bag(t.r);
      hide Bag, Detach;
    }
  }

  predicate Single(b: Nodes) {
    forall n | n in b :: b[n] == 1
  }

  /** What a node of t says once t is detached and hangs from par. */
  function Detached(m: Mem, t: Tree, par: RbNode, n: RbNode): Cell
    requires t.Node? && n in m
  {
    var c := FirstRest(t);
    Cell(if t.l.Node? && n == FirstParent(t) then RootOf(c) else m[n].left,
         m[n].right,
         if RootOf(c) == n then (if t.l.Node? then FirstParent(t) else par) else if t.l.Node? && n == t.n then par
           else m[n].parent,
         m[n].red && n != RootOf(c))
  }

  lemma {:induction false} DetachLinked(m: Mem, k: Mem, t: Tree, par0: RbNode, par: RbNode)
    requires t.Node? && Linked(m, t, par0) && Single(Bag(t))
    requires forall n | n in Bag(Detach(t)) :: n in m && n in k && k[n] == Detached(m, t, par, n)
    ensures Linked(k, Detach(t), par)
    decreases t
  {
    if t.l.Leaf? {
      DetachLinkedRoot(m, k, t, par0, par);
    } else {
      DetachStep(m, k, t, par0, par);
      DetachLinked(m, k, t.l, t.n, t.n);
      LinkedFrame(m, k, t.r, t.n);
    }
  }

  lemma DetachLinkedRoot(m: Mem, k: Mem, t: Tree, par0: RbNode, par: RbNode)
    requires t.Node? && t.l.Leaf? && Linked(m, t, par0) && Single(Bag(t))
    requires forall n | n in Bag(Detach(t)) :: n in m && n in k && k[n] == Detached(m, t, par, n)
    ensures Linked(k, Detach(t), par)
  {
    RecolourFacts(t.r, false);
    LinkedUnder(m, t.r, t.n);
    BagParts(t.r);
    assert Bag(t) == Bag(t.l) + multiset{t.n} + Bag(t.r);
    SingleSum(Bag(t.l), multiset{t.n}, Bag(t.r));
    assert Bag(t.r) == RootBag(t.r) + Below(t.r) + multiset{};
    SingleSum(RootBag(t.r), Below(t.r), multiset{});
    hide Bag, Below, Recolour, Under, Linked, Single;
    assert t.r.Node? ==> t.r.n in RootBag(t.r);
    assert Agree(m, k, Below(t.r));
    Rehung(m, k, t.r, par, false);
  }

  lemma SingleSum(a: Nodes, b: Nodes, c: Nodes)
    requires Single(a + b + c)
    ensures Single(a) && Single(b) && Single(c)
    ensures forall n | n in a :: n !in b && n !in c
    ensures forall n | n in b :: n !in c
  {
    forall n | n in a || n in b || n in c ensures a[n] + b[n] + c[n] == 1 {
      assert (a + b + c)[n] == a[n] + b[n] + c[n];
    }
  }

  lemma DetachSets(t: Tree)
    requires t.Node? && t.l.Node? && Single(Bag(t))
    ensures Single(Bag(t.l))
    ensures forall n | n in Bag(Detach(t.l)) :: n in Bag(t.l) && n != t.n && n in Bag(Detach(t))
    ensures forall n | n in Bag(t.r) :: n != t.n && n !in Bag(t.l) && n in Bag(Detach(t))
    ensures t.n !in Bag(t.l) && t.n in Bag(Detach(t))
  {
    DetachBag(t.l);
    assert Bag(t) == Bag(t.l) + multiset{t.n} + Bag(t.r);
    assert Bag(Detach(t)) == Bag(Detach(t.l)) + multiset{t.n} + Bag(t.r);
    hide Bag, Detach;
    SingleSum(Bag(t.l), multiset{t.n}, Bag(t.r));
    assert t.n in multiset{t.n};
  }

  lemma DetachFacts(m: Mem, t: Tree, par0: RbNode)
    requires t.Node? && t.l.Node? && Linked(m, t, par0) && Single(Bag(t))
    ensures FirstRest(t) == FirstRest(t.l)
    ensures FirstRest(t).Node? ==>
        FirstRest(t).n in Bag(Detach(t.l)) && FirstRest(t).n in Bag(t.l) && FirstRest(t).n != t.n
    ensures FirstParent(t) == if t.l.l.Node? then FirstParent(t.l) else t.n
    ensures t.l.l.Node? ==> FirstParent(t.l) in Bag(t.l) && FirstParent(t.l) != t.n
    ensures t.n in m && m[t.n] == Cell(t.l.n, RootOf(t.r), par0, t.red) && t.l.n in m && m[t.l.n].parent == t.n
    ensures RootOf(Detach(t.l)) == if t.l.l.Node? then t.l.n else RootOf(FirstRest(t))
  {
    DetachSets(t);
    DetachMembers(t.l);
    LinkedUnder(m, t.l, t.n);
    RecolourFacts(t.l.r, false);
    assert t.n in m && m[t.n] == Cell(t.l.n, RootOf(t.r), par0, t.red);
    hide Bag, Linked, Recolour, Single;
  }

  /** Where detaching below t.l, rather than below t, makes no difference. */
  lemma DetachCells(m: Mem, t: Tree, par0: RbNode, par: RbNode)
    requires t.Node? && t.l.Node? && Linked(m, t, par0) && Single(Bag(t))
    ensures forall n | n in Bag(Detach(t.l)) && n in m :: Detached(m, t.l, t.n, n) == Detached(m, t, par, n)
    ensures forall n | n in Bag(t.r) && n in m :: Detached(m, t, par, n) == m[n]
    ensures t.n in m && Detached(m, t, par, t.n) == Cell(RootOf(Detach(t.l)), RootOf(t.r), par, t.red)
  {
    hide Bag, Linked, Single, Detach, FirstRest, FirstParent;
    DetachSets(t);
    DetachFacts(m, t, par0);
  }

  lemma DetachStep(m: Mem, k: Mem, t: Tree, par0: RbNode, par: RbNode)
    requires t.Node? && t.l.Node? && Linked(m, t, par0) && Single(Bag(t))
    requires forall n | n in Bag(Detach(t)) :: n in m && n in k && k[n] == Detached(m, t, par, n)
    ensures Single(Bag(t.l)) && Linked(m, t.l, t.n) && Linked(m, t.r, t.n) && Agree(m, k, Bag(t.r))
    ensures forall n | n in Bag(Detach(t.l)) :: n in m && n in k && k[n] == Detached(m, t.l, t.n, n)
    ensures t.n in k && k[t.n] == Cell(RootOf(Detach(t.l)), RootOf(t.r), par, t.red)
  {
    assert Linked(m, t.l, t.n) && Linked(m, t.r, t.n);
    hide Linked, Detach, Bag, Detached, Single;
    DetachSets(t);
    DetachCells(m, t, par0, par);
  }

  /** The node below which the leftmost node's right subtree ends up. */
  function NewParent(t: Tree): RbNode
    requires t.Node?
  {
    if t.l.Leaf? then Leftmost(t) else FirstParent(t)
  }

  /** Taking Leftmost(t) out from below, and t under it. */
  ghost function DeepWrites(m: Mem, t: Tree): (k: Mem)
    requires t.Node? && t.n in m && Leftmost(t) in m && NewParent(t) in m
    ensures k.Keys == m.Keys
  {
    if t.l.Leaf? then m else
      var m1 := m[FirstParent(t) := m[FirstParent(t)].(left := RootOf(FirstRest(t)))];
      var m2 := m1[Leftmost(t) := m1[Leftmost(t)].(right := t.n)];
      m2[t.n := m2[t.n].(parent := Leftmost(t))]
  }

  /** All of `__rb_erase`'s writes when x has two children. */
  ghost function InnerWrites(m: Mem, p: Path, l: Tree, red: bool, r: Tree): (k: Mem)
    requires l.Node? && r.Node? && r.n in m && Leftmost(r) in m && NewParent(r) in m && l.n in m
    requires FirstRest(r).Node? ==> FirstRest(r).n in m
  {
    var y := Leftmost(r);
    var d2 := Rerouted(MiddleWrites(m, l, r), p, y);
    Hang(d2[y := d2[y].(parent := HoleOf(p), red := red)], FirstRest(r), NewParent(r), false)
  }

  lemma DeepCells(m: Mem, t: Tree)
    requires t.Node? && t.n in m && Leftmost(t) in m && NewParent(t) in m
    ensures forall n | n in m ::
      DeepWrites(m, t)[n] == Cell(if t.l.Node? && n == FirstParent(t) then RootOf(FirstRest(t)) else m[n].left,
                                  if t.l.Node? && n == Leftmost(t) then t.n else m[n].right,
                                  if t.l.Node? && n == t.n then Leftmost(t) else m[n].parent,
                                  m[n].red)
  {
    hide Leftmost, FirstParent, FirstRest;
  }

  /** Which nodes the writes can meet. */
  ghost predicate InnerKeys(m: Mem, p: Path, l: Tree, x: RbNode, r: Tree)
    requires l.Node? && r.Node?
  {
    var y, d := Leftmost(r), Bag(Detach(r));
    && x in m && y in m && l.n in m && r.n in m && x != y && x != l.n && y != l.n
    && x !in d && y !in d && l.n !in d
    && NewParent(r) in m && (NewParent(r) == y <==> r.l.Leaf?) && (r.l.Node? ==> NewParent(r) in d && r.n in d)
    && (FirstRest(r).Node? ==> FirstRest(r).n in m && FirstRest(r).n in d)
    && (p.Up? ==> p.n in m && p.n != x && p.n != y && p.n != l.n && p.n !in d)
    && (forall n | n in d :: n in m)
  }

  lemma InnerWritten(d: Mem, y: RbNode, ln: RbNode, p: Path, c: Tree, np: RbNode, red: bool)
    requires y in d && ln in d && y != ln && (p.Up? ==> p.n in d && p.n != y && p.n != ln)
    requires c.Node? ==> c.n in d && c.n != y && c.n != ln && HoleOf(p) != c.n
    ensures var d1 := d[y := d[y].(left := ln)];
            var d2 := Rerouted(d1[ln := d1[ln].(parent := y)], p, y);
            var k := Hang(d2[y := d2[y].(parent := HoleOf(p), red := red)], c, np, false);
      && k.Keys == d.Keys && k[y] == Cell(ln, d[y].right, HoleOf(p), red) && k[ln] == d[ln].(parent := y)
      && (p.Up? ==> k[p.n] == MkCell(p.s, y, RootOf(p.sib), HoleOf(p.up), p.red))
      && (c.Node? ==> k[c.n] == d[c.n].(parent := np, red := false))
      && (forall n | n in d && n != y && n != ln && n != HoleOf(p) && n != RootOf(c) :: k[n] == d[n])
  {
    hide MkCell;
  }

  lemma InnerStart(m: Mem, p: Path, l: Tree, x: RbNode, red: bool, r: Tree)
    requires l.Node? && r.Node? && InnerKeys(m, p, l, x, r)
    ensures var k, d, y, c := InnerWrites(m, p, l, red, r), DeepWrites(m, r), Leftmost(r), FirstRest(r);
      && k.Keys == m.Keys && k[y] == Cell(l.n, d[y].right, HoleOf(p), red) && k[l.n] == d[l.n].(parent := y)
      && (p.Up? ==> k[p.n] == MkCell(p.s, y, RootOf(p.sib), HoleOf(p.up), p.red))
      && (c.Node? ==> k[c.n] == d[c.n].(parent := NewParent(r), red := false))
      && (forall n | n in m && n != y && n != l.n && n != HoleOf(p) && n != RootOf(c) :: k[n] == d[n])
  {
    hide Leftmost, FirstParent, FirstRest, Bag, Detach, DeepWrites, MkCell, Rerouted, Hang;
    InnerWritten(DeepWrites(m, r), Leftmost(r), l.n, p, FirstRest(r), NewParent(r), red);
  }

  lemma InnerBelow(m: Mem, p: Path, l: Tree, x: RbNode, red: bool, r: Tree, n: RbNode)
    requires l.Node? && r.Node? && InnerKeys(m, p, l, x, r) && n in Bag(Detach(r))
    ensures n in m && InnerWrites(m, p, l, red, r)[n] == Detached(m, r, Leftmost(r), n)
  {
    hide Leftmost, FirstParent, FirstRest, Bag, Detach, DeepWrites, MkCell, InnerWrites;
    InnerStart(m, p, l, x, red, r);
    DeepCells(m, r);
  }

  lemma InnerCells(m: Mem, p: Path, l: Tree, x: RbNode, red: bool, r: Tree)
    requires l.Node? && r.Node? && InnerKeys(m, p, l, x, r) && m[Leftmost(r)].right == RootOf(FirstRest(r))
    ensures var k, y := InnerWrites(m, p, l, red, r), Leftmost(r);
      && k.Keys == m.Keys && k[y] == Cell(l.n, if r.l.Leaf? then RootOf(FirstRest(r)) else r.n, HoleOf(p), red)
      && k[l.n] == m[l.n].(parent := y)
      && (p.Up? ==> k[p.n] == MkCell(p.s, y, RootOf(p.sib), HoleOf(p.up), p.red))
      && (forall n | n in m && n != y && n != l.n && n != HoleOf(p) && n !in Bag(Detach(r)) :: k[n] == m[n])
  {
    hide Leftmost, FirstParent, FirstRest, Bag, Detach, DeepWrites, MkCell, InnerWrites;
    InnerStart(m, p, l, x, red, r);
    DeepCells(m, r);
  }

  lemma {:induction false} FirstLinked(m: Mem, t: Tree, par: RbNode?)
    requires t.Node? && Linked(m, t, par)
    ensures Leftmost(t) in m && m[Leftmost(t)].right == RootOf(FirstRest(t)) && m[Leftmost(t)].red == FirstRed(t)
        && m[Leftmost(t)].left == null
    decreases t
  {
    if t.l.Node? {
      FirstLinked(m, t.l, t.n);
    }
  }

  lemma InnerBag(p: Path, l: Tree, x: RbNode, red: bool, r: Tree)
    requires l.Node? && r.Node?
    ensures Bag(Node(l, x, red, r)) + PathBag(p)
         == (multiset{x} + multiset{Leftmost(r)} + RootBag(l) + HoleBag(p) + Bag(Detach(r))) + (Below(l) + PathRest(p))
    ensures Bag(Node(l, x, red, r)) + PathBag(p) ==
        multiset{x} + (Bag(Node(l, Leftmost(r), red, Detach(r))) + PathBag(p))
    ensures Bag(Node(l, x, red, r)) + PathBag(p) == Bag(l) + multiset{x} + PathBag(p) + Bag(r)
  {
    BagParts(l);
    PathBagParts(p);
    DetachBag(r);
    var y := Leftmost(r);
    assert Bag(Node(l, x, red, r)) == Bag(l) + multiset{x} + Bag(r);
    assert Bag(Node(l, y, red, Detach(r))) == Bag(l) + multiset{y} + Bag(Detach(r));
    hide Bag, PathBag, Detach, Leftmost, RootBag, HoleBag, Below, PathRest;
    InnerSums(multiset{x}, multiset{y}, RootBag(l), HoleBag(p), Bag(Detach(r)), Below(l), PathRest(p));
    assert Bag(l) + multiset{x} + Bag(r) + PathBag(p) == Bag(l) + multiset{x} + PathBag(p) + Bag(r);
  }

  lemma InnerSums(x: Nodes, y: Nodes, l: Nodes, p: Nodes, d: Nodes, ls: Nodes, ps: Nodes)
    ensures (l + ls) + x + (y + d) + (p + ps) == (x + y + l + p + d) + (ls + ps)
    ensures (l + ls) + x + (y + d) + (p + ps) == x + ((l + ls) + y + d + (p + ps))
  {
  }

  lemma InnerKeysHold(m: Mem, root: RbNode?, p: Path, l: Tree, x: RbNode, red: bool, r: Tree)
    requires Split(m, root, p, Node(l, x, red, r)) && l.Node? && r.Node?
    ensures InnerKeys(m, p, l, x, r) && Single(Bag(r))
    ensures m[Leftmost(r)].right == RootOf(FirstRest(r)) && Linked(m, r, x) && Linked(m, l, x)
  {
    assert Linked(m, r, x) && Linked(m, l, x);
    hide Bag, PathBag, Detach, Leftmost, FirstParent, FirstRest, NewParent, RootBag, HoleBag, Below, PathRest, Linked,
        PathLinked;
    FirstLinked(m, r, x);
    InnerBag(p, l, x, red, r);
    WholeSingle(m, Bag(l) + multiset{x} + PathBag(p), Bag(r));
    hide Whole, InnerKeys;
    InnerKeysFrom(m, p, l, x, r, Below(l) + PathRest(p));
  }

  lemma InnerKeysFrom(m: Mem, p: Path, l: Tree, x: RbNode, r: Tree, rest: Nodes)
    requires l.Node? && r.Node?
    requires Whole(m, (multiset{x} + multiset{Leftmost(r)} + RootBag(l) + HoleBag(p) + Bag(Detach(r))) + rest)
    ensures InnerKeys(m, p, l, x, r)
  {
    DetachMembers(r);
    NewParentIs(r);
    FirstRoot(r);
    assert RootBag(l) == multiset{l.n} && (p.Up? ==> HoleBag(p) == multiset{p.n});
    hide Bag, Detach, Leftmost, FirstParent, FirstRest, NewParent, RootBag, HoleBag, Whole;
    InnerDistinct(m, x, Leftmost(r), l.n, HoleBag(p), Bag(Detach(r)), rest);
    assert p.Up? ==> p.n in HoleBag(p);
  }

  lemma InnerDistinct(m: Mem, x: RbNode, y: RbNode, l: RbNode, h: Nodes, d: Nodes, rest: Nodes)
    requires Whole(m, (multiset{x} + multiset{y} + multiset{l} + h + d) + rest)
    ensures x in m && y in m && l in m && x != y && x != l && y != l && x !in d && y !in d && l !in d
    ensures forall n | n in h :: n in m && n != x && n != y && n != l && n !in d
    ensures forall n | n in d :: n in m
  {
    Distinct(m, x, y, multiset{l}, h, d, rest);
    assert l in multiset{l};
    hide Whole;
  }

  lemma FirstRoot(r: Tree)
    requires r.Node?
    ensures r.l.Leaf? ==> Leftmost(r) == r.n
  {
  }

  lemma InnerKeysSay(m: Mem, p: Path, l: Tree, x: RbNode, r: Tree)
    requires l.Node? && r.Node? && InnerKeys(m, p, l, x, r)
    ensures x in m && Leftmost(r) in m && l.n in m && r.n in m && NewParent(r) in m && Leftmost(r) != x
        && Leftmost(r) != l.n
    ensures FirstRest(r).Node? ==> FirstRest(r).n in m
    ensures p.Up? ==> p.n in m && p.n != Leftmost(r)
  {
  }

  lemma InnerWritesAre(m: Mem, p: Path, l: Tree, red: bool, r: Tree)
    requires l.Node? && r.Node? && r.n in m && Leftmost(r) in m && NewParent(r) in m && l.n in m
    requires FirstRest(r).Node? ==> FirstRest(r).n in m
    ensures var y, c, d := Leftmost(r), FirstRest(r), Rerouted(MiddleWrites(m, l, r), p, Leftmost(r));
            var w := d[y := d[y].(parent := HoleOf(p), red := red)];
            InnerWrites(m, p, l, red, r) == if c.Leaf? then w
              else w[c.n := w[c.n].(parent := NewParent(r), red := false)]
  {
  }

  lemma NewParentIs(r: Tree)
    requires r.Node?
    ensures r.l.Leaf? ==> NewParent(r) == Leftmost(r) == r.n
    ensures r.l.Node? ==> NewParent(r) == FirstParent(r)
  {
  }

  lemma WholeSingle(m: Mem, a: Nodes, b: Nodes)
    requires Whole(m, a + b)
    ensures Single(b)
  {
    forall n | n in b ensures b[n] == 1 {
      Once(m, a + b, n);
    }
  }

  lemma InnerDone(m: Mem, k: Mem, root: RbNode?, top: RbNode?, p: Path, l: Tree, x: RbNode, red: bool, r: Tree)
    requires Split(m, root, p, Node(l, x, red, r)) && l.Node? && r.Node? && InnerKeys(m, p, l, x, r)
    requires k == InnerWrites(m, p, l, red, r) && top == if p.Top? then Leftmost(r) else root
    ensures SplitBut(k, top, p, Node(l, Leftmost(r), red, Detach(r)), x)
  {
    var y, d := Leftmost(r), Detach(r);
    InnerKeysHold(m, root, p, l, x, red, r);
    InnerCells(m, p, l, x, red, r);
    forall n | n in Bag(d) ensures n in m && n in k && k[n] == Detached(m, r, y, n) {
      InnerBelow(m, p, l, x, red, r, n);
    }
    InnerBag(p, l, x, red, r);
    assert RootOf(d) == if r.l.Leaf? then RootOf(FirstRest(r)) else r.n by {
      RecolourFacts(r.r, false);
    }
    assert PathLinked(m, p, x, root) && Whole(m, Bag(Node(l, x, red, r)) + PathBag(p));
    hide Bag, PathBag, Detach, Leftmost, FirstParent, FirstRest, NewParent, RootBag, HoleBag, Below, PathRest, Linked,
        PathLinked, InnerWrites, Detached, InnerKeys, Split, MkCell;
    DetachLinked(m, k, r, x, y);
    InnerFrame(m, k, root, top, p, l, x, y, Bag(d));
    assert LinkedNode(k, l, y, red, d, HoleOf(p));
  }

  predicate LinkedNode(k: Mem, l: Tree, y: RbNode, red: bool, d: Tree, par: RbNode?)
  {
    Linked(k, Node(l, y, red, d), par)
  }

  lemma FrameChanged(m: Mem, k: Mem, x: RbNode, y: RbNode, l: Tree, p: Path, d: Nodes)
    requires l.Node? && k.Keys == m.Keys
        && forall n | n in m && n != y && n != l.n && n != HoleOf(p) && n !in d :: k[n] == m[n]
    ensures Changed(m, k, multiset{x} + multiset{y} + RootBag(l) + HoleBag(p) + d)
  {
  }

  lemma InnerFrame(m: Mem, k: Mem, root: RbNode?, top: RbNode?, p: Path, l: Tree, x: RbNode, y: RbNode, d: Nodes)
    requires Whole(m, (multiset{x} + multiset{y} + RootBag(l) + HoleBag(p) + d) + (Below(l) + PathRest(p)))
    requires l.Node? && Linked(m, l, x) && PathLinked(m, p, x, root) && l.n in k && l.n in m
        && k[l.n] == m[l.n].(parent := y)
    requires top == (if p.Top? then y else root)
        && (p.Up? ==> p.n in k && k[p.n] == MkCell(p.s, y, RootOf(p.sib), HoleOf(p.up), p.red))
    requires k.Keys == m.Keys && forall n | n in m && n != y && n != l.n && n != HoleOf(p) && n !in d :: k[n] == m[n]
    ensures Linked(k, l, y) && PathLinked(k, p, y, top)
  {
    FrameChanged(m, k, x, y, l, p, d);
    hide Bag, PathBag, RootBag, HoleBag, Below, PathRest, Linked, PathLinked, Changed, Whole, Agree, Under;
    AgreeRest(m, k, multiset{x} + multiset{y} + RootBag(l) + HoleBag(p) + d, Below(l) + PathRest(p));
    AgreeSum(m, k, Below(l), PathRest(p));
    LinkedUnder(m, l, x);
    Rehung(m, k, l, y, l.red);
    RecolourFacts(l, l.red);
    PathChild(m, k, p, x, root, y, top);
  }

  ghost function MiddleWrites(m: Mem, l: Tree, r: Tree): (k: Mem)
    requires l.Node? && r.Node? && r.n in m && Leftmost(r) in m && NewParent(r) in m && l.n in m
    ensures k.Keys == m.Keys
  {
    var y, d := Leftmost(r), DeepWrites(m, r);
    var d1 := d[y := d[y].(left := l.n)];
    d1[l.n := d1[l.n].(parent := y)]
  }

  lemma MiddleCells(m: Mem, p: Path, l: Tree, x: RbNode, r: Tree)
    requires l.Node? && r.Node? && InnerKeys(m, p, l, x, r)
    ensures var k, y := MiddleWrites(m, l, r), Leftmost(r);
      k[x] == m[x] && k[y].red == m[y].red
        && forall n | n in m && n != y && n != l.n && n !in Bag(Detach(r)) :: k[n] == m[n]
  {
    hide Leftmost, FirstRest, FirstParent, DeepWrites, Bag, Detach;
    DeepCells(m, r);
  }

  lemma DeepKeeps(m: Mem, p: Path, l: Tree, x: RbNode, r: Tree)
    requires l.Node? && r.Node? && InnerKeys(m, p, l, x, r)
    ensures DeepWrites(m, r)[x] == m[x]
  {
    hide Leftmost, FirstRest, FirstParent, DeepWrites, Bag, Detach;
    DeepCells(m, r);
  }

  /** Halfway through, x and the path above are as they were. */
  lemma InnerMiddle(m: Mem, root: RbNode?, p: Path, l: Tree, x: RbNode, red: bool, r: Tree)
    requires Split(m, root, p, Node(l, x, red, r)) && l.Node? && r.Node? && InnerKeys(m, p, l, x, r)
    ensures var k := MiddleWrites(m, l, r);
      && m[x] == Cell(l.n, r.n, HoleOf(p), red) && k[x] == m[x] && k[Leftmost(r)].red == FirstRed(r)
      && PathLinked(k, p, x, root) && (p.Up? ==> RootOf(p.sib) != x)
  {
    InnerBag(p, l, x, red, r);
    assert Linked(m, r, x) && m[x] == Cell(l.n, r.n, HoleOf(p), red) && PathLinked(m, p, x, root)
      && Whole(m, Bag(Node(l, x, red, r)) + PathBag(p));
    hide Leftmost, FirstRest, FirstParent, DeepWrites, Bag, PathBag, Linked, PathLinked, Split, Whole, Detach, RootBag,
        HoleBag, Below, PathRest, NewParent, MiddleWrites;
    FirstLinked(m, r, x);
    MiddleCells(m, p, l, x, r);
    SiblingNot(m, p, l, x, red, r);
    InnerMiddleFrame(m, MiddleWrites(m, l, r), root, p, l, x, Leftmost(r), Bag(Detach(r)));
  }

  lemma SiblingNot(m: Mem, p: Path, l: Tree, x: RbNode, red: bool, r: Tree)
    requires Whole(m, Bag(Node(l, x, red, r)) + PathBag(p))
    ensures p.Up? ==> RootOf(p.sib) != x
  {
    if p.Up? && p.sib.Node? {
      BagParts(p.sib);
      PathBagParts(p);
      Once(m, Bag(Node(l, x, red, r)) + PathBag(p), x);
    }
  }

  lemma InnerMiddleFrame(m: Mem, k: Mem, root: RbNode?, p: Path, l: Tree, x: RbNode, y: RbNode, d: Nodes)
    requires Whole(m, (multiset{x} + multiset{y} + RootBag(l) + HoleBag(p) + d) + (Below(l) + PathRest(p)))
    requires l.Node? && PathLinked(m, p, x, root)
    requires k.Keys == m.Keys && forall n | n in m && n != y && n != l.n && n !in d :: k[n] == m[n]
    ensures PathLinked(k, p, x, root)
  {
    PathBagParts(p);
    assert RootBag(l) == multiset{l.n};
    hide Bag, PathBag, HoleBag, RootBag, Below, PathRest, PathLinked, Whole, Changed, Agree;
    MiddleSums(multiset{x}, multiset{y}, RootBag(l), HoleBag(p), d, Below(l), PathRest(p));
    MiddleChanged(m, k, x, y, l.n, d);
    AgreeRest(m, k, multiset{x} + multiset{y} + RootBag(l) + d, Below(l) + (HoleBag(p) + PathRest(p)));
    AgreeSum(m, k, Below(l), HoleBag(p) + PathRest(p));
    PathFrame(m, k, p, x, root);
  }

  lemma MiddleChanged(m: Mem, k: Mem, x: RbNode, y: RbNode, z: RbNode, d: Nodes)
    requires k.Keys == m.Keys && forall n | n in m && n != y && n != z && n !in d :: k[n] == m[n]
    ensures Changed(m, k, multiset{x} + multiset{y} + multiset{z} + d)
  {
  }

  lemma MiddleSums(x: Nodes, y: Nodes, l: Nodes, p: Nodes, d: Nodes, ls: Nodes, ps: Nodes)
    ensures (x + y + l + p + d) + (ls + ps) == (x + y + l + d) + (ls + (p + ps))
  {
  }

  // ----- the whole of __rb_erase -----

  /** What hangs in x's place once x is out. */
  function Erased(l: Tree, red: bool, r: Tree): Tree {
    if l.Leaf? then Recolour(r, red)
    else if r.Leaf? then Recolour(l, red)
    else Node(l, Leftmost(r), red, Detach(r))
  }

  /** With the rebalancing call, what __rb_erase leaves is what EraseAt says. */
  lemma ErasedIs(m: Mem, root: RbNode?, p: Path, l: Tree, x: RbNode, red: bool, r: Tree)
    requires Split(m, root, p, Erased(l, red, r))
    ensures var h := ShortHole(p, l, red, r);
            if h.Up? then Split(m, root, h, Leaf) else Holds(m, root, EraseAt(p, l, x, red, r))
  {
    hide Split, Holds, Fill, Close, EraseFix, FirstHole, FirstRest, FirstRed, Leftmost, Detach, EraseAt;
    SplitFill(m, root, p, Erased(l, red, r));
    EraseAtCases(p, l, x, red, r);
    EraseFixEmpty();
    if l.Node? && r.Node? {
      DetachClose(p, l, red, r);
      SplitFill(m, root, FirstHole(r, Up(R, Leftmost(r), red, l, p)), Leaf);
    }
  }

  lemma EraseFixEmpty()
    ensures EraseFix(Top, Leaf) == Fill(Top, Leaf) == Leaf
  {
  }

  lemma ShortHoleAt(p: Path, l: Tree, red: bool, r: Tree)
    ensures HoleOf(ShortHole(p, l, red, r)) ==
      if l.Leaf? then (if r.Node? || red then null else HoleOf(p))
      else if r.Leaf? || FirstRest(r).Node? || FirstRed(r) then null
      else NewParent(r)
  {
    if l.Node? && r.Node? {
      DetachClose(p, l, red, r);
    }
  }

  /** The nodes of the structure are the nodes in the order, each once. */
  lemma {:induction false} BagOrder(t: Tree)
    ensures Bag(t) == multiset(InOrder(t))
    decreases t
  {
    if t.Node? {
      BagOrder(t.l);
      BagOrder(t.r);
    }
  }

  lemma HoldsOrder(m: Mem, root: RbNode?, t: Tree)
    requires Holds(m, root, t)
    ensures multiset(InOrder(t)) == multiset(m.Keys)
    ensures forall x :: x in InOrder(t) <==> x in m
  {
    BagOrder(t);
    assert PathBag(Top) == multiset{};
    assert multiset(InOrder(t)) == multiset(m.Keys);
    forall x ensures x in InOrder(t) <==> x in m {
      assert x in InOrder(t) <==> x in multiset(InOrder(t));
      assert x in m <==> x in multiset(m.Keys);
    }
  }
}
