// The field writes of the repair steps of src/common/rbtree.c, as updates of a memory snapshot, and
// what each step makes of the tree.
module RbSteps {
  import opened RbSpec
  import opened RbMem

  /** m after t's root has been told its parent and colour. */
  ghost function Hang(m: Mem, t: Tree, par: RbNode, red: bool): (k: Mem)
    requires t.Node? ==> t.n in m
    ensures k.Keys == m.Keys
  {
    if t.Leaf? then m else m[t.n := m[t.n].(parent := par, red := red)]
  }

  lemma AlreadyHung(m: Mem, k: Mem, t: Tree, par: RbNode)
    requires Linked(m, t, par) && (t.Node? ==> t.n in k && k[t.n] == m[t.n])
    ensures t.Node? ==> t.n in k
    ensures Hang(k, t, par, IsRed(t)) == k
  {
  }

  /** m after the path's lowest node has been given another child. */
  ghost function Rerouted(m: Mem, up: Path, child: RbNode?): Mem {
    if up.Top? then m else m[up.n := MkCell(up.s, child, RootOf(up.sib), HoleOf(up.up), up.red)]
  }

  /** m after `__rb_rotate_set_parents`. */
  ghost function Rotated(m: Mem, was: RbNode, now: RbNode, red: bool, up: Path): Mem
    requires was in m && now in m
  {
    Rerouted(m[now := m[now].(parent := HoleOf(up), red := m[was].red)][was := m[was].(parent := now, red := red)], up,
      now)
  }

  lemma RotateSets(m: Mem, was: RbNode, now: RbNode, up: Path, b: Nodes)
    requires was in b && now in b && Whole(m, b + PathBag(up))
    ensures up.Up? ==> up.n != was && up.n != now && RootOf(up.sib) != was && up.n in m
    ensures was in m && now in m
  {
    Once(m, b + PathBag(up), was);
    Once(m, b + PathBag(up), now);
    if up.Up? {
      Once(m, b + PathBag(up), up.n);
      PathBagParts(up);
      if up.sib.Node? {
        BagParts(up.sib);
      }
    }
    hide Bag;
  }

  lemma RotateFrame(m: Mem, k: Mem, was: RbNode, now: RbNode, up: Path, b: Nodes, root: RbNode?)
    requires was in b && now in b && Whole(m, b + PathBag(up)) && PathLinked(m, up, was, root)
    requires k.Keys == m.Keys && forall n | n in m && n != was && n != now :: k[n] == m[n]
    ensures PathLinked(k, up, was, root)
  {
    hide Bag, PathBag, PathLinked, Whole;
    AgreeRest(m, k, b, PathBag(up));
    PathFrame(m, k, up, was, root);
  }

  lemma RotateEnd(m: Mem, k: Mem, was: RbNode, now: RbNode, red: bool, up: Path, b: Nodes, root: RbNode?, top: RbNode?)
    requires was in b && now in b && was in m && now in m && Whole(m, b + PathBag(up)) && PathLinked(m, up, was, root)
    requires k == Rotated(m, was, now, red, up) && top == if up.Top? then now else root
    ensures PathLinked(k, up, now, top)
  {
    hide Bag, PathBag, PathLinked, PathRest;
    RotateSets(m, was, now, up, b);
    PathBagParts(up);
    assert b + PathBag(up) == (b + HoleBag(up)) + PathRest(up);
    AgreeRest(m, k, b + HoleBag(up), PathRest(up));
    PathChild(m, k, up, was, root, now, top);
  }

  // ----- rotations -----

  /** The field writes of a rotation, up to `__rb_rotate_set_parents`. */
  ghost function TurnWrites(m: Mem, s: Side, a: Tree, ared: bool, hi: RbNode, b: Tree, bred: bool, lo: RbNode): (k: Mem)
    requires lo in m && hi in m && (a.Node? ==> a.n in m) && (b.Node? ==> b.n in m)
    ensures k.Keys == m.Keys
  {
    var m1 := Hang(m[lo := With(s, m[lo], RootOf(b))], b, lo, bred);
    Hang(m1[hi := With(Other(s), m1[hi], lo)], a, hi, ared)
  }

  /** The nodes a rotation writes are different nodes. */
  lemma TurnStart(m: Mem, a: Tree, hi: RbNode, b: Tree, lo: RbNode, c: Tree, up: Path)
    requires Whole(m, PairBag(lo, hi, a, b, c, up))
    ensures lo in m && hi in m && lo != hi
    ensures a.Node? ==> a.n in m && a.n != lo && a.n != hi && (b.Node? ==> a.n != b.n)
    ensures b.Node? ==> b.n in m && b.n != lo && b.n != hi
    ensures up.Up? ==> up.n in m && up.n != lo && up.n != hi && (a.Node? ==> up.n != a.n) && (b.Node? ==> up.n != b.n)
  {
    TurnParts(lo, hi, a, b, c, up);
    hide Bag, PathBag, PairBag, Below, PathRest;
    Distinct(m, lo, hi, RootBag(a), RootBag(b), HoleBag(up), Below(a) + Below(b) + Bag(c) + PathRest(up));
    assert a.Node? ==> a.n in RootBag(a);
    assert b.Node? ==> b.n in RootBag(b);
    assert up.Up? ==> up.n in HoleBag(up);
  }

  lemma Distinct(m: Mem, x: RbNode, y: RbNode, a: Nodes, b: Nodes, c: Nodes, d: Nodes)
    requires Whole(m, multiset{x} + multiset{y} + a + b + c + d)
    ensures x in m && y in m && x != y
    ensures forall n | n in a || n in b || n in c :: n in m && n != x && n != y
    ensures forall n | n in a :: n !in b && n !in c
    ensures forall n | n in b :: n !in c
  {
    var w := multiset{x} + multiset{y} + a + b + c + d;
    forall n ensures multiset{x}[n] + multiset{y}[n] + a[n] + b[n] + c[n] + d[n] == if n in m then 1 else 0 {
      Once(m, w, n);
    }
    assert multiset{x}[x] == 1 && multiset{y}[y] == 1;
    hide Whole;
  }

  lemma TurnWritten(m: Mem, k: Mem, s: Side, a: Tree, ared: bool, hi: RbNode, b: Tree, bred: bool, lo: RbNode)
    requires lo in m && hi in m && lo != hi
    requires a.Node? ==> a.n in m && a.n != lo && a.n != hi && (b.Node? ==> a.n != b.n)
    requires b.Node? ==> b.n in m && b.n != lo && b.n != hi
    requires k == TurnWrites(m, s, a, ared, hi, b, bred, lo)
    ensures forall n | n in m && n != lo && n != hi && RootOf(a) != n && RootOf(b) != n :: k[n] == m[n]
    ensures Hung(m, k, a, hi, ared) && Hung(m, k, b, lo, bred)
    ensures k[lo] == With(s, m[lo], RootOf(b)) && k[hi] == With(Other(s), m[hi], lo)
  {
  }

  lemma WrittenChanged(m: Mem, k: Mem, hi: RbNode, lo: RbNode, a: Tree, b: Tree)
    requires m.Keys == k.Keys
    requires forall n | n in m && n != lo && n != hi && RootOf(a) != n && RootOf(b) != n :: k[n] == m[n]
    ensures Changed(m, k, TurnBag(lo, hi, a, b))
  {
  }

  lemma TurnPath(m: Mem, k: Mem, root: RbNode?, s: Side, a: Tree, ared: bool, hi: RbNode, b: Tree, bred: bool,
      lo: RbNode, c: Tree, up: Path)
    requires Turn(m, root, s, a, hi, b, lo, c, up)
    requires (a.Node? ==> a.n in m) && (b.Node? ==> b.n in m) && k == TurnWrites(m, s, a, ared, hi, b, bred, lo)
    ensures PathLinked(k, up, lo, root) && k[lo].parent == HoleOf(up)
    ensures Whole(k, TurnRest(lo, hi, a, b, c) + PathBag(up)) && lo in TurnRest(lo, hi, a, b, c)
        && hi in TurnRest(lo, hi, a, b, c)
  {
    hide Linked, Bag, PathLinked, PathBag, Under, Below, PathRest, Whole, PairBag, Agree, TurnWrites, Changed, Hung,
        TurnBag;
    TurnStart(m, a, hi, b, lo, c, up);
    TurnWritten(m, k, s, a, ared, hi, b, bred, lo);
    WrittenChanged(m, k, hi, lo, a, b);
    TurnParts(lo, hi, a, b, c, up);
    TurnRestBag(lo, hi, a, b, c, up);
    AgreeRest(m, k, TurnBag(lo, hi, a, b), Below(a) + Below(b) + Bag(c) + PathBag(up));
    AgreeSum(m, k, Below(a) + Below(b) + Bag(c), PathBag(up));
    PathFrame(m, k, up, lo, root);
  }

  ghost function TurnRest(lo: RbNode, hi: RbNode, a: Tree, b: Tree, c: Tree): Nodes {
    multiset{lo} + multiset{hi} + Bag(a) + Bag(b) + Bag(c)
  }

  lemma TurnRestBag(lo: RbNode, hi: RbNode, a: Tree, b: Tree, c: Tree, up: Path)
    ensures TurnRest(lo, hi, a, b, c) + PathBag(up) == PairBag(lo, hi, a, b, c, up)
    ensures lo in TurnRest(lo, hi, a, b, c) && hi in TurnRest(lo, hi, a, b, c)
  {
  }

  lemma RotatedCells(m: Mem, k: Mem, lo: RbNode, hi: RbNode, lored: bool, up: Path)
    requires lo in m && hi in m && lo != hi && (up.Up? ==> up.n in m && up.n != lo && up.n != hi)
        && k == Rotated(m, lo, hi, lored, up)
    ensures k.Keys == m.Keys && forall n | n in m && n != lo && n != hi && HoleOf(up) != n :: k[n] == m[n]
    ensures k[lo] == m[lo].(parent := hi, red := lored) && k[hi] == m[hi].(parent := HoleOf(up), red := m[lo].red)
  {
  }

  lemma TurnCells(m: Mem, k: Mem, s: Side, a: Tree, ared: bool, hi: RbNode, b: Tree, bred: bool, lo: RbNode,
      lored: bool, up: Path)
    requires lo in m && hi in m && lo != hi
    requires a.Node? ==> a.n in m && a.n != lo && a.n != hi && (b.Node? ==> a.n != b.n)
    requires b.Node? ==> b.n in m && b.n != lo && b.n != hi
    requires up.Up? ==> up.n in m && up.n != lo && up.n != hi && (a.Node? ==> up.n != a.n) && (b.Node? ==> up.n != b.n)
    requires k == Rotated(TurnWrites(m, s, a, ared, hi, b, bred, lo), lo, hi, lored, up)
    ensures m.Keys == k.Keys && Changed(m, k, Touched(lo, hi, a, b, up)) && Hung(m, k, a, hi, ared)
        && Hung(m, k, b, lo, bred)
    ensures k[lo] == MkCell(s, RootOf(b), ChildOn(Other(s), m[lo]), hi, lored)
    ensures k[hi] == MkCell(s, ChildOn(s, m[hi]), lo, HoleOf(up), m[lo].red)
  {
    hide TurnWrites, Rotated, Touched, Changed;
    var w := TurnWrites(m, s, a, ared, hi, b, bred, lo);
    TurnWritten(m, w, s, a, ared, hi, b, bred, lo);
    RotatedCells(w, k, lo, hi, lored, up);
    TouchedChanged(m, k, hi, lo, a, b, up);
  }

  lemma TouchedChanged(m: Mem, k: Mem, hi: RbNode, lo: RbNode, a: Tree, b: Tree, up: Path)
    requires m.Keys == k.Keys
    requires forall n | n in m && n != lo && n != hi && RootOf(a) != n && RootOf(b) != n && HoleOf(up) != n ::
        k[n] == m[n]
    ensures Changed(m, k, Touched(lo, hi, a, b, up))
  {
  }

  lemma TurnEnd(m: Mem, k: Mem, root: RbNode?, top: RbNode?, s: Side, a: Tree, ared: bool, hi: RbNode,
                b: Tree, bred: bool, lo: RbNode, lored: bool, c: Tree, up: Path)
    requires Turn(m, root, s, a, hi, b, lo, c, up) && (a.Node? ==> a.n in m) && (b.Node? ==> b.n in m)
    requires k == Rotated(TurnWrites(m, s, a, ared, hi, b, bred, lo), lo, hi, lored, up)
    requires PathLinked(k, up, hi, top)
    ensures Split(k, top, up, Mk(s, Recolour(a, ared), hi, m[lo].red, Mk(s, Recolour(b, bred), lo, lored, c)))
  {
    hide Linked, Bag, PathLinked, PathBag, Under, Split, Mk, Recolour, Rotated, TurnWrites, MkCell, ChildOn, Changed,
        Hung, HoleOf, HoleBag, Touched, PairBag, Whole;
    TurnStart(m, a, hi, b, lo, c, up);
    TurnCells(m, k, s, a, ared, hi, b, bred, lo, lored, up);
    Turned(m, k, root, top, s, a, ared, hi, m[lo].red, b, bred, lo, lored, c, up);
  }

  // ----- case 1 of insertion -----

  lemma Case1Start(m: Mem, root: RbNode?, s: Side, t: Tree, lo: RbNode, lored: bool, sib: Tree, g: Side, hi: RbNode,
      hired: bool, c: Tree, up: Path)
    requires Split(m, root, up, Mk(g, Mk(s, t, lo, lored, sib), hi, hired, c))
    ensures lo != hi && lo in m && hi in m && (c.Node? ==> c.n in m && c.n != lo && c.n != hi)
  {
    hide Linked, Bag, PathLinked, PathBag, Split, Mk, HoleOf, Whole, PairBag;
    Dissect(m, root, s, t, lo, lored, sib, g, hi, hired, c, up);
    PairComm(lo, hi, c, t, sib, up);
    TurnStart(m, c, hi, t, lo, sib, up);
  }

  lemma Case1Done(m: Mem, k: Mem, root: RbNode?, s: Side, t: Tree, lo: RbNode, sib: Tree, g: Side, hi: RbNode,
      hired: bool, uncle: Tree, up: Path)
    requires Split(m, root, up, Mk(g, Mk(s, t, lo, true, sib), hi, hired, uncle)) && lo in m && hi in m && uncle.Node?
        && uncle.n in m
    requires k == m[uncle.n := m[uncle.n].(parent := hi, red := false)][lo := m[lo].(parent := hi,
        red := false)][hi := m[hi].(red := true)]
    ensures Split(k, root, up, Mk(g, Mk(s, t, lo, false, sib), hi, true, Blacken(uncle)))
  {
    hide Linked, Bag, PathLinked, PathBag, Split, Mk, Recolour, HoleOf, Whole, PairBag, Below, Agree, Changed, RootBag;
    Dissect(m, root, s, t, lo, true, sib, g, hi, hired, uncle, up);
    Case1Start(m, root, s, t, lo, true, sib, g, hi, hired, uncle, up);
    Case1Bags(t, lo, sib, hi, uncle, up);
    Case1Cells(m, k, lo, hi, uncle);
    AgreeRest(m, k, multiset{lo} + multiset{hi} + RootBag(uncle), Bag(t) + Bag(sib) + Below(uncle) + PathBag(up));
    AgreeSum(m, k, Bag(t) + Bag(sib) + Below(uncle), PathBag(up));
    AgreeSum(m, k, Bag(t) + Bag(sib), Below(uncle));
    AgreeSum(m, k, Bag(t), Bag(sib));
    LinkedFrame(m, k, t, lo);
    LinkedFrame(m, k, sib, lo);
    LinkedUnder(m, uncle, hi);
    Rehung(m, k, uncle, hi, false);
    PathFrame(m, k, up, hi, root);
    RecolourFacts(uncle, false);
    Dissect(k, root, s, t, lo, false, sib, g, hi, true, Blacken(uncle), up);
  }

  lemma Case1Cells(m: Mem, k: Mem, lo: RbNode, hi: RbNode, uncle: Tree)
    requires uncle.Node? && lo in m && hi in m && uncle.n in m && lo != hi && lo != uncle.n && hi != uncle.n
    requires k == m[uncle.n := m[uncle.n].(parent := hi, red := false)][lo := m[lo].(parent := hi,
        red := false)][hi := m[hi].(red := true)]
    ensures Changed(m, k, multiset{lo} + multiset{hi} + RootBag(uncle)) && Hung(m, k, uncle, hi, false)
  {
  }

  lemma Case1Bags(t: Tree, lo: RbNode, sib: Tree, hi: RbNode, uncle: Tree, up: Path)
    ensures PairBag(lo, hi, t, sib, uncle, up) ==
        (multiset{lo} + multiset{hi} + RootBag(uncle)) + (Bag(t) + Bag(sib) + Below(uncle) + PathBag(up))
    ensures PairBag(lo, hi, t, sib, Blacken(uncle), up) == PairBag(lo, hi, t, sib, uncle, up)
  {
    RecolourFacts(uncle, false);
    BagParts(uncle);
    hide Bag, PathBag, Below, RootBag, Recolour;
  }

  // ----- case 2 of insertion, case 3 of erasure: nd, the inner grandchild, takes lo's place -----

  lemma Case2Bags(s: Side, nd: RbNode, lo: RbNode, lored: bool, x: Tree, y: Tree, sib: Tree, hi: RbNode, uncle: Tree,
      up: Path)
    ensures PairBag(lo, hi, sib, Mk(s, x, nd, true, y), uncle, up)
         == (multiset{nd} + multiset{lo} + multiset{hi} + RootBag(x))
          + (Below(x) + Bag(y) + Bag(sib) + Bag(uncle) + PathBag(up))
    ensures PairBag(hi, nd, Mk(s, sib, lo, lored, Blacken(x)), y, uncle, up) ==
        PairBag(lo, hi, sib, Mk(s, x, nd, true, y), uncle, up)
  {
    hide Bag, PathBag, Below, RootBag, Recolour, Mk;
    RecolourFacts(x, false);
    BagParts(x);
    MkBag(s, x, nd, true, y);
    MkBag(s, sib, lo, lored, Blacken(x));
    Case2Sums(multiset{nd}, multiset{lo}, multiset{hi}, RootBag(x), Below(x), Bag(y), Bag(sib), Bag(uncle),
      PathBag(up));
  }

  lemma Case2Sums(n: Nodes, l: Nodes, h: Nodes, x: Nodes, xs: Nodes, y: Nodes, b: Nodes, u: Nodes, p: Nodes)
    ensures (l + h) + b + ((x + xs) + n + y) + u + p == ((n + l) + h + x) + (xs + y + b + u + p)
    ensures (h + n) + (b + l + (x + xs)) + y + u + p == (l + h) + b + ((x + xs) + n + y) + u + p
  {
  }

  lemma Case2Start(m: Mem, root: RbNode?, s: Side, nd: RbNode, lo: RbNode, lored: bool, x: Tree, y: Tree, sib: Tree,
      hi: RbNode, hired: bool, uncle: Tree, up: Path)
    requires Split(m, root, up, Mk(s, Mk(s, sib, lo, lored, Mk(s, x, nd, true, y)), hi, hired, uncle))
    ensures Whole(m, PairBag(lo, hi, sib, Mk(s, x, nd, true, y), uncle, up)) && PathLinked(m, up, hi, root)
    ensures Linked(m, x, nd) && Linked(m, y, nd) && Linked(m, sib, lo) && Linked(m, uncle, hi)
    ensures nd in m && lo in m && hi in m
    ensures m[nd] == MkCell(s, RootOf(x), RootOf(y), lo, true) && m[lo] == MkCell(s, RootOf(sib), nd, hi, lored)
    ensures m[hi] == MkCell(s, lo, RootOf(uncle), HoleOf(up), hired)
  {
    hide Linked, PathLinked, Split, Mk, HoleOf, MkCell, RootOf, Whole, PairBag, Bag, PathBag;
    Dissect(m, root, s, sib, lo, lored, Mk(s, x, nd, true, y), s, hi, hired, uncle, up);
    MkLinked(m, s, x, nd, true, y, lo);
    MkBag(s, x, nd, true, y);
  }

  lemma Case2Keys(m: Mem, s: Side, nd: RbNode, lo: RbNode, x: Tree, y: Tree, sib: Tree, hi: RbNode, uncle: Tree,
      up: Path)
    requires Whole(m, PairBag(lo, hi, sib, Mk(s, x, nd, true, y), uncle, up))
    ensures nd in m && lo in m && hi in m && nd != lo && nd != hi && lo != hi
        && (x.Node? ==> x.n in m && x.n != nd && x.n != lo && x.n != hi)
  {
    hide Mk, Whole, PairBag, Bag, PathBag, Below, RootBag;
    Case2Bags(s, nd, lo, true, x, y, sib, hi, uncle, up);
    Case2Distinct(m, nd, lo, x, hi, Below(x) + Bag(y) + Bag(sib) + Bag(uncle) + PathBag(up));
  }

  lemma Case2Distinct(m: Mem, nd: RbNode, lo: RbNode, x: Tree, hi: RbNode, rest: Nodes)
    requires Whole(m, (multiset{nd} + multiset{lo} + multiset{hi} + RootBag(x)) + rest)
    ensures nd in m && lo in m && hi in m && nd != lo && nd != hi && lo != hi
    ensures x.Node? ==> x.n in m && x.n != nd && x.n != lo && x.n != hi
  {
    var h := multiset{hi};
    assert (multiset{nd} + multiset{lo} + h + RootBag(x)) + rest ==
      multiset{nd} + multiset{lo} + RootBag(x) + h + multiset{} + rest;
    Distinct(m, nd, lo, RootBag(x), h, multiset{}, rest);
    assert hi in h;
    assert x.Node? ==> x.n in RootBag(x);
  }

  /** What the code sees. */
  lemma Case2See(m: Mem, root: RbNode?, s: Side, nd: RbNode, lo: RbNode, lored: bool, x: Tree, y: Tree, sib: Tree,
      hi: RbNode, hired: bool, uncle: Tree, up: Path)
    requires Split(m, root, up, Mk(s, Mk(s, sib, lo, lored, Mk(s, x, nd, true, y)), hi, hired, uncle))
    ensures nd in m && lo in m && hi in m && nd != lo && nd != hi && lo != hi
        && (x.Node? ==> x.n in m && x.n != nd && x.n != lo && x.n != hi)
    ensures ChildOn(s, m[nd]) == RootOf(x)
  {
    Case2Start(m, root, s, nd, lo, lored, x, y, sib, hi, hired, uncle, up);
    hide Split, Mk, Whole, PairBag;
    Case2Keys(m, s, nd, lo, x, y, sib, hi, uncle, up);
  }

  /** The writes both cases begin with. */
  ghost function Case2Writes(m: Mem, s: Side, nd: RbNode, lo: RbNode, x: Tree): (k: Mem)
    requires nd in m && lo in m && nd != lo && (x.Node? ==> x.n in m)
    ensures k.Keys == m.Keys
  {
    var w := Hang(m[lo := With(Other(s), m[lo], RootOf(x))], x, lo, false);
    w[nd := With(s, w[nd], lo)]
  }

  lemma Case2Cells(m: Mem, k: Mem, s: Side, nd: RbNode, lo: RbNode, x: Tree, hi: RbNode)
    requires nd in m && lo in m && hi in m && nd != lo && nd != hi && lo != hi
        && (x.Node? ==> x.n in m && x.n != nd && x.n != lo && x.n != hi)
    requires k == Case2Writes(m, s, nd, lo, x)
    ensures forall n | n in m && n != nd && n != lo && n != RootOf(x) :: k[n] == m[n]
    ensures Hung(m, k, x, lo, false)
    ensures k[nd] == With(s, m[nd], lo) && k[lo] == With(Other(s), m[lo], RootOf(x)) && k[hi] == m[hi]
  {
  }

  /** What matters of k for what follows. */
  ghost predicate Case2Made(m: Mem, k: Mem, s: Side, nd: RbNode, lo: RbNode, x: Tree, hi: RbNode)
    requires nd in m && lo in m && hi in m
  {
    && k.Keys == m.Keys && Changed(m, k, multiset{nd} + multiset{lo} + multiset{hi} + RootBag(x))
        && Hung(m, k, x, lo, false)
    && k[nd] == With(s, m[nd], lo) && ChildOn(s, k[lo]) == ChildOn(s, m[lo]) && ChildOn(Other(s), k[lo]) == RootOf(x)
    && k[hi].parent == m[hi].parent && k[hi].red == m[hi].red && ChildOn(Other(s), k[hi]) == ChildOn(Other(s), m[hi])
  }

  lemma Case2Changed(m: Mem, k: Mem, nd: RbNode, lo: RbNode, x: Tree, hi: RbNode)
    requires k.Keys == m.Keys && forall n | n in m && n != nd && n != lo && n != hi && n != RootOf(x) :: k[n] == m[n]
    ensures Changed(m, k, multiset{nd} + multiset{lo} + multiset{hi} + RootBag(x))
  {
  }

  lemma Case2Insert(m: Mem, k: Mem, s: Side, nd: RbNode, lo: RbNode, x: Tree, hi: RbNode)
    requires nd in m && lo in m && hi in m && nd != lo && nd != hi && lo != hi
        && (x.Node? ==> x.n in m && x.n != nd && x.n != lo && x.n != hi)
    requires var w := Case2Writes(m, s, nd, lo, x); k == w[lo := w[lo].(parent := nd, red := true)]
    ensures Case2Made(m, k, s, nd, lo, x, hi) && k[lo].parent == nd && k[lo].red
  {
    hide Case2Writes, Changed;
    Case2Cells(m, Case2Writes(m, s, nd, lo, x), s, nd, lo, x, hi);
    Case2Changed(m, k, nd, lo, x, hi);
  }

  lemma Case3Erase(m: Mem, k: Mem, s: Side, nd: RbNode, lo: RbNode, x: Tree, hi: RbNode)
    requires nd in m && lo in m && hi in m && nd != lo && nd != hi && lo != hi
        && (x.Node? ==> x.n in m && x.n != nd && x.n != lo && x.n != hi)
    requires var w := Case2Writes(m, s, nd, lo, x); k == w[hi := With(s, w[hi], nd)]
    ensures Case2Made(m, k, s, nd, lo, x, hi)
  {
    hide Case2Writes, Changed;
    Case2Cells(m, Case2Writes(m, s, nd, lo, x), s, nd, lo, x, hi);
    Case2Changed(m, k, nd, lo, x, hi);
  }

  lemma Case2Done(m: Mem, k: Mem, root: RbNode?, s: Side, nd: RbNode, lo: RbNode, lored: bool, x: Tree, y: Tree,
      sib: Tree, hi: RbNode, hired: bool, uncle: Tree, up: Path)
    requires Split(m, root, up, Mk(s, Mk(s, sib, lo, lored, Mk(s, x, nd, true, y)), hi, hired, uncle))
    requires nd in m && lo in m && hi in m && Case2Made(m, k, s, nd, lo, x, hi)
    ensures var a := Mk(s, sib, lo, lored, Blacken(x));
            Turn(k, root, s, a, nd, y, hi, uncle, up) && (k[lo].parent == nd && k[lo].red == lored ==> Linked(k, a, nd))
    ensures hi in k && k[hi].red == m[hi].red && ChildOn(Other(s), k[nd]) == RootOf(y)
        && (y.Node? ==> y.n in k && k[y.n].red == y.red)
  {
    hide Linked, PathLinked, Split, Mk, HoleOf, Recolour, Whole, PairBag, Bag, PathBag, Below, Agree, Changed, RootBag,
        Hung, Under;
    Case2Start(m, root, s, nd, lo, lored, x, y, sib, hi, hired, uncle, up);
    Case2Bags(s, nd, lo, lored, x, y, sib, hi, uncle, up);
    AgreeRest(m, k, multiset{nd} + multiset{lo} + multiset{hi} + RootBag(x),
      Below(x) + Bag(y) + Bag(sib) + Bag(uncle) + PathBag(up));
    Case2Agree(m, k, Below(x), Bag(y), Bag(sib), Bag(uncle), PathBag(up));
    LinkedFrame(m, k, y, nd);
    LinkedFrame(m, k, uncle, hi);
    PathFrame(m, k, up, hi, root);
    Case2Inner(m, k, s, nd, lo, lored, x, sib);
    LinkedUnder(k, y, nd);
  }

  lemma Case2Inner(m: Mem, k: Mem, s: Side, nd: RbNode, lo: RbNode, lored: bool, x: Tree, sib: Tree)
    requires Linked(m, x, nd) && Linked(m, sib, lo) && Hung(m, k, x, lo, false) && Agree(m, k, Below(x))
        && Agree(m, k, Bag(sib))
    requires lo in k && ChildOn(s, k[lo]) == RootOf(sib) && ChildOn(Other(s), k[lo]) == RootOf(x)
    ensures var a := Mk(s, sib, lo, lored, Blacken(x));
            Under(k, a) && RootOf(a) == lo && (k[lo].parent == nd && k[lo].red == lored ==> Linked(k, a, nd))
  {
    hide Linked, Mk, Recolour, Bag, Below, Agree, Hung, Under, MkCell, RootOf;
    LinkedFrame(m, k, sib, lo);
    LinkedUnder(m, x, nd);
    Rehung(m, k, x, lo, false);
    RecolourFacts(x, false);
    var a := Mk(s, sib, lo, lored, Blacken(x));
    MkLinked(k, s, sib, lo, lored, Blacken(x), nd);
    MkBag(s, sib, lo, lored, Blacken(x));
    MkUnder(k, s, sib, lo, lored, Blacken(x));
    CellParts(s, k[lo], nd, lored);
  }

  lemma MkUnder(m: Mem, s: Side, a: Tree, n: RbNode, red: bool, b: Tree)
    requires n in m && ChildOn(s, m[n]) == RootOf(a) && ChildOn(Other(s), m[n]) == RootOf(b) && Linked(m, a, n)
        && Linked(m, b, n)
    ensures Under(m, Mk(s, a, n, red, b))
  {
    hide Linked;
  }

  lemma CellParts(s: Side, c: Cell, par: RbNode?, red: bool)
    ensures c.parent == par && c.red == red ==> c == MkCell(s, ChildOn(s, c), ChildOn(Other(s), c), par, red)
  {
  }

  lemma Case2Agree(m: Mem, k: Mem, b: Nodes, c: Nodes, d: Nodes, e: Nodes, f: Nodes)
    requires Agree(m, k, b + c + d + e + f)
    ensures Agree(m, k, b) && Agree(m, k, c) && Agree(m, k, d) && Agree(m, k, e) && Agree(m, k, f)
  {
    hide Agree;
    AgreeSum(m, k, b + c + d + e, f);
    AgreeSum(m, k, b + c + d, e);
    AgreeSum(m, k, b + c, d);
    AgreeSum(m, k, b, c);
  }

  // ----- what the loops see -----

  /** The root a path's structure has; only an insertion into an empty tree has not stored it yet. */
  function TopOf(p: Path, t: Tree, root: RbNode?): RbNode? {
    if p.Top? then RootOf(t) else root
  }

  lemma SeeParent(m: Mem, root: RbNode?, p: Path, t: Tree)
    requires Split(m, root, p, t)
    ensures t.Node? ==> t.n in m && m[t.n].parent == HoleOf(p) && m[t.n].red == t.red
    ensures p.Up? ==> p.n in m && m[p.n] == MkCell(p.s, RootOf(t), RootOf(p.sib), HoleOf(p.up), p.red)
    ensures p.Up? ==> m[p.n].red == p.red
    ensures p.Up? && t.Node? ==> p.n != t.n && RootOf(p.sib) != t.n
    ensures TopOf(p, t, root) == root
    ensures p.Up? && p.sib.Node? ==> p.sib.n in m && m[p.sib.n].red == p.sib.red && p.sib.n != p.n
  {
    if p.Up? && t.Node? {
      BagParts(t);
      Once(m, Bag(t) + PathBag(p), t.n);
    }
    if p.Up? && p.sib.Node? {
      BagParts(p.sib);
      Once(m, Bag(t) + PathBag(p), p.n);
    }
  }

  lemma SeeGparent(m: Mem, root: RbNode?, p: Path, t: Tree)
    requires p.Up? && p.up.Up? && Split(m, root, p, t)
    ensures Split(m, root, p.up, Mk(p.s, t, p.n, p.red, p.sib))
    ensures Split(m, root, p.up.up, Mk(p.up.s, Mk(p.s, t, p.n, p.red, p.sib), p.up.n, p.up.red, p.up.sib))
    ensures p.up.n in m && m[p.up.n] == MkCell(p.up.s, p.n, RootOf(p.up.sib), HoleOf(p.up.up), p.up.red)
        && RootOf(p.up.sib) != p.n
    ensures p.up.sib.Node? ==> p.up.sib.n in m && m[p.up.sib.n].red == p.up.sib.red
  {
    hide Split, Mk, HoleOf, MkCell, RootOf;
    SplitStep(m, root, p.s, t, p.n, p.red, p.sib, p.up);
    MkBag(p.s, t, p.n, p.red, p.sib);
    SeeParent(m, root, p.up, Mk(p.s, t, p.n, p.red, p.sib));
    SplitStep(m, root, p.up.s, Mk(p.s, t, p.n, p.red, p.sib), p.up.n, p.up.red, p.up.sib, p.up.up);
  }

  /** What an insertion sees below a red parent. */
  lemma SeeInsert(m: Mem, root: RbNode?, p: Path, t: Tree)
    requires Split(m, root, p, t) && t.Node? && p.Up? && p.red && PathColoured(p)
    ensures p.up.Up? && PathColoured(p.up.up) && p.n in m && p.up.n in m && m[p.n].parent == p.up.n
        && m[p.up.n].red == p.up.red
    ensures (p.n != m[p.up.n].right) <==> p.up.s == L
    ensures ChildOn(Other(p.up.s), m[p.up.n]) == RootOf(p.up.sib)
        && (p.up.sib.Node? ==> p.up.sib.n in m && m[p.up.sib.n].red == p.up.sib.red)
    ensures ChildOn(Other(p.up.s), m[p.n]) == if p.s == p.up.s then RootOf(p.sib) else t.n
    ensures RootOf(p.sib) != t.n
    ensures Split(m, root, p.up.up, Mk(p.up.s, Mk(p.s, t, p.n, true, p.sib), p.up.n, p.up.red, p.up.sib))
  {
    SeeParent(m, root, p, t);
    hide Split, Mk, HoleOf;
    SeeGparent(m, root, p, t);
  }

  /** A tree that a rotation can work on. */
  lemma TurnReady(m: Mem, root: RbNode?, s: Side, a: Tree, hi: RbNode, hired: bool, b: Tree, lo: RbNode, lored: bool,
      c: Tree, up: Path)
    requires Split(m, root, up, Mk(s, Mk(s, a, hi, hired, b), lo, lored, c))
    ensures Turn(m, root, s, a, hi, b, lo, c, up) && Linked(m, a, hi) && Linked(m, b, hi) && lo in m
        && m[lo].red == lored
  {
    hide Linked, Split, Mk, RootOf, HoleOf, PathLinked, Bag, PathBag, Whole, Under, PairBag, Joint, Turn;
    Dissect(m, root, s, a, hi, hired, b, s, lo, lored, c, up);
    PairSwap(hi, lo, a, b, c, up);
    JointTurn(m, root, s, a, hi, hired, b, lo, lored, c, up);
  }

  lemma JointTurn(m: Mem, root: RbNode?, s: Side, a: Tree, hi: RbNode, hired: bool, b: Tree, lo: RbNode, lored: bool,
      c: Tree, up: Path)
    requires Joint(m, HoleOf(up), s, a, hi, hired, b, s, lo, lored, c)
    requires Whole(m, PairBag(lo, hi, a, b, c, up)) && PathLinked(m, up, lo, root)
    ensures Turn(m, root, s, a, hi, b, lo, c, up) && Linked(m, a, hi) && Linked(m, b, hi) && lo in m
        && m[lo].red == lored
  {
    hide Linked, RootOf, HoleOf, PathLinked, Bag, PathBag, Whole, Under, PairBag, MkCell, ChildOn, Other;
    LinkedUnder(m, a, hi);
    LinkedUnder(m, b, hi);
    MkCellParts(s, RootOf(a), RootOf(b), lo, hired);
    MkCellParts(s, hi, RootOf(c), HoleOf(up), lored);
  }

  lemma MkCellParts(s: Side, a: RbNode?, b: RbNode?, par: RbNode?, red: bool)
    ensures var c := MkCell(s, a, b, par, red);
            ChildOn(s, c) == a && ChildOn(Other(s), c) == b && c.parent == par && c.red == red
    ensures forall r :: MkCell(s, a, b, par, red).(red := r) == MkCell(s, a, b, par, r)
  {
  }

  // ----- erasure -----

  /** What an erasure's loop sees below parent. */
  lemma SeeErase(m: Mem, root: RbNode?, p: Path, t: Tree)
    requires p.Up? && p.sib.Node? && Split(m, root, p, t)
    ensures p.n in m && m[p.n].red == p.red && m[p.n].parent == HoleOf(p.up)
    ensures (RootOf(t) != m[p.n].right) <==> p.s == L
    ensures ChildOn(Other(p.s), m[p.n]) == p.sib.n && p.sib.n in m && m[p.sib.n].red == p.sib.red
    ensures Split(m, root, p.up, Facing(p, t))
  {
    SeeParent(m, root, p, t);
    hide Split, Mk, HoleOf;
    SplitStep(m, root, p.s, t, p.n, p.red, p.sib, p.up);
    FacingMk(p, t);
  }

  /** The tree in the hole's parent's place, written from the sibling's side. */
  function Facing(p: Path, t: Tree): Tree
    requires p.Up? && p.sib.Node?
  {
    var g := Other(p.s);
    Mk(g, Mk(g, Far(p.s, p.sib), p.sib.n, p.sib.red, Near(p.s, p.sib)), p.n, p.red, t)
  }

  lemma FacingMk(p: Path, t: Tree)
    requires p.Up? && p.sib.Node?
    ensures Facing(p, t) == Mk(p.s, t, p.n, p.red, p.sib)
  {
  }

  /** The colours of the sibling's children. */
  lemma SeeNephews(m: Mem, root: RbNode?, g: Side, far: Tree, sib: RbNode, sred: bool, near: Tree, parent: RbNode,
      pred: bool, t: Tree, up: Path)
    requires Split(m, root, up, Mk(g, Mk(g, far, sib, sred, near), parent, pred, t))
    ensures sib in m && parent in m && ChildOn(g, m[sib]) == RootOf(far) && ChildOn(Other(g), m[sib]) == RootOf(near)
    ensures far.Node? ==> far.n in m && m[far.n].red == far.red
    ensures near.Node? ==> near.n in m && m[near.n].red == near.red
  {
    hide Split, Mk, HoleOf, Whole, PairBag, PathLinked, RootOf;
    Dissect(m, root, g, far, sib, sred, near, g, parent, pred, t, up);
    LinkedUnder(m, far, sib);
    LinkedUnder(m, near, sib);
  }

  /** Case 2 of erasure: only colours change. */
  lemma EraseCase2Done(m: Mem, k: Mem, root: RbNode?, g: Side, far: Tree, sib: RbNode, near: Tree, parent: RbNode,
      pred: bool, t: Tree, up: Path)
    requires Split(m, root, up, Mk(g, Mk(g, far, sib, false, near), parent, pred, t)) && sib in m && parent in m
        && sib != parent
    requires k == m[sib := m[sib].(parent := parent, red := true)][parent := m[parent].(red := false)]
    ensures Split(k, root, up, Mk(g, Mk(g, far, sib, true, near), parent, false, t))
  {
    hide Linked, Bag, PathLinked, PathBag, Split, Mk, HoleOf, RootOf, Whole, PairBag, Agree, Changed, MkCell;
    Dissect(m, root, g, far, sib, false, near, g, parent, pred, t, up);
    TwoChanged(m, k, sib, parent);
    TwoRest(sib, parent, far, near, t, up);
    AgreeRest(m, k, multiset{sib} + multiset{parent}, Bag(far) + Bag(near) + Bag(t) + PathBag(up));
    AgreeFour(m, k, Bag(far), Bag(near), Bag(t), PathBag(up));
    LinkedFrame(m, k, far, sib);
    LinkedFrame(m, k, near, sib);
    LinkedFrame(m, k, t, parent);
    PathFrame(m, k, up, parent, root);
    MkCellParts(g, RootOf(far), RootOf(near), parent, false);
    MkCellParts(g, sib, RootOf(t), HoleOf(up), pred);
    Dissect(k, root, g, far, sib, true, near, g, parent, false, t, up);
  }

  lemma AgreeFour(m: Mem, k: Mem, a: Nodes, b: Nodes, c: Nodes, d: Nodes)
    requires Agree(m, k, a + b + c + d)
    ensures Agree(m, k, a) && Agree(m, k, b) && Agree(m, k, c) && Agree(m, k, d)
  {
    hide Agree;
    AgreeSum(m, k, a + b + c, d);
    AgreeSum(m, k, a + b, c);
    AgreeSum(m, k, a, b);
  }

  lemma TwoChanged(m: Mem, k: Mem, x: RbNode, y: RbNode)
    requires k.Keys == m.Keys && forall n | n in m && n != x && n != y :: k[n] == m[n]
    ensures Changed(m, k, multiset{x} + multiset{y})
  {
  }

  lemma TwoRest(lo: RbNode, hi: RbNode, a: Tree, b: Tree, c: Tree, up: Path)
    ensures PairBag(lo, hi, a, b, c, up) == (multiset{lo} + multiset{hi}) + (Bag(a) + Bag(b) + Bag(c) + PathBag(up))
  {
    hide Bag, PathBag;
  }

  lemma PairSwap(lo: RbNode, hi: RbNode, a: Tree, b: Tree, c: Tree, up: Path)
    ensures PairBag(lo, hi, a, b, c, up) == PairBag(hi, lo, a, b, c, up)
  {
    assert multiset{lo} + multiset{hi} == multiset{hi} + multiset{lo};
    hide Bag, PathBag;
  }

  lemma BlackRoot(m: Mem, k: Mem, t: Tree)
    requires Split(m, RootOf(t), Top, t) && t.Node? && t.n in m && k == m[t.n := m[t.n].(parent := null, red := false)]
    ensures Holds(k, t.n, Blacken(t))
  {
    hide Linked, Bag, Recolour, Below;
    BagParts(t);
    AgreeRest(m, k, RootBag(t), Below(t));
    LinkedUnder(m, t, null);
    Rehung(m, k, t, null, false);
    RecolourFacts(t, false);
  }

  lemma SeeTop(m: Mem, root: RbNode?, t: Tree)
    requires Holds(m, root, t)
    ensures Split(m, root, Top, t) && root == RootOf(t) && Fill(Top, t) == t
    ensures t.Leaf? ==> m.Keys == {}
  {
    if t.Leaf? {
      forall n ensures n !in m.Keys {
        Once(m, Bag(t) + PathBag(Top), n);
      }
    }
  }

  lemma SeeChildren(m: Mem, root: RbNode?, p: Path, t: Tree)
    requires Split(m, root, p, t) && t.Node?
    ensures t.n in m && m[t.n].left == RootOf(t.l) && m[t.n].right == RootOf(t.r)
    ensures Split(m, root, Up(L, t.n, t.red, t.r, p), t.l)
    ensures Split(m, root, Up(R, t.n, t.red, t.l, p), t.r)
  {
    assert t.n in m && m[t.n].left == RootOf(t.l) && m[t.n].right == RootOf(t.r);
    assert t == Mk(L, t.l, t.n, t.red, t.r) == Mk(R, t.r, t.n, t.red, t.l);
    hide Split, Mk, RootOf;
    SplitStep(m, root, L, t.l, t.n, t.red, t.r, p);
    SplitStep(m, root, R, t.r, t.n, t.red, t.l, p);
  }

  /** A new node, linked where the descent ended. */
  lemma LinkedLeaf(m: Mem, k: Mem, root: RbNode?, p: Path, n: RbNode)
    requires Split(m, root, p, Leaf) && p.Up? && p.n in m && n !in m
    requires k == m[p.n := With(p.s, m[p.n], n)][n := Cell(null, null, p.n, true)]
    ensures Split(k, root, p, Node(Leaf, n, true, Leaf))
  {
    PathBagParts(p);
    hide Bag, PathBag, PathRest;
    LeafBag(n);
    assert Bag(Leaf) + PathBag(p) == PathBag(p) == multiset{p.n} + PathRest(p);
    var w := m[p.n := With(p.s, m[p.n], n)];
    AgreeRest(m, w, multiset{p.n}, PathRest(p));
    assert Agree(w, k, PathRest(p));
    assert Agree(m, k, PathRest(p));
    PathChild(m, k, p, null, root, n, root);
    LeafBag(n);
    OneMore(m, k, n, PathBag(p));
    assert Linked(k, Node(Leaf, n, true, Leaf), p.n);
  }

  lemma OneMore(m: Mem, k: Mem, n: RbNode, b: Nodes)
    requires n !in m && k.Keys == m.Keys + {n} && Whole(m, b)
    ensures Whole(k, multiset{n} + b)
  {
    forall x ensures multiset(k.Keys)[x] == (multiset{n} + b)[x] {
      Once(m, b, x);
      assert multiset(k.Keys)[x] == if x in k then 1 else 0;
    }
  }

  lemma LeafBag(n: RbNode)
    ensures Bag(Leaf) == multiset{} && Bag(Node(Leaf, n, true, Leaf)) == multiset{n}
  {
  }

  lemma FirstLeaf(m: Mem, n: RbNode)
    requires m.Keys == {n} && m[n] == Cell(null, null, null, true)
    ensures Split(m, n, Top, Node(Leaf, n, true, Leaf))
  {
    LeafBag(n);
  }
}
