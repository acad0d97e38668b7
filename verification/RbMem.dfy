// What the pointers of a tree spell, stated over a snapshot of the nodes' fields. That nothing is
// shared and nothing lost is one equation between bags of nodes.
module RbMem {
  import opened RbSpec

  datatype Cell = Cell(left: RbNode?, right: RbNode?, parent: RbNode?, red: bool)

  type Mem = map<RbNode, Cell>

  type Nodes = multiset<RbNode>

  function Bag(t: Tree): Nodes {
    match t
    case Leaf => multiset{}
    case Node(l, n, _, r) => Bag(l) + multiset{n} + Bag(r)
  }

  function PathBag(p: Path): Nodes {
    match p
    case Top => multiset{}
    case Up(_, n, _, sib, up) => Bag(sib) + multiset{n} + PathBag(up)
  }

  function RootOf(t: Tree): RbNode? {
    if t.Leaf? then null else t.n
  }

  function HoleOf(p: Path): RbNode? {
    if p.Top? then null else p.n
  }

  /** The pointers spell t, hanging from par. */
  predicate Linked(m: Mem, t: Tree, par: RbNode?) {
    t.Node? ==>
      && t.n in m && m[t.n] == Cell(RootOf(t.l), RootOf(t.r), par, t.red)
      && Linked(m, t.l, t.n) && Linked(m, t.r, t.n)
  }

  /** Like Linked, but whatever t's root says about its parent and colour. */
  predicate Under(m: Mem, t: Tree) {
    t.Node? ==>
      && t.n in m && m[t.n].left == RootOf(t.l) && m[t.n].right == RootOf(t.r)
      && Linked(m, t.l, t.n) && Linked(m, t.r, t.n)
  }

  function Other(s: Side): Side {
    if s == L then R else L
  }

  /** A cell whose child on side s is a and whose other child is b. */
  function MkCell(s: Side, a: RbNode?, b: RbNode?, parent: RbNode?, red: bool): Cell {
    if s == L then Cell(a, b, parent, red) else Cell(b, a, parent, red)
  }

  function ChildOn(s: Side, c: Cell): RbNode? {
    if s == L then c.left else c.right
  }

  /** c with x as its child on side s. */
  function With(s: Side, c: Cell, x: RbNode?): Cell {
    if s == L then c.(left := x) else c.(right := x)
  }

  /** The pointers spell the path p, with child in its hole and root at its top. */
  predicate PathLinked(m: Mem, p: Path, child: RbNode?, root: RbNode?) {
    match p
    case Top => root == child
    case Up(s, n, red, sib, up) =>
      && n in m && m[n] == MkCell(s, child, RootOf(sib), HoleOf(up), red)
      && Linked(m, sib, n) && PathLinked(m, up, n, root)
  }

  /** The whole structure is t in the hole of p: the pointers spell it, no node occurs twice, and there are no
      other nodes. */
  predicate Split(m: Mem, root: RbNode?, p: Path, t: Tree) {
    Linked(m, t, HoleOf(p)) && PathLinked(m, p, RootOf(t), root) && Whole(m, Bag(t) + PathBag(p))
  }

  predicate Whole(m: Mem, b: Nodes) {
    b == multiset(m.Keys)
  }

  predicate Holds(m: Mem, root: RbNode?, t: Tree) {
    Split(m, root, Top, t)
  }

  lemma MkBag(s: Side, a: Tree, n: RbNode, red: bool, b: Tree)
    ensures Bag(Mk(s, a, n, red, b)) == Bag(a) + multiset{n} + Bag(b)
    ensures RootOf(Mk(s, a, n, red, b)) == n
  {
    BagComm(Bag(a), multiset{n}, Bag(b));
  }

  lemma BagComm(a: Nodes, n: Nodes, b: Nodes)
    ensures a + n + b == b + n + a
  {
  }

  lemma MkLinked(m: Mem, s: Side, a: Tree, n: RbNode, red: bool, b: Tree, par: RbNode?)
    ensures Linked(m, Mk(s, a, n, red, b), par) <==>
              n in m && m[n] == MkCell(s, RootOf(a), RootOf(b), par, red) && Linked(m, a, n) && Linked(m, b, n)
  {
  }

  lemma MkOther(s: Side, a: Tree, n: RbNode, red: bool, b: Tree)
    ensures Mk(Other(s), a, n, red, b) == Mk(s, b, n, red, a)
  {
  }

  lemma RecolourFacts(t: Tree, red: bool)
    ensures Bag(Recolour(t, red)) == Bag(t) && RootOf(Recolour(t, red)) == RootOf(t)
    ensures Recolour(t, IsRed(t)) == t
  {
  }

  lemma LinkedUnder(m: Mem, t: Tree, par: RbNode?)
    requires Linked(m, t, par)
    ensures Under(m, t)
    ensures t.Node? ==> t.n in m && m[t.n].parent == par && m[t.n].red == t.red
  {
  }

  /** One step down or up the zipper. */
  lemma SplitStep(m: Mem, root: RbNode?, s: Side, t: Tree, n: RbNode, red: bool, sib: Tree, up: Path)
    ensures Split(m, root, Up(s, n, red, sib, up), t) <==> Split(m, root, up, Mk(s, t, n, red, sib))
  {
    hide Linked, Bag, Mk, RootOf;
    MkBag(s, t, n, red, sib);
    MkLinked(m, s, t, n, red, sib, HoleOf(up));
    assert Bag(t) + PathBag(Up(s, n, red, sib, up)) == Bag(Mk(s, t, n, red, sib)) + PathBag(up);
  }

  lemma {:induction false} SplitFill(m: Mem, root: RbNode?, p: Path, t: Tree)
    ensures Split(m, root, p, t) <==> Holds(m, root, Fill(p, t))
    decreases p
  {
    hide Split;
    if p.Up? {
      SplitStep(m, root, p.s, t, p.n, p.red, p.sib, p.up);
      SplitFill(m, root, p.up, Mk(p.s, t, p.n, p.red, p.sib));
    }
  }

  // ----- frames -----

  /** k differs from m at most at the nodes of b. */
  predicate Changed(m: Mem, k: Mem, b: Nodes) {
    m.Keys == k.Keys && forall n | n in m && n !in b :: k[n] == m[n]
  }

  predicate Agree(m: Mem, k: Mem, b: Nodes) {
    forall n | n in b :: n in m && n in k && k[n] == m[n]
  }

  /** What is not touched stays. */
  lemma AgreeRest(m: Mem, k: Mem, touched: Nodes, rest: Nodes)
    requires Whole(m, touched + rest) && Changed(m, k, touched)
    ensures Agree(m, k, rest) && Whole(k, touched + rest)
  {
    forall n | n in rest ensures n in m && n !in touched {
      assert (touched + rest)[n] == touched[n] + rest[n];
      assert multiset(m.Keys)[n] <= 1;
    }
  }

  lemma {:induction false} LinkedFrame(m: Mem, k: Mem, t: Tree, par: RbNode?)
    requires Linked(m, t, par) && Agree(m, k, Bag(t))
    ensures Linked(k, t, par)
    decreases t
  {
    hide Agree, Bag;
    if t.Node? {
      AgreeParts(m, k, t);
      LinkedFrame(m, k, t.l, t.n);
      LinkedFrame(m, k, t.r, t.n);
    }
  }

  lemma AgreeSum(m: Mem, k: Mem, a: Nodes, b: Nodes)
    requires Agree(m, k, a + b)
    ensures Agree(m, k, a) && Agree(m, k, b)
  {
    assert forall n | n in a || n in b :: n in a + b;
  }

  lemma AgreeOne(m: Mem, k: Mem, n: RbNode)
    requires Agree(m, k, multiset{n})
    ensures n in m && n in k && k[n] == m[n]
  {
    assert n in multiset{n};
  }

  lemma AgreeParts(m: Mem, k: Mem, t: Tree)
    requires t.Node? && Agree(m, k, Bag(t))
    ensures Agree(m, k, Bag(t.l)) && Agree(m, k, Bag(t.r)) && t.n in m && t.n in k && m[t.n] == k[t.n]
  {
    assert Bag(t) == Bag(t.l) + multiset{t.n} + Bag(t.r);
    hide Bag, Agree;
    AgreeSum(m, k, Bag(t.l) + multiset{t.n}, Bag(t.r));
    AgreeSum(m, k, Bag(t.l), multiset{t.n});
    AgreeOne(m, k, t.n);
  }

  lemma {:induction false} PathFrame(m: Mem, k: Mem, p: Path, child: RbNode?, root: RbNode?)
    requires PathLinked(m, p, child, root) && Agree(m, k, PathBag(p))
    ensures PathLinked(k, p, child, root)
    decreases p
  {
    hide Agree, Bag, Linked;
    if p.Up? {
      assert PathBag(p) == Bag(p.sib) + multiset{p.n} + PathBag(p.up);
      AgreeSum(m, k, Bag(p.sib) + multiset{p.n}, PathBag(p.up));
      AgreeSum(m, k, Bag(p.sib), multiset{p.n});
      AgreeOne(m, k, p.n);
      LinkedFrame(m, k, p.sib, p.n);
      PathFrame(m, k, p.up, p.n, root);
    }
  }

  function RootBag(t: Tree): Nodes {
    if t.Leaf? then multiset{} else multiset{t.n}
  }

  function Below(t: Tree): Nodes {
    if t.Leaf? then multiset{} else Bag(t.l) + Bag(t.r)
  }

  function HoleBag(p: Path): Nodes {
    if p.Top? then multiset{} else multiset{p.n}
  }

  function PathRest(p: Path): Nodes {
    if p.Top? then multiset{} else Bag(p.sib) + PathBag(p.up)
  }

  lemma BagParts(t: Tree)
    ensures Bag(t) == RootBag(t) + Below(t)
  {
  }

  lemma PathBagParts(p: Path)
    ensures PathBag(p) == HoleBag(p) + PathRest(p)
  {
  }

  /** Only the path's lowest node knows what hangs in the hole. */
  lemma PathChild(m: Mem, k: Mem, p: Path, child: RbNode?, root: RbNode?, other: RbNode?, top: RbNode?)
    requires PathLinked(m, p, child, root) && Agree(m, k, PathRest(p))
    requires p.Top? ==> top == other
    requires p.Up? ==> top == root && p.n in k && k[p.n] == MkCell(p.s, other, RootOf(p.sib), HoleOf(p.up), p.red)
    ensures PathLinked(k, p, other, top)
  {
    hide Agree, Bag, PathBag, Linked;
    if p.Up? {
      AgreeSum(m, k, Bag(p.sib), PathBag(p.up));
      LinkedFrame(m, k, p.sib, p.n);
      PathFrame(m, k, p.up, p.n, root);
    }
  }

  /** t's root now hangs from par with colour red; its children are as they were. */
  predicate Hung(m: Mem, k: Mem, t: Tree, par: RbNode?, red: bool) {
    t.Node? ==> t.n in m && t.n in k && k[t.n] == m[t.n].(parent := par, red := red)
  }

  /** A subtree whose root has been rehung and recoloured, and nothing below it touched. */
  lemma Rehung(m: Mem, k: Mem, t: Tree, par: RbNode?, red: bool)
    requires Under(m, t) && Hung(m, k, t, par, red) && Agree(m, k, Below(t))
    ensures Linked(k, Recolour(t, red), par)
  {
    hide Agree, Bag;
    if t.Node? {
      AgreeSum(m, k, Bag(t.l), Bag(t.r));
      LinkedFrame(m, k, t.l, t.n);
      LinkedFrame(m, k, t.r, t.n);
    }
  }

  // ----- two nodes, three subtrees and the path above them: what every repair step works on -----

  /** lo, over a and b, is a child of hi, whose other child is c. */
  predicate Joint(m: Mem, par: RbNode?, s: Side, a: Tree, lo: RbNode, lored: bool, b: Tree, g: Side, hi: RbNode,
      hired: bool, c: Tree) {
    && lo in m && hi in m
    && m[lo] == MkCell(s, RootOf(a), RootOf(b), hi, lored) && m[hi] == MkCell(g, lo, RootOf(c), par, hired)
    && Linked(m, a, lo) && Linked(m, b, lo) && Linked(m, c, hi)
  }

  lemma JointLinked(m: Mem, par: RbNode?, s: Side, a: Tree, lo: RbNode, lored: bool, b: Tree, g: Side, hi: RbNode,
      hired: bool, c: Tree)
    ensures Linked(m, Mk(g, Mk(s, a, lo, lored, b), hi, hired, c), par) <==>
        Joint(m, par, s, a, lo, lored, b, g, hi, hired, c)
  {
    hide Linked, Bag, Mk, RootOf, MkCell;
    MkBag(s, a, lo, lored, b);
    MkLinked(m, s, a, lo, lored, b, hi);
    MkLinked(m, g, Mk(s, a, lo, lored, b), hi, hired, c, par);
  }

  function PairBag(lo: RbNode, hi: RbNode, a: Tree, b: Tree, c: Tree, up: Path): Nodes {
    multiset{lo} + multiset{hi} + Bag(a) + Bag(b) + Bag(c) + PathBag(up)
  }

  lemma Dissect(m: Mem, root: RbNode?, s: Side, a: Tree, lo: RbNode, lored: bool, b: Tree, g: Side, hi: RbNode,
      hired: bool, c: Tree, up: Path)
    ensures Split(m, root, up, Mk(g, Mk(s, a, lo, lored, b), hi, hired, c)) <==>
        && Whole(m, PairBag(lo, hi, a, b, c, up))
        && Joint(m, HoleOf(up), s, a, lo, lored, b, g, hi, hired, c)
        && PathLinked(m, up, hi, root)
  {
    hide Linked, Bag, Mk, RootOf, HoleOf, PathLinked, PathBag, Whole, Joint;
    JointLinked(m, HoleOf(up), s, a, lo, lored, b, g, hi, hired, c);
    MkBag(s, a, lo, lored, b);
    MkBag(g, Mk(s, a, lo, lored, b), hi, hired, c);
    assert Bag(Mk(g, Mk(s, a, lo, lored, b), hi, hired, c)) + PathBag(up) == PairBag(lo, hi, a, b, c, up);
  }

  /** A member of a bag that makes up the whole occurs once in it. */
  lemma Once(m: Mem, b: Nodes, n: RbNode)
    requires Whole(m, b)
    ensures b[n] == if n in m then 1 else 0
  {
  }

  // ----- rotations -----

  /** Before a rotation: lo hangs from up with c on the far side; hi, over a, is to take its place;
      b is to become lo's child on side s. The roots of a and b may still name another parent or colour. */
  predicate Turn(m: Mem, root: RbNode?, s: Side, a: Tree, hi: RbNode, b: Tree, lo: RbNode, c: Tree, up: Path) {
    && lo in m && hi in m && Whole(m, PairBag(lo, hi, a, b, c, up))
    && Under(m, a) && ChildOn(s, m[hi]) == RootOf(a)
    && Under(m, b)
    && Linked(m, c, lo) && ChildOn(Other(s), m[lo]) == RootOf(c)
    && m[lo].parent == HoleOf(up) && PathLinked(m, up, lo, root)
  }

  /** The nodes a rotation writes, without and with the one above. */
  function TurnBag(lo: RbNode, hi: RbNode, a: Tree, b: Tree): Nodes {
    multiset{lo} + multiset{hi} + RootBag(a) + RootBag(b)
  }

  function Touched(lo: RbNode, hi: RbNode, a: Tree, b: Tree, up: Path): Nodes {
    TurnBag(lo, hi, a, b) + HoleBag(up)
  }

  lemma TurnParts(lo: RbNode, hi: RbNode, a: Tree, b: Tree, c: Tree, up: Path)
    ensures PairBag(lo, hi, a, b, c, up) == TurnBag(lo, hi, a, b) + (Below(a) + Below(b) + Bag(c) + PathBag(up))
    ensures PairBag(lo, hi, a, b, c, up) == Touched(lo, hi, a, b, up) + (Below(a) + Below(b) + Bag(c) + PathRest(up))
  {
    hide Bag, PathBag, RootBag, HoleBag, Below, PathRest;
    BagParts(a);
    BagParts(b);
    PathBagParts(up);
  }

  lemma TurnedParts(m: Mem, k: Mem, root: RbNode?, s: Side, a: Tree, ared: bool, hi: RbNode, b: Tree, bred: bool,
      lo: RbNode, c: Tree, up: Path)
    requires Turn(m, root, s, a, hi, b, lo, c, up)
    requires Changed(m, k, Touched(lo, hi, a, b, up)) && Hung(m, k, a, hi, ared) && Hung(m, k, b, lo, bred)
    ensures Linked(k, Recolour(a, ared), hi) && Linked(k, Recolour(b, bred), lo) && Linked(k, c, lo)
    ensures Whole(k, PairBag(lo, hi, Recolour(a, ared), Recolour(b, bred), c, up))
  {
    hide Linked, Bag, PathLinked, PathBag, Recolour, Under, RootBag, HoleBag, Whole, Below, PathRest, Touched, Changed,
        Hung, Agree;
    TurnParts(lo, hi, a, b, c, up);
    AgreeRest(m, k, Touched(lo, hi, a, b, up), Below(a) + Below(b) + Bag(c) + PathRest(up));
    AgreeSum(m, k, Below(a) + Below(b) + Bag(c), PathRest(up));
    AgreeSum(m, k, Below(a) + Below(b), Bag(c));
    AgreeSum(m, k, Below(a), Below(b));
    LinkedFrame(m, k, c, lo);
    Rehung(m, k, a, hi, ared);
    Rehung(m, k, b, lo, bred);
    RecolourFacts(a, ared);
    RecolourFacts(b, bred);
  }

  /** After a rotation. */
  lemma Turned(m: Mem, k: Mem, root: RbNode?, top: RbNode?, s: Side, a: Tree, ared: bool, hi: RbNode, hired: bool,
               b: Tree, bred: bool, lo: RbNode, lored: bool, c: Tree, up: Path)
    requires Turn(m, root, s, a, hi, b, lo, c, up)
    requires Changed(m, k, Touched(lo, hi, a, b, up)) && Hung(m, k, a, hi, ared) && Hung(m, k, b, lo, bred)
    requires lo in k && k[lo] == MkCell(s, RootOf(b), RootOf(c), hi, lored)
    requires hi in k && k[hi] == MkCell(s, RootOf(a), lo, HoleOf(up), hired)
    requires PathLinked(k, up, hi, top)
    ensures Split(k, top, up, Mk(s, Recolour(a, ared), hi, hired, Mk(s, Recolour(b, bred), lo, lored, c)))
  {
    var a', b' := Recolour(a, ared), Recolour(b, bred);
    TurnedParts(m, k, root, s, a, ared, hi, b, bred, lo, c, up);
    RecolourFacts(a, ared);
    RecolourFacts(b, bred);
    TurnJoint(k, s, a', hi, hired, b', lo, lored, c, HoleOf(up));
    hide Linked, Bag, PathLinked, PathBag, Recolour, Under, Split, Joint, Hung, Turn, MkCell, RootOf, HoleOf, Touched,
        Whole, Changed;
    hide Mk, Other, PairBag;
    PairComm(lo, hi, a', b', c, up);
    Dissect(k, top, s, b', lo, lored, c, Other(s), hi, hired, a', up);
    MkOther(s, Mk(s, b', lo, lored, c), hi, hired, a');
  }

  lemma PairComm(lo: RbNode, hi: RbNode, a: Tree, b: Tree, c: Tree, up: Path)
    ensures PairBag(lo, hi, b, c, a, up) == PairBag(lo, hi, a, b, c, up)
  {
    hide Bag, PathBag;
  }

  lemma TurnJoint(k: Mem, s: Side, a: Tree, hi: RbNode, hired: bool, b: Tree, lo: RbNode, lored: bool, c: Tree,
      par: RbNode?)
    requires lo in k && hi in k && Linked(k, a, hi) && Linked(k, b, lo) && Linked(k, c, lo)
    requires k[lo] == MkCell(s, RootOf(b), RootOf(c), hi, lored) && k[hi] == MkCell(s, RootOf(a), lo, par, hired)
    ensures Joint(k, par, s, b, lo, lored, c, Other(s), hi, hired, a)
  {
    hide Linked, RootOf;
  }
}
