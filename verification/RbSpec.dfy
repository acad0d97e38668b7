// Red-black trees as values. A node is identified by the object that carries its links; a path is
// what an iterative algorithm leaves behind on its way down: a tree with a hole.
module RbSpec {
  class RbNode {
    var left: RbNode?
    var right: RbNode?
    var parent: RbNode?
    var red: bool
    const item: nat

    constructor (item: nat)
      ensures this.item == item
    {
      this.item := item;
      left, right, parent, red := null, null, null, true;
    }
  }

  datatype Side = L | R

  datatype Tree = Leaf | Node(l: Tree, n: RbNode, red: bool, r: Tree)

  /** `Up(s, n, ...)`: the hole is n's child on side s; sib is n's other child. */
  datatype Path = Top | Up(s: Side, n: RbNode, red: bool, sib: Tree, up: Path)

  /** A node whose child on side s is a and whose other child is b. */
  function Mk(s: Side, a: Tree, n: RbNode, red: bool, b: Tree): (t: Tree)
    ensures t.Node? && t.n == n && t.red == red
  {
    if s == L then Node(a, n, red, b) else Node(b, n, red, a)
  }

  function Near(s: Side, t: Tree): Tree
    requires t.Node?
  {
    if s == L then t.l else t.r
  }

  function Far(s: Side, t: Tree): Tree
    requires t.Node?
  {
    if s == L then t.r else t.l
  }

  function Fill(p: Path, t: Tree): Tree {
    match p
    case Top => t
    case Up(s, n, red, sib, up) => Fill(up, Mk(s, t, n, red, sib))
  }

  predicate IsRed(t: Tree) {
    t.Node? && t.red
  }

  function Recolour(t: Tree, red: bool): Tree {
    if t.Leaf? then t else t.(red := red)
  }

  function Blacken(t: Tree): Tree {
    Recolour(t, false)
  }

  // ----- what a red-black tree is -----

  function InOrder(t: Tree): seq<RbNode> {
    match t
    case Leaf => []
    case Node(l, n, _, r) => InOrder(l) + [n] + InOrder(r)
  }

  function BlackHeight(t: Tree): nat {
    match t
    case Leaf => 0
    case Node(l, _, red, _) => BlackHeight(l) + if red then 0 else 1
  }

  /** Every path from a node to a leaf meets the same number of black nodes. */
  predicate Balanced(t: Tree) {
    t.Node? ==> BlackHeight(t.l) == BlackHeight(t.r) && Balanced(t.l) && Balanced(t.r)
  }

  /** No red node has a red child. */
  predicate NoRedRed(t: Tree) {
    t.Node? ==> (t.red ==> !IsRed(t.l) && !IsRed(t.r)) && NoRedRed(t.l) && NoRedRed(t.r)
  }

  predicate RedBlack(t: Tree) {
    !IsRed(t) && Balanced(t) && NoRedRed(t)
  }

  // ----- the same for a tree with a hole -----

  predicate TopRed(p: Path) {
    p.Up? && p.red
  }

  /** The hole wants a tree of black height h. */
  predicate PathBalanced(p: Path, h: nat) {
    p.Up? ==> Balanced(p.sib) && BlackHeight(p.sib) == h && PathBalanced(p.up, h + if p.red then 0 else 1)
  }

  /** Colours around the hole are right, and the root is black. */
  predicate PathColoured(p: Path) {
    p.Up? ==>
      && NoRedRed(p.sib) && PathColoured(p.up)
      && (p.red ==> !IsRed(p.sib) && !TopRed(p.up) && p.up.Up?)
  }

  function Before(p: Path): seq<RbNode> {
    match p
    case Top => []
    case Up(s, n, _, sib, up) => Before(up) + if s == L then [] else InOrder(sib) + [n]
  }

  function After(p: Path): seq<RbNode> {
    match p
    case Top => []
    case Up(s, n, _, sib, up) => (if s == L then [n] + InOrder(sib) else []) + After(up)
  }

  lemma {:induction false} FillInOrder(p: Path, t: Tree)
    ensures InOrder(Fill(p, t)) == Before(p) + InOrder(t) + After(p)
  {
    if p.Up? {
      var m := Mk(p.s, t, p.n, p.red, p.sib);
      FillInOrder(p.up, m);
      if p.s == L {
        Regroup(Before(p.up), InOrder(t), [p.n] + InOrder(p.sib), After(p.up));
        assert InOrder(m) == InOrder(t) + ([p.n] + InOrder(p.sib));
        assert Before(p.up) + [] == Before(p.up);
      } else {
        Regroup(Before(p.up), InOrder(p.sib) + [p.n], InOrder(t), After(p.up));
        assert [] + After(p.up) == After(p.up);
      }
    }
  }

  lemma Regroup(a: seq<RbNode>, b: seq<RbNode>, c: seq<RbNode>, d: seq<RbNode>)
    ensures a + (b + c) + d == (a + b) + c + d == a + b + (c + d)
  {
  }

  /** A good tree in a hole it suits makes a good tree. */
  lemma {:induction false} FillRedBlack(p: Path, t: Tree)
    requires PathColoured(p) && PathBalanced(p, BlackHeight(t))
    requires Balanced(t) && NoRedRed(t) && (IsRed(t) ==> p.Up? && !p.red)
    ensures RedBlack(Fill(p, t))
  {
    if p.Up? {
      FillRedBlack(p.up, Mk(p.s, t, p.n, p.red, p.sib));
    }
  }

  /** Conversely, every part of a good tree is good. */
  lemma {:induction false} HoleInRedBlack(p: Path, t: Tree)
    requires RedBlack(Fill(p, t))
    ensures PathColoured(p) && PathBalanced(p, BlackHeight(t))
    ensures Balanced(t) && NoRedRed(t) && (IsRed(t) ==> p.Up? && !p.red)
  {
    if p.Up? {
      HoleInRedBlack(p.up, Mk(p.s, t, p.n, p.red, p.sib));
    }
  }

  /** What a node needs from its parts, and what it has. */
  lemma MkGood(s: Side, a: Tree, n: RbNode, red: bool, b: Tree)
    ensures var t := Mk(s, a, n, red, b);
            && (Balanced(t) <==> Balanced(a) && Balanced(b) && BlackHeight(a) == BlackHeight(b))
            && (NoRedRed(t) <==> NoRedRed(a) && NoRedRed(b) && (red ==> !IsRed(a) && !IsRed(b)))
            && (Balanced(t) ==> BlackHeight(t) == BlackHeight(a) + if red then 0 else 1)
            && IsRed(t) == red && Near(s, t) == a && Far(s, t) == b && t.n == n
  {
  }

  lemma BlackenGood(t: Tree)
    ensures Balanced(t) ==> Balanced(Blacken(t))
    ensures NoRedRed(t) ==> NoRedRed(Blacken(t))
    ensures BlackHeight(Blacken(t)) == BlackHeight(t) + if IsRed(t) then 1 else 0
    ensures !IsRed(Blacken(t)) && (!IsRed(t) ==> Blacken(t) == t)
  {
  }

  // ----- insertion -----

  /** The loop of `__rb_insert_fix`, for a red node t hung into the hole of p. `s` is the side t hangs
      on, `g` the side its parent hangs on; both mirror images are here. */
  function InsertFix(p: Path, t: Tree): Tree
    requires t.Node?
    decreases p
  {
    match p
    case Top => Blacken(t)
    case Up(s, parent, false, sib, up) => Fill(p, t)
    case Up(s, parent, true, sib, Top) => Fill(p, t)
    case Up(s, parent, true, sib, Up(g, gparent, gred, uncle, up)) =>
      if IsRed(uncle) then
        InsertFix(up, Mk(g, Mk(s, t, parent, false, sib), gparent, true, Blacken(uncle)))
      else if s == g then
        Fill(up, Mk(g, t, parent, gred, Mk(g, Blacken(sib), gparent, true, uncle)))
      else
        Fill(up, Mk(g, Mk(g, sib, parent, true, Blacken(Near(g, t))), t.n, gred,
                    Mk(g, Blacken(Far(g, t)), gparent, true, uncle)))
  }

  /** InsertFix, one case at a time. */
  lemma InsertFixCases(p: Path, t: Tree)
    requires t.Node?
    ensures p.Top? ==> InsertFix(p, t) == Blacken(t)
    ensures p.Up? && !p.red ==> InsertFix(p, t) == Fill(p, t)
    ensures p.Up? && p.red && p.up.Up? && IsRed(p.up.sib) ==>
      InsertFix(p, t) == InsertFix(p.up.up, Mk(p.up.s, Mk(p.s, t, p.n, false, p.sib), p.up.n, true, Blacken(p.up.sib)))
    ensures p.Up? && p.red && p.up.Up? && !IsRed(p.up.sib) ==>
      InsertFix(p, t) == Fill(p.up.up,
        if p.s == p.up.s then Mk(p.up.s, t, p.n, p.up.red, Mk(p.up.s, Blacken(p.sib), p.up.n, true, p.up.sib))
        else Mk(p.up.s, Mk(p.up.s, p.sib, p.n, true, Blacken(Near(p.up.s, t))), t.n, p.up.red,
                Mk(p.up.s, Blacken(Far(p.up.s, t)), p.up.n, true, p.up.sib)))
  {
    hide Mk, Recolour, Near, Far, Fill;
  }

  lemma BlackenInOrder(t: Tree)
    ensures InOrder(Blacken(t)) == InOrder(t)
  {
  }

  lemma NearFar(s: Side, t: Tree)
    requires t.Node?
    ensures t == Mk(s, Near(s, t), t.n, t.red, Far(s, t))
  {
  }

  /** Both rotations, as equations on sequences. */
  lemma RotateOrder(s: Side, a: Tree, m: RbNode, b: Tree, n: RbNode, c: Tree, x: bool, y: bool, u: bool, v: bool)
    ensures InOrder(Mk(s, Mk(s, a, m, x, b), n, y, c)) == InOrder(Mk(s, a, m, u, Mk(s, b, n, v, c)))
  {
    if s == L {
      assert (InOrder(a) + [m] + InOrder(b)) + [n] + InOrder(c) == InOrder(a) + [m] + (InOrder(b) + [n] + InOrder(c));
    } else {
      assert InOrder(c) + [n] + (InOrder(b) + [m] + InOrder(a)) == (InOrder(c) + [n] + InOrder(b)) + [m] + InOrder(a);
    }
  }

  /** Repairing an insertion moves nothing in the order. */
  lemma {:induction false} InsertFixOrder(p: Path, t: Tree)
    requires t.Node?
    ensures InOrder(InsertFix(p, t)) == InOrder(Fill(p, t))
    decreases p
  {
    match p
    case Top => BlackenInOrder(t);
    case Up(s, parent, false, sib, up) =>
    case Up(s, parent, true, sib, Top) =>
    case Up(s, parent, true, sib, Up(g, gparent, gred, uncle, up)) =>
      FillInOrder(up, Mk(g, Mk(s, t, parent, true, sib), gparent, gred, uncle));
      BlackenInOrder(uncle);
      BlackenInOrder(sib);
      if IsRed(uncle) {
        var m := Mk(g, Mk(s, t, parent, false, sib), gparent, true, Blacken(uncle));
        InsertFixOrder(up, m);
        FillInOrder(up, m);
      } else if s == g {
        var m := Mk(g, t, parent, gred, Mk(g, Blacken(sib), gparent, true, uncle));
        FillInOrder(up, m);
        RotateOrder(g, t, parent, sib, gparent, uncle, true, gred, gred, true);
      } else {
        InnerOrder(g, sib, parent, t, gparent, uncle, gred);
        FillInOrder(up, Mk(g, Mk(g, sib, parent, true, Blacken(Near(g, t))), t.n, gred,
                           Mk(g, Blacken(Far(g, t)), gparent, true, uncle)));
      }
  }

  lemma InnerOrder(g: Side, sib: Tree, parent: RbNode, t: Tree, gparent: RbNode, uncle: Tree, gred: bool)
    requires t.Node?
    ensures InOrder(Mk(g, Mk(g, sib, parent, true, Blacken(Near(g, t))), t.n, gred,
        Mk(g, Blacken(Far(g, t)), gparent, true, uncle)))
         == InOrder(Mk(g, Mk(g, sib, parent, true, t), gparent, gred, uncle))
  {
    var a, b := Near(g, t), Far(g, t);
    BlackenInOrder(a);
    BlackenInOrder(b);
    RotateOrder(g, sib, parent, a, t.n, b, true, t.red, true, t.red);
    RotateOrder(g, Mk(g, sib, parent, true, a), t.n, b, gparent, uncle, gred, gred, gred, true);
  }

  lemma {:induction false} InsertFixRedBlack(p: Path, t: Tree)
    requires IsRed(t) && Balanced(t) && NoRedRed(t)
    requires PathColoured(p) && PathBalanced(p, BlackHeight(t))
    ensures RedBlack(InsertFix(p, t))
    decreases p
  {
    hide Balanced, NoRedRed, BlackHeight, Mk, Near, Far, Recolour;
    match p
    case Top => BlackenGood(t);
    case Up(s, parent, false, sib, up) => FillRedBlack(p, t);
    case Up(s, parent, true, sib, Top) =>
    case Up(s, parent, true, sib, Up(g, gparent, gred, uncle, up)) =>
      BlackenGood(uncle);
      BlackenGood(sib);
      if IsRed(uncle) {
        MkGood(s, t, parent, false, sib);
        MkGood(g, Mk(s, t, parent, false, sib), gparent, true, Blacken(uncle));
        InsertFixRedBlack(up, Mk(g, Mk(s, t, parent, false, sib), gparent, true, Blacken(uncle)));
      } else if s == g {
        MkGood(g, sib, gparent, true, uncle);
        MkGood(g, t, parent, gred, Mk(g, sib, gparent, true, uncle));
        FillRedBlack(up, Mk(g, t, parent, gred, Mk(g, sib, gparent, true, uncle)));
      } else {
        var a, b := Near(g, t), Far(g, t);
        NearFar(g, t);
        MkGood(g, a, t.n, t.red, b);
        BlackenGood(a);
        BlackenGood(b);
        MkGood(g, sib, parent, true, a);
        MkGood(g, b, gparent, true, uncle);
        MkGood(g, Mk(g, sib, parent, true, a), t.n, gred, Mk(g, b, gparent, true, uncle));
        FillRedBlack(up, Mk(g, Mk(g, sib, parent, true, a), t.n, gred, Mk(g, b, gparent, true, uncle)));
      }
  }

  // ----- erasure -----

  /** One turn of the loop of `__rb_erase_fix` with a black sibling: the tree that replaces the
      parent's, and whether that is still one black node short. */
  function EraseLocal(s: Side, t: Tree, parent: RbNode, pred: bool, sib: Tree): (Tree, bool)
    requires sib.Node?
  {
    var near, far := Near(s, sib), Far(s, sib);
    if !IsRed(far) then
      if !IsRed(near) then
        (Mk(s, t, parent, false, sib.(red := true)), !pred)
      else
        (Mk(s, Mk(s, t, parent, false, Near(s, near)), near.n, pred,
            Mk(s, Blacken(Far(s, near)), sib.n, false, far)), false)
    else
      (Mk(s, Mk(s, t, parent, false, near), sib.n, pred, Blacken(far)), false)
  }

  /** The loop of `__rb_erase_fix`, for a tree t one black node short in the hole of p. */
  function EraseFix(p: Path, t: Tree): Tree
    decreases p
  {
    match p
    case Top => t
    case Up(s, parent, pred, sib, up) =>
      if sib.Leaf? then Fill(p, t)
      else if sib.red then
        var near := Blacken(Near(s, sib));
        if near.Leaf? then Fill(p, t)
        else
          var m := EraseLocal(s, t, parent, true, near);
          Fill(up, Mk(s, m.0, sib.n, pred, Far(s, sib)))
      else
        var m := EraseLocal(s, t, parent, pred, sib);
        if m.1 then EraseFix(up, m.0) else Fill(up, m.0)
  }

  /** What the loop needs to find a sibling, and a nephew below a red one. */
  predicate Short(p: Path, t: Tree) {
    PathColoured(p) && PathBalanced(p, BlackHeight(t) + 1) && Balanced(t)
  }

  lemma ShortSibling(p: Path, t: Tree)
    requires Short(p, t) && p.Up?
    ensures p.sib.Node?
    ensures p.sib.red ==> Near(p.s, p.sib).Node? && !IsRed(Near(p.s, p.sib))
  {
  }

  lemma ShortUp(p: Path, t: Tree)
    requires Short(p, t) && p.Up? && !p.red && !IsRed(p.sib) && p.sib.Node?
    ensures Short(p.up, Mk(p.s, t, p.n, false, p.sib.(red := true)))
  {
    var sib := p.sib.(red := true);
    assert Balanced(sib) && BlackHeight(sib) == BlackHeight(p.sib) - 1;
    MkGood(p.s, t, p.n, false, sib);
  }

  /** EraseFix below a red sibling goes on one level further down. */
  function Lowered(p: Path): Path
    requires p.Up? && p.sib.Node?
  {
    Up(p.s, p.n, true, Blacken(Near(p.s, p.sib)), Up(p.s, p.sib.n, p.red, Far(p.s, p.sib), p.up))
  }

  lemma EraseFixCases(p: Path, t: Tree)
    requires p.Up? && p.sib.Node?
    ensures p.sib.red && Near(p.s, p.sib).Node? ==> EraseFix(p, t) == EraseFix(Lowered(p), t)
    ensures !p.sib.red ==>
      var m := EraseLocal(p.s, t, p.n, p.red, p.sib);
      EraseFix(p, t) == if m.1 then EraseFix(p.up, m.0) else Fill(p.up, m.0)
  {
  }

  lemma EraseLocalOrder(s: Side, t: Tree, parent: RbNode, pred: bool, sib: Tree)
    requires sib.Node?
    ensures InOrder(EraseLocal(s, t, parent, pred, sib).0) == InOrder(Mk(s, t, parent, pred, sib))
  {
    var near, far := Near(s, sib), Far(s, sib);
    BlackenInOrder(far);
    if !IsRed(far) && IsRed(near) {
      var c, d := Near(s, near), Far(s, near);
      BlackenInOrder(d);
      RotateOrder(s, c, near.n, d, sib.n, far, near.red, sib.red, pred, false);
      RotateOrder(s, t, parent, c, near.n, Mk(s, d, sib.n, false, far), false, pred, pred, pred);
    } else if IsRed(far) {
      RotateOrder(s, t, parent, near, sib.n, far, false, pred, pred, sib.red);
    }
  }

  lemma {:induction false} EraseFixOrder(p: Path, t: Tree)
    ensures InOrder(EraseFix(p, t)) == InOrder(Fill(p, t))
    decreases p
  {
    match p
    case Top =>
    case Up(s, parent, pred, sib, up) =>
      if sib.Leaf? {
      } else if sib.red {
        var near := Blacken(Near(s, sib));
        if near.Node? {
          BlackenInOrder(Near(s, sib));
          var m := EraseLocal(s, t, parent, true, near);
          EraseLocalOrder(s, t, parent, true, near);
          FillInOrder(up, Mk(s, m.0, sib.n, pred, Far(s, sib)));
          FillInOrder(up, Mk(s, t, parent, pred, sib));
          RotateOrder(s, t, parent, near, sib.n, Far(s, sib), true, pred, pred, sib.red);
        }
      } else {
        var m := EraseLocal(s, t, parent, pred, sib);
        EraseLocalOrder(s, t, parent, pred, sib);
        FillInOrder(up, m.0);
        FillInOrder(up, Mk(s, t, parent, pred, sib));
        if m.1 {
          EraseFixOrder(up, m.0);
        }
      }
  }

  lemma EraseLocalRedBlack(s: Side, t: Tree, parent: RbNode, pred: bool, sib: Tree)
    requires Balanced(t) && NoRedRed(t) && !IsRed(t)
    requires sib.Node? && !sib.red && Balanced(sib) && NoRedRed(sib) && BlackHeight(sib) == BlackHeight(t) + 1
    ensures var m := EraseLocal(s, t, parent, pred, sib);
            && Balanced(m.0) && NoRedRed(m.0) && (IsRed(m.0) ==> pred)
            && BlackHeight(m.0) == BlackHeight(sib) + (if pred then 0 else 1) - (if m.1 then 1 else 0)
            && (m.1 ==> !pred && !IsRed(m.0))
  {
    hide Balanced, NoRedRed, BlackHeight, Mk, Near, Far, Recolour;
    var near, far := Near(s, sib), Far(s, sib);
    NearFar(s, sib);
    MkGood(s, near, sib.n, false, far);
    if !IsRed(far) && !IsRed(near) {
      RedTop(s, sib);
      MkGood(s, near, sib.n, true, far);
      MkGood(s, t, parent, false, Mk(s, near, sib.n, true, far));
    } else if !IsRed(far) {
      var c, d := Near(s, near), Far(s, near);
      NearFar(s, near);
      MkGood(s, c, near.n, near.red, d);
      BlackenGood(d);
      MkGood(s, t, parent, false, c);
      MkGood(s, d, sib.n, false, far);
      MkGood(s, Mk(s, t, parent, false, c), near.n, pred, Mk(s, d, sib.n, false, far));
    } else {
      BlackenGood(far);
      MkGood(s, t, parent, false, near);
      MkGood(s, Mk(s, t, parent, false, near), sib.n, pred, Blacken(far));
    }
  }

  lemma RedTop(s: Side, t: Tree)
    requires t.Node?
    ensures t.(red := true) == Mk(s, Near(s, t), t.n, true, Far(s, t))
  {
  }

  lemma {:induction false} EraseFixRedBlack(p: Path, t: Tree)
    requires Balanced(t) && NoRedRed(t) && !IsRed(t)
    requires PathColoured(p) && PathBalanced(p, BlackHeight(t) + 1)
    ensures RedBlack(EraseFix(p, t))
    decreases p
  {
    match p
    case Top =>
    case Up(s, parent, pred, sib, up) =>
      if sib.red {
        var near := Blacken(Near(s, sib));
        EraseLocalRedBlack(s, t, parent, true, near);
        var m := EraseLocal(s, t, parent, true, near);
        FillRedBlack(up, Mk(s, m.0, sib.n, pred, Far(s, sib)));
      } else {
        EraseLocalRedBlack(s, t, parent, pred, sib);
        var m := EraseLocal(s, t, parent, pred, sib);
        if m.1 {
          EraseFixRedBlack(up, m.0);
        } else {
          FillRedBlack(up, m.0);
        }
      }
  }

  /** The leftmost node. */
  function Leftmost(t: Tree): RbNode
    requires t.Node?
  {
    if t.l.Leaf? then t.n else Leftmost(t.l)
  }

  /** The hole left when the leftmost node of t, hanging in the hole of p, is taken out. */
  function FirstHole(t: Tree, p: Path): Path
    requires t.Node?
    decreases t
  {
    if t.l.Leaf? then p else FirstHole(t.l, Up(L, t.n, t.red, t.r, p))
  }

  function FirstRed(t: Tree): bool
    requires t.Node?
  {
    if t.l.Leaf? then t.red else FirstRed(t.l)
  }

  /** The leftmost node's right subtree. */
  function FirstRest(t: Tree): Tree
    requires t.Node?
  {
    if t.l.Leaf? then t.r else FirstRest(t.l)
  }

  /** A hole one node was taken from, refilled with that node's only child. */
  function Close(p: Path, gone: bool, child: Tree): Tree {
    if child.Node? then Fill(p, Blacken(child)) else if gone then Fill(p, Leaf) else EraseFix(p, Leaf)
  }

  /** `_rb_erase` of the node x that hangs in the hole of p with subtrees l and r. */
  function EraseAt(p: Path, l: Tree, x: RbNode, red: bool, r: Tree): Tree {
    if l.Leaf? then
      if r.Node? then Fill(p, Recolour(r, red)) else if red then Fill(p, Leaf) else EraseFix(p, Leaf)
    else if r.Leaf? then Fill(p, Recolour(l, red))
    else Close(FirstHole(r, Up(R, Leftmost(r), red, l, p)), FirstRed(r), FirstRest(r))
  }

  lemma {:induction false} FirstHoleOrder(t: Tree, p: Path)
    requires t.Node?
    ensures Before(FirstHole(t, p)) == Before(p)
    ensures [Leftmost(t)] + InOrder(FirstRest(t)) + After(FirstHole(t, p)) == InOrder(t) + After(p)
    decreases t
  {
    if t.l.Leaf? {
      assert InOrder(t) == [t.n] + InOrder(t.r);
    } else {
      var q := Up(L, t.n, t.red, t.r, p);
      FirstHoleOrder(t.l, q);
      assert After(q) == [t.n] + InOrder(t.r) + After(p);
      assert InOrder(t.l) + ([t.n] + InOrder(t.r) + After(p)) == (InOrder(t.l) + [t.n] + InOrder(t.r)) + After(p);
      assert Before(q) == Before(p);
    }
  }

  lemma CloseOrder(p: Path, gone: bool, child: Tree)
    ensures InOrder(Close(p, gone, child)) == Before(p) + InOrder(child) + After(p)
  {
    BlackenInOrder(child);
    FillInOrder(p, Blacken(child));
    FillInOrder(p, Leaf);
    EraseFixOrder(p, Leaf);
  }

  /** Erasing takes out exactly x. */
  lemma EraseOrder(p: Path, l: Tree, x: RbNode, red: bool, r: Tree)
    ensures InOrder(EraseAt(p, l, x, red, r)) == Before(p) + (InOrder(l) + InOrder(r)) + After(p)
    ensures InOrder(Fill(p, Node(l, x, red, r))) == Before(p) + (InOrder(l) + [x] + InOrder(r)) + After(p)
  {
    FillInOrder(p, Node(l, x, red, r));
    if l.Leaf? {
      FillInOrder(p, Recolour(r, red));
      FillInOrder(p, Leaf);
      EraseFixOrder(p, Leaf);
      assert InOrder(l) + InOrder(r) == InOrder(r);
    } else if r.Leaf? {
      FillInOrder(p, Recolour(l, red));
      assert InOrder(l) + InOrder(r) == InOrder(l);
    } else {
      EraseInnerOrder(p, l, red, r);
    }
  }

  lemma EraseInnerOrder(p: Path, l: Tree, red: bool, r: Tree)
    requires r.Node?
    ensures InOrder(Close(FirstHole(r, Up(R, Leftmost(r), red, l, p)), FirstRed(r), FirstRest(r)))
         == Before(p) + (InOrder(l) + InOrder(r)) + After(p)
  {
    hide Close, FirstHole, FirstRed, FirstRest, InOrder;
    var q := Up(R, Leftmost(r), red, l, p);
    var h := FirstHole(r, q);
    FirstHoleOrder(r, q);
    CloseOrder(h, FirstRed(r), FirstRest(r));
    assert Before(q) == Before(p) + (InOrder(l) + [Leftmost(r)]);
    assert After(q) == [] + After(p) == After(p);
    SplitFirst(Before(p), InOrder(l), Leftmost(r), InOrder(FirstRest(r)), After(h), InOrder(r), After(p));
  }

  lemma SplitFirst(b: seq<RbNode>, l: seq<RbNode>, y: RbNode, c: seq<RbNode>, a: seq<RbNode>, r: seq<RbNode>,
      d: seq<RbNode>)
    requires [y] + c + a == r + d
    ensures (b + (l + [y])) + c + a == b + (l + r) + d
  {
    assert (b + (l + [y])) + c + a == (b + l) + ([y] + c + a);
  }

  lemma {:induction false} FirstHoleRedBlack(t: Tree, p: Path)
    requires t.Node? && PathColoured(p) && PathBalanced(p, BlackHeight(t))
    requires Balanced(t) && NoRedRed(t) && (IsRed(t) ==> p.Up? && !p.red)
    ensures var q := FirstHole(t, p);
            && PathColoured(q) && PathBalanced(q, BlackHeight(FirstRest(t)) + if FirstRed(t) then 0 else 1)
            && (FirstRed(t) ==> q.Up? && !q.red)
    ensures Balanced(FirstRest(t)) && NoRedRed(FirstRest(t)) && BlackHeight(FirstRest(t)) == 0
    ensures FirstRed(t) ==> !IsRed(FirstRest(t))
    decreases t
  {
    if t.l.Node? {
      FirstHoleRedBlack(t.l, Up(L, t.n, t.red, t.r, p));
    }
  }

  /** A tree of black height zero is a leaf or one red node. */
  lemma FlatTree(t: Tree)
    requires Balanced(t) && NoRedRed(t) && BlackHeight(t) == 0
    ensures t.Node? ==> t.red && t.l.Leaf? && t.r.Leaf?
  {
  }

  lemma CloseRedBlack(p: Path, gone: bool, child: Tree)
    requires PathColoured(p) && PathBalanced(p, if gone then 0 else 1)
    requires Balanced(child) && NoRedRed(child) && BlackHeight(child) == 0 && (gone ==> !IsRed(child))
    ensures RedBlack(Close(p, gone, child))
  {
    FlatTree(child);
    if child.Node? {
      FillRedBlack(p, Blacken(child));
    } else if gone {
      FillRedBlack(p, Leaf);
    } else {
      EraseFixRedBlack(p, Leaf);
    }
  }

  lemma EraseRedBlack(p: Path, l: Tree, x: RbNode, red: bool, r: Tree)
    requires RedBlack(Fill(p, Node(l, x, red, r)))
    ensures RedBlack(EraseAt(p, l, x, red, r))
  {
    HoleInRedBlack(p, Node(l, x, red, r));
    if l.Leaf? {
      FlatTree(r);
      if r.Node? {
        FillRedBlack(p, Recolour(r, red));
      } else if red {
        FillRedBlack(p, Leaf);
      } else {
        EraseFixRedBlack(p, Leaf);
      }
    } else if r.Leaf? {
      FlatTree(l);
      FillRedBlack(p, Recolour(l, red));
    } else {
      var q := Up(R, Leftmost(r), red, l, p);
      FirstHoleRedBlack(r, q);
      CloseRedBlack(FirstHole(r, q), FirstRed(r), FirstRest(r));
    }
  }

  /** The hole an erasure leaves one black node short, if any. */
  function ShortHole(p: Path, l: Tree, red: bool, r: Tree): Path {
    if l.Leaf? then (if r.Node? || red then Top else p)
    else if r.Leaf? || FirstRest(r).Node? || FirstRed(r) then Top
    else FirstHole(r, Up(R, Leftmost(r), red, l, p))
  }

  lemma ShortHoleShort(p: Path, l: Tree, x: RbNode, red: bool, r: Tree)
    requires RedBlack(Fill(p, Node(l, x, red, r)))
    ensures var h := ShortHole(p, l, red, r); h.Up? ==> Short(h, Leaf) && EraseAt(p, l, x, red, r) == EraseFix(h, Leaf)
  {
    HoleInRedBlack(p, Node(l, x, red, r));
    if l.Node? && r.Node? {
      FirstHoleRedBlack(r, Up(R, Leftmost(r), red, l, p));
    }
  }
}
