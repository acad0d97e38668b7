// The pointer algorithms of src/common/rbtree.c. `__rb_parent_color` is unpacked into two fields, and
// the two mirrored halves of every loop are one text over the side s a node hangs on. Ghost
// arguments name the trees that the pointers spell.
module RbTrees {
  import opened RbSpec
  import opened RbMem
  import opened RbErase
  import opened RbOrder
  import opened RbSteps

  class RbRoot {
    var node: RbNode?
    ghost var repr: set<RbNode>

    constructor ()
      ensures repr == {} && Holds(Mem(), node, Leaf)
    {
      node := null;
      repr := {};
    }

    ghost function Mem(): (m: Mem)
      reads this, repr
      ensures m.Keys == repr
    {
      map n | n in repr :: Cell(n.left, n.right, n.parent, n.red)
    }

    // ----- field accesses -----

    function Child(s: Side, n: RbNode): (c: RbNode?)
      reads this, repr, n
      ensures n in repr ==> c == ChildOn(s, Mem()[n])
    {
      if s == L then n.left else n.right
    }

    method SetChild(s: Side, n: RbNode, c: RbNode?)
      requires n in repr
      modifies n`left, n`right
      ensures Mem() == old(Mem())[n := With(s, old(Mem())[n], c)]
    {
      if s == L {
        n.left := c;
      } else {
        n.right := c;
      }
    }

    /** `rb_set_parent`. */
    method SetParent(n: RbNode, p: RbNode?)
      requires n in repr
      modifies n`parent
      ensures Mem() == old(Mem())[n := old(Mem())[n].(parent := p)]
    {
      n.parent := p;
    }

    /** `rb_set_parent_color`. */
    method SetParentColor(n: RbNode, p: RbNode?, red: bool)
      requires n in repr
      modifies n`parent, n`red
      ensures Mem() == old(Mem())[n := old(Mem())[n].(parent := p, red := red)]
    {
      n.parent := p;
      n.red := red;
    }

    /** `__rb_change_child`. */
    method ChangeChild(was: RbNode, now: RbNode?, parent: RbNode?, ghost up: Path)
      requires parent == HoleOf(up) && PathLinked(Mem(), up, was, node) && (up.Up? ==> RootOf(up.sib) != was)
      modifies this`node, repr
      ensures Mem() == Rerouted(old(Mem()), up, now)
      ensures node == if up.Top? then now else old(node)
    {
      if parent != null {
        if parent.left == was {
          SetChild(L, parent, now);
        } else {
          SetChild(R, parent, now);
        }
      } else {
        node := now;
      }
    }

    /** `__rb_rotate_set_parents`. */
    method RotateSetParents(was: RbNode, now: RbNode, red: bool, ghost up: Path, ghost b: Nodes)
      requires was != now && was in b && now in b && Whole(Mem(), b + PathBag(up)) && was in repr && now in repr
      requires was.parent == HoleOf(up) && PathLinked(Mem(), up, was, node)
      modifies this`node, repr
      ensures Mem() == Rotated(old(Mem()), was, now, red, up)
      ensures PathLinked(Mem(), up, now, node)
    {
      hide Linked, Bag, PathLinked, PathBag, Whole;
      ghost var m, root := Mem(), node;
      var parent := was.parent;
      RotateSets(m, was, now, up, b);
      SetParentColor(now, was.parent, was.red);
      SetParentColor(was, now, red);
      RotateFrame(m, Mem(), was, now, up, b, root);
      ChangeChild(was, now, parent, up);
      RotateEnd(m, Mem(), was, now, red, up, b, root, node);
    }

    // ----- insertion -----

    /** Case 1 of `__rb_insert_fix`: the uncle is red. */
    method InsertCase1(parent: RbNode, gparent: RbNode, uncle: RbNode, ghost s: Side, ghost t: Tree, ghost sib: Tree,
        ghost g: Side, ghost gred: bool, ghost ut: Tree, ghost up: Path)
      requires Split(Mem(), node, up, Mk(g, Mk(s, t, parent, true, sib), gparent, gred, ut)) && uncle == RootOf(ut)
      modifies repr
      ensures Split(Mem(), node, up, Mk(g, Mk(s, t, parent, false, sib), gparent, true, Blacken(ut)))
    {
      hide Linked, Bag, PathLinked, PathBag, Split, Mk, Recolour;
      ghost var m := Mem();
      Case1Start(m, node, s, t, parent, true, sib, g, gparent, gred, ut, up);
      SetParentColor(uncle, gparent, false);
      SetParentColor(parent, gparent, false);
      SetParentColor(gparent, gparent.parent, true);
      Case1Done(m, Mem(), node, s, t, parent, sib, g, gparent, gred, ut, up);
    }

    /** Case 2 of `__rb_insert_fix`: nd, the inner grandchild, takes parent's place above it. */
    method InsertCase2(s: Side, nd: RbNode, parent: RbNode, ghost x: Tree, ghost y: Tree, ghost sib: Tree,
        ghost gparent: RbNode, ghost gred: bool, ghost uncle: Tree, ghost up: Path)
      requires Split(Mem(), node, up, Mk(s, Mk(s, sib, parent, true, Mk(s, x, nd, true, y)), gparent, gred, uncle))
      modifies repr
      ensures var a := Mk(s, sib, parent, true, Blacken(x));
              Turn(Mem(), node, s, a, nd, y, gparent, uncle, up) && Linked(Mem(), a, nd)
      ensures gparent in repr && gparent.red == old(gparent.red)
      ensures nd in repr && Child(Other(s), nd) == RootOf(y)
    {
      hide Linked, Bag, PathLinked, PathBag, Split, Mk, Recolour, Whole, Turn, MkCell, Case2Made, Changed;
      ghost var m := Mem();
      Case2See(m, node, s, nd, parent, true, x, y, sib, gparent, gred, uncle, up);
      var tmp := Child(s, nd);
      SetChild(Other(s), parent, tmp);
      if tmp != null {
        SetParentColor(tmp, parent, false);
      }
      SetChild(s, nd, parent);
      assert Mem() == Case2Writes(m, s, nd, parent, x);
      SetParentColor(parent, nd, true);
      Case2Insert(m, Mem(), s, nd, parent, x, gparent);
      Case2Done(m, Mem(), node, s, nd, parent, true, x, y, sib, gparent, gred, uncle, up);
    }

    /** Case 3 of `__rb_insert_fix` and case 1 of `__rb_erase_fix`: parent, over a, comes up; gparent goes
        down with tmp, the root of b. */
    method TurnUp(s: Side, parent: RbNode, gparent: RbNode, tmp: RbNode?, ghost a: Tree, ghost b: Tree,
        ghost uncle: Tree, ghost up: Path)
      requires Turn(Mem(), node, s, a, parent, b, gparent, uncle, up) && Linked(Mem(), a, parent) && tmp == RootOf(b)
      modifies this`node, repr
      ensures Split(Mem(), node, up, Mk(s, a, parent, old(gparent.red), Mk(s, Blacken(b), gparent, true, uncle)))
    {
      hide Linked, Bag, PathLinked, PathBag, Split, Mk, Under, Recolour, Whole, TurnRest;
      ghost var m, root := Mem(), node;
      TurnStart(m, a, parent, b, gparent, uncle, up);
      SetChild(s, gparent, tmp);
      if tmp != null {
        SetParentColor(tmp, gparent, false);
      }
      SetChild(Other(s), parent, gparent);
      AlreadyHung(m, Mem(), a, parent);
      TurnPath(m, Mem(), root, s, a, IsRed(a), parent, b, false, gparent, uncle, up);
      RotateSetParents(gparent, parent, true, up, TurnRest(gparent, parent, a, b, uncle));
      TurnEnd(m, Mem(), root, node, s, a, IsRed(a), parent, b, false, gparent, true, uncle, up);
      RecolourFacts(a, IsRed(a));
    }

    /** Cases 2 and 3 of `__rb_insert_fix`: the uncle is black. */
    method InsertTurn(s: Side, n: RbNode, above: RbNode, gparent: RbNode, ghost side: Side, ghost t: Tree,
        ghost sib: Tree, ghost gred: bool, ghost uncle: Tree, ghost up: Path)
      requires Split(Mem(), node, up, Mk(s, Mk(side, t, above, true, sib), gparent, gred, uncle))
      requires IsRed(t) && t.n == n && above in repr && gparent in repr && gparent.red == gred
      requires RootOf(sib) != n && Child(Other(s), above) == if side == s then RootOf(sib) else n
      modifies this`node, repr
      ensures Holds(Mem(), node, Fill(up,
                if side == s then Mk(s, t, above, gred, Mk(s, Blacken(sib), gparent, true, uncle))
                else Mk(s, Mk(s, sib, above, true, Blacken(Near(s, t))), n, gred,
                  Mk(s, Blacken(Far(s, t)), gparent, true, uncle))))
    {
      hide Split, Holds, Mk, Recolour, Turn, Near, Far, Linked, Other, ChildOn;
      var parent := above;
      var tmp := Child(Other(s), parent);
      ghost var a, b := t, sib;
      if n == tmp {
        a, b := Mk(s, sib, above, true, Blacken(Near(s, t))), Far(s, t);
        OtherSide(side, s);
        MkOther(s, t, above, true, sib);
        NearFar(s, t);
        InsertCase2(s, n, parent, Near(s, t), b, sib, gparent, gred, uncle, up);
        parent := n;
        tmp := Child(Other(s), n);
      } else {
        TurnReady(Mem(), node, s, t, above, true, sib, gparent, gred, uncle, up);
      }
      TurnUp(s, parent, gparent, tmp, a, b, uncle, up);
      SplitFill(Mem(), node, up, Mk(s, a, parent, gred, Mk(s, Blacken(b), gparent, true, uncle)));
    }

    /** `__rb_insert_fix`, for the red node n that is the root of t0 in the hole of p0. */
    method InsertFix(n: RbNode, ghost p0: Path, ghost t0: Tree)
      requires Split(Mem(), TopOf(p0, t0, node), p0, t0) && IsRed(t0) && t0.n == n && PathColoured(p0)
      modifies this`node, repr
      ensures Holds(Mem(), node, RbSpec.InsertFix(p0, t0))
    {
      hide Split, Holds, Mk, Recolour, Near, Far, Linked, Other, PathColoured, Fill, ChildOn, MkCell, RbSpec.InsertFix;
      ghost var p, t := p0, t0;
      SeeParent(Mem(), TopOf(p, t, node), p, t);
      var nd, parent := n, n.parent;
      while true
        invariant Split(Mem(), TopOf(p, t, node), p, t) && IsRed(t) && t.n == nd && PathColoured(p)
        invariant nd in repr && parent == HoleOf(p)
        invariant RbSpec.InsertFix(p, t) == RbSpec.InsertFix(p0, t0)
        decreases p
      {
        InsertFixCases(p, t);
        SeeParent(Mem(), TopOf(p, t, node), p, t);
        if parent == null {
          ghost var m := Mem();
          SetParentColor(nd, null, false);
          node := nd;
          BlackRoot(m, Mem(), t);
          break;
        } else if !parent.red {
          SplitFill(Mem(), node, p, t);
          break;
        }
        SeeInsert(Mem(), node, p, t);
        var gparent := parent.parent;
        var s := if parent != gparent.right then L else R;
        var tmp := Child(Other(s), gparent);
        if tmp != null && tmp.red {
          InsertCase1(parent, gparent, tmp, p.s, t, p.sib, s, p.up.red, p.up.sib, p.up.up);
          t, p := Mk(s, Mk(p.s, t, parent, false, p.sib), gparent, true, Blacken(p.up.sib)), p.up.up;
          SeeParent(Mem(), node, p, t);
          nd := gparent;
          parent := nd.parent;
          continue;
        }
        InsertTurn(s, nd, parent, gparent, p.s, t, p.sib, p.up.red, p.up.sib, p.up.up);
        break;
      }
    }

    method Link(s: Side, parent: RbNode, n: RbNode, ghost p: Path)
      requires Split(Mem(), node, p, Leaf) && p.Up? && p.n == parent && p.s == s && parent in repr
      requires n !in repr && n.left == null && n.right == null && n.red
      modifies parent, n, this`repr
      ensures repr == old(repr) + {n} && Split(Mem(), node, p, Node(Leaf, n, true, Leaf))
    {
      hide Split;
      ghost var m := Mem();
      SetChild(s, parent, n);
      ghost var w := Mem();
      n.parent := parent;
      assert w == Mem();
      repr := repr + {n};
      assert Mem() == w[n := Cell(null, null, parent, true)];
      LinkedLeaf(m, Mem(), node, p, n);
    }

    /** `_rb_insert`. */
    method Insert(n: RbNode, cmp: Cmp, ghost t: Tree) returns (r: int, ghost after: Tree)
      requires Holds(Mem(), node, t) && RedBlack(t) && StrictOrder(cmp) && Sorted(cmp, InOrder(t)) && n !in repr
      modifies this, repr, n
      ensures Holds(Mem(), node, after)
      ensures r == if exists x | x in InOrder(t) :: Equal(cmp, x, n) then -1 else 0
      ensures r == -1 ==> Mem() == old(Mem()) && node == old(node) && after == t
      ensures r == 0 ==> RedBlack(after) && Sorted(cmp, InOrder(after)) && repr == old(repr) + {n}
      ensures r == 0 ==> exists a, c :: InOrder(t) == a + c && InOrder(after) == a + [n] + c
    {
      hide Split, Holds, RedBlack, StrictOrder, Sorted, InOrder, Between, Before, After, Fill, PathColoured,
          RbSpec.InsertFix;
      var nw, parent: RbNode? := node, null;
      n.left, n.right := null, null;
      n.parent, n.red := null, true;
      after := t;
      ghost var p, cur, leaf := Top, t, Node(Leaf, n, true, Leaf);
      assert Mem() == old(Mem());
      SeeTop(Mem(), node, t);
      BetweenTop(cmp, n);
      if node == null {
        repr := repr + {n};
        FirstLeaf(Mem(), n);
      }
      while nw != null
        invariant nw != null ==>
            repr == old(repr) && Mem() == old(Mem()) && node == old(node) && Split(Mem(), node, p, cur)
        invariant nw == RootOf(cur) && Fill(p, cur) == t && Between(cmp, p, n)
        invariant nw == null ==> repr == old(repr) + {n} && Split(Mem(), TopOf(p, leaf, node), p, leaf)
        invariant nw != null ==> n.left == null && n.right == null && n.red
        decreases cur
      {
        parent := nw;
        SeeChildren(Mem(), node, p, cur);
        if cmp(n.item, nw.item) {
          StepDown(cmp, p, cur, n, L);
          p, cur := Up(L, cur.n, cur.red, cur.r, p), cur.l;
          nw := nw.left;
          if nw == null {
            Link(L, parent, n, p);
          }
        } else if cmp(nw.item, n.item) {
          StepDown(cmp, p, cur, n, R);
          p, cur := Up(R, cur.n, cur.red, cur.l, p), cur.r;
          nw := nw.right;
          if nw == null {
            Link(R, parent, n, p);
          }
        } else {
          FoundOne(cmp, p, cur, n);
          assert Equal(cmp, cur.n, n);
          return -1, t;
        }
      }
      InsertOrder(cmp, p, n);
      InsertFix(n, p, leaf);
      MissedAll(cmp, p, n);
      return 0, RbSpec.InsertFix(p, leaf);
    }

    // ----- erasure -----

    /** Case 3 of `__rb_erase_fix`: the near nephew tmp2 takes sibling's place. */
    method EraseCase3(s: Side, parent: RbNode, sibling: RbNode, tmp2: RbNode, ghost t: Tree, ghost c: Tree,
        ghost d: Tree, ghost far: Tree, ghost pred: bool, ghost up: Path)
      requires var g := Other(s);
          Split(Mem(), node, up, Mk(g, Mk(g, far, sibling, false, Mk(g, d, tmp2, true, c)), parent, pred, t))
      modifies repr
      ensures var g := Other(s); Turn(Mem(), node, g, Mk(g, far, sibling, false, Blacken(d)), tmp2, c, parent, t, up)
      ensures parent in repr && parent.red == old(parent.red)
      ensures tmp2 in repr && Child(s, tmp2) == RootOf(c) && (c.Node? ==> c.n in repr && c.n.red == c.red)
    {
      hide Linked, Bag, PathLinked, PathBag, Split, Mk, Recolour, Whole, Turn, MkCell, Case2Made, Changed;
      ghost var m, g := Mem(), Other(s);
      Case2See(m, node, g, tmp2, sibling, false, d, c, far, parent, pred, t, up);
      var tmp1 := Child(Other(s), tmp2);
      SetChild(s, sibling, tmp1);
      if tmp1 != null {
        SetParentColor(tmp1, sibling, false);
      }
      SetChild(Other(s), tmp2, sibling);
      assert Mem() == Case2Writes(m, g, tmp2, sibling, d);
      SetChild(Other(s), parent, tmp2);
      Case3Erase(m, Mem(), g, tmp2, sibling, d, parent);
      Case2Done(m, Mem(), node, g, tmp2, sibling, false, d, c, far, parent, pred, t, up);
    }

    /** The end of `__rb_erase_fix`: sibling comes up, parent goes down, tmp1 (over far) turns black. */
    method EraseCase4(s: Side, parent: RbNode, sibling: RbNode, tmp1: RbNode, ghost t: Tree, ghost near: Tree,
        ghost far: Tree, ghost up: Path)
      requires Turn(Mem(), node, Other(s), far, sibling, near, parent, t, up) && RootOf(far) == tmp1
      requires sibling in repr && Child(s, sibling) == RootOf(near) && (near.Node? ==> near.n.red == near.red)
      modifies this`node, repr
      ensures var g := Other(s);
          Split(Mem(), node, up, Mk(g, Blacken(far), sibling, old(parent.red), Mk(g, near, parent, false, t)))
    {
      hide Linked, Bag, PathLinked, PathBag, Split, Mk, Under, Recolour, Whole, TurnRest, HoleOf;
      ghost var m, root, g := Mem(), node, Other(s);
      TurnStart(m, far, sibling, near, parent, t, up);
      var tmp2 := Child(s, sibling);
      SetChild(Other(s), parent, tmp2);
      if tmp2 != null {
        SetParent(tmp2, parent);
      }
      SetChild(s, sibling, parent);
      SetParentColor(tmp1, sibling, false);
      TurnPath(m, Mem(), root, g, far, false, sibling, near, IsRed(near), parent, t, up);
      RotateSetParents(parent, sibling, false, up, TurnRest(parent, sibling, far, near, t));
      TurnEnd(m, Mem(), root, node, g, far, false, sibling, near, IsRed(near), parent, false, t, up);
      RecolourFacts(near, IsRed(near));
    }

    /** Cases 3 and 4 of `__rb_erase_fix`: a nephew is red. */
    method EraseTurn(s: Side, parent: RbNode, from: RbNode, ghost t: Tree, ghost sib: Tree, ghost pred: bool,
        ghost up: Path)
      requires sib.Node? && sib.n == from && !sib.red && (IsRed(Near(s, sib)) || IsRed(Far(s, sib)))
      requires Split(Mem(), node, up, Facing(Up(s, parent, pred, sib, up), t)) && parent in repr && parent.red == pred
      modifies this`node, repr
      ensures Holds(Mem(), node, Fill(up, EraseLocal(s, t, parent, pred, sib).0))
    {
      hide Split, Holds, Mk, Recolour, Turn, Linked, Other, ChildOn, Fill, Near, Far;
      ghost var g, near, far := Other(s), Near(s, sib), Far(s, sib);
      SeeNephews(Mem(), node, g, far, from, false, near, parent, pred, t, up);
      TurnReady(Mem(), node, g, far, from, false, near, parent, pred, t, up);
      OtherTwice(s);
      var sibling := from;
      var tmp1 := Child(Other(s), sibling);
      if tmp1 == null || !tmp1.red {
        var tmp2 := Child(s, sibling);
        ghost var c, d := Near(s, near), Far(s, near);
        NearFar(s, near);
        MkOther(s, d, near.n, true, c);
        EraseCase3(s, parent, sibling, tmp2, t, c, d, far, pred, up);
        far, near := Mk(g, far, sibling, false, Blacken(d)), c;
        tmp1 := sibling;
        sibling := tmp2;
      }
      EraseCase4(s, parent, sibling, tmp1, t, near, far, up);
      SplitFill(Mem(), node, up, Mk(g, Blacken(far), sibling, pred, Mk(g, near, parent, false, t)));
      EraseShape(s, t, parent, pred, sib);
    }

    /** Case 1 of `__rb_erase_fix`: the sibling is red; afterwards the near nephew is the sibling, and black. */
    method EraseCase1(s: Side, parent: RbNode, sibling: RbNode, ghost p: Path, ghost t: Tree) returns (tmp1: RbNode)
      requires p.Up? && p.s == s && p.n == parent && p.sib.Node? && p.sib.red && p.sib.n == sibling
          && Near(s, p.sib).Node?
      requires Split(Mem(), node, p, t)
      modifies this`node, repr
      ensures Split(Mem(), node, Lowered(p), t) && tmp1 == Near(s, p.sib).n
    {
      hide Split, Mk, Recolour, Turn, Linked, Other, ChildOn, Near, Far, Facing;
      SeeErase(Mem(), node, p, t);
      ghost var g, near, far := Other(s), Near(s, p.sib), Far(s, p.sib);
      FacingIs(p, t);
      SeeNephews(Mem(), node, g, far, sibling, true, near, parent, p.red, t, p.up);
      TurnReady(Mem(), node, g, far, sibling, true, near, parent, p.red, t, p.up);
      OtherTwice(s);
      tmp1 := Child(s, sibling);
      TurnUp(Other(s), sibling, parent, tmp1, far, near, t, p.up);
      LoweredSplit(Mem(), node, p, t);
    }

    /** Case 2 of `__rb_erase_fix`: sibling and nephews are black. */
    method EraseCase2(s: Side, parent: RbNode, sibling: RbNode, ghost p: Path, ghost t: Tree) returns (more: bool)
      requires p.Up? && p.s == s && p.n == parent && p.sib.Node? && !p.sib.red && p.sib.n == sibling
      requires Split(Mem(), node, p, t) && !IsRed(Near(s, p.sib)) && !IsRed(Far(s, p.sib))
      modifies repr
      ensures Split(Mem(), node, p.up, EraseLocal(s, t, parent, p.red, p.sib).0) && more == !p.red
    {
      hide Split, Mk, Recolour, Turn, Linked, Other, ChildOn, Near, Far, Facing;
      SeeErase(Mem(), node, p, t);
      ghost var m, g, near, far := Mem(), Other(s), Near(s, p.sib), Far(s, p.sib);
      FacingIs(p, t);
      Case1Start(m, node, g, far, sibling, false, near, g, parent, p.red, t, p.up);
      SetParentColor(sibling, parent, true);
      more := !parent.red;
      if parent.red {
        SetParentColor(parent, parent.parent, false);
      }
      EraseCase2Done(m, Mem(), node, g, far, sibling, near, parent, p.red, t, p.up);
      BlackShape(p, t);
    }

    /** `__rb_erase_fix`, for a hole below first that is one black node short. */
    method EraseFix(first: RbNode, ghost p0: Path)
      requires Split(Mem(), node, p0, Leaf) && p0.Up? && p0.n == first && Short(p0, Leaf)
      modifies this`node, repr
      ensures Holds(Mem(), node, RbSpec.EraseFix(p0, Leaf))
    {
      hide Split, Holds, Mk, Recolour, Other, ChildOn, Near, Far, Facing, Short, RbSpec.EraseFix, EraseLocal, Fill,
          Lowered, MkCell;
      ghost var p, t := p0, Leaf;
      SeeParent(Mem(), node, p, t);
      var nd, parent: RbNode := null, first;
      while true
        invariant Split(Mem(), node, p, t) && p.Up? && p.n == parent && parent in repr && nd == RootOf(t) && Short(p, t)
        invariant RbSpec.EraseFix(p, t) == RbSpec.EraseFix(p0, Leaf)
        decreases p
      {
        ghost var q := p;
        ShortSibling(p, t);
        EraseFixCases(p, t);
        SeeErase(Mem(), node, p, t);
        var s := if nd != parent.right then L else R;
        var sibling := Child(Other(s), parent);
        if sibling.red {
          sibling := EraseCase1(s, parent, sibling, p, t);
          q := Lowered(p);
          LoweredParts(p);
          EraseFixCases(q, t);
          SeeErase(Mem(), node, q, t);
        }
        FacingIs(q, t);
        SeeNephews(Mem(), node, Other(s), Far(s, q.sib), sibling, false, Near(s, q.sib), parent, q.red, t, q.up);
        OtherTwice(s);
        EraseLocalShort(s, t, parent, q.red, q.sib);
        var tmp1, tmp2 := Child(Other(s), sibling), Child(s, sibling);
        if (tmp1 == null || !tmp1.red) && (tmp2 == null || !tmp2.red) {
          var more := EraseCase2(s, parent, sibling, q, t);
          ghost var t' := EraseLocal(s, t, parent, q.red, q.sib).0;
          if more {
            EraseLocalUp(s, q, t);
            SeeParent(Mem(), node, q.up, t');
            var above := parent.parent;
            if above != null {
              p, t := q.up, t';
              nd, parent := parent, above;
              continue;
            }
            EraseFixTop(t');
          }
          SplitFill(Mem(), node, q.up, t');
          break;
        }
        EraseTurn(s, parent, sibling, t, q.sib, q.red, q.up);
        break;
      }
    }

    /** The search for the successor of a node with two children, and its way out of the right subtree r. */
    method DetachFirst(child: RbNode, ghost r: Tree, ghost x: RbNode)
        returns (successor: RbNode, parent: RbNode, child2: RbNode?)
      requires r.Node? && child == r.n && Linked(Mem(), r, x)
      modifies repr
      ensures successor == Leftmost(r) && parent == NewParent(r) && child2 == RootOf(FirstRest(r))
      ensures r.n in old(Mem()) && successor in old(Mem()) && parent in old(Mem()) && Mem() == DeepWrites(old(Mem()), r)
    {
      successor := child;
      var tmp := child.left;
      if tmp == null {
        parent := successor;
        child2 := successor.right;
      } else {
        parent, successor := successor, tmp;
        tmp := tmp.left;
        ghost var cur := r.l;
        while tmp != null
          invariant cur.Node? && successor == cur.n && Linked(Mem(), cur, parent) && tmp == RootOf(cur.l)
              && parent in repr
          invariant Leftmost(cur) == Leftmost(r) && FirstRest(cur) == FirstRest(r)
          invariant FirstParent(r) == if cur.l.Leaf? then parent else FirstParent(cur)
          invariant Mem() == old(Mem())
          decreases cur
        {
          parent, successor := successor, tmp;
          tmp := tmp.left;
          cur := cur.l;
        }
        child2 := successor.right;
        SetChild(L, parent, child2);
        SetChild(R, successor, child);
        SetParent(child, successor);
      }
    }

    /** The successor leaves its place and takes over x's subtrees. */
    method LiftFirst(x: RbNode, child: RbNode, ghost p: Path, ghost l: Tree, ghost red: bool, ghost r: Tree)
        returns (successor: RbNode, parent: RbNode, child2: RbNode?)
      requires Split(Mem(), node, p, Node(l, x, red, r)) && l.Node? && r.Node? && child == r.n
          && InnerKeys(Mem(), p, l, x, r)
      modifies repr
      ensures successor == Leftmost(r) && parent == NewParent(r) && child2 == RootOf(FirstRest(r))
      ensures r.n in old(Mem()) && successor in old(Mem()) && parent in old(Mem()) && l.n in old(Mem())
          && Mem() == MiddleWrites(old(Mem()), l, r)
    {
      hide Linked, Bag, PathLinked, PathBag, Split, Leftmost, FirstRest, NewParent, Detach, DeepWrites, InnerKeys,
          MkCell;
      InnerKeysHold(Mem(), node, p, l, x, red, r);
      InnerKeysSay(Mem(), p, l, x, r);
      InnerMiddle(Mem(), node, p, l, x, red, r);
      ghost var m := Mem();
      successor, parent, child2 := DetachFirst(child, r, x);
      assert x in Mem();
      DeepKeeps(m, p, l, x, r);
      var tmp := x.left;
      SetChild(L, successor, tmp);
      SetParent(tmp, successor);
    }

    /** `__rb_erase` of a node with two children, up to its removal from the ghost set of nodes. */
    method EraseInner(x: RbNode, child: RbNode, ghost p: Path, ghost l: Tree, ghost red: bool, ghost r: Tree)
        returns (rebalance: RbNode?)
      requires Split(Mem(), node, p, Node(l, x, red, r)) && l.Node? && r.Node? && child == r.n
      modifies this`node, repr
      ensures SplitBut(Mem(), node, p, Node(l, Leftmost(r), red, Detach(r)), x)
      ensures rebalance == if FirstRest(r).Node? || FirstRed(r) then null else NewParent(r)
    {
      hide Linked, Bag, PathLinked, PathBag, Split, SplitBut, Leftmost, FirstRest, FirstRed, NewParent, Detach,
          DeepWrites, MiddleWrites, InnerKeys, FirstParent, RootBag, MkCell, InnerWrites;
      ghost var m, root := Mem(), node;
      InnerKeysHold(m, root, p, l, x, red, r);
      InnerKeysSay(m, p, l, x, r);
      InnerMiddle(m, root, p, l, x, red, r);
      var successor, parent, child2 := LiftFirst(x, child, p, l, red, r);
      var above, pcRed := x.parent, x.red;
      ChangeChild(x, successor, above, p);
      if child2 != null {
        SetParentColor(successor, above, pcRed);
        SetParentColor(child2, parent, false);
        rebalance := null;
      } else {
        rebalance := if successor.red then null else parent;
        SetParentColor(successor, above, pcRed);
      }
      InnerWritesAre(m, p, l, red, r);
      InnerDone(m, Mem(), root, node, p, l, x, red, r);
    }

    /** `__rb_erase`. */
    method EraseNode(x: RbNode, ghost p: Path, ghost l: Tree, ghost red: bool, ghost r: Tree)
        returns (rebalance: RbNode?)
      requires Split(Mem(), node, p, Node(l, x, red, r))
      modifies this, repr
      ensures repr == old(repr) - {x}
      ensures Split(Mem(), node, p, Erased(l, red, r)) && rebalance == HoleOf(ShortHole(p, l, red, r))
    {
      hide Linked, Bag, PathLinked, PathBag, Split, SplitBut, Holds, Leftmost, FirstRest, FirstRed, NewParent, Detach,
          InnerKeys, FirstParent, MkCell, Recolour, ShortHole;
      ghost var m, root := Mem(), node;
      SpliceStart(m, root, p, l, x, red, r);
      ShortHoleAt(p, l, red, r);
      var child, tmp := x.right, x.left;
      if tmp == null {
        var parent, pcRed := x.parent, x.red;
        ChangeChild(x, child, parent, p);
        if child != null {
          SetParentColor(child, parent, pcRed);
          rebalance := null;
        } else {
          rebalance := if pcRed then null else parent;
        }
        Spliced(m, Mem(), root, node, p, x, red, l, r, r);
      } else if child == null {
        var parent, pcRed := x.parent, x.red;
        SetParentColor(tmp, parent, pcRed);
        SpliceFrame(m, Mem(), root, p, l, x, red, r);
        ChangeChild(x, tmp, parent, p);
        rebalance := null;
        Spliced(m, Mem(), root, node, p, x, red, l, r, l);
      } else {
        rebalance := EraseInner(x, child, p, l, red, r);
      }
      m := Mem();
      repr := repr - {x};
      Drop(m, Mem(), node, p, Erased(l, red, r), x);
    }

    /** `_rb_erase` of any node of the tree. Whatever order the tree was sorted by, it still is. */
    method Erase(x: RbNode, ghost t: Tree, ghost cmp: Cmp) returns (ghost after: Tree)
      requires Holds(Mem(), node, t) && RedBlack(t) && x in repr
      modifies this, repr
      ensures repr == old(repr) - {x}
      ensures Holds(Mem(), node, after) && RedBlack(after)
      ensures Removed(InOrder(t), x, InOrder(after)) && (Sorted(cmp, InOrder(t)) ==> Sorted(cmp, InOrder(after)))
    {
      hide Sorted, Removed, Split, Holds, RedBlack, InOrder, Fill, EraseAt, RbSpec.EraseFix, ShortHole, Erased, Before,
          After, Short;
      HoldsOrder(Mem(), node, t);
      ghost var p, l, red, r := Locate(t, x, Top);
      SeeTop(Mem(), node, t);
      SplitFill(Mem(), node, p, Node(l, x, red, r));
      var rebalance := EraseNode(x, p, l, red, r);
      ErasedIs(Mem(), node, p, l, x, red, r);
      ShortHoleShort(p, l, x, red, r);
      if rebalance != null {
        EraseFix(rebalance, ShortHole(p, l, red, r));
      }
      after := EraseAt(p, l, x, red, r);
      EraseRedBlack(p, l, x, red, r);
      EraseExact(p, l, x, red, r);
      StillSorted(cmp, InOrder(t), x, InOrder(after));
    }

    // ----- searches -----

    /** `_rb_lookup`. */
    method Lookup(n: RbNode, cmp: Cmp, ghost t: Tree) returns (r: RbNode?, ghost visits: nat)
      requires Holds(Mem(), node, t) && RedBlack(t) && StrictOrder(cmp) && Sorted(cmp, InOrder(t))
      ensures r != null ==> r in InOrder(t) && Equal(cmp, r, n)
      ensures r == null ==> forall x | x in InOrder(t) :: !Equal(cmp, x, n)
      ensures Pow2((visits + 1) / 2) <= |InOrder(t)| + 1
    {
      hide Split, Holds, RedBlack, StrictOrder, Sorted, InOrder, Between, Before, After, Fill, Good, Depth, Pow2;
      var nw := node;
      visits := 0;
      ghost var p, cur := Top, t;
      SeeTop(Mem(), node, t);
      BetweenTop(cmp, n);
      GoodRoot(t);
      while nw != null
        invariant nw == RootOf(cur) && Fill(p, cur) == t && Between(cmp, p, n) && Split(Mem(), node, p, cur)
        invariant Good(cur) && visits + Depth(cur) <= Depth(t)
        decreases cur
      {
        visits := visits + 1;
        SeeChildren(Mem(), node, p, cur);
        DepthShrinks(cur);
        if cmp(n.item, nw.item) {
          StepDown(cmp, p, cur, n, L);
          p, cur := Up(L, cur.n, cur.red, cur.r, p), cur.l;
          nw := nw.left;
        } else if cmp(nw.item, n.item) {
          StepDown(cmp, p, cur, n, R);
          p, cur := Up(R, cur.n, cur.red, cur.l, p), cur.r;
          nw := nw.right;
        } else {
          FoundOne(cmp, p, cur, n);
          DepthBound(t, visits);
          return nw, visits;
        }
      }
      MissedAll(cmp, p, n);
      DepthBound(t, visits);
      return null, visits;
    }

    /** `_rb_first`: the least node. */
    method First(ghost t: Tree) returns (n: RbNode?)
      requires Holds(Mem(), node, t)
      ensures if InOrder(t) == [] then n == null else n == InOrder(t)[0]
    {
      hide Split, Holds, InOrder;
      SeeTop(Mem(), node, t);
      EmptyOrder(t);
      if node == null {
        return null;
      }
      n := node;
      ghost var p, cur := Top, t;
      SeeChildren(Mem(), node, p, cur);
      while n.left != null
        invariant cur.Node? && n == cur.n && Split(Mem(), node, p, cur) && n.left == RootOf(cur.l)
        invariant Leftmost(cur) == Leftmost(t)
        decreases cur
      {
        SeeChildren(Mem(), node, p, cur);
        n := n.left;
        p, cur := Up(L, cur.n, cur.red, cur.r, p), cur.l;
        SeeChildren(Mem(), node, p, cur);
      }
      FirstIsLeast(t);
    }
  }

  lemma EmptyOrder(t: Tree)
    ensures InOrder(t) == [] <==> t.Leaf?
  {
  }

  lemma GoodRoot(t: Tree)
    requires RedBlack(t)
    ensures Good(t)
  {
  }

  lemma Around(b: seq<RbNode>, l: seq<RbNode>, x: seq<RbNode>, r: seq<RbNode>, a: seq<RbNode>)
    ensures b + (l + x + r) + a == (b + l) + x + (r + a)
  {
    Regroup(b, l + x, r, a);
    assert b + (l + x) == (b + l) + x;
  }

  /** now is was without one occurrence of x. */
  predicate Removed(was: seq<RbNode>, x: RbNode, now: seq<RbNode>) {
    exists k | 0 <= k < |was| :: was[k] == x && now == was[..k] + was[k + 1..]
  }

  lemma EraseExact(p: Path, l: Tree, x: RbNode, red: bool, r: Tree)
    ensures Removed(InOrder(Fill(p, Node(l, x, red, r))), x, InOrder(EraseAt(p, l, x, red, r)))
  {
    hide InOrder, Before, After, Fill, EraseAt;
    EraseOrder(p, l, x, red, r);
    var a, c := Before(p) + InOrder(l), InOrder(r) + After(p);
    Around(Before(p), InOrder(l), [x], InOrder(r), After(p));
    Regroup(Before(p), InOrder(l), InOrder(r), After(p));
    RemovedAt(a, x, c);
  }

  lemma StillSorted(cmp: Cmp, was: seq<RbNode>, x: RbNode, now: seq<RbNode>)
    requires Removed(was, x, now)
    ensures Sorted(cmp, was) ==> Sorted(cmp, now)
  {
    var k :| 0 <= k < |was| && was[k] == x && now == was[..k] + was[k + 1..];
    assert was == was[..k] + [x] + was[k + 1..];
    if Sorted(cmp, was) {
      SortedErase(cmp, was[..k], x, was[k + 1..]);
    }
  }

  lemma RemovedAt(a: seq<RbNode>, x: RbNode, c: seq<RbNode>)
    ensures Removed(a + [x] + c, x, a + c)
  {
    var was := a + [x] + c;
    assert was[|a|] == x && was[..|a|] == a && was[|a| + 1..] == c;
  }

  lemma FacingIs(p: Path, t: Tree)
    requires p.Up? && p.sib.Node?
    ensures var g := Other(p.s);
        Facing(p, t) == Mk(g, Mk(g, Far(p.s, p.sib), p.sib.n, p.sib.red, Near(p.s, p.sib)), p.n, p.red, t)
  {
  }

  lemma BlackShape(p: Path, t: Tree)
    requires p.Up? && p.sib.Node? && !IsRed(Near(p.s, p.sib)) && !IsRed(Far(p.s, p.sib))
    ensures var g := Other(p.s);
            EraseLocal(p.s, t, p.n, p.red, p.sib).0 ==
              Mk(g, Mk(g, Far(p.s, p.sib), p.sib.n, true, Near(p.s, p.sib)), p.n, false, t)
  {
  }

  lemma LoweredParts(p: Path)
    requires p.Up? && p.sib.Node? && Near(p.s, p.sib).Node?
    ensures var q := Lowered(p);
            q.Up? && q.s == p.s && q.n == p.n && q.red && q.sib.Node? && !q.sib.red && q.sib.n == Near(p.s, p.sib).n
  {
  }

  lemma EraseLocalShort(s: Side, t: Tree, parent: RbNode, pred: bool, sib: Tree)
    requires sib.Node?
    ensures EraseLocal(s, t, parent, pred, sib).1 <==> !IsRed(Near(s, sib)) && !IsRed(Far(s, sib)) && !pred
  {
  }

  lemma EraseLocalUp(s: Side, p: Path, t: Tree)
    requires p.Up? && p.s == s && p.sib.Node? && !p.red && !p.sib.red && !IsRed(Near(s, p.sib)) && !IsRed(Far(s, p.sib))
    ensures var t' := EraseLocal(s, t, p.n, p.red, p.sib).0;
        t'.Node? && t'.n == p.n && (Short(p, t) ==> Short(p.up, t'))
  {
    if Short(p, t) {
      ShortUp(p, t);
    }
  }

  lemma EraseFixTop(t: Tree)
    ensures RbSpec.EraseFix(Top, t) == Fill(Top, t)
  {
  }

  lemma LoweredSplit(m: RbMem.Mem, root: RbNode?, p: Path, t: Tree)
    requires p.Up? && p.sib.Node?
    requires var g := Other(p.s);
        Split(m, root, p.up, Mk(g, Far(p.s, p.sib), p.sib.n, p.red, Mk(g, Blacken(Near(p.s, p.sib)), p.n, true, t)))
    ensures Split(m, root, Lowered(p), t)
  {
    hide Split, Mk, Near, Far, Recolour, Other;
    var near, far := Blacken(Near(p.s, p.sib)), Far(p.s, p.sib);
    var low := Mk(p.s, t, p.n, true, near);
    MkOther(p.s, near, p.n, true, t);
    MkOther(p.s, far, p.sib.n, p.red, low);
    SplitStep(m, root, p.s, low, p.sib.n, p.red, far, p.up);
    SplitStep(m, root, p.s, t, p.n, true, near, Up(p.s, p.sib.n, p.red, far, p.up));
  }

  lemma OtherTwice(s: Side)
    ensures Other(Other(s)) == s
  {
  }

  /** The two outcomes of a turn, written from the sibling's side. */
  lemma EraseShape(s: Side, t: Tree, parent: RbNode, pred: bool, sib: Tree)
    requires sib.Node? && (IsRed(Near(s, sib)) || IsRed(Far(s, sib)))
    ensures var g, near, far := Other(s), Near(s, sib), Far(s, sib);
            EraseLocal(s, t, parent, pred, sib).0 ==
              if IsRed(far) then Mk(g, Blacken(far), sib.n, pred, Mk(g, near, parent, false, t))
              else Mk(g, Blacken(Mk(g, far, sib.n, false, Blacken(Far(s, near)))), near.n, pred,
                Mk(g, Near(s, near), parent, false, t))
  {
  }

  lemma OtherSide(s: Side, g: Side)
    ensures s == g || s == Other(g)
  {
  }
}
