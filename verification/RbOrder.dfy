// The order that `cmp` gives the nodes, and how a search splits it.
module RbOrder {
  import opened RbSpec

  type Cmp = (nat, nat) -> bool

  /** What `cmp` must be: a strict order in which "neither is less" is being equal. */
  ghost predicate StrictOrder(cmp: Cmp) {
    && (forall a :: !cmp(a, a))
    && (forall a, b, c :: cmp(a, b) && cmp(b, c) ==> cmp(a, c))
    && (forall a, b, c :: cmp(a, c) ==> cmp(a, b) || cmp(b, c))
  }

  predicate Less(cmp: Cmp, x: RbNode, y: RbNode) {
    cmp(x.item, y.item)
  }

  predicate Equal(cmp: Cmp, x: RbNode, y: RbNode) {
    !Less(cmp, x, y) && !Less(cmp, y, x)
  }

  predicate Sorted(cmp: Cmp, s: seq<RbNode>) {
    forall i, j | 0 <= i < j < |s| :: Less(cmp, s[i], s[j])
  }

  predicate AllLess(cmp: Cmp, s: seq<RbNode>, n: RbNode) {
    forall x | x in s :: Less(cmp, x, n)
  }

  predicate AllMore(cmp: Cmp, s: seq<RbNode>, n: RbNode) {
    forall x | x in s :: Less(cmp, n, x)
  }

  /** Where a search for n stands: everything left of the hole is smaller, everything right of it larger. */
  predicate Between(cmp: Cmp, p: Path, n: RbNode) {
    AllLess(cmp, Before(p), n) && AllMore(cmp, After(p), n)
  }

  lemma BetweenTop(cmp: Cmp, n: RbNode)
    ensures Between(cmp, Top, n)
  {
  }

  lemma SortedMiddle(cmp: Cmp, a: seq<RbNode>, b: seq<RbNode>, c: seq<RbNode>)
    requires Sorted(cmp, a + b + c)
    ensures Sorted(cmp, b)
  {
    forall i, j | 0 <= i < j < |b| ensures Less(cmp, b[i], b[j]) {
      assert (a + b + c)[|a| + i] == b[i] && (a + b + c)[|a| + j] == b[j];
    }
  }

  lemma SortedNode(cmp: Cmp, l: seq<RbNode>, x: RbNode, r: seq<RbNode>)
    requires Sorted(cmp, l + [x] + r)
    ensures AllLess(cmp, l, x) && AllMore(cmp, r, x)
  {
    var s := l + [x] + r;
    assert s[|l|] == x;
    forall y | y in l ensures Less(cmp, y, x) {
      var i :| 0 <= i < |l| && l[i] == y;
      assert s[i] == y;
    }
    forall y | y in r ensures Less(cmp, x, y) {
      var i :| 0 <= i < |r| && r[i] == y;
      assert s[|l| + 1 + i] == y;
    }
  }

  /** Going down on the side n belongs to. */
  lemma StepDown(cmp: Cmp, p: Path, cur: Tree, n: RbNode, s: Side)
    requires StrictOrder(cmp) && cur.Node? && Sorted(cmp, InOrder(Fill(p, cur))) && Between(cmp, p, n)
    requires if s == L then Less(cmp, n, cur.n) else Less(cmp, cur.n, n)
    ensures Between(cmp, Up(s, cur.n, cur.red, Far(s, cur), p), n)
    ensures Fill(Up(s, cur.n, cur.red, Far(s, cur), p), Near(s, cur)) == Fill(p, cur)
  {
    FillInOrder(p, cur);
    SortedMiddle(cmp, Before(p), InOrder(cur), After(p));
    SortedNode(cmp, InOrder(cur.l), cur.n, InOrder(cur.r));
  }

  /** A search that ran out of tree has told n apart from every node. */
  lemma MissedAll(cmp: Cmp, p: Path, n: RbNode)
    requires Between(cmp, p, n)
    ensures forall x | x in InOrder(Fill(p, Leaf)) :: !Equal(cmp, x, n)
  {
    FillInOrder(p, Leaf);
  }

  lemma FoundOne(cmp: Cmp, p: Path, cur: Tree, n: RbNode)
    requires cur.Node?
    ensures cur.n in InOrder(Fill(p, cur))
  {
    FillInOrder(p, cur);
    assert cur.n in InOrder(cur);
  }

  /** n fits where the search ended. */
  lemma SortedInsert(cmp: Cmp, a: seq<RbNode>, n: RbNode, c: seq<RbNode>)
    requires StrictOrder(cmp) && Sorted(cmp, a + c) && AllLess(cmp, a, n) && AllMore(cmp, c, n)
    ensures Sorted(cmp, a + [n] + c)
  {
    var s, t := a + [n] + c, a + c;
    forall i, j | 0 <= i < j < |s| ensures Less(cmp, s[i], s[j]) {
      if i == |a| {
        assert s[j] in c;
      } else if j == |a| {
        assert s[i] in a;
      } else {
        assert s[i] == t[if i < |a| then i else i - 1] && s[j] == t[if j < |a| then j else j - 1];
      }
    }
  }

  /** Insertion puts exactly n into the order, where it belongs. */
  lemma InsertOrder(cmp: Cmp, p: Path, n: RbNode)
    requires StrictOrder(cmp) && Sorted(cmp, InOrder(Fill(p, Leaf))) && Between(cmp, p, n) && RedBlack(Fill(p, Leaf))
    ensures var t := InsertFix(p, Node(Leaf, n, true, Leaf));
            && RedBlack(t) && InOrder(t) == Before(p) + [n] + After(p) && Sorted(cmp, InOrder(t))
    ensures InOrder(Fill(p, Leaf)) == Before(p) + After(p) && PathColoured(p)
  {
    var leaf := Node(Leaf, n, true, Leaf);
    HoleInRedBlack(p, Leaf);
    InsertFixRedBlack(p, leaf);
    InsertFixOrder(p, leaf);
    FillInOrder(p, leaf);
    FillInOrder(p, Leaf);
    assert InOrder(leaf) == [n];
    assert Before(p) + [] + After(p) == Before(p) + After(p);
    SortedInsert(cmp, Before(p), n, After(p));
  }

  lemma SortedErase(cmp: Cmp, a: seq<RbNode>, x: RbNode, c: seq<RbNode>)
    requires Sorted(cmp, a + [x] + c)
    ensures Sorted(cmp, a + c)
  {
    var s, t := a + c, a + [x] + c;
    forall i, j | 0 <= i < j < |s| ensures Less(cmp, s[i], s[j]) {
      assert s[i] == t[if i < |a| then i else i + 1] && s[j] == t[if j < |a| then j else j + 1];
    }
  }

  // ----- how deep a search goes -----

  function Pow2(k: nat): (r: nat)
    ensures r >= 1
  {
    if k == 0 then 1 else 2 * Pow2(k - 1)
  }

  lemma {:induction false} Pow2Grows(j: nat, k: nat)
    requires j <= k
    ensures Pow2(j) <= Pow2(k)
    decreases k
  {
    if j < k {
      Pow2Grows(j, k - 1);
    }
  }

  /** A balanced tree of black height h has at least 2^h - 1 nodes. */
  lemma {:induction false} SizeBound(t: Tree)
    requires Balanced(t)
    ensures Pow2(BlackHeight(t)) <= |InOrder(t)| + 1
    decreases t
  {
    if t.Node? {
      SizeBound(t.l);
      SizeBound(t.r);
    }
  }

  /** The visits a search below t can still make. */
  function Depth(t: Tree): nat {
    2 * BlackHeight(t) + if IsRed(t) then 1 else 0
  }

  predicate Good(t: Tree) {
    Balanced(t) && NoRedRed(t)
  }

  lemma DepthShrinks(t: Tree)
    requires t.Node? && Good(t)
    ensures Good(t.l) && Good(t.r) && Depth(t.l) < Depth(t) && Depth(t.r) < Depth(t)
  {
  }

  /** Visits within the depth of a whole tree are at most 2 log2(n + 1). */
  lemma DepthBound(t: Tree, visits: nat)
    requires RedBlack(t) && visits <= Depth(t)
    ensures Pow2((visits + 1) / 2) <= |InOrder(t)| + 1
  {
    SizeBound(t);
    Pow2Grows((visits + 1) / 2, BlackHeight(t));
  }

  // ----- finding a node's place -----

  lemma {:induction false} Locate(t: Tree, x: RbNode, q: Path) returns (p: Path, l: Tree, red: bool, r: Tree)
    requires x in InOrder(t)
    ensures Fill(p, Node(l, x, red, r)) == Fill(q, t)
    decreases t
  {
    if x == t.n {
      p, l, red, r := q, t.l, t.red, t.r;
    } else if x in InOrder(t.l) {
      p, l, red, r := Locate(t.l, x, Up(L, t.n, t.red, t.r, q));
    } else {
      p, l, red, r := Locate(t.r, x, Up(R, t.n, t.red, t.l, q));
    }
  }

  lemma {:induction false} FirstIsLeast(t: Tree)
    requires t.Node?
    ensures |InOrder(t)| > 0 && Leftmost(t) == InOrder(t)[0]
    decreases t
  {
    if t.l.Node? {
      FirstIsLeast(t.l);
    }
  }
}
