// Circular lists and the queue of src/common/list.c, at the level of their pointers.
module Rings {
  import KernelSpec

  class ListNode {
    var prev: ListNode
    var next: ListNode

    /** `init_list_node`. */
    constructor ()
      ensures Ring([this])
    {
      prev, next := this, this;
    }

    method Init()
      modifies this
      ensures Ring([this])
    {
      prev, next := this, this;
    }
  }

  function After(i: nat, n: nat): nat
    requires i < n
  {
    if i + 1 < n then i + 1 else 0
  }

  ghost predicate Once(s: seq<ListNode>) {
    forall i, j | 0 <= i < j < |s| :: s[i] != s[j]
  }

  /** The pointers of s close a ring in this order. */
  ghost predicate Ring(s: seq<ListNode>)
    reads s
  {
    s != [] && Once(s) && forall i | 0 <= i < |s| :: s[i].next == s[After(i, |s|)] && s[After(i, |s|)].prev == s[i]
  }

  ghost predicate Disjoint(a: seq<ListNode>, b: seq<ListNode>) {
    forall i, j | 0 <= i < |a| && 0 <= j < |b| :: a[i] != b[j]
  }

  /** A ring can be read from any of its nodes. */
  lemma Turn(s: seq<ListNode>, k: nat)
    requires Ring(s) && k < |s|
    ensures Ring(s[k..] + s[..k])
  {
    var t := s[k..] + s[..k];
    forall i, j | 0 <= i < j < |t| ensures t[i] != t[j] {
      assert t[i] == s[if i + k < |s| then i + k else i + k - |s|]
        && t[j] == s[if j + k < |s| then j + k else j + k - |s|];
    }
    forall i | 0 <= i < |t| ensures t[i].next == t[After(i, |t|)] && t[After(i, |t|)].prev == t[i] {
      var at := if i + k < |s| then i + k else i + k - |s|;
      assert t[i] == s[at] && t[After(i, |t|)] == s[After(at, |s|)];
    }
  }

  /** The four links that a splice changes, and the others as they were. */
  lemma Spliced(node1: ListNode, node4: ListNode, node3: ListNode, a: seq<ListNode>, b: seq<ListNode>)
    requires a != [] && b != [] && Once(a) && Once(b) && Disjoint(a, b)
    requires a[0] == node1 && b[|b| - 1] == node4 && node3 == a[After(0, |a|)]
    requires node1.next == b[0] && b[0].prev == node1 && node4.next == node3 && node3.prev == node4
    requires forall i | 0 < i < |a| :: a[i].next == a[After(i, |a|)] && a[After(i, |a|)].prev == a[i]
    requires forall i | 0 <= i < |b| - 1 :: b[i].next == b[i + 1] && b[i + 1].prev == b[i]
    ensures Ring([node1] + b + a[1..])
  {
    var t := [node1] + b + a[1..];
    var m := |b|;
    assert t[0] == a[0];
    assert forall i | 1 <= i <= m :: t[i] == b[i - 1];
    assert forall i | m < i < |t| :: t[i] == a[i - m];
    forall i | 0 <= i < |t| ensures t[i].next == t[After(i, |t|)] && t[After(i, |t|)].prev == t[i] {
      if m < i {
        assert t[After(i, |t|)] == a[After(i - m, |a|)];
      } else if i == m {
        assert t[After(i, |t|)] == node3;
      }
    }
  }

  /** `_merge_list` of the ring read from node1 and the ring read from node2: the second is spliced in after node1. */
  method MergeList(node1: ListNode?, node2: ListNode?, ghost a: seq<ListNode>, ghost b: seq<ListNode>)
      returns (r: ListNode?)
    requires node1 != null ==> Ring(a) && a[0] == node1
    requires node2 != null ==> Ring(b) && b[0] == node2
    requires node1 != null && node2 != null ==> Disjoint(a, b)
    modifies a, b
    ensures node1 == null ==> r == node2 && unchanged(set n | n in b)
    ensures node1 != null && node2 == null ==> r == node1 && unchanged(set n | n in a)
    ensures node1 != null && node2 != null ==> r == node1 && Ring([node1] + b + a[1..])
  {
    if node1 == null {
      return node2;
    }
    if node2 == null {
      return node1;
    }
    ghost var n, m := |a|, |b|;
    assert a[After(0, n)] == node1.next;
    assert After(m - 1, m) == 0 && b[m - 1] == node2.prev;
    var node3 := node1.next;
    var node4 := node2.prev;
    node1.next := node2;
    node2.prev := node1;
    node4.next := node3;
    node3.prev := node4;
    Spliced(node1, node4, node3, a, b);
    return node1;
  }

  /** `_insert_into_list`: a single node becomes list's successor. */
  method InsertIntoList(list: ListNode, node: ListNode, ghost a: seq<ListNode>)
    requires Ring(a) && a[0] == list && node !in a
    modifies a, node
    ensures Ring([list, node] + a[1..])
  {
    node.Init();
    var _ := MergeList(list, node, a, [node]);
    assert [list] + [node] + a[1..] == [list, node] + a[1..];
  }

  /** `_detach_from_list` of the node a ring is read from: the others close up in order, and the node is alone. */
  method DetachFromList(node: ListNode, ghost rest: seq<ListNode>) returns (r: ListNode?)
    requires Ring([node] + rest)
    modifies [node] + rest
    ensures Ring([node]) && r == (if rest == [] then null else rest[|rest| - 1]) && (rest != [] ==> Ring(rest))
  {
    ghost var s := [node] + rest;
    ghost var n := |s|;
    assert s[After(0, n)] == node.next && s[After(n - 1, n)] == node && s[n - 1] == node.prev;
    var prev := node.prev;
    node.prev.next := node.next;
    node.next.prev := node.prev;
    node.Init();
    if rest != [] {
      assert forall i | 0 <= i < |rest| :: rest[i] == s[i + 1];
      forall i | 0 <= i < |rest| ensures rest[i].next == rest[After(i, |rest|)]
        && rest[After(i, |rest|)].prev == rest[i] {
        assert i + 1 < n - 1 ==> old(s[i + 1].next) == s[i + 2];
      }
    }
    if prev == node {
      return null;
    }
    return prev;
  }

  lemma TurnedAt(s: seq<ListNode>, k: nat)
    requires k < |s|
    ensures s[k..] + s[..k] == [s[k]] + (s[k + 1..] + s[..k])
    ensures forall x | x in s[k + 1..] + s[..k] :: x in s
  {
  }

  /** A ring read from its k-th node, without that node. */
  ghost function Others(s: seq<ListNode>, k: nat): seq<ListNode>
    requires k < |s|
  {
    s[k + 1..] + s[..k]
  }

  lemma TurnedTo(s: seq<ListNode>, k: nat)
    requires Ring(s) && k < |s|
    ensures Ring([s[k]] + Others(s, k))
  {
    Turn(s, k);
    TurnedAt(s, k);
  }

  lemma TurnedBack(s: seq<ListNode>, k: nat)
    requires 0 < k < |s| && Ring(Others(s, k))
    ensures Ring(s[..k] + s[k + 1..])
  {
    var rest := Others(s, k);
    Turn(rest, |s| - k - 1);
    assert rest[|s| - k - 1..] + rest[..|s| - k - 1] == s[..k] + s[k + 1..];
  }

  /** `_detach_from_list` of the k-th node of a ring, or of a node that is alone beside it. */
  method DetachFrom(node: ListNode, ghost alone: bool, ghost s: seq<ListNode>, ghost k: nat)
    requires Ring(s) && if alone then Ring([node]) && node !in s else 0 < k < |s| && s[k] == node
    modifies s, node
    ensures Ring([node]) && Ring(if alone then s else s[..k] + s[k + 1..])
  {
    if !alone {
      TurnedTo(s, k);
    }
    hide Ring;
    ghost var rest := if alone then [] else Others(s, k);
    assert [node] + [] == [node];
    var _ := DetachFromList(node, rest);
    if !alone {
      TurnedBack(s, k);
    }
  }

  /** `_insert_into_list(list->prev, node)`: a single node becomes the last one. */
  method InsertLast(list: ListNode, node: ListNode, ghost s: seq<ListNode>)
    requires Ring(s) && s[0] == list && node !in s
    modifies s, node
    ensures Ring(s + [node])
  {
    hide Ring;
    TurnedLast(s, node);
    ghost var a := LastFirst(s);
    InsertIntoList(list.prev, node, a);
    assert [a[0], node] + a[1..] == [a[0]] + [node] + a[1..];
    PushedRing(s, node);
  }

  /** The same ring, read from its last node. */
  ghost function LastFirst(s: seq<ListNode>): (a: seq<ListNode>)
    requires s != []
    ensures |a| == |s| && a[0] == s[|s| - 1] && a[1..] == s[..|s| - 1]
  {
    [s[|s| - 1]] + s[..|s| - 1]
  }

  lemma TurnedLast(s: seq<ListNode>, node: ListNode)
    requires Ring(s) && node !in s
    ensures s != [] && s[0].prev == s[|s| - 1] && Ring(LastFirst(s)) && node !in LastFirst(s)
    ensures Disjoint(LastFirst(s), [node]) && forall x | x in LastFirst(s) :: x in s
  {
    var last := |s| - 1;
    assert s[After(last, |s|)] == s[0];
    Turn(s, last);
    assert s[last..] + s[..last] == LastFirst(s);
  }

  lemma TurnedApart(s: seq<ListNode>, k: nat, head: ListNode, b: seq<ListNode>)
    requires k < |s| && Disjoint([head] + s, b)
    ensures Disjoint(b, s[k..] + s[..k]) && forall x | x in s[k..] + s[..k] :: x in s
  {
    var t := s[k..] + s[..k];
    forall i | 0 <= i < |t| ensures t[i] in s && t[i] == ([head] + s)[1 + if i + k < |s| then i + k else i + k - |s|] {
      assert t[i] == s[if i + k < |s| then i + k else i + k - |s|];
    }
  }

  // ----- the middle of exit -----

  /** `cl = _detach_from_list(&this->children); _merge_list(&root_proc.children, cl)`: the root's list becomes
      the children, entered at their last one, followed by its own: what KernelSpec.Orphan says. */
  method MoveChildren(head: ListNode, root: ListNode, ghost mine: seq<ListNode>, ghost his: seq<ListNode>)
    requires Ring([head] + mine) && Ring([root] + his) && Disjoint([head] + mine, [root] + his)
    modifies head, root, mine, his
    ensures Ring([head])
    ensures Ring([root] + KernelSpec.Rotated(mine) + his)
  {
    assert head in [head] + mine && root in [root] + his;
    var cl := DetachFromList(head, mine);
    if cl == null {
      assert [root] + [] + his == [root] + his;
      return;
    }
    ghost var last := |mine| - 1;
    ghost var ring := mine[last..] + mine[..last];
    Turn(mine, last);
    assert mine[last..] == [mine[last]];
    TurnedApart(mine, last, head, [root] + his);
    assert forall x | x in ring :: x in mine;
    assert forall x | x in [root] + his :: x == root || x in his;
    var _ := MergeList(root, cl, [root] + his, ring);
    assert ([root] + his)[1..] == his;
  }

  // ----- the FIFO queue -----

  /** The ring spliced at its last node, read from its first again. */
  lemma PushedRing(s: seq<ListNode>, item: ListNode)
    requires s != [] && Ring([LastFirst(s)[0]] + [item] + LastFirst(s)[1..])
    ensures Ring(s + [item])
  {
    var last := |s| - 1;
    var t := [s[last]] + [item] + s[..last];
    if last == 0 {
      assert t == s + [item];
    } else {
      Turn(t, 2);
      assert t[2..] + t[..2] == s + [item];
    }
  }

  /** `Queue`: begin, end and sz stand for the sequence s of items. */
  class Queue {
    var begin: ListNode?
    var end: ListNode?
    var sz: nat

    ghost predicate Holds(s: seq<ListNode>)
      reads this, s
    {
      && sz == |s|
      && (s == [] ==> begin == null) && (s != [] ==> Ring(s) && begin == s[0] && end == s[|s| - 1])
    }

    /** `queue_init`. */
    constructor ()
      ensures Holds([])
    {
      begin, end, sz := null, null, 0;
    }

    method Push(item: ListNode, ghost s: seq<ListNode>)
      requires Holds(s) && item !in s
      modifies this, s, item
      ensures Holds(s + [item])
    {
      item.Init();
      if sz == 0 {
        begin, end := item, item;
        assert s + [item] == [item];
      } else {
        TurnedLast(s, item);
        hide Disjoint;
        var _ := MergeList(end, item, LastFirst(s), [item]);
        end := item;
        PushedRing(s, item);
      }
      sz := sz + 1;
    }

    /** `queue_pop`; on an empty queue it panics. */
    method Pop(ghost s: seq<ListNode>) returns (panicked: bool)
      requires Holds(s)
      modifies this, s
      ensures panicked <==> s == []
      ensures Holds(if panicked then s else s[1..])
    {
      if sz == 0 {
        return true;
      }
      if sz == 1 {
        begin, end := null, null;
      } else {
        var t := begin;
        assert s == [s[0]] + s[1..] && s[After(0, |s|)] == s[1];
        begin := begin.next;
        var _ := DetachFromList(t, s[1..]);
      }
      sz := sz - 1;
      return false;
    }

    /** `queue_front`; null stands for its panic. */
    method Front(ghost s: seq<ListNode>) returns (r: ListNode?)
      requires Holds(s)
      ensures if s == [] then r == null else r == s[0]
    {
      return begin;
    }
  }
}
