// The system calls of src/common/ipc.c over a queue updated in place. The waiting receivers are a ring of
// nodes, because the walk of `pipeline_send` follows the links that it changes itself. A walk that may not
// end is given a number of turns.
module MsgQueues {
  import opened Ipc
  import opened Rings

  /** The receivers that own these nodes: `container_of`. */
  ghost function Owners(record: map<ListNode, Receiver>, nodes: seq<ListNode>): (rs: seq<Receiver>)
    requires forall n | n in nodes :: n in record
    ensures |rs| == |nodes| && forall i | 0 <= i < |rs| :: rs[i] == record[nodes[i]]
  {
    seq(|nodes|, i requires 0 <= i < |nodes| => record[nodes[i]])
  }

  lemma OwnersWithout(record: map<ListNode, Receiver>, nodes: seq<ListNode>, i: nat)
    requires i < |nodes| && forall n | n in nodes :: n in record
    ensures forall n | n in Without(nodes, i) :: n in record
    ensures Owners(record, Without(nodes, i)) == Without(Owners(record, nodes), i)
  {
  }

  lemma OwnersMore(record: map<ListNode, Receiver>, nodes: seq<ListNode>, node: ListNode, r: Receiver)
    requires node !in nodes && forall n | n in nodes :: n in record
    ensures Owners(record[node := r], nodes + [node]) == Owners(record, nodes) + [r]
  {
  }

  /** What is known of a walk that has come past i receivers. */
  lemma TurnsAt(rs: seq<Receiver>, m: Msg, i: nat)
    requires i <= |rs| && forall j | 0 <= j < i :: !TestMsg(rs[j].mtype, m.mtype)
    ensures Turns(rs, m).Some? ==> Turns(rs, m).value > i
    ensures FirstMatch(rs, m).Some? ==> i <= FirstMatch(rs, m).value
    ensures i == |rs| ==> FirstMatch(rs, m) == None && Turns(rs, m) == Some(i + 1)
    ensures i < |rs| && TestMsg(rs[i].mtype, m.mtype) ==>
      FirstMatch(rs, m) == Some(i) && Turns(rs, m) == if m.size > rs[i].size then None else Some(i + 1)
  {
    FirstMatchIs(rs, m);
  }

  class MsgQueue {
    var messages: seq<Msg>
    var senders: seq<nat>
    const receivers: ListNode
    var record: map<ListNode, Receiver>
    var sumMsg: int
    var maxMsg: int
    ghost var waiting: seq<ListNode>

    /** The ring, from its head. */
    ghost function Nodes(): seq<ListNode>
      reads this
    {
      [receivers] + waiting
    }

    ghost predicate Valid()
      reads this, Nodes()
    {
      Ring(Nodes()) && forall n | n in waiting :: n in record
    }

    ghost function View(): Q
      reads this
      requires forall n | n in waiting :: n in record
    {
      Q(messages, senders, Owners(record, waiting), sumMsg, maxMsg)
    }

    /** `newque`. */
    constructor (maxMsg: nat)
      ensures Valid() && View() == Empty(maxMsg) && fresh(receivers)
    {
      receivers := new ListNode();
      messages, senders, record, sumMsg, this.maxMsg, waiting := [], [], map[], 0, maxMsg, [];
    }

    /** `_detach_from_list` in the walk: a waiting receiver leaves, the ring closes up, and the node is its own
        successor. A node that is alone already stays so. */
    method Detach(node: ListNode, ghost alone: bool, ghost i: nat)
      requires Valid() && if alone then Ring([node]) && node !in Nodes() else i < |waiting| && node == waiting[i]
      modifies this`waiting, receivers, waiting, node
      ensures Valid() && Ring([node]) && node !in Nodes()
      ensures waiting == if alone then old(waiting) else Without(old(waiting), i)
    {
      hide Ring;
      ghost var s := Nodes();
      if !alone {
        Alone(s, i + 1);
      }
      DetachFrom(node, alone, s, i + 1);
      if !alone {
        assert s[..i + 1] + s[i + 2..] == [receivers] + Without(waiting, i);
        waiting := Without(waiting, i);
      }
    }

    /** The walk of `pipeline_send` over the ring `all`, at node after n turns: it has come past i receivers
        that do not match, or has been staying on the i-th, which matches and is too small, since turn i. */
    ghost predicate Walking(all: seq<ListNode>, m: Msg, n: nat, i: nat, stays: bool, node: ListNode,
        woken: seq<Receiver>)
      reads this, Nodes(), node
    {
      && Valid() && i <= |all| && i <= n
      && (forall x | x in all :: x in record) && (forall x | x in waiting :: x in all)
      && (forall j | 0 <= j < i :: !TestMsg(record[all[j]].mtype, m.mtype))
      && if stays then
           && Ring([node]) && node !in Nodes() && i < |all| && node == all[i] && waiting == Without(all, i)
           && TestMsg(record[node].mtype, m.mtype) && m.size > record[node].size
           && 0 < |woken| == n - i && forall w | w in woken :: w == record[node]
         else waiting == all && woken == [] && i == n && node == Nodes()[Rings.After(n, |all| + 1)]
    }

    lemma AtNode(all: seq<ListNode>, m: Msg, n: nat, node: ListNode)
      requires Walking(all, m, n, n, false, node, [])
      ensures node == receivers <==> n == |all|
      ensures n < |all| ==> node == all[n] && node.next == Nodes()[Rings.After(n + 1, |all| + 1)]
    {
      var s := Nodes();
      assert s[0] == receivers;
      assert n < |all| ==> s[n + 1] == all[n];
    }

    lemma Inside(all: seq<ListNode>, m: Msg, n: nat, i: nat, stays: bool, node: ListNode, woken: seq<Receiver>)
      requires Walking(all, m, n, i, stays, node, woken)
      ensures node == receivers || node in all
      ensures forall x | x in Nodes() :: x == receivers || x in all
    {
      hide Ring;
    }

    lemma Staying(node: ListNode)
      requires Ring([node])
      ensures node.next == node
    {
      assert [node][Rings.After(0, 1)] == node;
    }

    /** One turn of the walk. */
    method WalkTurn(m: Msg, node: ListNode, woken: seq<Receiver>, ghost all: seq<ListNode>, ghost n: nat, ghost i: nat,
        ghost stays: bool)
      returns (over: bool, r: Option<Receiver>, next: ListNode, woken': seq<Receiver>, ghost stays': bool)
      requires Walking(all, m, n, i, stays, node, woken)
      modifies this`waiting, receivers, all
      ensures stays ==> !over
      ensures !over ==> Walking(all, m, n + 1, if stays' then i else n + 1, stays', next, woken') && (stays ==> stays')
      ensures over && r.None? ==> i == |all| && waiting == all && woken' == []
      ensures over && r.Some? ==>
        && i < |all| && all[i] in record && r.value == record[all[i]] && woken' == [r.value]
            && waiting == Without(all, i)
        && TestMsg(r.value.mtype, m.mtype) && m.size <= r.value.size
      ensures over ==> Valid() && i == n && forall x | x in waiting :: x in all
    {
      over, r, next, woken', stays' := true, None, node, woken, stays;
      Inside(all, m, n, i, stays, node, woken);
      if !stays {
        AtNode(all, m, n, node);
      }
      hide Ring;
      if node == receivers {
        return;
      }
      var rec := record[node];
      if TestMsg(rec.mtype, m.mtype) {
        Detach(node, stays, i);
        Staying(node);
        woken' := woken + [rec];
        if m.size <= rec.size {
          r := Some(rec);
          return;
        }
        stays' := true;
      }
      over, next := false, node.next;
    }

    /** `pipeline_send`, for as many turns as `fuel` says; None while it has not returned. `woken` are the
        receivers that it calls `activate_proc` for. Nobody else touches the nodes meanwhile: a woken receiver's
        node lies on its stack, so a walk that stays on that node is described until the receiver runs again. */
    method PipelineSend(m: Msg, fuel: nat) returns (r: Option<Option<Receiver>>, woken: seq<Receiver>)
      requires Valid()
      modifies this`waiting, receivers, waiting
      ensures Valid() && forall n | n in waiting :: n in old(waiting)
      ensures var turns := Turns(old(View()).receivers, m); r.None? <==> turns.None? || fuel < turns.value
      ensures r == Some(None) ==> FirstMatch(old(View()).receivers, m).None? && View() == old(View()) && woken == []
      ensures r.Some? && r.value.Some? ==>
        var was, f := old(View()).receivers, FirstMatch(old(View()).receivers, m);
        && f.Some? && f.value < |was| && r.value.value == was[f.value]
        && View().receivers == Without(was, f.value) && woken == [was[f.value]]
      ensures r.None? ==>
        var was, f := old(View()).receivers, FirstMatch(old(View()).receivers, m);
        if f.Some? && f.value < fuel then
          && f.value < |was| && View().receivers == Without(was, f.value)
          && |woken| == fuel - f.value && forall w | w in woken :: w == was[f.value]
        else View() == old(View()) && woken == []
    {
      hide FirstMatch, Turns;
      ghost var all, rs, i, stays := waiting, View().receivers, 0, false;
      var node, n, over, to := receivers.next, 0, false, None;
      assert node == Nodes()[Rings.After(0, |all| + 1)];
      hide Ring;
      woken := [];
      while n < fuel
        invariant n <= fuel && Walking(all, m, n, i, stays, node, woken)
        decreases fuel - n
      {
        over, to, node, woken, stays := WalkTurn(m, node, woken, all, n, i, stays);
        if over {
          TurnsAt(rs, m, i);
          if to.Some? {
            OwnersWithout(record, all, i);
          }
          return Some(to), woken;
        }
        n := n + 1;
        i := if stays then i else n;
      }
      TurnsAt(rs, m, i);
      if stays {
        OwnersWithout(record, all, i);
      }
      r := None;
    }

    /** `sys_msgsnd` with the lock held; None while `pipeline_send` has not returned after that many turns. */
    method MsgSnd(p: nat, m: Msg, nowait: bool, fuel: nat) returns (r: Option<Sent>)
      requires Valid()
      modifies this, receivers, waiting
      ensures Valid() && forall n | n in waiting :: n in old(waiting)
      ensures r.None? <==>
        var q := old(View()); Room(q) && var turns := Turns(q.receivers, m); turns.None? || fuel < turns.value
      ensures r.Some? ==> Returns(old(View()), m) && (View(), r.value) == Send(old(View()), p, m, nowait)
    {
      FirstMatchIs(View().receivers, m);
      hide Ring, FirstMatch;
      if sumMsg + 1 > maxMsg {
        if nowait {
          return Some(Again);
        }
        senders := senders + [p];
        return Some(Asleep);
      }
      var to, woken := PipelineSend(m, fuel);
      if to.None? {
        return None;
      }
      if to.value.None? {
        messages := messages + [m];
        sumMsg := sumMsg + 1;
        return Some(Queued);
      }
      return Some(Handed(to.value.value));
    }

    /** `ss_wakeup` of the senders, in list order. */
    method Wakeup() returns (woken: seq<nat>)
      modifies this`senders
      ensures senders == [] && woken == old(senders)
    {
      woken := [];
      while senders != []
        invariant woken + senders == old(senders)
        decreases |senders|
      {
        woken := woken + [senders[0]];
        senders := senders[1..];
      }
    }

    /** The search of `sys_msgrcv`: the first match, or for a request below -1 the end of its chain. */
    method FindMessage(mtype: int) returns (found: Option<nat>)
      ensures found == Find(messages, 0, mtype, None)
      ensures found.None? <==> forall j | 0 <= j < |messages| :: !TestMsg(mtype, messages[j].mtype)
      ensures found.Some? ==>
        && found.value < |messages| && TestMsg(mtype, messages[found.value].mtype)
        && (mtype >= -1 ==> forall j | 0 <= j < found.value :: !TestMsg(mtype, messages[j].mtype))
        && exists ch :: Chain(messages, 0, mtype, ch) && Last(ch) == found.value
    {
      FindIs(messages, 0, mtype, None);
      FindMatches(messages, 0, mtype, mtype, None);
      ghost var ch := FindChain(messages, 0, mtype, None);
      var i: nat, want := 0, mtype;
      found := None;
      while i < |messages|
        invariant 0 <= i <= |messages|
        invariant Find(messages, 0, mtype, None) == Find(messages, i, want, found)
      {
        if TestMsg(want, messages[i].mtype) {
          found := Some(i);
          if want < -1 {
            want := want + 1;
          } else {
            return;
          }
        }
        i := i + 1;
      }
    }

    /** `sys_msgrcv` with the lock held. */
    method MsgRcv(p: nat, mtype: int, size: nat, nowait: bool) returns (r: Received)
      requires Valid()
      modifies this, receivers, waiting
      ensures Valid() && (View(), r) == Recv(old(View()), p, mtype, size, nowait)
      ensures forall n | n in waiting && n !in old(waiting) :: fresh(n)
    {
      hide Ring, Find;
      FindIs(messages, 0, mtype, None);
      var found := FindMessage(mtype);
      if found.Some? {
        var m := messages[found.value];
        if m.size > size {
          return TooBig;
        }
        messages := messages[..found.value] + messages[found.value + 1..];
        sumMsg := sumMsg - 1;
        var woken := Wakeup();
        return Got(m, woken);
      }
      if nowait {
        return NoMsg;
      }
      var node := new ListNode();
      InsertLast(receivers, node, Nodes());
      OwnersMore(record, waiting, node, Receiver(p, mtype, size));
      assert Nodes() + [node] == [receivers] + (waiting + [node]);
      record := record[node := Receiver(p, mtype, size)];
      waiting := waiting + [node];
      return Waiting;
    }
  }

  /** A process waits with an empty buffer, another sends it one byte: for any number of turns, the send has
      not returned. */
  method SendThatStays(fuel: nat) returns (r: Option<Sent>)
    ensures r == None
  {
    var q := new MsgQueue(1);
    var c, m := Receiver(0, 0, 0), Msg(0, 1, 1);
    var _ := q.MsgRcv(c.p, c.mtype, c.size, false);
    hide Ring;
    assert q.View().receivers == [c];
    TurnsAt([c], m, 0);
    hide Turns;
    r := q.MsgSnd(1, m, false, fuel);
  }

  lemma Alone(s: seq<ListNode>, k: nat)
    requires Ring(s) && k < |s|
    ensures s[k] !in Without(s, k)
  {
  }
}
