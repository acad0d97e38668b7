// In which order messages leave the queue.
module IpcOrder {
  import opened Ipc

  /** The messages of one type, in order. */
  function Of(ms: seq<Msg>, mtype: int): seq<Msg> {
    if ms == [] then [] else (if ms[0].mtype == mtype then [ms[0]] else []) + Of(ms[1..], mtype)
  }

  lemma {:induction false} OfSum(a: seq<Msg>, b: seq<Msg>, mtype: int)
    ensures Of(a + b, mtype) == Of(a, mtype) + Of(b, mtype)
  {
    if a == [] {
      assert a + b == b;
    } else {
      OfSum(a[1..], b, mtype);
      assert (a + b)[1..] == a[1..] + b && (a + b)[0] == a[0];
      Regroup(if a[0].mtype == mtype then [a[0]] else [], Of(a[1..], mtype), Of(b, mtype));
    }
  }

  lemma Regroup(a: seq<Msg>, b: seq<Msg>, c: seq<Msg>)
    ensures a + (b + c) == (a + b) + c
  {
  }

  lemma {:induction false} OfNone(ms: seq<Msg>, mtype: int)
    requires forall i | 0 <= i < |ms| :: ms[i].mtype != mtype
    ensures Of(ms, mtype) == []
  {
    if ms != [] {
      OfNone(ms[1..], mtype);
    }
  }

  lemma OfMore(ms: seq<Msg>, m: Msg, mtype: int)
    ensures Of(ms + [m], mtype) == Of(ms, mtype) + if m.mtype == mtype then [m] else []
  {
    OfSum(ms, [m], mtype);
    assert [m][1..] == [];
  }

  /** The first message of its type leaves at the head of its type. */
  lemma OfWithout(ms: seq<Msg>, i: nat, mtype: int)
    requires i < |ms| && forall j | 0 <= j < i :: ms[j].mtype != ms[i].mtype
    ensures Of(ms, mtype) == (if ms[i].mtype == mtype then [ms[i]] else []) + Of(Without(ms, i), mtype)
  {
    var a, b := ms[..i], ms[i + 1..];
    assert ms == (a + [ms[i]]) + b;
    OfSum(a + [ms[i]], b, mtype);
    OfMore(a, ms[i], mtype);
    OfSum(a, b, mtype);
    if ms[i].mtype == mtype {
      OfNone(a, mtype);
    }
  }

  /** Of each type, the messages taken in are those given out, in that order, and then those still queued. */
  ghost predicate InOrder(s: System) {
    forall mtype :: Of(s.accepted, mtype) == Of(Msgs(s.delivered), mtype) + Of(s.q.messages, mtype)
  }

  /** A receive that asks for a type, for any type, or for the types up to 1, takes the first it can. */
  lemma TakesFirst(ms: seq<Msg>, r: int, ch: seq<nat>)
    requires Chain(ms, 0, r, ch) && r >= -1
    ensures Last(ch) < |ms| && TestMsg(r, ms[Last(ch)].mtype)
    ensures forall j | 0 <= j < Last(ch) :: !TestMsg(r, ms[j].mtype) && ms[j].mtype != ms[Last(ch)].mtype
  {
  }

  lemma SndInOrder(s: System, p: nat, m: Msg, nowait: bool)
    requires InOrder(s) && Inv(s.q) && Allowed(s, Snd(p, m, nowait))
    ensures InOrder(Step(s, Snd(p, m, nowait)))
  {
    hide Of, Msgs, Turns, FirstMatch;
    SendIs(s.q, p, m, nowait);
    var r := Send(s.q, p, m, nowait).1;
    var s1 := Step(s, Snd(p, m, nowait));
    forall mtype ensures Of(s1.accepted, mtype) == Of(Msgs(s1.delivered), mtype) + Of(s1.q.messages, mtype) {
      OfMore(s.accepted, m, mtype);
      if r.Queued? {
        OfMore(s.q.messages, m, mtype);
      } else if r.Handed? {
        MsgsOneMore(s.delivered, Delivery(m, r.r.p, r.r.mtype, r.r.size));
        OfMore(Msgs(s.delivered), m, mtype);
        if m.mtype == mtype {
          NoneQueued(s.q, m);
        }
      }
    }
  }

  /** Where somebody waits for a message, none of its type is queued. */
  lemma NoneQueued(q: Q, m: Msg)
    requires Inv(q) && exists i :: 0 <= i < |q.receivers| && TestMsg(q.receivers[i].mtype, m.mtype)
    ensures Of(q.messages, m.mtype) == []
  {
    OfNone(q.messages, m.mtype);
  }

  lemma RcvInOrder(s: System, p: nat, mtype: int, size: nat, nowait: bool)
    requires InOrder(s) && Allowed(s, Rcv(p, mtype, size, nowait)) && mtype >= -1
    ensures InOrder(Step(s, Rcv(p, mtype, size, nowait)))
  {
    hide Of, Msgs, Recv, Allowed;
    var ch := RecvIs(s.q, p, mtype, size, nowait);
    var r, s1 := Recv(s.q, p, mtype, size, nowait).1, Step(s, Rcv(p, mtype, size, nowait));
    if r.Got? {
      TakesFirst(s.q.messages, mtype, ch);
      MsgsOneMore(s.delivered, Delivery(r.m, p, mtype, size));
      forall ty ensures Of(s1.accepted, ty) == Of(Msgs(s1.delivered), ty) + Of(s1.q.messages, ty) {
        OfWithout(s.q.messages, Last(ch), ty);
        OfMore(Msgs(s.delivered), r.m, ty);
      }
    }
  }

  predicate AtLeast(run: seq<Call>, low: int) {
    forall i | 0 <= i < |run| && run[i].Rcv? :: run[i].mtype >= low
  }

  /** In every run whose requests are -1 or more, the messages of each type are given out in the order in
      which they were taken in. */
  lemma {:induction false} FirstInFirstOut(max: nat, run: seq<Call>)
    requires After(max, run).Some? && AtLeast(run, -1)
    ensures InOrder(After(max, run).value)
    decreases |run|
  {
    hide InOrder, Step, Allowed;
    if run == [] {
      NothingInOrder(max);
    } else {
      var before, c := run[..|run| - 1], run[|run| - 1];
      FirstInFirstOut(max, before);
      RunKeeps(max, before);
      var s := After(max, before).value;
      match c
      case Snd(p, m, nowait) => SndInOrder(s, p, m, nowait);
      case Rcv(p, mtype, size, nowait) => RcvInOrder(s, p, mtype, size, nowait);
    }
  }

  lemma NothingInOrder(max: nat)
    ensures InOrder(System(Empty(max), [], []))
  {
  }

  predicate Only(run: seq<Call>, r: int) {
    forall i | 0 <= i < |run| && run[i].Rcv? :: run[i].mtype == r
  }

  /** Which requests keep that order: if and only if the request is -1 or more, every run that makes only
      this request does. With a lower one, of two messages of type 1 the second is given out first. */
  lemma OrderWhen(max: nat, r: int)
    requires max >= 2
    ensures (forall run | After(max, run).Some? && Only(run, r) :: InOrder(After(max, run).value)) <==> r >= -1
  {
    if r >= -1 {
      forall run | After(max, run).Some? && Only(run, r) ensures InOrder(After(max, run).value) {
        FirstInFirstOut(max, run);
      }
    } else {
      var run := [Snd(0, Msg(0, 1, 0), false), Snd(0, Msg(1, 1, 0), false), Rcv(1, r, 0, false)];
      SecondFirst(max, r);
      assert Only(run, r);
      NotInOrder(After(max, run).value);
    }
  }

  lemma SecondFirst(max: nat, r: int)
    requires max >= 2 && r < -1
    ensures After(max, [Snd(0, Msg(0, 1, 0), false), Snd(0, Msg(1, 1, 0), false), Rcv(1, r, 0, false)]) ==
      Some(System(Q([Msg(0, 1, 0)], [], [], 1, max), [Msg(0, 1, 0), Msg(1, 1, 0)], [Delivery(Msg(1, 1, 0), 1, r, 0)]))
  {
    var a, b := Msg(0, 1, 0), Msg(1, 1, 0);
    TwoQueued(max, a, b);
    var run, c := [Snd(0, a, false), Snd(0, b, false)], Rcv(1, r, 0, false);
    var s := After(max, run).value;
    var all := run + [c];
    assert all[..2] == run && all == [Snd(0, a, false), Snd(0, b, false), c];
    assert Find([a, b], 0, r, None) == Find([a, b], 1, r + 1, Some(0)) == Some(1);
    assert Without([a, b], 1) == [a];
    assert Allowed(s, c);
    assert Step(s, c) == System(Q([a], [], [], 1, max), [a, b], [Delivery(b, 1, r, 0)]);
  }

  lemma TwoQueued(max: nat, a: Msg, b: Msg)
    requires max >= 2 && a != b
    ensures After(max, [Snd(0, a, false), Snd(0, b, false)]) == Some(System(Q([a, b], [], [], 2, max), [a, b], []))
  {
    var ca, cb := Snd(0, a, false), Snd(0, b, false);
    var s0, s1 := System(Empty(max), [], []), System(Q([a], [], [], 1, max), [a], []);
    assert [ca][..0] == [] && [ca, cb][..1] == [ca];
    assert FirstMatch([], a) == None && FirstMatch([], b) == None;
    assert After(max, []) == Some(s0) && Allowed(s0, ca) && Step(s0, ca) == s1;
    assert After(max, [ca]) == Some(s1);
    assert Allowed(s1, cb) && Step(s1, cb) == System(Q([a, b], [], [], 2, max), [a, b], []);
  }

  lemma NotInOrder(s: System)
    requires s.accepted == [Msg(0, 1, 0), Msg(1, 1, 0)] && s.q.messages == [Msg(0, 1, 0)]
    requires |s.delivered| == 1 && s.delivered[0].m == Msg(1, 1, 0)
    ensures !InOrder(s)
  {
    var a, b := Msg(0, 1, 0), Msg(1, 1, 0);
    assert [b][1..] == [] && [a][1..] == [];
    assert Of([b], 1) == [b] && Of([a], 1) == [a];
    assert s.accepted[1..] == [b] && Of(s.accepted, 1) == [a] + [b];
    assert Msgs(s.delivered) == [b];
    assert ([a] + [b])[0] != ([b] + [a])[0];
  }
}
