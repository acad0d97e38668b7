// The message-queue rendezvous of src/common/ipc.c: one queue, each system call one region under the
// lock. Processes are numbers; a message is its number, type and size.
module Ipc {
  datatype Msg = Msg(id: nat, mtype: int, size: nat)

  datatype Receiver = Receiver(p: nat, mtype: int, size: nat)

  /** `msg_queue`: every list in ring order from its head. */
  datatype Q = Q(messages: seq<Msg>, senders: seq<nat>, receivers: seq<Receiver>, sum: int, max: int)

  datatype Option<T> = None | Some(value: T)

  predicate TestMsg(rqtype: int, mtype: int) {
    if rqtype == 0 then true else if rqtype < 0 then rqtype + mtype <= 0 else rqtype == mtype
  }

  // ----- sending -----

  /** The first waiting receiver the message matches. */
  function FirstMatch(rs: seq<Receiver>, m: Msg): Option<nat> {
    if rs == [] then None
    else if TestMsg(rs[0].mtype, m.mtype) then Some(0)
    else var r := FirstMatch(rs[1..], m); if r.None? then None else Some(r.value + 1)
  }

  /** How many turns the walk of `pipeline_send` takes before it returns; None if it never does. A matching
      receiver whose buffer is too small is detached by the walk, and a detached node is its own successor. */
  function Turns(rs: seq<Receiver>, m: Msg): Option<nat> {
    FirstMatchIs(rs, m);
    match FirstMatch(rs, m)
    case None => Some(|rs| + 1)
    case Some(i) => if m.size > rs[i].size then None else Some(i + 1)
  }

  predicate Room(q: Q) {
    q.sum + 1 <= q.max
  }

  datatype Sent =
    | Handed(r: Receiver)          // straight to a waiting receiver
    | Queued
    | Again                        // EAGAIN
    | Asleep                       // on the senders' list, to retry when woken

  /** Whether `sys_msgsnd` releases the lock again. */
  predicate Returns(q: Q, m: Msg) {
    Room(q) ==> Turns(q.receivers, m).Some?
  }

  /** `sys_msgsnd` from taking the lock to releasing it. */
  function Send(q: Q, p: nat, m: Msg, nowait: bool): (Q, Sent)
    requires Returns(q, m)
  {
    if !Room(q) then (if nowait then (q, Again) else (q.(senders := q.senders + [p]), Asleep))
    else
      FirstMatchIs(q.receivers, m);
      match FirstMatch(q.receivers, m)
      case None => (q.(messages := q.messages + [m], sum := q.sum + 1), Queued)
      case Some(i) => (q.(receivers := Without(q.receivers, i)), Handed(q.receivers[i]))
  }

  function Without<T>(s: seq<T>, i: nat): seq<T>
    requires i < |s|
  {
    s[..i] + s[i + 1..]
  }

  lemma {:induction false} FirstMatchIs(rs: seq<Receiver>, m: Msg)
    ensures var f := FirstMatch(rs, m);
      && (f.Some? ==>
          f.value < |rs| && TestMsg(rs[f.value].mtype, m.mtype)
          && forall j | 0 <= j < f.value :: !TestMsg(rs[j].mtype, m.mtype))
      && (f.None? ==> forall j | 0 <= j < |rs| :: !TestMsg(rs[j].mtype, m.mtype))
    decreases |rs|
  {
    if rs != [] {
      FirstMatchIs(rs[1..], m);
      assert forall j | 0 <= j < |rs[1..]| :: rs[1..][j] == rs[j + 1];
    }
  }

  // ----- receiving -----

  /** The walk of `sys_msgrcv` over the messages from place i: a request below -1 moves up by one at every
      match and goes on, any other request stops at its first. */
  function Find(ms: seq<Msg>, i: nat, mtype: int, found: Option<nat>): Option<nat>
    decreases |ms| - i
  {
    if i >= |ms| then found
    else if TestMsg(mtype, ms[i].mtype) then (if mtype < -1 then Find(ms, i + 1, mtype + 1, Some(i)) else Some(i))
    else Find(ms, i + 1, mtype, found)
  }

  lemma {:induction false} FindIs(ms: seq<Msg>, i: nat, mtype: int, found: Option<nat>)
    requires i <= |ms| && (found.Some? ==> found.value < |ms|)
    ensures Find(ms, i, mtype, found).Some? ==> Find(ms, i, mtype, found).value < |ms|
    ensures found.Some? ==> Find(ms, i, mtype, found).Some?
    ensures found.None? ==>
        (Find(ms, i, mtype, found).None? <==> forall j | i <= j < |ms| :: !TestMsg(mtype, ms[j].mtype))
    decreases |ms| - i
  {
    if i < |ms| {
      if TestMsg(mtype, ms[i].mtype) {
        if mtype < -1 {
          FindIs(ms, i + 1, mtype + 1, Some(i));
        }
      } else {
        FindIs(ms, i + 1, mtype, found);
      }
    }
  }

  /** The message found matches the request it was made with. */
  lemma {:induction false} FindMatches(ms: seq<Msg>, i: nat, mtype: int, first: int, found: Option<nat>)
    requires i <= |ms| && first <= mtype
        && (found.Some? ==> found.value < |ms| && TestMsg(first, ms[found.value].mtype) && first < -1)
    requires found.None? ==> mtype == first
    requires first < -1 ==> mtype <= -1
    requires first >= -1 ==> mtype == first
    ensures var f := Find(ms, i, mtype, found); f.Some? ==> f.value < |ms| && TestMsg(first, ms[f.value].mtype)
    decreases |ms| - i
  {
    if i < |ms| {
      if TestMsg(mtype, ms[i].mtype) {
        if mtype < -1 {
          FindMatches(ms, i + 1, mtype + 1, first, Some(i));
        }
      } else {
        FindMatches(ms, i + 1, mtype, first, found);
      }
    }
  }

  /** Which match a receive takes, from place i on: the first. But a request below -1 goes on behind it with
      the next higher request, so that it takes the last of a chain of matches, one for each request it
      gets to, and each the first behind the one before. */
  predicate Chain(ms: seq<Msg>, i: nat, r: int, ch: seq<nat>)
    decreases |ch|
  {
    && ch != [] && i <= ch[0] < |ms| && TestMsg(r, ms[ch[0]].mtype)
    && (forall j | i <= j < ch[0] :: !TestMsg(r, ms[j].mtype))
    && if r >= -1 then |ch| == 1
       else if |ch| == 1 then forall j | ch[0] < j < |ms| :: !TestMsg(r + 1, ms[j].mtype)
       else Chain(ms, ch[0] + 1, r + 1, ch[1..])
  }

  function Last(ch: seq<nat>): nat
    requires ch != []
  {
    ch[|ch| - 1]
  }

  lemma {:induction false} FindChain(ms: seq<Msg>, i: nat, r: int, found: Option<nat>) returns (ch: seq<nat>)
    requires i <= |ms|
    ensures if forall j | i <= j < |ms| :: !TestMsg(r, ms[j].mtype) then Find(ms, i, r, found) == found
            else Chain(ms, i, r, ch) && Find(ms, i, r, found) == Some(Last(ch))
    decreases |ms| - i
  {
    ch := [];
    if i < |ms| {
      if TestMsg(r, ms[i].mtype) {
        ch := [i];
        if r < -1 {
          var rest := FindChain(ms, i + 1, r + 1, Some(i));
          if exists j :: i < j < |ms| && TestMsg(r + 1, ms[j].mtype) {
            ch := [i] + rest;
            assert ch[1..] == rest;
          }
        }
      } else {
        ch := FindChain(ms, i + 1, r, found);
      }
    }
  }

  /** There is only one such chain. */
  lemma {:induction false} ChainOnce(ms: seq<Msg>, i: nat, r: int, a: seq<nat>, b: seq<nat>)
    requires Chain(ms, i, r, a) && Chain(ms, i, r, b)
    ensures a == b
    decreases |a|
  {
    assert a[0] == b[0];
    if |a| > 1 && |b| > 1 {
      ChainOnce(ms, a[0] + 1, r + 1, a[1..], b[1..]);
    }
    assert a == [a[0]] + a[1..] && b == [b[0]] + b[1..];
  }

  /** A chain passes no message of the type it ends with: if one stands before the one taken, it is in the chain. */
  lemma {:induction false} ChainPassesNone(ms: seq<Msg>, i: nat, r: int, ch: seq<nat>, j: nat)
    requires Chain(ms, i, r, ch) && i <= j <= Last(ch) < |ms| && ms[j].mtype == ms[Last(ch)].mtype
    ensures j in ch && TestMsg(r, ms[j].mtype)
    decreases |ch|
  {
    if |ch| > 1 {
      var rest := ch[1..];
      if j > ch[0] {
        ChainPassesNone(ms, ch[0] + 1, r + 1, rest, j);
      } else {
        ChainGoesUp(ms, ch[0] + 1, r + 1, rest);
        ChainPassesNone(ms, ch[0] + 1, r + 1, rest, Last(rest));
      }
    }
  }

  lemma {:induction false} ChainGoesUp(ms: seq<Msg>, i: nat, r: int, ch: seq<nat>)
    requires Chain(ms, i, r, ch)
    ensures i <= Last(ch) < |ms| && forall n | 0 <= n < |ch| :: i <= ch[n] <= Last(ch)
    ensures forall n | 0 <= n < |ch| - 1 :: ch[n] < Last(ch)
    decreases |ch|
  {
    if |ch| > 1 {
      ChainGoesUp(ms, ch[0] + 1, r + 1, ch[1..]);
      assert forall n | 1 <= n < |ch| :: ch[n] == ch[1..][n - 1];
    }
  }

  /** An earlier message of the very type taken is left behind if and only if the chain came past one. */
  lemma LeavesBehind(ms: seq<Msg>, r: int, ch: seq<nat>)
    requires Chain(ms, 0, r, ch)
    ensures Last(ch) < |ms| && forall n | 0 <= n < |ch| - 1 :: ch[n] < Last(ch)
    ensures (exists j :: 0 <= j < Last(ch) && ms[j].mtype == ms[Last(ch)].mtype) <==>
            (exists n :: 0 <= n < |ch| - 1 && ms[ch[n]].mtype == ms[Last(ch)].mtype)
  {
    ChainGoesUp(ms, 0, r, ch);
    if j :| 0 <= j < Last(ch) && ms[j].mtype == ms[Last(ch)].mtype {
      ChainPassesNone(ms, 0, r, ch, j);
      var n :| 0 <= n < |ch| && ch[n] == j;
      assert n < |ch| - 1;
    }
  }

  datatype Received =
    | Got(m: Msg, woken: seq<nat>) // a queued message, all sleeping senders woken
    | TooBig                       // E2BIG
    | NoMsg                        // ENOMSG
    | Waiting                      // on the receivers' list

  /** `sys_msgrcv` from taking the lock to releasing it. */
  function Recv(q: Q, p: nat, mtype: int, size: nat, nowait: bool): (Q, Received) {
    FindIs(q.messages, 0, mtype, None);
    match Find(q.messages, 0, mtype, None)
    case Some(i) =>
      if q.messages[i].size > size then (q, TooBig)
      else (q.(messages := Without(q.messages, i), sum := q.sum - 1, senders := []), Got(q.messages[i], q.senders))
    case None => if nowait then (q, NoMsg) else (q.(receivers := q.receivers + [Receiver(p, mtype, size)]), Waiting)
  }

  /** What a receive does, by the message it takes. */
  lemma RecvIs(q: Q, p: nat, mtype: int, size: nat, nowait: bool) returns (ch: seq<nat>)
    ensures var (q1, r) := Recv(q, p, mtype, size, nowait);
      if forall j | 0 <= j < |q.messages| :: !TestMsg(mtype, q.messages[j].mtype) then
        if nowait then r == NoMsg && q1 == q
        else r == Waiting && q1 == q.(receivers := q.receivers + [Receiver(p, mtype, size)])
      else
        && Chain(q.messages, 0, mtype, ch) && Last(ch) < |q.messages|
        && var m := q.messages[Last(ch)];
           if m.size > size then r == TooBig && q1 == q
           else
             && r == Got(m, q.senders)
             && q1 == Q(Without(q.messages, Last(ch)), [], q.receivers, q.sum - 1, q.max)
  {
    ch := FindChain(q.messages, 0, mtype, None);
    if exists j :: 0 <= j < |q.messages| && TestMsg(mtype, q.messages[j].mtype) {
      ChainGoesUp(q.messages, 0, mtype, ch);
    }
  }

  /** What a send does, by the receivers that wait. */
  lemma SendIs(q: Q, p: nat, m: Msg, nowait: bool)
    requires Returns(q, m)
    ensures var (q1, r) := Send(q, p, m, nowait);
      if q.sum + 1 > q.max then
        if nowait then r == Again && q1 == q else r == Asleep && q1 == q.(senders := q.senders + [p])
      else if forall j | 0 <= j < |q.receivers| :: !TestMsg(q.receivers[j].mtype, m.mtype) then
        r == Queued && q1 == q.(messages := q.messages + [m], sum := q.sum + 1)
      else exists i | 0 <= i < |q.receivers| ::
        && TestMsg(q.receivers[i].mtype, m.mtype)
        && (forall j | 0 <= j < i :: !TestMsg(q.receivers[j].mtype, m.mtype))
        && r == Handed(q.receivers[i]) && m.size <= q.receivers[i].size
        && q1 == q.(receivers := q.receivers[..i] + q.receivers[i + 1..])
  {
    FirstMatchIs(q.receivers, m);
  }

  // ----- what every call keeps -----

  /** The counter is right, senders sleep only while the queue is full, and no message is left lying that a
      waiting receiver asked for. */
  predicate Inv(q: Q) {
    && q.sum == |q.messages| <= q.max
    && (q.senders != [] ==> q.sum == q.max)
    && (forall i, j | 0 <= i < |q.messages| && 0 <= j < |q.receivers| ::
        !TestMsg(q.receivers[j].mtype, q.messages[i].mtype))
  }

  lemma SendKeeps(q: Q, p: nat, m: Msg, nowait: bool)
    requires Inv(q) && Returns(q, m)
    ensures Inv(Send(q, p, m, nowait).0)
  {
    FirstMatchIs(q.receivers, m);
  }

  lemma RecvKeeps(q: Q, p: nat, mtype: int, size: nat, nowait: bool)
    requires Inv(q)
    ensures Inv(Recv(q, p, mtype, size, nowait).0)
    ensures var r := Recv(q, p, mtype, size, nowait).1; r.Got? ==>
        r.m in q.messages && TestMsg(mtype, r.m.mtype) && r.m.size <= size
  {
    FindIs(q.messages, 0, mtype, None);
    FindMatches(q.messages, 0, mtype, mtype, None);
    hide Find;
    var f := Find(q.messages, 0, mtype, None);
    if f.Some? {
      var rest := Without(q.messages, f.value);
      assert forall k | 0 <= k < |rest| :: rest[k] == q.messages[if k < f.value then k else k + 1];
    }
  }

  /** A send that finds room never returns if and only if the first receiver it matches has too small a buffer. */
  lemma ReturnsWhen(q: Q, m: Msg)
    ensures !Returns(q, m) <==>
      Room(q) && exists i ::
        && 0 <= i < |q.receivers| && TestMsg(q.receivers[i].mtype, m.mtype) && m.size > q.receivers[i].size
        && forall j | 0 <= j < i :: !TestMsg(q.receivers[j].mtype, m.mtype)
    ensures Returns(q, m) && Room(q) ==> Turns(q.receivers, m).value <= |q.receivers| + 1
  {
    FirstMatchIs(q.receivers, m);
  }

  /** A sender is put to sleep beside a receiver waiting for its very message if and only if the queue is full:
      the code looks at the queue before it looks at the receivers. */
  lemma AsleepBeside(q: Q, p: nat, m: Msg)
    requires Inv(q) && Returns(q, m) && FirstMatch(q.receivers, m).Some?
    ensures Send(q, p, m, false).1.Asleep? <==> |q.messages| == q.max
    ensures !Send(q, p, m, false).1.Asleep? <==> Send(q, p, m, false).1.Handed?
  {
    FirstMatchIs(q.receivers, m);
  }

  // ----- runs -----

  datatype Call =
    | Snd(p: nat, m: Msg, nowait: bool)
    | Rcv(p: nat, mtype: int, size: nat, nowait: bool)

  /** m was given to the process `to`, which had asked for `mtype` with room for `size` bytes. */
  datatype Delivery = Delivery(m: Msg, to: nat, mtype: int, size: nat)

  /** A queue with its history: messages taken in, and messages given out. */
  datatype System = System(q: Q, accepted: seq<Msg>, delivered: seq<Delivery>)

  predicate AsleepIn(q: Q, p: nat) {
    p in q.senders || exists r | r in q.receivers :: r.p == p
  }

  /** A process that sleeps calls nothing, nobody sends a message that was already taken in, and every send returns. */
  predicate Allowed(s: System, c: Call) {
    !AsleepIn(s.q, c.p) && (c.Snd? ==> c.m !in s.accepted && Returns(s.q, c.m))
  }

  function Step(s: System, c: Call): System
    requires Allowed(s, c)
  {
    match c
    case Snd(p, m, nowait) =>
      var r := Send(s.q, p, m, nowait);
      (match r.1
       case Queued => System(r.0, s.accepted + [m], s.delivered)
       case Handed(to) => System(r.0, s.accepted + [m], s.delivered + [Delivery(m, to.p, to.mtype, to.size)])
       case _ => s.(q := r.0))
    case Rcv(p, mtype, size, nowait) =>
      var r := Recv(s.q, p, mtype, size, nowait);
      if r.1.Got? then System(r.0, s.accepted, s.delivered + [Delivery(r.1.m, p, mtype, size)]) else s.(q := r.0)
  }

  function Empty(max: nat): Q {
    Q([], [], [], 0, max)
  }

  function After(max: nat, run: seq<Call>): Option<System> {
    if run == [] then Some(System(Empty(max), [], []))
    else
      var s, c := After(max, run[..|run| - 1]), run[|run| - 1];
      if s.Some? && Allowed(s.value, c) then Some(Step(s.value, c)) else None
  }

  function Msgs(ds: seq<Delivery>): (ms: seq<Msg>)
    ensures |ms| == |ds| && forall i | 0 <= i < |ds| :: ms[i] == ds[i].m
  {
    seq(|ds|, i requires 0 <= i < |ds| => ds[i].m)
  }

  /** Nobody sleeps in two places. */
  predicate Sleepers(q: Q) {
    && (forall i, j | 0 <= i < j < |q.receivers| :: q.receivers[i].p != q.receivers[j].p)
    && (forall r | r in q.receivers :: r.p !in q.senders)
  }

  /** The accounts of a history. */
  ghost predicate Books(accepted: seq<Msg>, delivered: seq<Msg>, queued: seq<Msg>) {
    multiset(accepted) == multiset(delivered) + multiset(queued)
      && forall m | m in accepted :: multiset(accepted)[m] == 1
  }

  predicate Wanted(d: Delivery) {
    TestMsg(d.mtype, d.m.mtype) && d.m.size <= d.size
  }

  ghost predicate SysInv(s: System) {
    && Inv(s.q) && Sleepers(s.q)
    && Books(s.accepted, Msgs(s.delivered), s.q.messages)
    && forall d | d in s.delivered :: Wanted(d)
  }

  lemma TakeIn(accepted: seq<Msg>, delivered: seq<Msg>, queued: seq<Msg>, m: Msg)
    requires Books(accepted, delivered, queued) && m !in accepted
    ensures Books(accepted + [m], delivered, queued + [m]) && Books(accepted + [m], delivered + [m], queued)
  {
    assert multiset(accepted)[m] == 0;
    forall x | x in accepted + [m] ensures multiset(accepted + [m])[x] == 1 {
      assert x != m ==> x in accepted;
    }
  }

  lemma GiveOut(accepted: seq<Msg>, delivered: seq<Msg>, queued: seq<Msg>, i: nat)
    requires Books(accepted, delivered, queued) && i < |queued|
    ensures Books(accepted, delivered + [queued[i]], Without(queued, i))
  {
    assert queued == queued[..i] + [queued[i]] + queued[i + 1..];
  }

  lemma MsgsOneMore(ds: seq<Delivery>, d: Delivery)
    ensures Msgs(ds + [d]) == Msgs(ds) + [d.m]
  {
  }

  lemma SleepersSend(q: Q, p: nat, m: Msg, nowait: bool)
    requires Sleepers(q) && !AsleepIn(q, p) && Returns(q, m)
    ensures Sleepers(Send(q, p, m, nowait).0)
  {
    FirstMatchIs(q.receivers, m);
    hide FirstMatch, TestMsg, Turns;
  }

  lemma SleepersRecv(q: Q, p: nat, mtype: int, size: nat, nowait: bool)
    requires Sleepers(q) && !AsleepIn(q, p)
    ensures Sleepers(Recv(q, p, mtype, size, nowait).0)
  {
    hide Find;
  }

  lemma SndKeeps(s: System, p: nat, m: Msg, nowait: bool)
    requires SysInv(s) && Allowed(s, Snd(p, m, nowait))
    ensures SysInv(Step(s, Snd(p, m, nowait)))
  {
    hide Inv, Books, Sleepers, FirstMatch, AsleepIn, TestMsg;
    FirstMatchIs(s.q.receivers, m);
    SendKeeps(s.q, p, m, nowait);
    SleepersSend(s.q, p, m, nowait);
    TakeIn(s.accepted, Msgs(s.delivered), s.q.messages, m);
    var r := Send(s.q, p, m, nowait).1;
    if r.Handed? {
      MsgsOneMore(s.delivered, Delivery(m, r.r.p, r.r.mtype, r.r.size));
    }
  }

  lemma RcvKeeps(s: System, p: nat, mtype: int, size: nat, nowait: bool)
    requires SysInv(s) && Allowed(s, Rcv(p, mtype, size, nowait))
    ensures SysInv(Step(s, Rcv(p, mtype, size, nowait)))
  {
    hide Inv, Books, Sleepers, Find, AsleepIn, TestMsg;
    RecvKeeps(s.q, p, mtype, size, nowait);
    SleepersRecv(s.q, p, mtype, size, nowait);
    FindIs(s.q.messages, 0, mtype, None);
    var f := Find(s.q.messages, 0, mtype, None);
    if f.Some? {
      GiveOut(s.accepted, Msgs(s.delivered), s.q.messages, f.value);
      MsgsOneMore(s.delivered, Delivery(s.q.messages[f.value], p, mtype, size));
    }
  }

  lemma {:induction false} RunKeeps(max: nat, run: seq<Call>)
    requires After(max, run).Some?
    ensures SysInv(After(max, run).value)
    decreases |run|
  {
    hide SysInv, Step, Allowed;
    if run == [] {
      EmptyInv(max);
    } else {
      RunKeeps(max, run[..|run| - 1]);
      var s, c := After(max, run[..|run| - 1]).value, run[|run| - 1];
      match c
      case Snd(p, m, nowait) => SndKeeps(s, p, m, nowait);
      case Rcv(p, mtype, size, nowait) => RcvKeeps(s, p, mtype, size, nowait);
    }
  }

  lemma EmptyInv(max: nat)
    ensures SysInv(System(Empty(max), [], []))
  {
  }

  lemma Twice<T>(s: seq<T>, i: nat, j: nat)
    requires i < |s| && j < |s| && s[i] == s[j]
    ensures i != j ==> multiset(s)[s[i]] >= 2
  {
    var b := if i < j then j else i;
    assert s == s[..b] + [s[b]] + s[b + 1..];
    assert i != j ==> s[b] in s[..b];
  }

  /** Over every run: each message taken in is still queued, or was given out exactly once, to a process that
      asked for it and had room; the queue's counter and limits hold; senders sleep only while it is full;
      nobody waits for a message that is there. */
  lemma ExactlyOnce(max: nat, run: seq<Call>)
    requires After(max, run).Some?
    ensures var s := After(max, run).value;
      && (forall m :: multiset(Msgs(s.delivered))[m] + multiset(s.q.messages)[m] == if m in s.accepted then 1 else 0)
      && (forall i, j | 0 <= i < |s.delivered| && 0 <= j < |s.delivered| :: s.delivered[i].m == s.delivered[j].m ==>
          i == j)
      && (forall d | d in s.delivered :: TestMsg(d.mtype, d.m.mtype) && d.m.size <= d.size)
      && s.q.sum == |s.q.messages| <= s.q.max && (s.q.senders != [] ==> s.q.sum == s.q.max)
      && forall i, j | 0 <= i < |s.q.messages| && 0 <= j < |s.q.receivers| ::
           !TestMsg(s.q.receivers[j].mtype, s.q.messages[i].mtype)
  {
    hide After, Sleepers, TestMsg;
    RunKeeps(max, run);
    var s := After(max, run).value;
    var given := Msgs(s.delivered);
    forall m ensures multiset(given)[m] + multiset(s.q.messages)[m] == if m in s.accepted then 1 else 0 {
      assert multiset(s.accepted)[m] == multiset(given)[m] + multiset(s.q.messages)[m];
    }
    forall i, j | 0 <= i < |given| && 0 <= j < |given| && s.delivered[i].m == s.delivered[j].m ensures i == j {
      assert given[i] in s.accepted;
      Twice(given, i, j);
    }
  }

  // ----- a send that never returns -----

  /** Two calls reach a send that never returns, unless the queue can hold nothing at all. */
  lemma HangReachable(max: nat)
    ensures (exists run, m :: After(max, run).Some? && !Returns(After(max, run).value.q, m)) <==> max >= 1
  {
    if max >= 1 {
      var c, m := Rcv(0, 0, 0, false), Msg(0, 1, 1);
      OneReceiver(max, c);
      var q := After(max, [c]).value.q;
      assert FirstMatch(q.receivers, m) == Some(0);
      assert After(max, [c]).Some? && !Returns(q, m);
    } else {
      forall run, m | After(max, run).Some? ensures Returns(After(max, run).value.q, m) {
        NeverRoom(run);
      }
    }
  }

  lemma OneReceiver(max: nat, c: Call)
    requires c.Rcv? && !c.nowait
    ensures After(max, [c]) == Some(System(Q([], [], [Receiver(c.p, c.mtype, c.size)], 0, max), [], []))
  {
    var s := System(Empty(max), [], []);
    assert [c][..0] == [] && After(max, []) == Some(s);
    assert Allowed(s, c);
    assert Recv(s.q, c.p, c.mtype, c.size, false).0.receivers == [Receiver(c.p, c.mtype, c.size)];
  }

  lemma NeverRoom(run: seq<Call>)
    requires After(0, run).Some?
    ensures !Room(After(0, run).value.q)
  {
    MaxStays(0, run);
    RunKeeps(0, run);
    hide After, Sleepers, Books, Wanted;
  }

  lemma {:induction false} MaxStays(max: nat, run: seq<Call>)
    requires After(max, run).Some?
    ensures After(max, run).value.q.max == max
    decreases |run|
  {
    hide Allowed, Returns, Room, Find, FirstMatch;
    if run != [] {
      MaxStays(max, run[..|run| - 1]);
    }
  }

  // ----- a rendezvous that is missed -----

  /** n messages that the receiver did not ask for. */
  function Filling(n: nat): seq<Call> {
    if n == 0 then [Rcv(1, 2, 0, false)] else Filling(n - 1) + [Snd(0, Msg(n - 1, 1, 0), true)]
  }

  function Filler(n: nat): seq<Msg> {
    seq(n, i requires 0 <= i < n => Msg(i, 1, 0))
  }

  lemma {:induction false} FillingLeads(max: nat, n: nat)
    requires n <= max
    ensures After(max, Filling(n)) == Some(System(Q(Filler(n), [], [Receiver(1, 2, 0)], n, max), Filler(n), []))
  {
    hide *;
    if n == 0 {
      FirstCall(max);
    } else {
      FillingLeads(max, n - 1);
      NextFiller(max, n);
    }
  }

  lemma FirstCall(max: nat)
    ensures After(max, Filling(0)) == Some(System(Q(Filler(0), [], [Receiver(1, 2, 0)], 0, max), Filler(0), []))
  {
    OneReceiver(max, Rcv(1, 2, 0, false));
    assert Filler(0) == [];
  }

  lemma NextFiller(max: nat, n: nat)
    requires 0 < n <= max
    requires After(max, Filling(n - 1)) ==
        Some(System(Q(Filler(n - 1), [], [Receiver(1, 2, 0)], n - 1, max), Filler(n - 1), []))
    ensures After(max, Filling(n)) == Some(System(Q(Filler(n), [], [Receiver(1, 2, 0)], n, max), Filler(n), []))
  {
    var run, m := Filling(n), Msg(n - 1, 1, 0);
    assert run[..|run| - 1] == Filling(n - 1);
    assert Filler(n) == Filler(n - 1) + [m] && m !in Filler(n - 1);
    NotWanted(m);
    hide FirstMatch, Filler, Filling;
    var s, c := After(max, Filling(n - 1)).value, Snd(0, m, true);
    assert Allowed(s, c);
    assert Step(s, c) == System(Q(Filler(n), [], [Receiver(1, 2, 0)], n, max), Filler(n), []);
  }

  lemma NotWanted(m: Msg)
    requires m.mtype == 1
    ensures FirstMatch([Receiver(1, 2, 0)], m) == None
  {
    assert [Receiver(1, 2, 0)][1..] == [];
  }

  /** Whatever the capacity, some run ends with a sender asleep beside a receiver that waits for its message. */
  lemma MissedRendezvous(max: nat)
    ensures var run, m := Filling(max) + [Snd(2, Msg(max, 2, 0), false)], Msg(max, 2, 0);
      && After(max, run).Some?
      && var q := After(max, run).value.q;
      && q.senders == [2] && |q.receivers| == 1 && TestMsg(q.receivers[0].mtype, m.mtype)
          && m.size <= q.receivers[0].size
  {
    hide Filling, Filler, After;
    FillingLeads(max, max);
    LastCall(max, Filling(max));
  }

  lemma LastCall(max: nat, run: seq<Call>)
    requires After(max, run) == Some(System(Q(Filler(max), [], [Receiver(1, 2, 0)], max, max), Filler(max), []))
    ensures var all := run + [Snd(2, Msg(max, 2, 0), false)];
      After(max, all) == Some(System(Q(Filler(max), [2], [Receiver(1, 2, 0)], max, max), Filler(max), []))
  {
    var s, last := After(max, run).value, Snd(2, Msg(max, 2, 0), false);
    var all := run + [last];
    assert all[..|all| - 1] == run && all[|all| - 1] == last;
    assert Msg(max, 2, 0) !in Filler(max);
    assert Allowed(s, last);
    assert Step(s, last).q.senders == [2];
  }
}
