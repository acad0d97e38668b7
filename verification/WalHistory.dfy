/** Who is in which group: operations are committed whole, in one group, or not at all. */
module WalHistory {
  import opened Blocks
  import opened WalSpec
  import opened SemSpec
  import opened LogSpec
  import opened WalMachine
  import opened WalCounters
  import opened WalDisk

  /** The updates made by one operation, in order. */
  function Of(us: seq<Update>, op: OpId): (r: seq<Update>) {
    if us == [] then []
    else
      var rest := Of(us[..|us| - 1], op);
      var u := us[|us| - 1];
      if u.op == op then rest + [u] else rest
  }

  lemma OfOne(us: seq<Update>, u: Update, op: OpId)
    ensures Of(us + [u], op) == if u.op == op then Of(us, op) + [u] else Of(us, op)
  {
    assert (us + [u])[..|us|] == us;
  }

  lemma {:induction false} OfNone(us: seq<Update>, op: OpId)
    requires forall i | 0 <= i < |us| :: us[i].op != op
    ensures Of(us, op) == []
  {
    if us != [] {
      OfNone(us[..|us| - 1], op);
    }
  }

  /** The operations whose updates are in memory but not yet promised to be durable. */
  function Uncommitted(s: State): set<OpId> {
    if !s.mode.Serving? || Past(s.mode.up) then {} else s.mode.up.running.Keys + Members(s.mode.up)
  }

  /** Begun, but no update made yet. */
  function Waiting(s: State): set<OpId> {
    if s.mode.Serving? then s.mode.up.starting + ElementsOf(s.mode.up.log.sem.sleepers) else {}
  }

  ghost predicate GroupsOk(s: State) {
    && (forall i | 0 <= i < |s.groups| :: s.groups[i].ops <= s.used)
    && (forall i, op | 0 <= i < |s.groups| && op in s.groups[i].ops ::
        Of(s.groups[i].updates, op) == Of(s.performed, op))
    && (forall i, k | 0 <= i < |s.groups| && 0 <= k < |s.groups[i].updates| ::
        s.groups[i].updates[k].op in s.groups[i].ops)
    && (forall i, j, op | 0 <= i < j < |s.groups| && op in s.groups[i].ops :: op !in s.groups[j].ops)
  }

  ghost predicate PendingOk(s: State) {
    && Uncommitted(s) <= s.used
    && (forall k | 0 <= k < |s.pending| :: s.pending[k].op in Uncommitted(s))
    && (forall op | op in Uncommitted(s) :: Of(s.pending, op) == Of(s.performed, op))
    && (forall i, op | 0 <= i < |s.groups| && op in s.groups[i].ops :: op !in Uncommitted(s) && op !in Waiting(s))
  }

  ghost predicate IdleOk(s: State) {
    && (forall k | 0 <= k < |s.performed| :: s.performed[k].op in s.used && s.performed[k].op !in Waiting(s))
    && forall op | op in Waiting(s) :: op in s.used && op !in Uncommitted(s)
  }

  ghost predicate InSomeGroup(s: State, op: OpId) {
    exists i :: 0 <= i < |s.groups| && op in s.groups[i].ops
  }

  ghost predicate ReturnedOk(s: State) {
    && (forall op | op in s.returned :: InSomeGroup(s, op))
    && (s.mode.Serving? && Past(s.mode.up) ==> forall op | op in Members(s.mode.up) :: InSomeGroup(s, op))
  }

  ghost predicate HistInv(s: State) {
    GroupsOk(s) && PendingOk(s) && IdleOk(s) && ReturnedOk(s)
  }

  /** A state change that makes no update and commits nothing. */
  lemma Unchanged(s: State, t: State)
    requires HistInv(s)
    requires t.groups == s.groups && t.performed == s.performed && t.returned == s.returned && s.used <= t.used
    requires t.pending == s.pending && Uncommitted(s) <= Uncommitted(t)
    requires forall op | op in Uncommitted(t) :: op in Uncommitted(s) || op in Waiting(s)
    requires forall op | op in Waiting(t) ::
        op !in Uncommitted(t) && (op in Waiting(s) || (op in t.used && op !in s.used))
    requires t.mode.Serving? && Past(t.mode.up) ==>
        s.mode.Serving? && Past(s.mode.up) && Members(t.mode.up) <= Members(s.mode.up)
    ensures HistInv(t)
  {
    hide Uncommitted, Waiting, Past, Members;
    forall op | op in Uncommitted(t) ensures Of(t.pending, op) == Of(t.performed, op) {
      if op !in Uncommitted(s) {
        OfNone(s.performed, op);
        OfNone(s.pending, op);
      }
    }
    ReturnedFrame(s, t);
  }

  lemma ReturnedFrame(s: State, t: State)
    requires ReturnedOk(s)
    requires s.groups <= t.groups && t.returned == s.returned
    requires t.mode.Serving? && Past(t.mode.up) ==>
        s.mode.Serving? && Past(s.mode.up) && Members(t.mode.up) <= Members(s.mode.up)
    ensures ReturnedOk(t)
  {
    forall op | InSomeGroup(s, op) ensures InSomeGroup(t, op) {
      var i :| 0 <= i < |s.groups| && op in s.groups[i].ops;
      assert t.groups[i] == s.groups[i];
    }
  }

  /** Losing memory loses only what was never promised. */
  lemma Forgotten(s: State, t: State)
    requires HistInv(s) && !t.mode.Serving?
    requires t.groups == s.groups && t.performed == s.performed && t.returned == s.returned && t.used == s.used
    requires t.pending == [] || (t.pending == s.pending && Uncommitted(s) == {})
    ensures HistInv(t)
  {
    ReturnedFrame(s, t);
  }

  /** One update by an operation whose group is still open. */
  lemma OneUpdate(s: State, t: State, e: Update)
    requires HistInv(s) && e.op in Uncommitted(s)
    requires t.groups == s.groups && t.returned == s.returned && t.used == s.used
    requires t.pending == s.pending + [e] && t.performed == s.performed + [e]
    requires Uncommitted(t) == Uncommitted(s) && Waiting(t) == Waiting(s)
    requires t.mode.Serving? ==> !Past(t.mode.up)
    ensures HistInv(t)
  {
    hide Uncommitted, Waiting, Past, Members;
    forall op ensures Of(t.performed, op) == if op == e.op then Of(s.performed, op) + [e] else Of(s.performed, op) {
      OfOne(s.performed, e, op);
    }
    forall op ensures Of(t.pending, op) == if op == e.op then Of(s.pending, op) + [e] else Of(s.pending, op) {
      OfOne(s.pending, e, op);
    }
    ReturnedFrame(s, t);
  }

  /** The commit point: the open group becomes the last committed one. */
  lemma GroupCommitted(s: State, t: State, g: Group)
    requires HistInv(s) && g == Group(Uncommitted(s), s.pending)
    requires t.groups == s.groups + [g] && t.pending == [] && t.performed == s.performed
    requires t.returned == s.returned && t.used == s.used
    requires Uncommitted(t) == {} && Waiting(t) == Waiting(s)
    requires t.mode.Serving? ==> Members(t.mode.up) <= g.ops
    ensures HistInv(t)
  {
    hide Uncommitted, Waiting, Past, Members;
    var n := |s.groups|;
    assert forall i | 0 <= i < n :: t.groups[i] == s.groups[i];
    assert t.groups[n] == g;
    assert GroupsOk(t);
    forall op | op in s.returned ensures InSomeGroup(t, op) {
      var i :| 0 <= i < |s.groups| && op in s.groups[i].ops;
      assert op in t.groups[i].ops;
    }
    forall op | op in g.ops ensures InSomeGroup(t, op) {
      assert op in t.groups[n].ops;
    }
  }

  lemma FinishKeeps(sb: SuperBlock, s: State, u: Up)
    requires HistInv(s) && s.mode == Serving(u) && Past(u) && QueuesOk(u, s.used) && u.running == map[]
        && s.pending == []
    ensures HistInv(DoCommitFinish(s, u))
  {
    var t := DoCommitFinish(s, u);
    assert Uncommitted(t) == {};
    assert Waiting(t) == Waiting(s);
    forall op | op in t.returned ensures InSomeGroup(t, op) {
      assert InSomeGroup(s, op);
      var i :| 0 <= i < |s.groups| && op in s.groups[i].ops;
      assert op in t.groups[i].ops;
    }
  }
}
