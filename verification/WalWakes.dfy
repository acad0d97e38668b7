// Who is woken by whom: what a step of the group-commit protocol does to the threads that sleep.
module WalWakes {
  import opened Blocks
  import opened WalSpec
  import opened SemSpec
  import opened LogSpec
  import opened WalMachine
  import opened WalCounters
  import opened WalTheorems

  /** Every thread inside one of the three operations, and every one that has left them for good. */
  ghost predicate Present(s: State, op: OpId) {
    op in s.returned || (s.mode.Serving? && Inside(s.mode.up, op))
  }

  ghost predicate Inside(u: Up, op: OpId) {
    || op in u.starting || op in u.running || u.committer == Some(op)
    || op in u.log.sem.sleepers || op in u.log.outSem.sleepers
  }

  /** A thread in `begin_op` gets in if and only if nobody commits and ten more blocks fit; otherwise it sleeps. */
  lemma BeginAdmits(sb: SuperBlock, s0: State, steps: seq<Step>, s: State, op: OpId)
    requires Init(sb, s0) && Runs(sb, s0, steps, s) && s.mode.Serving? && op in s.mode.up.starting
    ensures Shape(sb, s) && Enabled(sb, s, Attempt(op))
    ensures var u, t := s.mode.up, Do(sb, s, Attempt(op));
      && t.mode.Serving? && t.mode.up.starting == u.starting - {op}
      && if !u.log.committing && u.log.header.numBlocks + u.log.mu + 10 <= LogCapacity(sb)
         then t.mode.up.running == u.running[op := 10] && t.mode.up.log.sem == u.log.sem
         else t.mode.up.running == u.running && t.mode.up.log.sem.sleepers == [op] + u.log.sem.sleepers
  {
    Reachable(sb, s0, steps, s);
    hide Runs, Init, HeaderOk;
  }

  /** `end_op` by one of several running operations leaves nobody asleep on `log.sem`: everyone who slept there
      goes back to `begin_op`. The last one commits. */
  lemma EndWakes(sb: SuperBlock, s0: State, steps: seq<Step>, s: State, op: OpId)
    requires Init(sb, s0) && Runs(sb, s0, steps, s) && s.mode.Serving? && op in s.mode.up.running
    ensures Shape(sb, s) && Enabled(sb, s, End(op))
    ensures var u, t := s.mode.up, Do(sb, s, End(op));
      && t.mode.Serving?
      && var v := t.mode.up;
      && v.running == u.running - {op}
      && if u.running.Keys == {op} then
           v.log.committing && v.committer == Some(op) && v.log.sem == u.log.sem && v.log.outSem == u.log.outSem
         else
           && !v.log.committing && v.committer == None && v.log.sem.sleepers == [] && v.log.sem.val == 0
           && v.log.outSem.sleepers == [op] + u.log.outSem.sleepers
           && (forall x | x in u.log.sem.sleepers :: x in v.starting)
           && (forall x | x in u.starting :: x in v.starting)
  {
    hide Runs, Init, Do, Shape, Enabled;
    Running(sb, s0, steps, s, op);
    EndAlone(s.mode.up, op);
    EndStep(sb, s, op);
  }

  lemma Running(sb: SuperBlock, s0: State, steps: seq<Step>, s: State, op: OpId)
    requires Init(sb, s0) && Runs(sb, s0, steps, s) && s.mode.Serving? && op in s.mode.up.running
    ensures Shape(sb, s) && Enabled(sb, s, End(op))
    ensures var u := s.mode.up;
      && !u.log.committing && u.committer == None && u.log.outSem.val <= 0 && u.log.sem.val <= 0
      && u.log.outstanding == |u.running|
  {
    hide Runs, Init, UpShape;
    Reachable(sb, s0, steps, s);
    RunningMeansOpen(sb, |s.disk|, s.mode.up, s.used, op);
  }

  lemma EndStep(sb: SuperBlock, s: State, op: OpId)
    requires Shape(sb, s) && Enabled(sb, s, End(op))
    requires var u := s.mode.up;
      && !u.log.committing && u.committer == None && u.log.outSem.val <= 0 && u.log.sem.val <= 0
      && u.log.outstanding == |u.running|
    ensures var u, t := s.mode.up, Do(sb, s, End(op));
      && t.mode.Serving?
      && var v := t.mode.up;
      && v.running == u.running - {op}
      && if |u.running| == 1 then
           v.log.committing && v.committer == Some(op) && v.log.sem == u.log.sem && v.log.outSem == u.log.outSem
         else
           && !v.log.committing && v.committer == None && v.log.sem.sleepers == [] && v.log.sem.val == 0
           && v.log.outSem.sleepers == [op] + u.log.outSem.sleepers
           && (forall x | x in u.log.sem.sleepers :: x in v.starting)
           && (forall x | x in u.starting :: x in v.starting)
  {
    hide UpShape;
  }

  lemma EndAlone(u: Up, op: OpId)
    requires op in u.running
    ensures |u.running| == 1 <==> u.running.Keys == {op}
  {
    assert |u.running| == |u.running.Keys|;
    if |u.running| == 1 {
      assert |u.running.Keys - {op}| == 0;
      assert u.running.Keys == (u.running.Keys - {op}) + {op};
    }
  }

  /** The end of a commit leaves nobody asleep: its group has returned, and everyone else goes back to `begin_op`. */
  lemma CommitWakes(sb: SuperBlock, s0: State, steps: seq<Step>, s: State)
    requires Init(sb, s0) && Runs(sb, s0, steps, s) && s.mode.Serving? && Shape(sb, s) && Enabled(sb, s, CommitFinish)
    ensures var u, t := s.mode.up, Do(sb, s, CommitFinish);
      && t.mode.Serving?
      && var v := t.mode.up;
      && v.log.sem.sleepers == [] && v.log.outSem.sleepers == [] && !v.log.committing && v.committer == None
      && (u.committer.Some? ==> u.committer.value in t.returned)
      && (forall x | x in u.log.outSem.sleepers :: x in t.returned)
      && (forall x | x in u.log.sem.sleepers :: x in v.starting)
  {
  }

  lemma StartStays(sb: SuperBlock, s: State, op: OpId, x: OpId)
    requires Shape(sb, s) && Enabled(sb, s, Start(op)) && Present(s, x)
    ensures Present(Do(sb, s, Start(op)), x) && Present(Do(sb, s, Start(op)), op)
  {
    hide UpShape;
  }

  lemma AttemptStays(sb: SuperBlock, s: State, op: OpId, x: OpId)
    requires Shape(sb, s) && Enabled(sb, s, Attempt(op)) && Present(s, x)
    ensures Present(Do(sb, s, Attempt(op)), x)
  {
    hide UpShape, Admits;
    if MustSleep(s.mode.up.log.sem) {
      assert op in Enter(s.mode.up.log.sem, op).sleepers;
      assert x in s.mode.up.log.sem.sleepers ==> x in Enter(s.mode.up.log.sem, op).sleepers;
    }
  }

  lemma EndStays(sb: SuperBlock, s: State, op: OpId, x: OpId)
    requires Shape(sb, s) && Enabled(sb, s, End(op)) && Present(s, x) && !s.mode.up.log.committing
    requires s.mode.up.committer == None && s.mode.up.log.outSem.val <= 0
    ensures Present(Do(sb, s, End(op)), x)
  {
    hide UpShape;
    var u := s.mode.up;
    assert MustSleep(u.log.outSem);
    assert op in Enter(u.log.outSem, op).sleepers;
    assert x in u.log.outSem.sleepers ==> x in Enter(u.log.outSem, op).sleepers;
  }

  /** No step but a crash makes a thread disappear: in every run, as long as the cache serves, a thread that has
      begun is in `begin_op`, running, asleep on one of the two semaphores, committing, or has returned. */
  lemma NobodyLost(sb: SuperBlock, s0: State, steps: seq<Step>, s: State, step: Step, x: OpId)
    requires Init(sb, s0) && Runs(sb, s0, steps, s) && s.mode.Serving? && Present(s, x)
    requires Shape(sb, s) && Enabled(sb, s, step) && Do(sb, s, step).mode.Serving?
    ensures Present(Do(sb, s, step), x)
    ensures step.Start? ==> Present(Do(sb, s, step), step.op)
  {
    hide Runs, Init, Do, Present, Shape, Enabled;
    match step
    case Start(op) => StartStays(sb, s, op, x);
    case Attempt(op) => AttemptStays(sb, s, op, x);
    case End(op) =>
      Ends(sb, s, op);
      Running(sb, s0, steps, s, op);
      EndStays(sb, s, op, x);
    case _ => OthersStay(sb, s, step, x);
  }

  lemma Ends(sb: SuperBlock, s: State, op: OpId)
    requires Shape(sb, s) && Enabled(sb, s, End(op))
    ensures s.mode.Serving? && op in s.mode.up.running
  {
    hide UpShape;
  }

  lemma OthersStay(sb: SuperBlock, s: State, step: Step, x: OpId)
    requires Shape(sb, s) && Enabled(sb, s, step) && s.mode.Serving? && Do(sb, s, step).mode.Serving? && Present(s, x)
    requires !step.Start? && !step.Attempt? && !step.End?
    ensures Present(Do(sb, s, step), x)
  {
    hide UpShape;
  }
}
