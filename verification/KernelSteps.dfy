// What the pieces of a step keep.
module KernelSteps {
  import opened SemSpec
  import Semaphores
  import opened KernelSpec
  import opened KernelInv

  // ----- process states -----

  lemma SchedStates(k: Kernel, c: nat, to: PState)
    requires SchedInv(k) && c < |k.cpus| && Newly(to) && (k.cpus[c].Idle? ==> to == RUNNABLE)
    ensures var k1, me := Sched(k, c, to), k.cpus[c];
      && k1.state.Keys == k.state.Keys && me in k.state
      && (forall p | p in k.state && p != me ::
          k1.state[p] == k.state[p] || (k.state[p] == RUNNABLE && k1.state[p] == RUNNING))
      && (k1.state[me] == if Refuses(k, c, to) then RUNNING
          else if to == RUNNABLE && k1.state[me] != RUNNABLE then RUNNING else to)
  {
    hide SchedInv, Between, PickNext, Agrees;
    RunsHere(k, c);
    if !Refuses(k, c, to) {
      UpdateKeeps(k, c, to);
      PickKeeps(UpdateThisState(k, c, to), c);
    }
  }

  lemma RunsHere(k: Kernel, c: nat)
    requires SchedInv(k) && c < |k.cpus|
    ensures k.cpus[c] in k.state && k.state[k.cpus[c]] == RUNNING
  {
    assert OnCpu(k, c);
  }

  lemma SchedPlace(k: Kernel, c: nat, to: PState)
    requires SchedInv(k) && c < |k.cpus| && Newly(to) && (k.cpus[c].Idle? ==> to == RUNNABLE)
    requires k.pc.Keys == k.state.Keys && forall p | p in k.state :: p.Idle? ==> PcOf(k, p) == Outside
    requires forall p | p in k.state && p != k.cpus[c] :: Fits(k.state[p], PcOf(k, p))
    requires Refuses(k, c, to) || to == RUNNABLE ==> Fits(RUNNING, PcOf(k, k.cpus[c]))
    requires !Refuses(k, c, to) ==> Fits(to, PcOf(k, k.cpus[c]))
    ensures PlaceInv(Sched(k, c, to))
  {
    SchedStates(k, c, to);
    var k1 := Sched(k, c, to);
    assert k1.pc == k.pc by { SchedFrame(k, c, to); }
    hide SchedInv, Sched;
    forall p | p in k1.state ensures Fits(k1.state[p], PcOf(k1, p)) {
      assert PcOf(k1, p) == PcOf(k, p);
    }
  }

  /** Scheduling changes nothing but states, the queue and the CPUs. */
  lemma SchedFrame(k: Kernel, c: nat, to: PState)
    requires c < |k.cpus|
    ensures var k1 := Sched(k, c, to); k1 == k.(state := k1.state, queue := k1.queue, cpus := k1.cpus)
  {
  }

  lemma ActivateFrame(k: Kernel, p: Pid, onalert: bool)
    ensures var k1 := Activate(k, p, onalert); k1 == k.(state := k1.state, queue := k1.queue)
  {
  }

  lemma ActivatePlace(k: Kernel, p: Pid, onalert: bool)
    requires PlaceInv(k)
    ensures PlaceInv(Activate(k, p, onalert))
  {
  }

  // ----- one semaphore -----

  lemma EnterCellKeeps(cell: Cell, p: Pid)
    requires CellInv(cell)
    ensures CellInv(EnterCell(cell, p))
  {
    EnterGood(cell.sem, Waiting(cell, p));
  }

  /** The oldest sleeper is the one with the smallest ticket. */
  lemma PostCellKeeps(cell: Cell)
    requires CellInv(cell)
    ensures CellInv(PostCell(cell)) && PostAsserts(cell.sem)
    ensures forall w, v | w in Woken(cell.sem) && v in PostCell(cell).sem.sleepers :: w.ticket < v.ticket && w != v
    ensures forall w :: w in cell.sem.sleepers <==> w in Woken(cell.sem) || w in PostCell(cell).sem.sleepers
  {
    hide Good, Post, Ordered;
    PostGood(cell.sem);
    PostConserves(cell);
    PostOrder(cell);
  }

  lemma PostConserves(cell: Cell)
    requires Good(cell.sem) && Conserved(cell)
    ensures Conserved(PostCell(cell))
  {
    hide Distinct;
  }

  lemma PostOrder(cell: Cell)
    requires Good(cell.sem) && Ordered(cell)
    ensures Ordered(PostCell(cell))
    ensures forall w, v | w in Woken(cell.sem) && v in PostCell(cell).sem.sleepers :: w.ticket < v.ticket && w != v
    ensures forall w :: w in cell.sem.sleepers <==> w in Woken(cell.sem) || w in PostCell(cell).sem.sleepers
  {
    hide Distinct;
    if cell.sem.sleepers != [] {
      LastOf(cell.sem.sleepers);
    }
  }

  lemma LastOf(s: seq<Waiter>)
    requires s != [] && forall i, j | 0 <= i < j < |s| :: s[i].ticket > s[j].ticket
    ensures forall v | v in s[..|s| - 1] :: v in s && s[|s| - 1].ticket < v.ticket
    ensures forall v | v in s :: v in s[..|s| - 1] || v == s[|s| - 1]
  {
    var t := s[..|s| - 1];
    assert s == t + [s[|s| - 1]];
    forall v | v in t ensures v in s && s[|s| - 1].ticket < v.ticket {
      var i :| 0 <= i < |t| && t[i] == v;
      assert s[i] == v;
    }
    forall v | v in s ensures v in t || v == s[|s| - 1] {
      var i :| 0 <= i < |s| && s[i] == v;
      assert i < |t| ==> t[i] == v;
    }
  }

  lemma TakeCellKeeps(cell: Cell, n: nat)
    requires CellInv(cell) && n <= cell.sem.val
    ensures CellInv(TakeCell(cell, n))
  {
  }

  lemma RemoveOrdered(s: seq<Waiter>, w: Waiter)
    requires Distinct(s) && w in s && forall i, j | 0 <= i < j < |s| :: s[i].ticket > s[j].ticket
    ensures var r := Remove(s, w); forall i, j | 0 <= i < j < |r| :: r[i].ticket > r[j].ticket
  {
    var at :| 0 <= at < |s| && s[at] == w;
    Semaphores.RemoveAt(s, at);
    hide Distinct, Remove;
    var r := s[..at] + s[at + 1..];
    forall i, j | 0 <= i < j < |r| ensures r[i].ticket > r[j].ticket {
      assert r[i] == s[if i < at then i else i + 1] && r[j] == s[if j < at then j else j + 1];
    }
  }

  lemma UndoCellKeeps(cell: Cell, w: Waiter)
    requires CellInv(cell) && w in cell.sem.sleepers
    ensures CellInv(cell.(sem := Undo(cell.sem, w))) && Undo(cell.sem, w).val <= 0
    ensures forall x :: x in Undo(cell.sem, w).sleepers <==> x in cell.sem.sleepers && x != w
  {
    hide Remove, Distinct;
    UndoGood(cell.sem, w);
    RemoveOrdered(cell.sem.sleepers, w);
    var now := cell.(sem := Undo(cell.sem, w));
    assert now.sem.sleepers == Remove(cell.sem.sleepers, w);
    forall v | v in now.sem.sleepers ensures v.ticket < cell.waits {
      assert v in cell.sem.sleepers;
    }
    assert cell.sem.val < 0;
  }

  // ----- semaphores and places -----

  /** A change of one cell, and of where some processes are. */
  lemma CellChange(k: Kernel, s: SemId, cell: Cell, pc: map<Pid, Pc>)
    requires SemInv(k) && CellInv(cell) && k.pc.Keys <= pc.Keys
    requires forall w | w in cell.sem.sleepers :: w.p in pc && pc[w.p] == Blocked(s, w, false)
    requires forall r, w | r in k.sems && r != s && w in k.sems[r].sem.sleepers ::
        w.p in pc && pc[w.p] == Blocked(r, w, false)
    requires forall p | p in pc && pc[p].Blocked? ::
      pc[p].w.p == p && (pc[p].s.Child? ==> pc[p].s.p == p)
      && if pc[p].s == s then pc[p].up || pc[p].w in cell.sem.sleepers
          else pc[p].s in k.sems && (pc[p].up || pc[p].w in k.sems[pc[p].s].sem.sleepers)
    ensures SemInv(k.(sems := k.sems[s := cell], pc := pc))
  {
    hide CellInv;
    var k1 := k.(sems := k.sems[s := cell], pc := pc);
    forall r | r in k1.sems ensures CellInv(k1.sems[r]) && forall w | w in k1.sems[r].sem.sleepers :: Listed(k1, r, w) {
    }
  }

  lemma EnterSem(k: Kernel, s: SemId, p: Pid, then_: Pc)
    requires SemInv(k) && s in k.sems && p in k.pc && !PcOf(k, p).Blocked? && !then_.Blocked? && (s.Child? ==> s.p == p)
    ensures var cell := k.sems[s];
      SemInv(GoTo(k.(sems := k.sems[s := EnterCell(cell, p)]), p, if MustSleep(cell.sem)
        then Blocked(s, Waiting(cell, p), false) else then_))
  {
    var cell := k.sems[s];
    EnterCellKeeps(cell, p);
    hide CellInv;
    var pc := k.pc[p := if MustSleep(cell.sem) then Blocked(s, Waiting(cell, p), false) else then_];
    forall r, w | r in k.sems && w in k.sems[r].sem.sleepers ensures w.p != p && w.p in k.pc
      && k.pc[w.p] == Blocked(r, w, false) {
      assert Listed(k, r, w);
    }
    forall q | q in k.pc ensures BlockedRight(k, q, k.pc[q]) {}
    CellChange(k, s, EnterCell(cell, p), pc);
  }

  lemma LeaveSem(k: Kernel, p: Pid, then_: Pc)
    requires SemInv(k) && p in k.pc && k.pc[p].Blocked? && !k.pc[p].up && !then_.Blocked?
    ensures var pc := k.pc[p]; pc.w in CellOf(k, pc.s).sem.sleepers && Undo(CellOf(k, pc.s).sem, pc.w).val <= 0
    ensures var pc := k.pc[p];
      SemInv(GoTo(k.(sems := k.sems[pc.s := CellOf(k, pc.s).(sem := Undo(CellOf(k, pc.s).sem, pc.w))]), p, then_))
  {
    var pc := k.pc[p];
    assert BlockedRight(k, p, pc);
    var cell := k.sems[pc.s];
    UndoCellKeeps(cell, pc.w);
    hide CellInv, Undo;
    forall r, w | r in k.sems && w in k.sems[r].sem.sleepers ensures w.p in k.pc && k.pc[w.p] == Blocked(r, w, false) {
      assert Listed(k, r, w);
    }
    forall q | q in k.pc ensures BlockedRight(k, q, k.pc[q]) {}
    CellChange(k, pc.s, cell.(sem := Undo(cell.sem, pc.w)), k.pc[p := then_]);
  }

  lemma MoveSem(k: Kernel, p: Pid, to: Pc)
    requires SemInv(k) && p in k.pc && !to.Blocked? && (PcOf(k, p).Blocked? ==> PcOf(k, p).up)
    ensures SemInv(GoTo(k, p, to))
  {
    hide CellInv;
    forall r, w | r in k.sems && w in k.sems[r].sem.sleepers ensures w.p != p {
      assert Listed(k, r, w);
    }
  }

  lemma TakeSem(k: Kernel, s: SemId, all: bool)
    requires SemInv(k) && s in k.sems
    ensures SemInv(GetOn(k, s, all))
  {
    var cell := k.sems[s];
    if cell.sem.val > 0 {
      var now := TakeCell(cell, if all then cell.sem.val else 1);
      TakeCellKeeps(cell, if all then cell.sem.val else 1);
      hide CellInv;
      forall r, w | r in k.sems && w in k.sems[r].sem.sleepers ensures w.p in k.pc
        && k.pc[w.p] == Blocked(r, w, false) {
        assert Listed(k, r, w);
      }
      forall q | q in k.pc ensures BlockedRight(k, q, k.pc[q]) {}
      CellChange(k, s, now, k.pc);
      assert GetOn(k, s, all) == k.(sems := k.sems[s := now], pc := k.pc);
    }
  }

  /** Posting, without the activation. */
  lemma PostSemKeeps(k: Kernel, s: SemId)
    requires SemInv(k) && s in k.sems
    ensures PostAsserts(k.sems[s].sem) && SemInv(PostOn(k, s))
    ensures forall w | w in Woken(k.sems[s].sem) :: Listed(k, s, w) && w.p in k.pc
  {
    var cell := k.sems[s];
    PostCellKeeps(cell);
    var k1 := k.(sems := k.sems[s := PostCell(cell)]);
    hide CellInv;
    forall w | w in Woken(cell.sem) ensures Listed(k, s, w) && w.p in k.pc {}
    forall r, w | r in k.sems && w in k.sems[r].sem.sleepers ensures w.p in k.pc && k.pc[w.p] == Blocked(r, w, false) {
      assert Listed(k, r, w);
    }
    forall q | q in k.pc ensures BlockedRight(k, q, k.pc[q]) {}
    hide Woken, PostCell;
    if Woken(cell.sem) == [] {
      CellChange(k, s, PostCell(cell), k.pc);
    } else {
      var w := Woken(cell.sem)[0];
      CellChange(k, s, PostCell(cell), k.pc[w.p := Blocked(s, w, true)]);
      ActivateFrame(GoTo(k1, w.p, Blocked(s, w, true)), w.p, false);
      SemOnly(k1.(pc := k.pc[w.p := Blocked(s, w, true)]), PostOn(k, s));
    }
  }

  lemma SemOnly(k: Kernel, k1: Kernel)
    requires SemInv(k) && k1.sems == k.sems && k1.pc == k.pc
    ensures SemInv(k1)
  {
    hide CellInv;
    forall s, w | s in k.sems && w in k.sems[s].sem.sleepers ensures Listed(k1, s, w) {
      assert Listed(k, s, w);
    }
    forall p | p in k.pc ensures BlockedRight(k1, p, k.pc[p]) {
      assert BlockedRight(k, p, k.pc[p]);
    }
  }
}
