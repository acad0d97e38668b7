// `wait` and `exit` hand units of childexit on: what each hand-over keeps.
module KernelExit {
  import opened SemSpec
  import opened KernelSpec
  import opened KernelInv
  import opened KernelFamily
  import opened KernelTree

  /** A sleeper that has been told that its unit was granted. */
  function Raised(pc: Pc, s: SemId): Pc {
    if pc.Blocked? && pc.s == s && !pc.up then Blocked(s, pc.w, true) else pc
  }

  /** What a post on the childexit of r changes: that semaphore, and where r is. */
  ghost predicate Posted(k: Kernel, k1: Kernel, r: Pid) {
    && k1.parent == k.parent && k1.children == k.children && k1.plock == k.plock && k1.maxPid == k.maxPid
        && k1.reaped == k.reaped
    && k1.killed == k.killed && k1.state.Keys == k.state.Keys && k1.pc.Keys == k.pc.Keys && k1.sems.Keys == k.sems.Keys
    && (forall x :: PcOf(k1, x) == if x == r then Raised(PcOf(k, r), Child(r)) else PcOf(k, x))
    && (forall x | x != r :: Tokens(k1, x) == Tokens(k, x))
    && (!(PcOf(k, r).Blocked? && PcOf(k, r).s == Child(r) && !PcOf(k, r).up) ==> Tokens(k1, r) == Tokens(k, r) + 1)
    && (PcOf(k, r).Blocked? && PcOf(k, r).s == Child(r) && !PcOf(k, r).up ==> Tokens(k1, r) == Tokens(k, r))
  }

  /** Only its owner ever sleeps on a childexit. */
  lemma OwnerSleeps(k: Kernel, r: Pid)
    requires SemInv(k) && Child(r) in k.sems
    ensures var cell, pc := k.sems[Child(r)], PcOf(k, r);
      if pc.Blocked? && pc.s == Child(r) && !pc.up then cell.sem.val == -1 && cell.sem.sleepers == [pc.w] && pc.w.p == r
      else cell.sem.val >= 0 && cell.sem.sleepers == []
  {
    hide Ordered, Conserved;
    var cell, pc := k.sems[Child(r)], PcOf(k, r);
    assert Good(cell.sem);
    forall w | w in cell.sem.sleepers ensures pc == Blocked(Child(r), w, false) {
      assert Listed(k, Child(r), w);
      assert BlockedRight(k, w.p, k.pc[w.p]);
    }
    if pc.Blocked? && pc.s == Child(r) && !pc.up {
      assert BlockedRight(k, r, k.pc[r]);
      hide SemInv;
      AllOne(cell.sem.sleepers, pc.w);
    } else {
      Nobody(cell.sem.sleepers);
    }
  }

  lemma Nobody(s: seq<Waiter>)
    requires forall w :: w !in s
    ensures s == []
  {
    if s != [] {
      HeadIn(s);
    }
  }

  lemma HeadIn(s: seq<Waiter>)
    requires s != []
    ensures s[0] in s
  {
  }

  lemma TwoDiffer(s: seq<Waiter>)
    requires Distinct(s) && |s| > 1
    ensures s[0] in s && s[1] in s && s[0] != s[1]
  {
  }

  lemma AllOne(s: seq<Waiter>, x: Waiter)
    requires Distinct(s) && x in s && forall w | w in s :: w == x
    ensures s == [x]
  {
    hide Distinct;
    if |s| > 1 {
      TwoDiffer(s);
    }
  }

  lemma PostChild(k: Kernel, r: Pid)
    requires SemInv(k) && Child(r) in k.sems && r in k.state && r in k.pc
    ensures Posted(k, PostOn(k, Child(r)), r)
  {
    hide SemInv, Post;
    OwnerSleeps(k, r);
    PostAlone(k.sems[Child(r)].sem);
  }

  /** A post with at most one sleeper. */
  lemma PostAlone(s: Sem<Waiter>)
    requires (s.val >= 0 && s.sleepers == []) || (s.val == -1 && |s.sleepers| == 1)
    ensures Post(s) == Sem(s.val + 1, []) && Woken(s) == s.sleepers
  {
  }

  /** k1 is k with p somewhere else, and perhaps another value of p's childexit. */
  ghost predicate OnlyMoved(k: Kernel, k1: Kernel, p: Pid, to: Pc) {
    && p in k.pc && k1.pc == k.pc[p := to]
    && k1.parent == k.parent && k1.children == k.children && k1.plock == k.plock && k1.maxPid == k.maxPid
        && k1.reaped == k.reaped
    && k1.killed == k.killed && k1.state.Keys == k.state.Keys && k1.sems.Keys == k.sems.Keys
    && (forall q | q != p :: Tokens(k1, q) == Tokens(k, q))
  }

  lemma MovedPc(k: Kernel, k1: Kernel, p: Pid, to: Pc, q: Pid)
    requires OnlyMoved(k, k1, p, to)
    ensures PcOf(k1, q) == if q == p then to else PcOf(k, q)
  {
  }

  lemma MovedSame(k: Kernel, k1: Kernel, p: Pid, to: Pc)
    requires OnlyMoved(k, k1, p, to) && PidInv(k)
    ensures SameFamily(k, k1) && k1.plock == k.plock && p in k.pc && k1.children == k.children
        && k1.pc.Keys == k.pc.Keys
    ensures forall q | q != p :: SameRole(PcOf(k, q), PcOf(k1, q), q) && Tokens(k, q) == Tokens(k1, q)
    ensures PcOf(k1, p) == to && ChildrenOf(k1, p) == ChildrenOf(k, p)
  {
    hide Tokens;
  }

  lemma MovedFamily(k: Kernel, k1: Kernel, p: Pid, to: Pc)
    requires FamilyInv(k) && OnlyMoved(k, k1, p, to) && DeadPc(PcOf(k, p)) == DeadPc(to)
        && InExit(PcOf(k, p)) == InExit(to)
    requires (InExit(to) || to == Gone ==> ChildrenOf(k, p) == [] && p != ROOT)
        && (WaitsForChild(to, p) ==> ChildrenOf(k, p) != [])
    requires Own(k, p) == Own(k1, p) && (InExit(to) ==> InFlight(k) == InFlight(k1))
    ensures FamilyInv(k1)
  {
    hide PcOf, ChildrenOf, TokenInv, TreeInv, LockInv, PidInv, Tokens, OnlyMoved, Own, InFlight, SameFamily,
        WaitsForChild;
    MovedSame(k, k1, p, to);
    if !InExit(to) {
      HolderElse(k, k1, p, to);
    }
    MoveFamily(k, k1, p);
  }

  lemma HolderElse(k: Kernel, k1: Kernel, p: Pid, to: Pc)
    requires LockInv(k) && OnlyMoved(k, k1, p, to) && !InExit(PcOf(k, p))
    ensures InFlight(k) == InFlight(k1)
  {
    hide Tokens;
    if k.plock.Some? {
      MovedPc(k, k1, p, to, k.plock.value);
      FlightSame(k, k1);
    }
  }

  // ----- wait -----

  lemma WaitCallFamily(k: Kernel, p: Pid)
    requires FamilyInv(k) && p in k.pc && PcOf(k, p) == Outside && ChildrenOf(k, p) != []
    ensures FamilyInv(GoTo(k, p, Willing))
  {
    hide ChildrenOf, TokenInv, TreeInv, LockInv, PidInv;
    MovedFamily(k, GoTo(k, p, Willing), p, Willing);
  }

  /** p has children if it is anywhere in wait. */
  lemma Waiters(k: Kernel, p: Pid)
    requires TreeInv(k) && p in k.parent
    ensures WaitsForChild(PcOf(k, p), p) ==> ChildrenOf(k, p) != []
    ensures InExit(PcOf(k, p)) || PcOf(k, p) == Gone ==> ChildrenOf(k, p) == [] && p != ROOT
    ensures p in k.children
  {
    assert MembersRight(k);
    assert ChildrenRight(k, p);
    hide Distinct;
  }

  /** Taking a unit of the own childexit, or queueing up for one. */
  lemma WaitChildFamily(k: Kernel, k1: Kernel, p: Pid)
    requires FamilyInv(k) && SemInv(k) && p in k.pc && p in k.parent && Child(p) in k.sems && PcOf(k, p) == Willing
    requires var cell := k.sems[Child(p)];
      k1 == GoTo(k.(sems := k.sems[Child(p) := EnterCell(cell, p)]), p, if MustSleep(cell.sem)
        then Blocked(Child(p), Waiting(cell, p), false) else Reaping)
    ensures FamilyInv(k1)
  {
    hide ChildrenOf, TokenInv, TreeInv, LockInv, PidInv, SemInv;
    Waiters(k, p);
    OwnerSleeps(k, p);
    MovedFamily(k, k1, p, PcOf(k1, p));
  }

  /** Waking up in wait, with the unit or without. */
  lemma LeaveChildFamily(k: Kernel, p: Pid)
    requires FamilyInv(k) && SemInv(k) && p in k.pc && p in k.parent && PcOf(k, p).Blocked? && PcOf(k, p).s == Child(p)
        && Child(p) in k.sems
    ensures FamilyInv(LeaveOn(k, p))
  {
    hide ChildrenOf, TokenInv, TreeInv, LockInv, PidInv, SemInv, Remove;
    Waiters(k, p);
    OwnerSleeps(k, p);
    MovedFamily(k, LeaveOn(k, p), p, PcOf(LeaveOn(k, p), p));
  }

  // ----- exit -----

  lemma HolderIs(k: Kernel, e: Pid)
    requires LockInv(k) && e in k.pc && InExit(PcOf(k, e))
    ensures k.plock == Some(e)
  {
  }

  lemma ExitGetFamily(k: Kernel, e: Pid)
    requires FamilyInv(k) && SemInv(k) && e in k.pc && e in k.parent && PcOf(k, e) == Moving && Child(e) in k.sems
    ensures k.sems[Child(e)].sem.val > 0 ==> FamilyInv(GoTo(GetOn(k, Child(e), false), e, Passing))
    ensures k.sems[Child(e)].sem.val <= 0 ==> FamilyInv(GoTo(k, e, Notifying))
  {
    hide ChildrenOf, TokenInv, TreeInv, LockInv, PidInv, SemInv;
    Waiters(k, e);
    HolderIs(k, e);
    if k.sems[Child(e)].sem.val > 0 {
      MovedFamily(k, GoTo(GetOn(k, Child(e), false), e, Passing), e, Passing);
    } else {
      MovedFamily(k, GoTo(k, e, Notifying), e, Notifying);
    }
  }

  /** The lock holder e posts to r and moves on. */
  ghost predicate Handed(k: Kernel, k2: Kernel, e: Pid, r: Pid, to: Pc) {
    && e != r && e in k.pc && r in k.parent && InExit(PcOf(k, e)) && InExit(to)
    && k2.parent == k.parent && k2.children == k.children && k2.plock == k.plock && k2.maxPid == k.maxPid
        && k2.reaped == k.reaped
    && k2.killed == k.killed && k2.state.Keys == k.state.Keys && k2.pc.Keys == k.pc.Keys && k2.sems.Keys == k.sems.Keys
    && (forall x :: PcOf(k2, x) == if x == e then to else if x == r then Raised(PcOf(k, r), Child(r)) else PcOf(k, x))
    && (forall x | x != r :: Tokens(k2, x) == Tokens(k, x))
    && Own(k2, r) == Own(k, r) + 1
  }

  lemma HandOver(k: Kernel, e: Pid, r: Pid, to: Pc)
    requires SemInv(k) && LockInv(k) && Child(r) in k.sems && r in k.state && r in k.pc && r in k.parent
    requires e != r && e in k.pc && InExit(PcOf(k, e)) && InExit(to)
    ensures Handed(k, GoTo(PostOn(k, Child(r)), e, to), e, r, to)
  {
    hide SemInv, LockInv, PostOn, Tokens;
    PostChild(k, r);
    OneHolder(k, e, r);
    GoToAt(PostOn(k, Child(r)), e, to);
  }

  lemma OneHolder(k: Kernel, e: Pid, r: Pid)
    requires LockInv(k) && e in k.pc && r in k.pc && e != r && InExit(PcOf(k, e))
    ensures !InExit(PcOf(k, r)) && k.plock == Some(e)
  {
  }

  lemma GoToAt(k: Kernel, e: Pid, to: Pc)
    requires e in k.pc
    ensures forall x :: PcOf(GoTo(k, e, to), x) == if x == e then to else PcOf(k, x)
    ensures forall x :: Tokens(GoTo(k, e, to), x) == Tokens(k, x)
    ensures GoTo(k, e, to).pc.Keys == k.pc.Keys
  {
  }

  lemma HandedLock(k: Kernel, k2: Kernel, e: Pid, r: Pid, to: Pc)
    requires LockInv(k) && Handed(k, k2, e, r, to)
    ensures LockInv(k2) && k.plock == Some(e)
  {
    hide Own, Tokens;
    forall p | p in k2.pc ensures InExit(PcOf(k2, p)) <==> k2.plock == Some(p) {
      assert InExit(PcOf(k, p)) <==> k.plock == Some(p);
    }
    PcIn(k2);
  }

  lemma PcIn(k: Kernel)
    ensures forall p | p in k.pc :: PcOf(k, p) == k.pc[p]
  {
  }

  lemma HandedTree(k: Kernel, k2: Kernel, e: Pid, r: Pid, to: Pc)
    requires TreeInv(k) && PidInv(k) && LockInv(k) && Handed(k, k2, e, r, to) && e in k.parent && r in k.pc
    ensures TreeInv(k2) && PidInv(k2)
  {
    hide TreeInv, PidInv, LockInv, Tokens, Own, ChildrenOf, PcOf, WaitsForChild;
    HandedRoles(k, k2, e, r, to);
    HandedSame(k, k2, e, r, to);
    MoveTree(k, k2);
    SamePids(k, k2);
  }

  lemma HandedSame(k: Kernel, k2: Kernel, e: Pid, r: Pid, to: Pc)
    requires PidInv(k) && Handed(k, k2, e, r, to)
    ensures SameFamily(k, k2)
  {
    hide Tokens, Own, PcOf;
  }

  lemma HandedRoles(k: Kernel, k2: Kernel, e: Pid, r: Pid, to: Pc)
    requires TreeInv(k) && LockInv(k) && Handed(k, k2, e, r, to) && e in k.parent && r in k.pc
    ensures RolesFit(k, k2)
  {
    hide TreeInv, LockInv, Tokens, Own, PcOf;
    Waiters(k, e);
    Waiters(k, r);
    OneHolder(k, e, r);
    SameLists(k, k2);
    forall q ensures SameRole(PcOf(k, q), PcOf(k2, q), q) || RoleFits(k2, q) {}
  }

  lemma SameLists(k: Kernel, k2: Kernel)
    requires k2.children == k.children
    ensures forall q :: ChildrenOf(k2, q) == ChildrenOf(k, q)
  {
  }

  lemma HandedOwn(k: Kernel, k2: Kernel, e: Pid, r: Pid, to: Pc, q: Pid)
    requires Handed(k, k2, e, r, to) && q != r && q != e
    ensures Own(k2, q) == Own(k, q)
  {
    hide Tokens, PcOf;
  }

  lemma HandedDead(k: Kernel, k2: Kernel, e: Pid, r: Pid, to: Pc, q: Pid)
    requires Handed(k, k2, e, r, to)
    ensures to != Dying && PcOf(k, e) != Dying ==> DeadKids(k2, q) == DeadKids(k, q)
    ensures to == Dying ==> DeadKids(k2, q) == DeadKids(k, q) + if e in ChildrenOf(k, q) then {e} else {}
  {
    hide Tokens, Own, PcOf;
    SameLists(k, k2);
    assert forall x | x != e :: DeadPc(PcOf(k2, x)) == DeadPc(PcOf(k, x));
    hide ChildrenOf;
  }

  /** A unit passed on to the root is no longer in flight. */
  lemma PassFamily(k: Kernel, e: Pid)
    requires FamilyInv(k) && SemInv(k) && e in k.pc && e in k.parent && PcOf(k, e) == Passing && Child(ROOT) in k.sems
        && ROOT in k.pc && ROOT in k.state
    ensures FamilyInv(GoTo(PostOn(k, Child(ROOT)), e, Moving))
  {
    hide TreeInv, PidInv, LockInv, SemInv, PostOn, Tokens, ChildrenOf, DeadKids, PcOf, Own, Handed, TokenInv;
    Waiters(k, e);
    RootMember(k);
    HolderIs(k, e);
    HandOver(k, e, ROOT, Moving);
    var k2 := GoTo(PostOn(k, Child(ROOT)), e, Moving);
    HandedLock(k, k2, e, ROOT, Moving);
    HandedTree(k, k2, e, ROOT, Moving);
    PassTokens(k, k2, e);
  }

  lemma RootMember(k: Kernel)
    requires TreeInv(k)
    ensures ROOT in k.parent && PcOf(k, ROOT) != Moving && PcOf(k, ROOT) != Passing && PcOf(k, ROOT) != Gone
        && !InExit(PcOf(k, ROOT))
  {
    assert RootRight(k);
    hide ChildrenRight, ParentRight, MembersRight;
  }

  lemma PassTokens(k: Kernel, k2: Kernel, e: Pid)
    requires TokenInv(k) && Handed(k, k2, e, ROOT, Moving) && k.plock == Some(e) && PcOf(k, e) == Passing
    ensures TokenInv(k2)
  {
    hide Tokens, ChildrenOf, DeadKids, PcOf;
    forall q | q in k2.children ensures Owed(k2, q) == |DeadKids(k2, q)| {
      assert Owed(k, q) == |DeadKids(k, q)|;
      HandedDead(k, k2, e, ROOT, Moving, q);
      if q != e && q != ROOT {
        HandedOwn(k, k2, e, ROOT, Moving, q);
      }
    }
  }

  /** Announcing its death, a process makes its parent one unit richer. */
  lemma NotifyFamily(k: Kernel, e: Pid)
    requires FamilyInv(k) && SemInv(k) && e in k.pc && e in k.parent && PcOf(k, e) == Notifying
        && k.pc.Keys == k.state.Keys
    ensures FamilyInv(GoTo(PostOn(k, Child(ParentOf(k, e))), e, Dying)) && Child(ParentOf(k, e)) in k.sems
  {
    hide TreeInv, PidInv, LockInv, SemInv, PostOn, Tokens, ChildrenOf, DeadKids, PcOf, Own, Handed, TokenInv, ParentOf;
    var r := ParentOf(k, e);
    Waiters(k, e);
    HolderIs(k, e);
    ParentIn(k, e);
    HandOver(k, e, r, Dying);
    var k2 := GoTo(PostOn(k, Child(r)), e, Dying);
    HandedLock(k, k2, e, r, Dying);
    HandedTree(k, k2, e, r, Dying);
    NotifyTokens(k, k2, e, r);
  }

  /** The parent of a process in exit is somebody else, alive and listed. */
  lemma ParentIn(k: Kernel, e: Pid)
    requires TreeInv(k) && e in k.parent && InExit(PcOf(k, e))
    ensures var r := ParentOf(k, e);
      && r != e && r in k.parent && r in k.state && Child(r) in k.sems && e in ChildrenOf(k, r)
      && forall q | q in k.children :: e in ChildrenOf(k, q) <==> q == r
  {
    hide ChildrenRight, ParentRight, ParentOf, ChildrenOf, RootRight, MembersRight;
    Waiters(k, e);
    ParentLists(k, e);
    ParentExists(k, e);
    MemberIn(k, ParentOf(k, e));
    forall q | q in k.children ensures e in ChildrenOf(k, q) <==> q == ParentOf(k, e) {
      if e in ChildrenOf(k, q) {
        ChildOf(k, q, e);
      }
    }
  }

  lemma ParentExists(k: Kernel, e: Pid)
    requires ParentRight(k, e)
    ensures ParentOf(k, e) in k.parent
  {
  }

  lemma NotifyTokens(k: Kernel, k2: Kernel, e: Pid, r: Pid)
    requires TokenInv(k) && Handed(k, k2, e, r, Dying) && k.plock == Some(e) && PcOf(k, e) == Notifying
    requires forall q | q in k.children :: e in ChildrenOf(k, q) <==> q == r
    ensures TokenInv(k2)
  {
    hide Tokens, ChildrenOf, PcOf, DeadKids;
    forall q | q in k2.children ensures Owed(k2, q) == |DeadKids(k2, q)| {
      assert Owed(k, q) == |DeadKids(k, q)|;
      HandedDead(k, k2, e, r, Dying, q);
      NotDead(k, q, e);
      if q != e && q != r {
        HandedOwn(k, k2, e, r, Dying, q);
      }
    }
  }

  lemma NotDead(k: Kernel, q: Pid, c: Pid)
    requires !DeadPc(PcOf(k, c))
    ensures c !in DeadKids(k, q)
  {
  }

  /** Releasing the lock to die changes nobody's account. */
  lemma DieFamily(k: Kernel, e: Pid)
    requires FamilyInv(k) && e in k.pc && e in k.parent && PcOf(k, e) == Dying
    ensures FamilyInv(GoTo(k.(plock := None), e, Gone))
  {
    hide TreeInv, PidInv, LockInv, Tokens, ChildrenOf, DeadKids, Own, TokenInv;
    var k2 := GoTo(k.(plock := None), e, Gone);
    Waiters(k, e);
    HolderIs(k, e);
    GoToAt(k.(plock := None), e, Gone);
    DieTree(k, k2, e);
    DieLock(k, e);
    DieTokens(k, k2, e);
  }

  lemma DieLock(k: Kernel, e: Pid)
    requires LockInv(k) && k.plock == Some(e) && e in k.pc
    ensures LockInv(GoTo(k.(plock := None), e, Gone))
  {
  }

  lemma DieTree(k: Kernel, k2: Kernel, e: Pid)
    requires TreeInv(k) && PidInv(k) && e in k.pc && k2 == GoTo(k.(plock := None), e, Gone) && ChildrenOf(k, e) == []
        && e != ROOT
    ensures TreeInv(k2) && PidInv(k2)
  {
    hide TreeInv;
    forall q ensures SameRole(PcOf(k, q), PcOf(k2, q), q) || RoleFits(k2, q) {}
    MoveTree(k, k2);
  }

  lemma DieTokens(k: Kernel, k2: Kernel, e: Pid)
    requires TokenInv(k) && e in k.pc && k2 == GoTo(k.(plock := None), e, Gone) && PcOf(k, e) == Dying
        && k.plock == Some(e)
    ensures TokenInv(k2)
  {
    hide Tokens, ChildrenOf, DeadKids;
    GoToAt(k.(plock := None), e, Gone);
    forall q | q in k2.children ensures Owed(k2, q) == |DeadKids(k2, q)| {
      assert Owed(k, q) == |DeadKids(k, q)|;
      DieDead(k, k2, e, q);
      SameUnits(k, k2, q);
    }
  }

  lemma SameUnits(k: Kernel, k2: Kernel, q: Pid)
    requires k2.sems == k.sems
    ensures Tokens(k2, q) == Tokens(k, q)
  {
  }

  lemma DieDead(k: Kernel, k2: Kernel, e: Pid, q: Pid)
    requires e in k.pc && k2 == GoTo(k.(plock := None), e, Gone) && PcOf(k, e) == Dying
    ensures DeadKids(k2, q) == DeadKids(k, q)
  {
  }
}
