// What the pieces of a step keep of the family tree and of the unit each zombie owes its parent.
module KernelFamily {
  import opened KernelSpec
  import opened KernelInv

  ghost predicate FamilyInv(k: Kernel) {
    LockInv(k) && TreeInv(k) && PidInv(k) && TokenInv(k)
  }

  /** Not in wait and not in exit. */
  predicate Neutral(pc: Pc, p: Pid) {
    pc == Outside || (pc.Blocked? && pc.s != Child(p))
  }

  predicate SameRole(a: Pc, b: Pc, p: Pid) {
    a == b || (Neutral(a, p) && Neutral(b, p))
  }

  /** k1 has the same family as k, and the same units on every childexit. */
  ghost predicate SameFamily(k: Kernel, k1: Kernel) {
    && k1.parent == k.parent && k1.children == k.children
    && k1.maxPid == k.maxPid && k1.reaped == k.reaped && k1.state.Keys == k.state.Keys && k1.pc.Keys == k.pc.Keys
    && (forall p | p in k1.killed :: p in k.state && p.Named?)
    && (forall s | s in k.sems :: s in k1.sems) && (forall s | s in k1.sems && s !in k.sems :: s.Plain?)
  }

  /** The place of q suits its children. */
  predicate RoleFits(k: Kernel, q: Pid) {
    && (InExit(PcOf(k, q)) || PcOf(k, q) == Gone ==> ChildrenOf(k, q) == [] && q != ROOT)
    && (WaitsForChild(PcOf(k, q), q) ==> ChildrenOf(k, q) != [])
  }

  lemma RoleSame(k: Kernel, k1: Kernel, q: Pid)
    requires SameFamily(k, k1) && (SameRole(PcOf(k, q), PcOf(k1, q), q) || RoleFits(k1, q))
    requires ChildrenRight(k, q)
    ensures ChildrenRight(k1, q)
  {
  }

  lemma SameLock(k: Kernel, k1: Kernel)
    requires LockInv(k) && k1.plock == k.plock && SameFamily(k, k1) && SameRoles(k, k1)
    ensures LockInv(k1)
  {
    forall p | p in k1.pc ensures InExit(k1.pc[p]) <==> k1.plock == Some(p) {
      assert SameRole(PcOf(k, p), PcOf(k1, p), p);
    }
  }

  lemma ParentSame(k: Kernel, k1: Kernel, p: Pid)
    requires ParentRight(k, p) && k1.parent == k.parent && k1.children == k.children
    ensures ParentRight(k1, p)
  {
  }

  lemma SameMembers(k: Kernel, k1: Kernel)
    requires MembersRight(k) && SameFamily(k, k1)
    ensures MembersRight(k1)
  {
  }

  ghost predicate SameRoles(k: Kernel, k1: Kernel) {
    forall p :: SameRole(PcOf(k, p), PcOf(k1, p), p)
  }

  ghost predicate RolesFit(k: Kernel, k1: Kernel) {
    forall p :: SameRole(PcOf(k, p), PcOf(k1, p), p) || RoleFits(k1, p)
  }

  lemma SameRoot(k: Kernel, k1: Kernel)
    requires RootRight(k) && SameFamily(k, k1) && RolesFit(k, k1)
    ensures RootRight(k1)
  {
    assert SameRole(PcOf(k, ROOT), PcOf(k1, ROOT), ROOT) || RoleFits(k1, ROOT);
  }

  lemma SameChildren(k: Kernel, k1: Kernel)
    requires (forall q | q in k.children :: ChildrenRight(k, q)) && SameFamily(k, k1) && RolesFit(k, k1)
    ensures forall q | q in k1.children :: ChildrenRight(k1, q)
  {
    hide ChildrenRight, SameRole, PcOf, RoleFits;
    forall q | q in k1.children ensures ChildrenRight(k1, q) {
      assert SameRole(PcOf(k, q), PcOf(k1, q), q) || RoleFits(k1, q);
      RoleSame(k, k1, q);
    }
  }

  lemma SameParents(k: Kernel, k1: Kernel)
    requires (forall p | p in k.parent :: ParentRight(k, p)) && SameFamily(k, k1)
    ensures forall p | p in k1.parent :: ParentRight(k1, p)
  {
    hide ParentRight;
    forall p | p in k1.parent ensures ParentRight(k1, p) {
      ParentSame(k, k1, p);
    }
  }

  lemma MoveTree(k: Kernel, k1: Kernel)
    requires TreeInv(k) && SameFamily(k, k1) && RolesFit(k, k1)
    ensures TreeInv(k1)
  {
    hide ChildrenRight, ParentRight, MembersRight, RootRight, RolesFit, SameFamily;
    SameRoot(k, k1);
    SameMembers(k, k1);
    SameChildren(k, k1);
    SameParents(k, k1);
  }

  lemma SameOwn(k: Kernel, k1: Kernel, q: Pid)
    requires SameRole(PcOf(k, q), PcOf(k1, q), q) && Tokens(k, q) == Tokens(k1, q)
    ensures Own(k, q) == Own(k1, q)
  {
  }

  lemma SameDead(k: Kernel, k1: Kernel, q: Pid)
    requires k1.children == k.children && SameRoles(k, k1)
    ensures DeadKids(k, q) == DeadKids(k1, q)
  {
    forall p ensures DeadPc(PcOf(k, p)) == DeadPc(PcOf(k1, p)) {
      assert SameRole(PcOf(k, p), PcOf(k1, p), p);
    }
  }

  lemma SameTokens(k: Kernel, k1: Kernel)
    requires TokenInv(k) && k1.plock == k.plock && SameFamily(k, k1) && SameRoles(k, k1)
    requires forall q :: Tokens(k, q) == Tokens(k1, q)
    ensures TokenInv(k1)
  {
    if k.plock.Some? {
      assert SameRole(PcOf(k, k.plock.value), PcOf(k1, k.plock.value), k.plock.value);
      assert Tokens(k, k.plock.value) == Tokens(k1, k.plock.value);
    }
    assert InFlight(k) == InFlight(k1);
    forall q | q in k1.children ensures Owed(k1, q) == |DeadKids(k1, q)| {
      assert Tokens(k, q) == Tokens(k1, q) && SameRole(PcOf(k, q), PcOf(k1, q), q);
      SameOwn(k, k1, q);
      SameDead(k, k1, q);
      assert Owed(k, q) == |DeadKids(k, q)|;
    }
  }

  lemma SameFits(k: Kernel, k1: Kernel)
    requires SameRoles(k, k1)
    ensures RolesFit(k, k1)
  {
    hide SameRole, RoleFits, PcOf;
  }

  lemma SamePids(k: Kernel, k1: Kernel)
    requires PidInv(k) && SameFamily(k, k1)
    ensures PidInv(k1)
  {
  }

  lemma FamilyFrame(k: Kernel, k1: Kernel)
    requires FamilyInv(k) && k1.plock == k.plock && SameFamily(k, k1) && SameRoles(k, k1)
    requires forall q :: Tokens(k, q) == Tokens(k1, q)
    ensures FamilyInv(k1)
  {
    hide LockInv, TreeInv, TokenInv, PidInv, SameFamily, SameRoles, RolesFit;
    SameFits(k, k1);
    SamePids(k, k1);
    SameLock(k, k1);
    MoveTree(k, k1);
    SameTokens(k, k1);
  }

  // ----- places in wait and exit -----

  /** The lock holder's move inside `exit`, or a move of somebody outside it. */
  lemma MoveLock(k: Kernel, k1: Kernel, p: Pid)
    requires LockInv(k) && k1.plock == k.plock && k1.pc.Keys == k.pc.Keys && p in k.pc
        && InExit(PcOf(k, p)) == InExit(PcOf(k1, p))
    requires forall q | q != p :: SameRole(PcOf(k, q), PcOf(k1, q), q)
    ensures LockInv(k1)
  {
    forall q | q in k1.pc ensures InExit(k1.pc[q]) <==> k1.plock == Some(q) {
      assert q != p ==> SameRole(PcOf(k, q), PcOf(k1, q), q);
    }
  }

  lemma MoveDead(k: Kernel, k1: Kernel, p: Pid, q: Pid)
    requires k1.children == k.children && DeadPc(PcOf(k, p)) == DeadPc(PcOf(k1, p))
    requires forall r | r != p :: SameRole(PcOf(k, r), PcOf(k1, r), r)
    ensures DeadKids(k, q) == DeadKids(k1, q)
  {
    forall r ensures DeadPc(PcOf(k, r)) == DeadPc(PcOf(k1, r)) {
      assert r != p ==> SameRole(PcOf(k, r), PcOf(k1, r), r);
    }
  }

  /** p moves within wait or exit, the units it owns moving along. */
  lemma MoveTokens(k: Kernel, k1: Kernel, p: Pid)
    requires TokenInv(k) && k1.children == k.children && DeadPc(PcOf(k, p)) == DeadPc(PcOf(k1, p))
    requires forall q | q != p :: SameRole(PcOf(k, q), PcOf(k1, q), q) && Tokens(k, q) == Tokens(k1, q)
    requires Own(k, p) == Own(k1, p) && InFlight(k) == InFlight(k1)
    ensures TokenInv(k1)
  {
    forall q | q in k1.children ensures Owed(k1, q) == |DeadKids(k1, q)| {
      if q != p {
        SameOwn(k, k1, q);
      }
      MoveDead(k, k1, p, q);
      assert Owed(k, q) == |DeadKids(k, q)|;
    }
  }

  lemma MoveFits(k: Kernel, k1: Kernel, p: Pid)
    requires RoleFits(k1, p) && forall q | q != p :: SameRole(PcOf(k, q), PcOf(k1, q), q)
    ensures RolesFit(k, k1)
  {
    hide RoleFits, SameRole, PcOf;
  }

  lemma MoveFamily(k: Kernel, k1: Kernel, p: Pid)
    requires FamilyInv(k) && SameFamily(k, k1) && k1.plock == k.plock && p in k.pc && RoleFits(k1, p)
    requires InExit(PcOf(k, p)) == InExit(PcOf(k1, p)) && DeadPc(PcOf(k, p)) == DeadPc(PcOf(k1, p))
    requires k1.children == k.children && k1.pc.Keys == k.pc.Keys
    requires forall q | q != p :: SameRole(PcOf(k, q), PcOf(k1, q), q) && Tokens(k, q) == Tokens(k1, q)
    requires Own(k, p) == Own(k1, p) && InFlight(k) == InFlight(k1)
    ensures FamilyInv(k1)
  {
    hide TreeInv, TokenInv, RolesFit, PidInv, LockInv, Own, InFlight, RoleFits, SameFamily, SameRole, PcOf, DeadPc,
        InExit, Tokens;
    MoveFits(k, k1, p);
    MoveTree(k, k1);
    SamePids(k, k1);
    MoveLock(k, k1, p);
    MoveTokens(k, k1, p);
  }

  /** Nobody but the lock holder matters for the units in flight. */
  lemma FlightSame(k: Kernel, k1: Kernel)
    requires k1.plock == k.plock
    requires k.plock.Some? ==>
        PcOf(k, k.plock.value) == PcOf(k1, k.plock.value) && Tokens(k, k.plock.value) == Tokens(k1, k.plock.value)
    ensures InFlight(k) == InFlight(k1)
  {
  }
}
