// Birth, orphaning, death and reaping: the steps of src/kernel/proc.c that change the family tree.
module KernelTree {
  import opened SemSpec
  import opened KernelSpec
  import opened KernelInv
  import opened KernelFamily

  // ----- birth -----

  /** What a birth does to each process. */
  lemma CreateAt(k: Kernel, par: Pid, x: Pid)
    ensures var k1, q := CreateUnder(k, par), Named(k.maxPid + 1);
      && ChildrenOf(k1, x) == (if x == par then [q] + ChildrenOf(k, par) else if x == q then [] else ChildrenOf(k, x))
      && PcOf(k1, x) == (if x == q then Outside else PcOf(k, x))
      && ParentOf(k1, x) == (if x == q then par else ParentOf(k, x))
      && Tokens(k1, x) == (if x == q then 0 else Tokens(k, x))
      && (x in k1.parent <==> x == q || x in k.parent) && (x in k1.children <==> x == q || x == par || x in k.children)
      && (x in k1.parent ==> k1.parent[x] == ParentOf(k1, x)) && k1.plock == k.plock
  {
  }

  lemma Fresh(k: Kernel)
    requires PidInv(k) && MembersRight(k)
    ensures var q := Named(k.maxPid + 1);
        q !in k.state && q !in k.parent && q !in k.children && q !in k.killed && q !in k.reaped
  {
  }

  lemma CreateMembers(k: Kernel, par: Pid)
    requires PidInv(k) && MembersRight(k) && par in k.parent
    ensures MembersRight(CreateUnder(k, par)) && PidInv(CreateUnder(k, par))
  {
  }

  lemma DistinctCons<T>(x: T, s: seq<T>)
    requires Distinct(s) && x !in s
    ensures Distinct([x] + s)
  {
  }

  lemma CreateChildren(k: Kernel, par: Pid, q: Pid)
    requires (q in k.children ==> ChildrenRight(k, q)) && par in k.children && !InExit(PcOf(k, par))
        && PcOf(k, par) != Gone
    requires Named(k.maxPid + 1) !in k.parent && ROOT in k.parent && par != Named(k.maxPid + 1)
    requires q in k.children || q == Named(k.maxPid + 1)
    ensures ChildrenRight(CreateUnder(k, par), q)
  {
    var k1, n := CreateUnder(k, par), Named(k.maxPid + 1);
    CreateAt(k, par, q);
    hide CreateUnder, ChildrenOf, PcOf, ParentOf, Distinct;
    forall c | c in ChildrenOf(k1, q) ensures c in k1.parent && c != ROOT && k1.parent[c] == q {
      CreateAt(k, par, c);
      ParentIs(k, c);
    }
    if q == par {
      DistinctCons(n, ChildrenOf(k, q));
    } else if q == n {
      EmptyDistinct<Pid>();
    }
  }

  lemma EmptyDistinct<T>()
    ensures Distinct<T>([])
  {
  }

  lemma ParentIs(k: Kernel, c: Pid)
    ensures c in k.parent ==> ParentOf(k, c) == k.parent[c]
  {
  }

  lemma CreateParents(k: Kernel, par: Pid, p: Pid)
    requires TreeInv(k) && par in k.parent && Named(k.maxPid + 1) !in k.parent
    requires p in CreateUnder(k, par).parent
    ensures ParentRight(CreateUnder(k, par), p)
  {
    hide CreateUnder, ChildrenOf, ParentOf, Tokens, ChildrenRight, MembersRight, RootRight, PcOf;
    assert p in k.parent ==> ParentRight(k, p);
    CreateAt(k, par, p);
    CreateAt(k, par, ParentOf(k, p));
    CreateAt(k, par, par);
  }

  lemma CreateTokens(k: Kernel, par: Pid, q: Pid)
    requires TokenInv(k) && k.plock == None && PcOf(k, Named(k.maxPid + 1)) == Outside
    requires q in k.children || q == Named(k.maxPid + 1)
    requires par != Named(k.maxPid + 1) && ROOT != Named(k.maxPid + 1) && par in k.children
    ensures Owed(CreateUnder(k, par), q) == |DeadKids(CreateUnder(k, par), q)|
  {
    hide CreateUnder, ChildrenOf, PcOf, ParentOf, Tokens;
    var k1, n := CreateUnder(k, par), Named(k.maxPid + 1);
    CreateAt(k, par, q);
    assert q in k.children ==> Owed(k, q) == |DeadKids(k, q)|;
    CreateAt(k, par, n);
    assert q != n ==> Own(k1, q) == Own(k, q);
    forall c | c in ChildrenOf(k1, q) ensures PcOf(k1, c) == if c == n then Outside else PcOf(k, c) {
      CreateAt(k, par, c);
    }
    if q == n {
      assert DeadKids(k1, q) == {};
    } else {
      assert DeadKids(k1, q) == DeadKids(k, q);
    }
  }

  lemma CreateKeys(k: Kernel, par: Pid)
    requires MembersRight(k) && par in k.parent
    ensures var k1, n := CreateUnder(k, par), Named(k.maxPid + 1);
      && par in k.children && k1.plock == k.plock
      && (forall q :: q in k1.children <==> q in k.children || q == n)
          && (forall q :: q in k1.parent <==> q in k.children || q == n)
  {
  }

  lemma CreateRoot(k: Kernel, par: Pid)
    requires RootRight(k) && Named(k.maxPid + 1) !in k.parent
    ensures RootRight(CreateUnder(k, par)) && ROOT in k.parent
  {
  }

  lemma CreateTree(k: Kernel, par: Pid)
    requires TreeInv(k) && PidInv(k) && par in k.parent && !InExit(PcOf(k, par)) && PcOf(k, par) != Gone
    ensures TreeInv(CreateUnder(k, par))
  {
    hide CreateUnder, ChildrenRight, ParentRight, MembersRight, RootRight, PcOf, PidInv, ChildrenOf, ParentOf, Neutral;
    var k1, n := CreateUnder(k, par), Named(k.maxPid + 1);
    Fresh(k);
    CreateMembers(k, par);
    CreateKeys(k, par);
    CreateRoot(k, par);
    forall q | q in k1.children ensures ChildrenRight(k1, q) {
      CreateChildren(k, par, q);
    }
    forall p | p in k1.parent ensures ParentRight(k1, p) {
      CreateParents(k, par, p);
    }
  }

  lemma CreateLock(k: Kernel, par: Pid)
    requires LockInv(k) && k.plock == None
    ensures LockInv(CreateUnder(k, par))
  {
  }

  lemma CreateTokenInv(k: Kernel, par: Pid)
    requires TokenInv(k) && k.plock == None && PcOf(k, Named(k.maxPid + 1)) == Outside && MembersRight(k)
        && par in k.parent
    requires par != Named(k.maxPid + 1) && ROOT != Named(k.maxPid + 1)
    ensures TokenInv(CreateUnder(k, par))
  {
    hide CreateUnder, Owed, DeadKids, PcOf, MembersRight;
    var k1 := CreateUnder(k, par);
    CreateKeys(k, par);
    forall q | q in k1.children ensures Owed(k1, q) == |DeadKids(k1, q)| {
      CreateTokens(k, par, q);
    }
  }

  lemma NotThere(k: Kernel, p: Pid)
    requires p !in k.pc
    ensures PcOf(k, p) == Outside
  {
  }

  lemma CreateFamily(k: Kernel, par: Pid)
    requires FamilyInv(k) && k.plock == None && par in k.parent && !InExit(PcOf(k, par)) && PcOf(k, par) != Gone
        && k.pc.Keys == k.state.Keys
    ensures FamilyInv(CreateUnder(k, par))
  {
    hide CreateUnder, PidInv, LockInv, TokenInv, PcOf, MembersRight, ParentRight, ChildrenRight, Neutral;
    Fresh(k);
    CreateMembers(k, par);
    CreateTree(k, par);
    CreateLock(k, par);
    NotThere(k, Named(k.maxPid + 1));
    CreateTokenInv(k, par);
  }

  // ----- orphaning -----

  lemma RotatedMembers(s: seq<Pid>, p: Pid)
    ensures p in Rotated(s) <==> p in s
  {
    if s != [] {
      var t, x := s[..|s| - 1], s[|s| - 1];
      assert s == t + [x] && Rotated(s) == [x] + t;
      assert p in t + [x] <==> p in t || p == x;
      assert p in [x] + t <==> p in t || p == x;
    }
  }

  lemma RotatedDistinct(s: seq<Pid>)
    requires Distinct(s)
    ensures Distinct(Rotated(s))
  {
    if s != [] {
      var t, x := s[..|s| - 1], s[|s| - 1];
      assert forall i | 0 <= i < |t| :: t[i] == s[i];
      DistinctCons(x, t);
    }
  }

  lemma RotatedSame(s: seq<Pid>)
    ensures forall p :: p in Rotated(s) <==> p in s
    ensures Distinct(s) ==> Distinct(Rotated(s))
  {
    hide Rotated, Distinct;
    forall p ensures p in Rotated(s) <==> p in s {
      RotatedMembers(s, p);
    }
    if Distinct(s) {
      RotatedDistinct(s);
    }
  }

  lemma DistinctSum<T>(a: seq<T>, b: seq<T>)
    requires Distinct(a) && Distinct(b) && forall x | x in a :: x !in b
    ensures Distinct(a + b)
  {
    var s := a + b;
    forall i, j | 0 <= i < j < |s| ensures s[i] != s[j] {
      if i < |a| <= j {
        assert s[i] in a && s[j] in b;
      }
    }
  }

  lemma OrphanAt(k: Kernel, e: Pid, x: Pid)
    requires e != ROOT
    ensures var k1 := Orphan(k, e);
      && ChildrenOf(k1, x) ==
          (if x == e then [] else if x == ROOT then Rotated(ChildrenOf(k, e)) + ChildrenOf(k, ROOT)
          else ChildrenOf(k, x))
      && PcOf(k1, x) == (if x == e then Moving else PcOf(k, x))
      && (x in k.parent ==> ParentOf(k1, x) == if x in ChildrenOf(k, e) then ROOT else ParentOf(k, x))
      && Tokens(k1, x) == Tokens(k, x)
      && (x in k1.parent <==> x in k.parent) && (x in k1.children <==> x == e || x == ROOT || x in k.children)
      && (x in k1.parent ==> k1.parent[x] == ParentOf(k1, x)) && k1.plock == Some(e)
      && k1.pc.Keys == k.pc.Keys + {e} && k1.sems == k.sems
  {
  }

  lemma OrphanMembers(k: Kernel, e: Pid)
    requires MembersRight(k) && PidInv(k) && RootRight(k) && e in k.parent
    ensures MembersRight(Orphan(k, e)) && PidInv(Orphan(k, e)) && Orphan(k, e).children.Keys == k.children.Keys
  {
    RotatedSame(ChildrenOf(k, e));
    hide Rotated;
  }

  lemma OrphanRoot(k: Kernel, e: Pid)
    requires RootRight(k) && e != ROOT && ROOT !in ChildrenOf(k, e)
    ensures RootRight(Orphan(k, e))
  {
    hide Rotated, Distinct;
  }

  lemma OrphanChildren(k: Kernel, e: Pid, q: Pid)
    requires ChildrenRight(k, q) && ChildrenRight(k, e) && ChildrenRight(k, ROOT) && e != ROOT && RootRight(k)
    ensures ChildrenRight(Orphan(k, e), q)
  {
    hide Orphan, ChildrenOf, PcOf, ParentOf, Distinct, Rotated, Tokens;
    var k1 := Orphan(k, e);
    OrphanAt(k, e, q);
    OrphanAt(k, e, ROOT);
    RotatedSame(ChildrenOf(k, e));
    forall c | c in ChildrenOf(k1, q) ensures c in k1.parent && c != ROOT && k1.parent[c] == q {
      OrphanAt(k, e, c);
      ParentIs(k, c);
    }
    if q == e {
      EmptyDistinct<Pid>();
    } else if q == ROOT {
      DistinctSum(Rotated(ChildrenOf(k, e)), ChildrenOf(k, ROOT));
    }
  }

  lemma OrphanParents(k: Kernel, e: Pid, p: Pid)
    requires ParentRight(k, p) && ChildrenRight(k, e) && e != ROOT && p in k.parent && RootRight(k)
    ensures ParentRight(Orphan(k, e), p)
  {
    hide Orphan, ChildrenOf, PcOf, ParentOf, Distinct, Rotated, Tokens;
    OrphanAt(k, e, p);
    OrphanAt(k, e, ParentOf(k, p));
    OrphanAt(k, e, ROOT);
    RotatedSame(ChildrenOf(k, e));
  }

  lemma OrphanTree(k: Kernel, e: Pid)
    requires TreeInv(k) && PidInv(k) && e in k.parent && e != ROOT
    ensures TreeInv(Orphan(k, e)) && PidInv(Orphan(k, e))
  {
    hide Orphan, ChildrenRight, ParentRight, MembersRight, RootRight, PcOf, PidInv, ChildrenOf, ParentOf;
    RootIn(k);
    MemberIn(k, e);
    OrphanMembers(k, e);
    NotOwnChild(k, e);
    OrphanRoot(k, e);
    var k1 := Orphan(k, e);
    forall q | q in k1.children ensures ChildrenRight(k1, q) {
      OrphanChildren(k, e, q);
    }
    forall p | p in k1.parent ensures ParentRight(k1, p) {
      OrphanAt(k, e, p);
      OrphanParents(k, e, p);
    }
  }

  lemma RootIn(k: Kernel)
    requires RootRight(k) && MembersRight(k)
    ensures ROOT in k.children && ROOT in k.parent
  {
  }

  lemma MemberIn(k: Kernel, p: Pid)
    requires MembersRight(k)
    ensures p in k.children <==> p in k.parent
    ensures p in k.parent ==> p.Named? && p in k.state && Child(p) in k.sems
  {
  }

  lemma NotOwnChild(k: Kernel, e: Pid)
    requires ChildrenRight(k, e)
    ensures ROOT !in ChildrenOf(k, e)
  {
  }

  lemma OrphanLock(k: Kernel, e: Pid)
    requires LockInv(k) && k.plock == None && e in k.pc
    ensures LockInv(Orphan(k, e))
  {
    hide Rotated, ChildrenOf;
  }

  lemma OrphanDead(k: Kernel, e: Pid, q: Pid)
    requires e != ROOT && !DeadPc(PcOf(k, e))
    ensures DeadKids(Orphan(k, e), q) == if q == e then {} else if q == ROOT then DeadKids(k, ROOT) + DeadKids(k, e)
        else DeadKids(k, q)
  {
    hide Orphan, ChildrenOf, PcOf, ParentOf, Rotated, Tokens;
    var k1 := Orphan(k, e);
    OrphanAt(k, e, q);
    RotatedSame(ChildrenOf(k, e));
    forall c ensures DeadPc(PcOf(k1, c)) == DeadPc(PcOf(k, c)) {
      OrphanAt(k, e, c);
    }
  }

  lemma OrphanTokens(k: Kernel, e: Pid, q: Pid)
    requires k.plock == None && PcOf(k, e) == Outside && e != ROOT && ChildrenRight(k, e) && ChildrenRight(k, ROOT)
    requires Owed(k, q) == |DeadKids(k, q)| && Owed(k, e) == |DeadKids(k, e)|
    ensures Owed(Orphan(k, e), q) == |DeadKids(Orphan(k, e), q)|
  {
    hide Orphan, ChildrenOf, PcOf, ParentOf, Tokens, DeadKids, Distinct;
    OrphanAt(k, e, q);
    OrphanAt(k, e, e);
    OrphanDead(k, e, q);
    if q == ROOT {
      DeadApart(k, e);
      SumSize(DeadKids(k, ROOT), DeadKids(k, e));
    }
  }

  lemma DeadApart(k: Kernel, e: Pid)
    requires e != ROOT && ChildrenRight(k, e) && ChildrenRight(k, ROOT)
    ensures DeadKids(k, ROOT) * DeadKids(k, e) == {}
  {
    hide Distinct;
  }

  lemma SumSize<T>(a: set<T>, b: set<T>)
    requires a * b == {}
    ensures |a + b| == |a| + |b|
  {
  }

  lemma OrphanFamily(k: Kernel, e: Pid)
    requires FamilyInv(k) && k.plock == None && e in k.parent && e != ROOT && PcOf(k, e) == Outside && e in k.pc
    ensures FamilyInv(Orphan(k, e))
  {
    hide Orphan, ChildrenRight, ParentRight, MembersRight, RootRight, PidInv, LockInv, Owed, DeadKids, PcOf;
    RootIn(k);
    MemberIn(k, e);
    OrphanTree(k, e);
    OrphanLock(k, e);
    OrphanMembers(k, e);
    var k1 := Orphan(k, e);
    forall q | q in k1.children ensures Owed(k1, q) == |DeadKids(k1, q)| {
      OrphanTokens(k, e, q);
    }
  }

  // ----- reaping -----

  lemma ReapAt(k: Kernel, q: Pid, c: Pid, x: Pid)
    requires c != q
    ensures var k1 := Reap(k, q, c);
      && ChildrenOf(k1, x) == (if x == q then Remove(ChildrenOf(k, q), c) else if x == c then [] else ChildrenOf(k, x))
      && PcOf(k1, x) == (if x == q then Outside else if x == c then Outside else PcOf(k, x))
      && (x != c ==> ParentOf(k1, x) == ParentOf(k, x))
      && Tokens(k1, x) == Tokens(k, x)
      && (x in k1.parent <==> x in k.parent && x != c) && (x in k1.children <==> (x in k.children || x == q) && x != c)
      && (x in k1.parent ==> k1.parent[x] == ParentOf(k1, x)) && k1.plock == k.plock
      && (x in k1.pc <==> (x in k.pc || x == q) && x != c)
  {
    hide Remove;
  }

  lemma ReapMembers(k: Kernel, q: Pid, c: Pid)
    requires MembersRight(k) && PidInv(k) && q in k.parent && c in k.parent && c != q
    ensures MembersRight(Reap(k, q, c)) && PidInv(Reap(k, q, c))
  {
    hide Remove, ChildrenOf;
    assert Reap(k, q, c).reaped == k.reaped + [c] && c !in k.reaped;
  }

  lemma ReapChildren(k: Kernel, q: Pid, c: Pid, x: Pid)
    requires ChildrenRight(k, x) && x != c && c != q && c in ChildrenOf(k, q) && PcOf(k, q) == Reaping
        && k.parent.Keys == k.children.Keys
    requires !(x != q && c in ChildrenOf(k, x))
    ensures ChildrenRight(Reap(k, q, c), x)
  {
    hide Reap, ChildrenOf, PcOf, ParentOf, Distinct, Tokens, Remove;
    var k1 := Reap(k, q, c);
    ReapAt(k, q, c, x);
    if x == q {
      RemoveOnce(ChildrenOf(k, q), c);
    }
    forall d | d in ChildrenOf(k1, x) ensures d in k1.parent && d != ROOT && k1.parent[d] == x {
      ReapAt(k, q, c, d);
      ParentIs(k, d);
    }
  }

  lemma ReapParents(k: Kernel, q: Pid, c: Pid, p: Pid)
    requires ParentRight(k, p) && p != c && c != q && ParentOf(k, p) != c && Distinct(ChildrenOf(k, q))
        && c in ChildrenOf(k, q)
    ensures ParentRight(Reap(k, q, c), p)
  {
    hide Reap, ChildrenOf, PcOf, ParentOf, Distinct, Tokens, Remove;
    ReapAt(k, q, c, p);
    ReapAt(k, q, c, ParentOf(k, p));
    RemoveOnce(ChildrenOf(k, q), c);
  }

  /** A dead child has no children and is nobody else's child. */
  lemma DeadChild(k: Kernel, q: Pid, c: Pid)
    requires TreeInv(k) && q in k.children && c in ChildrenOf(k, q) && PcOf(k, c) == Gone && PcOf(k, q) == Reaping
    ensures c in k.parent && c in k.children && c != q && c != ROOT && ChildrenOf(k, c) == []
        && Distinct(ChildrenOf(k, q))
    ensures forall x | x in k.children && x != q :: c !in ChildrenOf(k, x)
    ensures forall p | p in k.parent && p != c :: ParentOf(k, p) != c
  {
    hide Distinct, ChildrenOf, ParentOf, ChildrenRight, ParentRight, MembersRight, RootRight, PcOf;
    SameKeys(k);
    ChildOf(k, q, c);
    GoneChildless(k, c);
    RootIs(k);
    forall x | x in k.children && x != q ensures c !in ChildrenOf(k, x) {
      if c in ChildrenOf(k, x) {
        ChildOf(k, x, c);
      }
    }
    forall p | p in k.parent && p != c ensures ParentOf(k, p) != c {
      ParentLists(k, p);
    }
  }

  lemma ChildOf(k: Kernel, q: Pid, c: Pid)
    requires ChildrenRight(k, q) && c in ChildrenOf(k, q)
    ensures c in k.parent && ParentOf(k, c) == q && c != ROOT && Distinct(ChildrenOf(k, q))
    ensures PcOf(k, q) != Gone && !InExit(PcOf(k, q))
  {
    hide Distinct;
  }

  lemma GoneChildless(k: Kernel, c: Pid)
    requires ChildrenRight(k, c) && PcOf(k, c) == Gone
    ensures ChildrenOf(k, c) == []
  {
    hide Distinct;
  }

  lemma ParentLists(k: Kernel, p: Pid)
    requires ParentRight(k, p)
    ensures p != ROOT ==> p in ChildrenOf(k, ParentOf(k, p))
  {
  }

  lemma RootIs(k: Kernel)
    requires RootRight(k)
    ensures ParentOf(k, ROOT) == ROOT && PcOf(k, ROOT) != Gone
  {
  }

  lemma ReapTree(k: Kernel, q: Pid, c: Pid)
    requires TreeInv(k) && PidInv(k) && q in k.children && c in ChildrenOf(k, q) && PcOf(k, c) == Gone
        && PcOf(k, q) == Reaping
    ensures TreeInv(Reap(k, q, c)) && PidInv(Reap(k, q, c))
  {
    hide Reap, ChildrenRight, ParentRight, MembersRight, PcOf, PidInv, ChildrenOf, ParentOf, Distinct;
    DeadChild(k, q, c);
    MemberIn(k, q);
    ReapMembers(k, q, c);
    SameKeys(k);
    ReapAt(k, q, c, ROOT);
    var k1 := Reap(k, q, c);
    RootIs(k);
    forall x | x in k1.children ensures ChildrenRight(k1, x) {
      ReapAt(k, q, c, x);
      ReapChildren(k, q, c, x);
    }
    forall p | p in k1.parent ensures ParentRight(k1, p) {
      ReapAt(k, q, c, p);
      ReapParents(k, q, c, p);
    }
  }

  lemma SameKeys(k: Kernel)
    requires MembersRight(k)
    ensures k.children.Keys == k.parent.Keys
  {
  }

  lemma ReapLock(k: Kernel, q: Pid, c: Pid)
    requires LockInv(k) && k.plock == None && q in k.pc
    ensures LockInv(Reap(k, q, c))
  {
    hide Remove, ChildrenOf;
  }

  lemma ReapDead(k: Kernel, q: Pid, c: Pid, x: Pid)
    requires c != q && x != c && Distinct(ChildrenOf(k, q)) && c in ChildrenOf(k, q)
        && (x != q ==> c !in ChildrenOf(k, x)) && PcOf(k, q) == Reaping
    ensures DeadKids(Reap(k, q, c), x) == DeadKids(k, x) - if x == q then {c} else {}
  {
    hide Reap, ChildrenOf, PcOf, ParentOf, Tokens, Distinct, Remove;
    var k1 := Reap(k, q, c);
    ReapAt(k, q, c, x);
    RemoveOnce(ChildrenOf(k, q), c);
    forall d | d != c ensures DeadPc(PcOf(k1, d)) == DeadPc(PcOf(k, d)) {
      ReapAt(k, q, c, d);
    }
  }

  lemma ReapTokens(k: Kernel, q: Pid, c: Pid, x: Pid)
    requires k.plock == None && c != q && x != c && Distinct(ChildrenOf(k, q)) && c in ChildrenOf(k, q)
        && (x != q ==> c !in ChildrenOf(k, x))
    requires PcOf(k, q) == Reaping && PcOf(k, c) == Gone && Owed(k, x) == |DeadKids(k, x)|
    ensures Owed(Reap(k, q, c), x) == |DeadKids(Reap(k, q, c), x)|
  {
    hide Reap, ChildrenOf, PcOf, ParentOf, Tokens, DeadKids, Distinct;
    ReapAt(k, q, c, x);
    ReapDead(k, q, c, x);
    if x == q {
      IsDead(k, q, c);
    }
  }

  lemma IsDead(k: Kernel, q: Pid, c: Pid)
    requires c in ChildrenOf(k, q) && DeadPc(PcOf(k, c))
    ensures c in DeadKids(k, q)
  {
  }

  lemma ReapFamily(k: Kernel, q: Pid, c: Pid)
    requires FamilyInv(k) && k.plock == None && q in k.children && q in k.pc && c in ChildrenOf(k, q)
        && PcOf(k, c) == Gone && PcOf(k, q) == Reaping
    ensures FamilyInv(Reap(k, q, c))
  {
    hide Reap, ChildrenRight, ParentRight, MembersRight, RootRight, PidInv, LockInv, Owed, DeadKids, PcOf, ChildrenOf,
        ParentOf, Distinct;
    DeadChild(k, q, c);
    ReapTree(k, q, c);
    ReapLock(k, q, c);
    var k1 := Reap(k, q, c);
    forall x | x in k1.children ensures Owed(k1, x) == |DeadKids(k1, x)| {
      ReapAt(k, q, c, x);
      ReapTokens(k, q, c, x);
    }
  }
}
