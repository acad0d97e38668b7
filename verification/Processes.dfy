// src/kernel/sched.c and src/kernel/proc.c over process records that are updated in place. Each method
// is one region under its locks; its effect on the record of the whole kernel is the function of
// KernelSpec with the same name.
module Processes {
  import opened KernelSpec
  import opened KernelInv

  /** `struct proc`, as far as scheduler and family tree use it. */
  class Proc {
    const id: Pid
    var state: PState
    var killed: bool
    var parent: Proc?
    var children: seq<Proc>

    /** `init_proc`. */
    constructor (id: Pid)
      ensures this.id == id && state == UNUSED && !killed && parent == null && children == []
    {
      this.id := id;
      state, killed, parent, children := UNUSED, false, null, [];
    }
  }

  ghost function Ids(s: seq<Proc>): (r: seq<Pid>)
    ensures |r| == |s| && forall i | 0 <= i < |s| :: r[i] == s[i].id
  {
    seq(|s|, i requires 0 <= i < |s| => s[i].id)
  }

  class ProcTable {
    ghost var table: map<Pid, Proc>
    var queue: seq<Proc>
    var cpus: seq<Proc>
    const idle: seq<Proc>
    var panicFlag: bool

    ghost predicate Has(p: Proc)
      reads this`table
    {
      p.id in table && table[p.id] == p
    }

    ghost predicate Valid()
      reads this
    {
      && (forall i | i in table :: table[i].id == i)
      && (forall p | p in queue :: Has(p)) && (forall p | p in cpus :: Has(p))
      && |cpus| == |idle| && (forall c | 0 <= c < |idle| :: idle[c].id == Idle(c) && Has(idle[c]))
    }

    ghost function States(): (m: map<Pid, PState>)
      reads this`table, table.Values
      ensures m.Keys == table.Keys
    {
      map i | i in table :: table[i].state
    }

    ghost function Marks(): set<Pid>
      reads this`table, table.Values
    {
      set i | i in table && table[i].killed
    }

    /** The kernel k with this table's process states, marks, queue and CPUs. */
    ghost function View(k: Kernel): Kernel
      reads this, table.Values
    {
      k.(state := States(), killed := Marks(), queue := Ids(queue), cpus := Ids(cpus), panic := panicFlag)
    }

    method SetState(p: Proc, newState: PState)
      requires Valid() && Has(p)
      modifies p`state
      ensures States() == old(States())[p.id := newState] && Marks() == old(Marks()) && p.state == newState
    {
      p.state := newState;
    }

    lemma StateIs(p: Proc)
      requires Has(p)
      ensures p.id in States() && States()[p.id] == p.state && (p.id in Marks() <==> p.killed)
    {
    }

    /** `_activate_proc`. */
    method ActivateProc(p: Proc, onalert: bool, ghost k: Kernel) returns (ret: bool)
      requires Valid() && Has(p) && p.id.Named?
      modifies this`queue, p`state
      ensures Valid() && View(k) == Activate(old(View(k)), p.id, onalert)
      ensures ret <==> old(p.state) == UNUSED || old(p.state) == SLEEPING || (old(p.state) == DEEPSLEEPING && !onalert)
      ensures if ret then p.state == RUNNABLE && queue == [p] + old(queue)
              else p.state == old(p.state) && queue == old(queue)
    {
      hide States, Marks;
      StateIs(p);
      ghost var was := Ids(queue);
      ret := false;
      if p.state == UNUSED || p.state == SLEEPING || (p.state == DEEPSLEEPING && !onalert) {
        SetState(p, RUNNABLE);
        queue := [p] + queue;
        ret := true;
        assert Ids(queue) == [p.id] + was;
      }
    }

    /** `update_this_state`. */
    method UpdateThisState(c: nat, newState: PState, ghost k: Kernel)
      requires Valid() && c < |cpus| && Newly(newState)
      modifies this`queue, table.Values`state
      ensures Valid() && View(k) == KernelSpec.UpdateThisState(old(View(k)), c, newState)
      ensures queue == old(queue) + if newState == RUNNABLE && !cpus[c].id.Idle? then [cpus[c]] else []
      ensures cpus[c].state == newState
      ensures forall p | p in table.Values && p != cpus[c] :: p.state == old(p.state)
    {
      hide States, Marks;
      var p := cpus[c];
      StateIs(p);
      ghost var was := Ids(queue);
      if newState == RUNNABLE && !p.id.Idle? {
        queue := queue + [p];
        assert Ids(queue) == was + [p.id];
      }
      SetState(p, newState);
    }

    /** `pick_next`; the chosen process leaves the queue. */
    method PickNext(c: nat, ghost k: Kernel) returns (p: Proc)
      requires Valid() && c < |cpus|
      modifies this`queue
      ensures Valid() && Has(p) && (p.id, Ids(queue)) == KernelSpec.PickNext(old(View(k)), c)
      ensures if panicFlag || old(queue) == [] then p == idle[c] && queue == old(queue)
              else p == old(queue)[0] && queue == old(queue)[1..]
    {
      hide States, Marks;
      if panicFlag {
        return idle[c];
      }
      if queue != [] {
        p := queue[0];
        ghost var was := Ids(queue);
        queue := queue[1..];
        assert Ids(queue) == was[1..];
        return;
      }
      return idle[c];
    }

    /** The second half of `simple_sched`; the ASSERT on the next process holds. */
    method Switch(c: nat, ghost k: Kernel)
      requires Valid() && c < |cpus| && Between(View(k), c)
      modifies this`queue, this`cpus, table.Values`state
      ensures Valid() && View(k) == KernelSpec.Switch(old(View(k)), c)
      ensures cpus == old(cpus)[c := cpus[c]]
      ensures if panicFlag || old(queue) == [] then cpus[c] == idle[c] && queue == old(queue)
              else cpus[c] == old(queue)[0] && queue == old(queue)[1..]
      ensures cpus[c].state == RUNNING
      ensures forall p | p in table.Values && p != cpus[c] :: p.state == old(p.state)
    {
      hide Between, KernelSpec.PickNext, States, Marks;
      PickKeeps(View(k), c);
      ghost var ids := Ids(cpus);
      var next := PickNext(c, k);
      StateIs(next);
      assert next.state == RUNNABLE;
      cpus := cpus[c := next];
      assert Ids(cpus) == ids[c := next.id];
      SetState(next, RUNNING);
    }

    /** The processes waiting to run once `me` has been given the state `to`. */
    ghost function Line(me: Proc, to: PState): seq<Proc>
      reads this`queue
    {
      queue + if to == RUNNABLE && !me.id.Idle? then [me] else []
    }

    /** `simple_sched`: its ASSERTs hold, and the switch is the specified one. A killed process stays where it
        is, unless it dies or must not be alerted. Otherwise the process goes to the end of the line if it is
        to run again, and the first of the line takes the CPU: so after a yield, whoever was first. */
    method SimpleSched(c: nat, newState: PState, ghost k: Kernel)
      requires Valid() && c < |cpus| && Newly(newState)
      requires SchedInv(View(k)) && (cpus[c].id.Idle? ==> newState == RUNNABLE)
      modifies this`queue, this`cpus, table.Values`state
      ensures Valid() && View(k) == Sched(old(View(k)), c, newState) && SchedInv(View(k))
      ensures cpus == old(cpus)[c := cpus[c]] && cpus[c].state == RUNNING
      ensures old(cpus[c].killed) && newState != ZOMBIE && newState != DEEPSLEEPING ==>
        cpus[c] == old(cpus[c]) && queue == old(queue) && forall p | p in table.Values :: p.state == old(p.state)
      ensures !(old(cpus[c].killed) && newState != ZOMBIE && newState != DEEPSLEEPING) ==>
        var line := old(Line(cpus[c], newState));
        && (if panicFlag || line == [] then cpus[c] == idle[c] && queue == line
            else cpus[c] == line[0] && queue == line[1..])
        && (cpus[c] != old(cpus[c]) ==> old(cpus[c]).state == newState)
        && forall p | p in table.Values && p != old(cpus[c]) && p != cpus[c] :: p.state == old(p.state)
      ensures newState == RUNNABLE && !old(cpus[c].killed) && !old(cpus[c]).id.Idle? && !panicFlag ==>
        old(queue) != [] ==> cpus[c] == old(queue)[0] && queue == old(queue)[1..] + [old(cpus[c])]
    {
      hide SchedInv, KernelSpec.UpdateThisState, KernelSpec.Switch, States, Marks, Ids;
      SchedKeeps(View(k), c, newState);
      SameIds(k, c);
      var me := cpus[c];
      StateIs(me);
      assert me.state == RUNNING;
      if me.killed && newState != ZOMBIE && newState != DEEPSLEEPING {
        return;
      }
      Reschedule(c, newState, k);
    }

    lemma SameIds(k: Kernel, c: nat)
      requires Valid() && c < |cpus|
      ensures c < |View(k).cpus| && This(View(k), c) == cpus[c].id == View(k).cpus[c]
    {
    }

    /** The part of `simple_sched` that does switch. */
    method Reschedule(c: nat, newState: PState, ghost k: Kernel)
      requires Valid() && c < |cpus| && Newly(newState)
      requires SchedInv(View(k)) && (cpus[c].id.Idle? ==> newState == RUNNABLE)
      modifies this`queue, this`cpus, table.Values`state
      ensures Valid() && c < |View(k).cpus| == |old(View(k)).cpus|
      ensures View(k) == KernelSpec.Switch(KernelSpec.UpdateThisState(old(View(k)), c, newState), c)
      ensures cpus == old(cpus)[c := cpus[c]] && cpus[c].state == RUNNING
      ensures var line := old(Line(cpus[c], newState));
        if panicFlag || line == [] then cpus[c] == idle[c] && queue == line
          else cpus[c] == line[0] && queue == line[1..]
      ensures cpus[c] != old(cpus[c]) ==> old(cpus[c]).state == newState
      ensures forall p | p in table.Values && p != old(cpus[c]) && p != cpus[c] :: p.state == old(p.state)
    {
      hide SchedInv, Between, KernelSpec.UpdateThisState, KernelSpec.Switch, States, Marks, Ids;
      UpdateKeeps(View(k), c, newState);
      UpdateThisState(c, newState, k);
      Switch(c, k);
    }

    // ----- the family tree -----

    ghost function Parents(): map<Pid, Pid>
      reads this`table, table.Values
    {
      map i | i in table && table[i].parent != null :: table[i].parent.id
    }

    ghost function Kids(): (m: map<Pid, seq<Pid>>)
      reads this`table, table.Values
      ensures m.Keys == table.Keys
    {
      map i | i in table :: Ids(table[i].children)
    }

    lemma KidsIs(p: Proc)
      requires Has(p)
      ensures p.id in Kids() && Kids()[p.id] == Ids(p.children)
    {
    }

    method SetChildren(p: Proc, children: seq<Proc>)
      requires Valid() && Has(p)
      modifies p`children
      ensures Kids() == old(Kids())[p.id := Ids(children)] && Parents() == old(Parents()) && p.children == children
    {
      ghost var parents, kids := Parents(), Kids();
      p.children := children;
      assert forall i | i in table :: table[i].parent == old(table[i].parent);
      assert Parents() == parents;
      assert forall i | i in table && i != p.id :: table[i] != p;
      assert Kids() == kids[p.id := Ids(children)];
    }

    method SetParent(p: Proc, parent: Proc)
      requires Valid() && Has(p)
      modifies p`parent
      ensures Parents() == old(Parents())[p.id := parent.id] && Kids() == old(Kids()) && p.parent == parent
    {
      p.parent := parent;
    }

    lemma InParents(p: Proc)
      requires Has(p) && p.parent != null
      ensures p.id in Parents()
    {
    }

    /** `_set_proc_parent`. */
    method SetProcParent(proc: Proc, parent: Proc)
      requires Valid() && Has(proc) && Has(parent)
      modifies parent`children, proc`parent
      ensures Kids() == old(Kids())[parent.id := [proc.id] + old(Kids())[parent.id]]
      ensures Parents() == old(Parents())[proc.id := parent.id]
    {
      hide Kids, Parents;
      KidsIs(parent);
      ghost var was := Ids(parent.children);
      var list := [proc] + parent.children;
      assert Ids(list) == [proc.id] + was;
      SetChildren(parent, list);
      SetParent(proc, parent);
    }

    /** The loop of `exit` over the detached children. */
    method Adopt(mine: seq<Proc>, root: Proc)
      requires Valid() && Has(root) && forall p | p in mine :: Has(p) && p.parent != null
      modifies table.Values
      ensures Kids() == old(Kids()) && root.children == old(root.children)
      ensures Parents() == map i | i in old(Parents()) :: if i in Ids(mine) then root.id else old(Parents())[i]
    {
      hide Kids, Parents;
      ghost var was := Parents();
      var i := 0;
      while i < |mine|
        invariant 0 <= i <= |mine| && Kids() == old(Kids()) && root.children == old(root.children)
        invariant forall p | p in mine :: p.parent != null
        invariant Parents().Keys == was.Keys
        invariant forall x | x in was :: Parents()[x] == if x in Ids(mine[..i]) then root.id else was[x]
      {
        InParents(mine[i]);
        SetParent(mine[i], root);
        assert Ids(mine[..i + 1]) == Ids(mine[..i]) + [mine[i].id];
        assert forall x :: x in Ids(mine[..i + 1]) <==> x in Ids(mine[..i]) || x == mine[i].id;
        i := i + 1;
      }
      assert mine[..|mine|] == mine;
    }

    /** The middle of `exit`: every child of me becomes the root's, and the ring of children, entered at its
        last node, is spliced in front of the root's own. */
    method GiveAway(me: Proc, root: Proc)
      requires Valid() && Has(me) && Has(root) && me != root
      requires forall p | p in me.children :: Has(p) && p.parent != null
      modifies table.Values
      ensures Kids() == old(Kids())[me.id := []][root.id := Rotated(old(Kids())[me.id]) + old(Kids())[root.id]]
      ensures Parents() == map i | i in old(Parents()) :: if i in old(Kids())[me.id] then root.id else old(Parents())[i]
    {
      hide Kids, Parents;
      KidsIs(me);
      KidsIs(root);
      var mine := me.children;
      ghost var m, r := Ids(mine), Ids(root.children);
      SetChildren(me, []);
      Adopt(mine, root);
      if mine != [] {
        var last := |mine| - 1;
        var list := [mine[last]] + mine[..last] + root.children;
        assert Ids(list) == Rotated(m) + r;
        SetChildren(root, list);
      } else {
        assert Rotated(m) + r == r;
      }
    }

    /** The search at the end of `wait`: the first zombie in list order. */
    method FindZombie(q: Proc, ghost k: Kernel) returns (z: Proc?)
      requires Valid() && Has(q) && forall p | p in q.children :: Has(p)
      ensures z == null <==> FirstZombie(View(k), Ids(q.children)) == None
      ensures z != null ==> z in q.children && FirstZombie(View(k), Ids(q.children)) == Some(z.id)
      ensures z == null <==> forall p | p in q.children :: p.state != ZOMBIE
      ensures z != null ==> exists i | 0 <= i < |q.children| ::
        q.children[i] == z && z.state == ZOMBIE && forall j | 0 <= j < i :: q.children[j].state != ZOMBIE
    {
      ghost var ids := Ids(q.children);
      var i := 0;
      while i < |q.children|
        invariant 0 <= i <= |q.children|
        invariant FirstZombie(View(k), ids) == FirstZombie(View(k), ids[i..])
        invariant forall j | 0 <= j < i :: q.children[j].state != ZOMBIE
      {
        var p := q.children[i];
        assert Has(p) && ids[i..][0] == p.id && ids[i..][1..] == ids[i + 1..];
        assert IsZombie(View(k), p.id) == (p.state == ZOMBIE);
        if p.state == ZOMBIE {
          return p;
        }
        i := i + 1;
      }
      return null;
    }

    /** `_find_child`: the child with this pid, unless it has not been started. */
    method FindChild(q: Proc, pid: Pid) returns (r: Proc?)
      requires Valid() && Has(q) && forall p | p in q.children :: Has(p)
      ensures r == null <==> !(pid in Ids(q.children) && pid in table && table[pid].state != UNUSED)
      ensures r != null ==> Has(r) && r.id == pid && r in q.children && r.state != UNUSED
    {
      var i := 0;
      while i < |q.children|
        invariant 0 <= i <= |q.children|
        invariant forall j | 0 <= j < i :: q.children[j].id != pid || q.children[j].state == UNUSED
      {
        var p := q.children[i];
        if p.id == pid && p.state != UNUSED {
          assert Has(p) && Ids(q.children)[i] == pid;
          return p;
        }
        i := i + 1;
      }
      forall j | 0 <= j < |q.children| && q.children[j].id == pid ensures pid in table && table[pid].state == UNUSED {
        assert Has(q.children[j]);
      }
      return null;
    }

    method SetKilled(p: Proc)
      requires Valid() && Has(p)
      modifies p`killed
      ensures Marks() == old(Marks()) + {p.id} && States() == old(States()) && p.killed
    {
      p.killed := true;
    }

    /** `kill`. */
    method Kill(root: Proc, pid: Pid, ghost k: Kernel) returns (r: int)
      requires Valid() && Has(root) && pid.Named? && root.id == ROOT && ChildrenOf(k, ROOT) == Ids(root.children)
      requires forall p | p in root.children :: Has(p)
      modifies this`queue, table.Values
      ensures Valid() && View(k) == KillNamed(old(View(k)), pid)
      ensures r == if pid in ChildrenOf(k, ROOT) && StateOf(old(View(k)), pid) != UNUSED then 0 else -1
      ensures r != 0 ==>
          queue == old(queue) && forall p | p in table.Values :: p.state == old(p.state) && p.killed == old(p.killed)
      ensures r == 0 ==> pid in table && table[pid].killed
      ensures r == 0 ==>
          if old(table[pid].state) == SLEEPING then table[pid].state == RUNNABLE && queue == [table[pid]] + old(queue)
                         else table[pid].state == old(table[pid].state) && queue == old(queue)
      ensures forall p | p in table.Values && p.id != pid :: p.state == old(p.state) && p.killed == old(p.killed)
    {
      hide States, Marks, Activate;
      var p := FindChild(root, pid);
      if p == null {
        ghost var q := if pid in table then table[pid] else root;
        StateIs(q);
        return -1;
      }
      StateIs(p);
      SetKilled(p);
      var woken := ActivateProc(p, true, k.(killed := {}));
      return 0;
    }
  }
}
