// Counting semaphores of src/common/sem.c: the value-level specification, its laws, and
// the imperative operations over a sleep list of wait records.
module SemSpec {
  /** `sleepers` is the sleep list in ring order: `head.next` (newest) first, `head.prev`
      (oldest) last. */
  datatype Sem<T(==)> = Sem(val: int, sleepers: seq<T>)

  function Shortfall(val: int): nat {
    if val < 0 then -val else 0
  }

  ghost predicate Distinct<T>(s: seq<T>) {
    forall i, j | 0 <= i < j < |s| :: s[i] != s[j]
  }

  /** One sleeper per unit the value is below zero, nobody twice. */
  ghost predicate Good<T>(s: Sem<T>) {
    |s.sleepers| == Shortfall(s.val) && Distinct(s.sleepers)
  }

  predicate MustSleep<T>(s: Sem<T>) {
    s.val - 1 < 0
  }

  /** The part of `_wait_sem` before the switch: take a unit, or join the sleep list. */
  function Enter<T>(s: Sem<T>, t: T): Sem<T> {
    if MustSleep(s) then Sem(s.val - 1, [t] + s.sleepers) else Sem(s.val - 1, s.sleepers)
  }

  function Remove<T(==)>(s: seq<T>, t: T): seq<T> {
    if s == [] then [] else if s[0] == t then s[1..] else [s[0]] + Remove(s[1..], t)
  }

  /** The part of `_wait_sem` after the switch when `up` is still false. */
  function Undo<T>(s: Sem<T>, t: T): Sem<T> {
    Sem(s.val + 1, Remove(s.sleepers, t))
  }

  /** What the ASSERT in `_post_sem` demands. */
  predicate PostAsserts<T>(s: Sem<T>) {
    s.val + 1 <= 0 ==> s.sleepers != []
  }

  function Post<T>(s: Sem<T>): Sem<T> {
    if s.val + 1 <= 0 && s.sleepers != [] then Sem(s.val + 1, s.sleepers[..|s.sleepers| - 1])
    else Sem(s.val + 1, s.sleepers)
  }

  /** Whom `_post_sem` activates: nobody, or the oldest sleeper. */
  function Woken<T>(s: Sem<T>): (w: seq<T>)
    ensures |w| <= 1
  {
    if s.val + 1 <= 0 && s.sleepers != [] then [s.sleepers[|s.sleepers| - 1]] else []
  }

  function Get<T>(s: Sem<T>): Sem<T> {
    if s.val > 0 then Sem(s.val - 1, s.sleepers) else s
  }

  function GetAll<T>(s: Sem<T>): Sem<T> {
    if s.val > 0 then Sem(0, s.sleepers) else s
  }

  function Reverse<T>(s: seq<T>): (r: seq<T>)
    ensures |r| == |s|
  {
    if s == [] then [] else [s[|s| - 1]] + Reverse(s[..|s| - 1])
  }

  /** What `post_all_sem` is for: release exactly the current sleepers. */
  function PostAll<T>(s: Sem<T>): Sem<T> {
    Sem(if s.val < 0 then 0 else s.val, [])
  }

  // ----- laws -----

  /** `get_all_sem` leaves no unit, and touches no sleeper. */
  lemma NothingLeft<T>(s: Sem<T>)
    ensures GetAll(s).val <= 0 && GetAll(s).sleepers == s.sleepers && (s.val <= 0 ==> GetAll(s) == s)
  {
  }

  lemma {:induction false} RemoveOnce<T>(s: seq<T>, t: T)
    requires Distinct(s) && t in s
    ensures |Remove(s, t)| == |s| - 1 && Distinct(Remove(s, t))
    ensures forall x :: x in Remove(s, t) <==> x in s && x != t
  {
    assert s == [s[0]] + s[1..];
    if s[0] == t {
      forall x ensures x in s[1..] <==> x in s && x != t {
        if x in s[1..] {
          var i :| 0 <= i < |s[1..]| && s[1..][i] == x;
          assert s[i + 1] == x;
        }
      }
    } else {
      RemoveOnce(s[1..], t);
      var r := Remove(s[1..], t);
      assert forall i | 0 <= i < |s[1..]| :: s[1..][i] == s[i + 1];
      assert s[0] !in r;
    }
  }

  lemma EnterGood<T>(s: Sem<T>, t: T)
    requires Good(s) && t !in s.sleepers
    ensures Good(Enter(s, t))
  {
  }

  /** A sleeper nobody posted to can withdraw: the ASSERT `++val <= 0` holds. */
  lemma UndoGood<T>(s: Sem<T>, t: T)
    requires Good(s) && t in s.sleepers
    ensures Good(Undo(s, t)) && Undo(s, t).val <= 0
    ensures forall x :: x in Undo(s, t).sleepers <==> x in s.sleepers && x != t
  {
    RemoveOnce(s.sleepers, t);
  }

  /** A post hits no failing ASSERT, and wakes somebody exactly when somebody sleeps. */
  lemma PostGood<T>(s: Sem<T>)
    requires Good(s)
    ensures PostAsserts(s) && Good(Post(s))
    ensures s.sleepers == Post(s).sleepers + Woken(s)
    ensures |Woken(s)| == 1 <==> s.sleepers != []
    ensures forall x :: x in Woken(s) ==> x !in Post(s).sleepers
  {
    if s.sleepers != [] {
      assert s.sleepers == s.sleepers[..|s.sleepers| - 1] + [s.sleepers[|s.sleepers| - 1]];
    }
  }
}

/** The imperative operations. Locks are not modelled: each method is one region run under
    the semaphore's lock. Whoever `activate_proc` would be called on is returned instead. */
module Semaphores {
  import opened SemSpec

  class WaitData<T> {
    var up: bool
    const proc: T

    constructor (proc: T)
      ensures this.proc == proc && !up
    {
      this.proc := proc;
      up := false;
    }
  }

  class Semaphore<T(==)> {
    var val: int
    var sleeplist: seq<WaitData<T>>

    static ghost function Procs(ws: seq<WaitData<T>>): (r: seq<T>)
      ensures |r| == |ws| && forall i | 0 <= i < |ws| :: r[i] == ws[i].proc
    {
      seq(|ws|, i requires 0 <= i < |ws| => ws[i].proc)
    }

    ghost function View(): Sem<T>
      reads this
    {
      Sem(val, Procs(sleeplist))
    }

    /** The sleep list matches the value, and exactly the listed waiters are not up. */
    ghost predicate Valid()
      reads this, sleeplist
    {
      Good(View()) && forall w | w in sleeplist :: !w.up
    }

    constructor (val: int)
      requires val >= 0
      ensures Valid() && View() == Sem(val, [])
    {
      this.val := val;
      sleeplist := [];
    }

    /** `_wait_sem` up to the context switch. */
    method WaitEnter(proc: T) returns (wait: WaitData?<T>)
      requires Valid() && proc !in View().sleepers
      modifies this
      ensures Valid() && View() == Enter(old(View()), proc)
      ensures (wait == null <==> old(val) > 0) && val == old(val) - 1
      ensures wait != null ==> fresh(wait) && wait.proc == proc && !wait.up && sleeplist == [wait] + old(sleeplist)
      ensures wait == null ==> sleeplist == old(sleeplist)
    {
      EnterGood(View(), proc);
      val := val - 1;
      if val >= 0 {
        return null;
      }
      wait := new WaitData(proc);
      sleeplist := [wait] + sleeplist;
    }

    /** `_wait_sem` after the context switch: a waiter that was not posted to withdraws. */
    method WaitLeave(wait: WaitData<T>) returns (granted: bool)
      requires Valid() && (!wait.up ==> wait in sleeplist)
      modifies this
      ensures Valid() && granted == wait.up
      ensures View() == if granted then old(View()) else Undo(old(View()), wait.proc)
      ensures wait !in sleeplist && val == old(val) + if granted then 0 else 1
    {
      if !wait.up {
        ghost var was := View();
        var i := 0;
        assert exists k :: 0 <= k < |sleeplist| && sleeplist[k] == wait;
        while sleeplist[i] != wait
          invariant 0 <= i < |sleeplist|
          invariant wait !in sleeplist[..i]
          decreases |sleeplist| - i
        {
          i := i + 1;
        }
        UndoGood(was, wait.proc);
        RemoveAt(was.sleepers, i);
        val := val + 1;
        sleeplist := sleeplist[..i] + sleeplist[i + 1..];
        assert View().sleepers == was.sleepers[..i] + was.sleepers[i + 1..];
        assert val <= 0;
      }
      granted := wait.up;
    }

    /** The waiter at `head.prev`. */
    ghost function Oldest(): set<WaitData<T>>
      reads this
    {
      if sleeplist == [] then {} else {sleeplist[|sleeplist| - 1]}
    }

    /** `_post_sem`. */
    method Post() returns (woken: seq<T>)
      requires Valid()
      modifies this, Oldest()
      ensures Valid() && View() == SemSpec.Post(old(View())) && woken == Woken(old(View()))
      ensures old(sleeplist) != [] ==>
                && sleeplist == old(sleeplist)[..|old(sleeplist)| - 1]
                && old(sleeplist)[|old(sleeplist)| - 1].up
      ensures old(sleeplist) == [] ==> sleeplist == []
      ensures val == old(val) + 1
    {
      hide Distinct;
      PostGood(View());
      ghost var was := sleeplist;
      val := val + 1;
      woken := [];
      if val <= 0 {
        assert sleeplist != [];
        var last := |sleeplist| - 1;
        var wait := sleeplist[last];
        AllUnique(was, last);
        wait.up := true;
        sleeplist := sleeplist[..last];
        woken := [wait.proc];
        assert Procs(sleeplist) == Procs(was)[..last];
      }
    }

    /** `_get_sem`. */
    method Get() returns (ok: bool)
      requires Valid()
      modifies this
      ensures Valid() && View() == SemSpec.Get(old(View())) && ok == (old(val) > 0)
      ensures val == old(val) - if ok then 1 else 0
      ensures sleeplist == old(sleeplist)
    {
      ok := false;
      if val > 0 {
        val := val - 1;
        ok := true;
      }
    }

    /** `get_all_sem`. */
    method GetAll() returns (n: nat)
      requires Valid()
      modifies this
      ensures Valid() && View() == SemSpec.GetAll(old(View()))
      ensures n == (if old(val) > 0 then old(val) else 0) && val == old(val) - n && val <= 0
      ensures sleeplist == old(sleeplist)
    {
      n := 0;
      if val > 0 {
        n := val;
        val := 0;
      }
    }

    /** `post_all_sem`: wakes exactly the current sleepers, oldest first, and counts them. */
    method PostAll() returns (ret: int, woken: seq<T>)
      requires Valid()
      modifies this, sleeplist
      ensures Valid() && View() == SemSpec.PostAll(old(View()))
      ensures woken == Reverse(old(View().sleepers)) && ret == |old(View().sleepers)|
      ensures forall w | w in old(sleeplist) :: w.up
      ensures sleeplist == [] && val == if old(val) < 0 then 0 else old(val)
    {
      hide Distinct, Procs, Reverse, Woken;
      ret, woken := -1, [];
      ghost var was := View();
      ghost var list := sleeplist;
      var got := false;
      while !got
        invariant Valid() && Distinct(Procs(list))
        invariant |sleeplist| <= |list| && sleeplist == list[..|sleeplist|]
        invariant forall i | |sleeplist| <= i < |list| :: list[i].up
        invariant woken + Reverse(View().sleepers) == Reverse(was.sleepers)
        invariant ret == |list| - |sleeplist| - if got then 0 else 1
        invariant got ==> sleeplist == [] && val == if was.val < 0 then 0 else was.val
        invariant !got ==> was.val < 0 || val == was.val
        invariant !got && was.val < 0 ==> val == -|sleeplist|
        decreases !got, |sleeplist|
      {
        ghost var before := View();
        ReverseStep(before, woken);
        if sleeplist != [] {
          AllUnique(list, |sleeplist| - 1);
        }
        var w := Post();
        woken := woken + w;
        ret := ret + 1;
        got := Get();
      }
    }
  }

  lemma ReverseStep<T>(s: Sem<T>, done: seq<T>)
    requires Good(s)
    ensures done + Reverse(s.sleepers) == (done + Woken(s)) + Reverse(Post(s).sleepers)
  {
  }

  lemma AllUnique<T>(ws: seq<WaitData<T>>, j: nat)
    requires j < |ws| && Distinct(Semaphore.Procs(ws))
    ensures forall i | 0 <= i < |ws| && i != j :: ws[i] != ws[j]
  {
    var ps := Semaphore.Procs(ws);
    forall i | 0 <= i < |ws| && i != j ensures ws[i] != ws[j] {
      assert ps[i] != ps[j];
    }
  }

  lemma {:induction false} RemoveAt<T>(s: seq<T>, i: nat)
    requires i < |s| && Distinct(s)
    ensures Remove(s, s[i]) == s[..i] + s[i + 1..]
  {
    if i > 0 {
      assert s[0] != s[i];
      RemoveAt(s[1..], i - 1);
      assert s[1..][i - 1] == s[i];
      assert s[..i] == [s[0]] + s[1..][..i - 1];
      assert s[1..][i..] == s[i + 1..];
    }
  }
}
