// Run queues that hold containers with run queues of their own: the search of src/kernel/sched.c.
module RunQueues {
  import opened KernelSpec

  /** `struct schinfo` as it stands in a run queue: a process, or a container with its queue. */
  datatype SchInfo = Task(p: Pid) | Group(queue: seq<SchInfo>)

  /** The processes of a queue and of the containers in it, in the order a search meets them. */
  function Flat(q: seq<SchInfo>): seq<Pid> {
    if q == [] then [] else (match q[0] case Task(p) => [p] case Group(inner) => Flat(inner)) + Flat(q[1..])
  }

  /** What Flat means: a list of processes in its order, a container's processes in the container's place. */
  lemma {:induction false} FlatSum(a: seq<SchInfo>, b: seq<SchInfo>)
    ensures Flat(a + b) == Flat(a) + Flat(b)
  {
    if a == [] {
      assert a + b == b;
    } else {
      FlatSum(a[1..], b);
      assert (a + b)[1..] == a[1..] + b && (a + b)[0] == a[0];
    }
  }

  lemma FlatOne(p: Pid, inner: seq<SchInfo>)
    ensures Flat([Task(p)]) == [p] && Flat([Group(inner)]) == Flat(inner)
  {
    assert [Task(p)][1..] == [] && [Group(inner)][1..] == [];
  }

  /** `_pick_in_queue`: the first process, however deep; containers that hold none are passed over. */
  method PickInQueue(q: seq<SchInfo>) returns (p: Option<Pid>)
    ensures p == if Flat(q) == [] then None else Some(Flat(q)[0])
  {
    var i := 0;
    while i < |q|
      invariant 0 <= i <= |q|
      invariant Flat(q) == Flat(q[i..])
    {
      assert q[i..][1..] == q[i + 1..];
      match q[i]
      case Task(p) => return Some(p);
      case Group(inner) =>
        p := PickInQueue(inner);
        if p.Some? {
          return;
        }
      i := i + 1;
    }
    return None;
  }

  /** The queue after `pick_next` has detached the process it picked. */
  function Picked(q: seq<SchInfo>): seq<SchInfo>
    requires Flat(q) != []
  {
    match q[0]
    case Task(_) => q[1..]
    case Group(inner) => if Flat(inner) == [] then [q[0]] + Picked(q[1..]) else [Group(Picked(inner))] + q[1..]
  }

  /** So to its processes a nested queue is one queue: what is picked is its head, and leaves it. */
  lemma {:induction false} PickedIsHead(q: seq<SchInfo>)
    requires Flat(q) != []
    ensures Flat(Picked(q)) == Flat(q)[1..]
  {
    match q[0]
    case Task(_) =>
    case Group(inner) =>
      if Flat(inner) == [] {
        PickedIsHead(q[1..]);
      } else {
        PickedIsHead(inner);
      }
  }
}
