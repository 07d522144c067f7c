// The round-robin thread package of Asmt_3/uthread.c over the list of LinkedQueue. The running
// thread is the one whose context was last switched to; yield rotates the queue, exit (through
// the handler context) removes its head.
module RoundRobin {
  import opened LinkedQueue

  datatype Task = Task(pri: int, id: nat)

  datatype Event = Create(t: Task) | Yield | Exit

  function Rotated(q: seq<Task>): seq<Task> {
    if |q| <= 1 then q else q[1..] + [q[0]]
  }

  function Next(q: seq<Task>, e: Event): seq<Task> {
    match e
    case Create(t) => q + [t]
    case Yield => Rotated(q)
    case Exit => if q == [] then [] else q[1..]
  }

  function After(q: seq<Task>, es: seq<Event>): seq<Task> {
    if es == [] then q else Next(After(q, es[..|es| - 1]), es[|es| - 1])
  }

  // Yields and exits; creates do not switch.
  function Switches(es: seq<Event>): nat {
    if es == [] then 0 else Switches(es[..|es| - 1]) + if es[|es| - 1].Create? then 0 else 1
  }

  // ------------------------------------------------------------------ the scheduler

  datatype ExitOutcome = Switched | ProcessEnds

  class Scheduler {
    const queue: List<Task>
    var running: Task
    var threadId: nat

    ghost predicate Valid()
      reads this, queue, queue.items
    {
      && queue.Valid()
      && queue.items != []
      && running == queue.items[0].data
      && (forall i | 0 <= i < |queue.items| :: queue.items[i].data.id < threadId)
      && (forall i, j | 0 <= i < j < |queue.items| :: queue.items[i].data.id != queue.items[j].data.id)
    }

    ghost function Queue(): seq<Task>
      reads this, queue
    {
      queue.Contents()
    }

    // uthread_init: the caller becomes thread 0 with priority 0.
    constructor ()
      ensures Valid() && Queue() == [Task(0, 0)] && threadId == 1
    {
      queue := new List<Task>((a: Task, b: Task) => a.pri - b.pri);
      running := Task(0, 0);
      threadId := 1;
      new;
      queue.InsertTail(Task(0, 0));
    }

    method Create(pri: int) returns (id: nat)
      requires Valid()
      modifies this, queue, queue.items
      ensures Valid() && id == old(threadId)
      ensures Queue() == Next(old(Queue()), Event.Create(Task(pri, id)))
      ensures running == old(running) && threadId == old(threadId) + 1
      ensures |queue.items| == |old(queue.items)| + 1 && queue.items[..|old(queue.items)|] == old(queue.items)
      ensures queue.items[|old(queue.items)|].data == Task(pri, id)
    {
      var t := Task(pri, threadId);
      threadId := threadId + 1;
      queue.InsertTail(t);
      return threadId - 1;
    }

    method Yield()
      requires Valid()
      modifies this, queue, queue.items
      ensures Valid() && Queue() == Next(old(Queue()), Event.Yield)
      ensures threadId == old(threadId)
      ensures running == if |old(Queue())| > 1 then old(Queue())[1] else old(running)
    {
      if queue.length > 1 {
        queue.RotateOne();
        running := queue.head.data;
      }
    }

    // uthread_exit and the handler it switches to.
    method Exit() returns (outcome: ExitOutcome)
      requires Valid()
      modifies this, queue
      ensures Queue() == Next(old(Queue()), Event.Exit)
      ensures outcome == ProcessEnds <==> |old(Queue())| == 1
      ensures outcome == Switched ==> Valid() && threadId == old(threadId) && running == old(Queue())[1]
    {
      queue.RemoveHead();
      if queue.length >= 1 {
        running := queue.head.data;
        return Switched;
      } else {
        return ProcessEnds;
      }
    }
  }

  // ------------------------------------------------------------------ waiting

  // Exact waiting: the thread at position p is at position p - j after j yields and exits, in
  // any order and with any creates in between. So it is the head, and runs, after exactly p.
  lemma {:induction false} ExactWaiting(q: seq<Task>, es: seq<Event>, p: nat)
    requires p < |q| && Switches(es) <= p
    ensures p - Switches(es) < |After(q, es)| && After(q, es)[p - Switches(es)] == q[p]
  {
    if es == [] {
    } else {
      ExactWaiting(q, es[..|es| - 1], p);
    }
  }

  ghost predicate DistinctIds(q: seq<Task>) {
    forall i, j | 0 <= i < j < |q| :: q[i].id != q[j].id
  }

  // Not sooner: with fewer than p switches, and creates that use fresh ids, another thread runs.
  lemma NotSooner(q: seq<Task>, es: seq<Event>, p: nat)
    requires p < |q| && Switches(es) < p && DistinctIds(After(q, es))
    ensures After(q, es) != [] && After(q, es)[0].id != q[p].id
  {
    ExactWaiting(q, es, p);
  }

  lemma {:induction false} YieldsRotate(q: seq<Task>, k: nat)
    requires k <= |q|
    ensures After(q, seq(k, _ => Yield)) == q[k..] + q[..k]
  {
    var es := seq(k, _ => Yield);
    if k == 0 {
    } else {
      YieldsRotate(q, k - 1);
      assert es[..k - 1] == seq(k - 1, _ => Yield);
    }
  }

  lemma {:induction false} AfterFirst(q: seq<Task>, e: Event, es: seq<Event>)
    ensures After(q, [e] + es) == After(Next(q, e), es)
  {
    if es == [] {
      assert ([e] + es)[..0] == [];
    } else {
      AfterFirst(q, e, es[..|es| - 1]);
      assert ([e] + es)[..|es|] == [e] + es[..|es| - 1];
    }
  }

  // A thread created while n threads are queued runs after exactly n yields and exits, whatever
  // is created after it.
  lemma CreatedRuns(q: seq<Task>, t: Task, es: seq<Event>)
    requires Switches(es) == |q|
    ensures After(q, [Event.Create(t)] + es) != [] && After(q, [Event.Create(t)] + es)[0] == t
  {
    AfterFirst(q, Event.Create(t), es);
    assert (q + [t])[|q|] == t;
    ExactWaiting(q + [t], es, |q|);
  }

  // The threads created, and those that were running at an exit.
  function Made(e: Event): multiset<Task> {
    if e.Create? then multiset{e.t} else multiset{}
  }

  function Gone(q: seq<Task>, e: Event): multiset<Task> {
    if e.Exit? && q != [] then multiset{q[0]} else multiset{}
  }

  function CreatedIn(es: seq<Event>): multiset<Task> {
    if es == [] then multiset{} else CreatedIn(es[..|es| - 1]) + Made(es[|es| - 1])
  }

  function ExitedIn(q: seq<Task>, es: seq<Event>): multiset<Task> {
    if es == [] then multiset{}
    else ExitedIn(q, es[..|es| - 1]) + Gone(After(q, es[..|es| - 1]), es[|es| - 1])
  }

  lemma NextBalance(q: seq<Task>, e: Event)
    ensures multiset(Next(q, e)) + Gone(q, e) == multiset(q) + Made(e)
  {
    if q != [] {
      assert q == [q[0]] + q[1..];
    }
  }

  lemma AddedUp(was: multiset<Task>, now: multiset<Task>, start: multiset<Task>, exited: multiset<Task>,
                created: multiset<Task>, gone: multiset<Task>, made: multiset<Task>)
    requires was + exited == start + created && now + gone == was + made
    ensures now + (exited + gone) == start + (created + made)
  {
    assert now + (exited + gone) == (was + made) + exited == (start + created) + made;
  }

  // Nobody is lost: at any moment the queue and the exited threads are the initial and the created
  // ones.
  lemma {:induction false} NobodyLost(q: seq<Task>, es: seq<Event>)
    ensures multiset(After(q, es)) + ExitedIn(q, es) == multiset(q) + CreatedIn(es)
  {
    if es == [] {
    } else {
      var first, e := es[..|es| - 1], es[|es| - 1];
      var before := After(q, first);
      NobodyLost(q, first);
      NextBalance(before, e);
      AddedUp(multiset(before), multiset(After(q, es)), multiset(q), ExitedIn(q, first), CreatedIn(first),
              Gone(before, e), Made(e));
    }
  }

  // Round trip: as many yields as there are threads leave the queue as it was.
  lemma FullRound(q: seq<Task>)
    ensures After(q, seq(|q|, _ => Yield)) == q
  {
    YieldsRotate(q, |q|);
  }
}
