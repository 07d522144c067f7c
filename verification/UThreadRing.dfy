// The pointer structure behind module PriorityRing: thread records linked by `next` into a
// circle, with the statics current_thread, head_thread, tail_thread, live_uthreads and
// uthread_id (Asmt_4/uthread.c:60-64). A context switch is the change of `current`.
module UThreadRing {
  import opened Sorting
  import opened PriorityRing

  class UThread {
    ghost const id: nat  // which uthread_create made it; 0 for the initial thread
    const pri: int
    var next: UThread?

    constructor (ghost id: nat, pri: int)
      ensures this.id == id && this.pri == pri
    {
      this.id, this.pri, this.next := id, pri, null;
    }

    ghost function AsThread(): Thread {
      Thread(id, pri)
    }
  }

  // The value uthread_priority_sort compares.
  const BY_PRIORITY: UThread -> int := (t: UThread) => t.pri

  ghost function Threads(ring: seq<UThread>): (r: seq<Thread>)
    ensures |r| == |ring| && forall i | 0 <= i < |ring| :: r[i] == ring[i].AsThread()
  {
    Map(ring, (t: UThread) => t.AsThread())
  }

  lemma ThreadsOfPermutation(s: seq<UThread>, p: seq<UThread>)
    requires multiset(s) == multiset(p)
    ensures multiset(Threads(s)) == multiset(Threads(p))
  {
    MapPermutation(s, p, (t: UThread) => t.AsThread());
  }

  ghost predicate Closed(ring: seq<UThread>)
    reads ring
  {
    forall i {:trigger ring[i].next} | 0 <= i < |ring| :: ring[i].next == ring[Succ(|ring|, i)]
  }

  ghost predicate IdsUpTo(ring: seq<Thread>, last: nat) {
    forall i | 0 <= i < |ring| :: ring[i].id <= last
  }

  // Reading position k of the walk that starts behind position c of a ring of n.
  function Behind(n: nat, c: nat, k: nat): (r: nat)
    requires c < n && k < n
    ensures r < n
  {
    if c + 1 + k < n then c + 1 + k else c + 1 + k - n
  }

  lemma WalkIsPermutation(ring: seq<UThread>, c: nat, w: seq<UThread>)
    requires c < |ring| == |w|
    requires forall k | 0 <= k < |w| :: w[k] == ring[Behind(|ring|, c, k)]
    ensures multiset(w) == multiset(ring)
  {
    assert w == ring[c + 1..] + ring[..c + 1];
    assert ring == ring[..c + 1] + ring[c + 1..];
  }

  ghost function Ids(ring: seq<UThread>): (r: seq<nat>)
    ensures |r| == |ring| && forall i | 0 <= i < |ring| :: r[i] == ring[i].id
  {
    Map(ring, (t: UThread) => t.id)
  }

  // Whatever order qsort returns, its result is a legal next ring.
  lemma SortedArrangement(ring: seq<UThread>, t: UThread, p: seq<UThread>, last: nat)
    requires DistinctIds(Threads(ring)) && IdsUpTo(Threads(ring), last) && t.id == last + 1
    requires multiset(p) == multiset(ring + [t]) && Ordered(p, BY_PRIORITY)
    ensures |p| == |ring| + 1 && Distinct(p)
    ensures DistinctIds(Threads(p)) && IdsUpTo(Threads(p), last + 1) && Ordered(Threads(p), PRIORITY)
    ensures multiset(Threads(p)) == multiset(Threads(ring)) + multiset{t.AsThread()}
  {
    var all := ring + [t];
    forall i, j | 0 <= i < j < |all| ensures Ids(all)[i] != Ids(all)[j] {
      assert Threads(ring)[i].id == all[i].id;
      if j < |ring| {
        assert Threads(ring)[j].id == all[j].id;
      }
    }
    MapPermutation(all, p, (u: UThread) => u.id);
    PermutationDistinct(Ids(all), Ids(p));
    ThreadsOfPermutation(all, p);
    assert Threads(all) == Threads(ring) + [t.AsThread()];
    forall i, j | 0 <= i < j < |p|
      ensures p[i].id != p[j].id && p[i] != p[j] && p[i].pri <= p[j].pri
    {
      assert Ids(p)[i] != Ids(p)[j] && BY_PRIORITY(p[i]) <= BY_PRIORITY(p[j]);
    }
    forall i | 0 <= i < |p| ensures p[i].id <= last + 1 {
      assert p[i] in multiset(p);
      var k := IndexIn(p[i], all);
      if k < |ring| {
        assert Threads(ring)[k].id <= last;
      }
    }
  }

  // Two calls end outside the behaviour the C standard defines; the model stops there.
  datatype CreateOutcome = Created(id: int) | UnfilledSlots
  datatype ExitOutcome = Switched | ProcessEnds | NullHead

  class Scheduler {
    var current: UThread
    var tail: UThread
    var head: UThread?
    var live: nat
    var lastId: nat

    ghost var ring: seq<UThread>
    ghost var cur: nat

    // The order of the ring is stated on the abstract state; here only the links.
    ghost predicate Valid()
      reads this, ring
    {
      && PriorityRing.Valid(Abs())
      && IdsUpTo(Threads(ring), lastId)
      && Linked(ring, cur)
    }

    ghost predicate Linked(r: seq<UThread>, c: nat)
      reads this, r
    {
      && c < |r|
      && Closed(r)
      && current == r[c]
      && tail == r[|r| - 1]
      && head == (if live == 1 then null else r[0])
    }

    ghost function Abs(): Sched
      reads this
    {
      Sched(Threads(ring), cur, live)
    }

    // uthread_init
    constructor ()
      ensures Valid() && fresh(ring)
      ensures Abs() == Init()
      ensures current.pri == 9 && current.next == current && tail == current && head == null
    {
      var main := new UThread(0, 9);
      main.next := main;
      current, tail, head := main, main, null;
      live, lastId := 1, 0;
      ring, cur := [main], 0;
      new;
      assert Threads(ring) == [Thread(0, 9)];
    }

    // The circle read off the pointers: from the head, `next` leads through all threads in
    // non-decreasing pri to the tail and back. head_thread is NULL until the first create.
    lemma CircleInOrder()
      requires Valid()
      ensures forall i | 0 <= i < |ring| - 1 :: ring[i].next == ring[i + 1]
      ensures tail == ring[|ring| - 1] && tail.next == ring[0]
      ensures if live == 1 then head == null else head == ring[0]
      ensures forall i, j | 0 <= i < j < |ring| :: ring[i] != ring[j] && ring[i].pri <= ring[j].pri
      ensures current in ring
    {
      forall i, j | 0 <= i < j < |ring| ensures ring[i] != ring[j] && ring[i].pri <= ring[j].pri {
        assert Threads(ring)[i].id != Threads(ring)[j].id;
        assert PRIORITY(Threads(ring)[i]) <= PRIORITY(Threads(ring)[j]);
      }
    }

    lemma SamePlace(i: nat, j: nat)
      requires DistinctIds(Threads(ring)) && i < |ring| && j < |ring| && ring[i] == ring[j]
      ensures i == j
    {
      var t := Threads(ring);
      assert t[i] == t[j];
    }

    // What the scheduler's links say about the running thread and its successor.
    lemma NextOfCurrent()
      requires Valid()
      ensures current.next == ring[Succ(|ring|, cur)]
      ensures current.next == current <==> |ring| == 1
      ensures current.pri == Abs().ring[cur].pri
      ensures current.next.pri == Abs().ring[Succ(|ring|, cur)].pri
    {
      if current.next == current {
        SamePlace(cur, Succ(|ring|, cur));
      }
    }

    method Yield()
      requires Valid()
      modifies this`current, this`cur
      ensures Valid()
      ensures Abs() == PriorityRing.Yield(old(Abs()))
    {
      NextOfCurrent();
      if current == current.next {
        return;
      }
      var old_ := current;
      if old_.pri < old_.next.pri {
        if current == head {
          SamePlace(cur, 0);
          return;
        }
        current, cur := head, 0;
      } else {
        current, cur := old_.next, Succ(|ring|, cur);
      }
    }

    // The circle without position c: c's predecessor must have been pointed past it.
    lemma ClosedWithout(c: nat, before: nat, r: seq<UThread>)
      requires |ring| > 1 && c < |ring| && before < |ring| && c == Succ(|ring|, before)
      requires forall i {:trigger ring[i].next} | 0 <= i < |ring| && i != before ::
                 ring[i].next == ring[Succ(|ring|, i)]
      requires ring[before].next == ring[Succ(|ring|, c)]
      requires r == Without(ring, c)
      ensures Closed(r)
      ensures Threads(r) == Without(Threads(ring), c)
    {
      forall i | 0 <= i < |r| ensures r[i].next == r[Succ(|r|, i)] {
        var j := if i < c then i else i + 1;
        assert r[i] == ring[j];
        var k := if j == before then Succ(|ring|, c) else Succ(|ring|, j);
        assert r[Succ(|r|, i)] == ring[k];
      }
    }

    ghost method SetRing(r: seq<UThread>, c: nat)
      requires Linked(r, c)
      requires PriorityRing.Valid(Sched(Threads(r), c, live)) && IdsUpTo(Threads(r), lastId)
      modifies this`ring, this`cur
      ensures Valid() && ring == r && cur == c
    {
      ring, cur := r, c;
    }

    ghost method Shrink(before: nat, r: seq<UThread>, next: nat)
      requires PriorityRing.Valid(Abs()) && IdsUpTo(Threads(ring), lastId)
      requires |ring| > 1 && before < |ring| && cur == Succ(|ring|, before)
      requires forall i {:trigger ring[i].next} | 0 <= i < |ring| && i != before ::
                 ring[i].next == ring[Succ(|ring|, i)]
      requires ring[before].next == ring[Succ(|ring|, cur)]
      requires r == Without(ring, cur) && next == PriorityRing.Exit(Abs()).cur
      requires current == r[next] && tail == r[|r| - 1] && head == (if live == 1 then null else r[0])
      modifies this`ring, this`cur
      ensures Valid() && ring == r
      ensures Abs() == PriorityRing.Exit(old(Abs()))
    {
      ClosedWithout(cur, before, r);
      ExitValid(Abs());
      SetRing(r, next);
    }

    // The search loop of uthread_exit: the thread directly before the running one.
    method FindPrevious() returns (prev: UThread, ghost p: nat)
      requires Valid() && head != null && cur > 0
      ensures p + 1 == cur && prev == ring[p]
    {
      prev, p := head, 0;
      while prev.next != current
        invariant p < cur && prev == ring[p]
        decreases cur - p
      {
        assert p + 1 != cur;
        prev, p := prev.next, p + 1;
      }
      SamePlace(p + 1, cur);
    }

    // The three branches of uthread_exit for a thread that is not the head: they set
    // prev.next, current and, for the tail, tail_thread.
    method RelinkPastHead(old_: UThread, prev: UThread, ghost p: nat, ghost r: seq<UThread>)
      requires Valid() && head != null && |ring| > 1
      requires old_ == current && p + 1 == cur && prev == ring[p]
      requires r == Without(ring, cur)
      modifies this`current, this`tail, prev
      ensures prev.next == ring[Succ(|ring|, cur)]
      ensures current == r[PriorityRing.Exit(old(Abs())).cur]
      ensures tail == r[|r| - 1] && head == r[0]
    {
      NextOfCurrent();
      if old_.pri < old_.next.pri {
        prev.next := old_.next;
        current := head;
      } else if old_ == tail {
        SamePlace(cur, |ring| - 1);
        tail := prev;
        prev.next := head;
        current := head;
      } else {
        current := current.next;
        prev.next := current;
      }
    }

    // uthread_exit. NULL is dereferenced when no thread was ever created; the process ends when
    // the exiting thread is the last one; otherwise exactly that thread leaves the circle.
    method Exit() returns (outcome: ExitOutcome)
      requires Valid()
      modifies this, ring
      ensures outcome == NullHead <==> old(live) == 1
      ensures outcome == ProcessEnds <==> old(live) > 1 && |old(ring)| == 1
      ensures outcome == Switched ==>
                && Valid()
                && ring == Without(old(ring), old(cur))
                && Abs() == PriorityRing.Exit(old(Abs()))
    {
      NextOfCurrent();
      ghost var was := Abs();
      ghost var r, next, before := Without(ring, cur), 0, |ring| - 1;
      var old_ := current;
      if old_ == head {
        SamePlace(cur, 0);
        current := current.next;
        tail.next := current;
        head := current;
        if current == old_ {
          return ProcessEnds;
        }
      } else {
        if head == null {
          return NullHead;
        }
        var prev, p := FindPrevious();
        next, before := PriorityRing.Exit(was).cur, p;
        RelinkPastHead(old_, prev, p, r);
      }
      assert next == PriorityRing.Exit(was).cur;
      Shrink(before, r, next);
      outcome := Switched;
    }

    // The copy loop of uthread_create: the ring from behind the running thread round to it.
    method CopyRing(buf: array<UThread>) returns (count: nat)
      requires Valid() && buf.Length > |ring|
      modifies buf
      ensures count == |ring| && buf[count - 1] == current && (count > 1 ==> buf[0] == current.next)
      ensures forall k | 0 <= k < |ring| :: buf[k] == ring[Behind(|ring|, cur, k)]
    {
      var p := current.next;
      count := 0;
      while p != current
        invariant count < |ring| && p == ring[Behind(|ring|, cur, count)]
        invariant forall k | 0 <= k < count :: buf[k] == ring[Behind(|ring|, cur, k)]
        decreases |ring| - count
      {
        assert count + 1 != |ring|;
        buf[count] := p;
        p := p.next;
        count := count + 1;
      }
      SamePlace(Behind(|ring|, cur, count), cur);
      buf[count] := current;
      count := count + 1;
    }

    // The array part of uthread_create: copy, append, sort. Returns None when live_uthreads,
    // the number of slots sorted, exceeds the number of slots filled.
    method SortedBuffer(newThread: UThread) returns (buf: array?<UThread>)
      requires Valid()
      ensures buf == null <==> live > |ring|
      ensures buf != null ==>
                && fresh(buf) && buf.Length == live + 1
                && multiset(buf[..]) == multiset(ring + [newThread])
                && Ordered(buf[..], BY_PRIORITY)
    {
      var b := new UThread[live + 1](_ => newThread);
      var count := CopyRing(b);
      b[count] := newThread;
      if count + 1 < live + 1 {
        return null;
      }
      assert b[..] == b[..count] + [newThread];
      WalkIsPermutation(ring, cur, b[..count]);
      assert multiset(b[..]) == multiset(ring + [newThread]);
      Qsort(b, BY_PRIORITY);
      buf := b;
    }

    // p is a legal next ring: the old threads and t, in priority order.
    ghost predicate NextRing(p: seq<UThread>, t: UThread)
      reads this
    {
      && |p| == |ring| + 1
      && Distinct(p)
      && PriorityRing.Valid(Sched(Threads(p), 0, live + 1))
      && IdsUpTo(Threads(p), lastId + 1)
      && multiset(Threads(p)) == multiset(Threads(ring)) + multiset{t.AsThread()}
      && (forall i | 0 <= i < |p| :: p[i] in ring || p[i] == t)
    }

    lemma SortedIsNextRing(p: seq<UThread>, t: UThread)
      requires Valid() && live == |ring| && t.id == lastId + 1
      requires multiset(p) == multiset(ring + [t]) && Ordered(p, BY_PRIORITY)
      ensures NextRing(p, t) && current in p
    {
      SortedArrangement(ring, t, p, lastId);
      forall i | 0 <= i < |p| ensures p[i] in ring || p[i] == t {
        assert p[i] in multiset(p);
      }
      assert current in multiset(p) by { assert current in ring + [t]; }
    }

    // The pointer part of uthread_create: retie `next`, head_thread and tail_thread.
    method Install(buf: array<UThread>, newThread: UThread)
      requires Valid() && live == |ring| && buf.Length == live + 1
      requires NextRing(buf[..], newThread) && current in buf[..]
      modifies this, ring, newThread
      ensures Valid() && ring == buf[..]
      ensures lastId == old(lastId) + 1 && current == old(current)
      ensures PriorityRing.Create(old(Abs()), newThread.AsThread(), Abs())
    {
      ghost var p := buf[..];
      head := buf[0];
      Relink(buf);
      assert current == old(current);
      tail := buf[buf.Length - 1];
      live, lastId := live + 1, lastId + 1;
      ghost var c: nat :| c < |p| && p[c] == current;
      SetRing(p, c);
    }

    // uthread_create. Once a thread has exited, live_uthreads exceeds the ring and the sort
    // would compare slots that were never filled.
    method Create(pri: int) returns (outcome: CreateOutcome)
      requires Valid()
      modifies this, ring
      ensures outcome == UnfilledSlots <==> old(live) > |old(ring)|
      ensures outcome.Created? ==>
                && Valid()
                && (forall t | t in ring :: t in old(ring) || fresh(t))
                && outcome.id == old(lastId) + 1 && current == old(current)
                && PriorityRing.Create(old(Abs()), Thread(outcome.id, pri), Abs())
    {
      var newThread := new UThread(lastId + 1, pri);
      var buf := SortedBuffer(newThread);
      if buf == null {
        return UnfilledSlots;
      }
      SortedIsNextRing(buf[..], newThread);
      Install(buf, newThread);
      outcome := Created(lastId);
    }
  }

  // The retying loop of uthread_create, and the link that closes the circle.
  method Relink(buf: array<UThread>)
    requires buf.Length > 0 && Distinct(buf[..])
    modifies buf[..]
    ensures Closed(buf[..])
  {
    var pos := 1;
    while pos < buf.Length
      invariant 1 <= pos <= buf.Length
      invariant forall i | 0 <= i < pos - 1 :: buf[..][i].next == buf[..][i + 1]
    {
      buf[pos - 1].next := buf[pos];
      pos := pos + 1;
    }
    buf[pos - 1].next := buf[0];
  }

  lemma CreateSize(s: Sched, t: Thread, r: Sched)
    requires PriorityRing.Create(s, t, r)
    ensures |r.ring| == |s.ring| + 1
  {
    assert |multiset(r.ring)| == |multiset(s.ring)| + 1;
  }

  // Both undefined outcomes are a call or two from uthread_init.
  method NullHeadReached() returns (outcome: ExitOutcome)
    ensures outcome == NullHead
  {
    var s := new Scheduler();
    outcome := s.Exit();
  }

  method UnfilledSlotsReached(pri: int, another: int) returns (outcome: CreateOutcome)
    ensures outcome == UnfilledSlots
  {
    var s := new Scheduler();
    ghost var s0, r0 := s.Abs(), s.ring;
    assert |s.ring| == |s0.ring| == 1 && s.live == 1;
    var created := s.Create(pri);
    CreateSize(s0, Thread(created.id, pri), s.Abs());
    assert s.ring[0] in s.ring && s.ring[1] in s.ring && forall t | t in r0 :: fresh(t);
    assert |s.ring| == 2 && s.live == 2 && fresh(s.ring[0]) && fresh(s.ring[1]);
    var switched := s.Exit();
    assert |s.ring| == 1 && s.live == s.Abs().live == 2 && fresh(s.ring[0]);
    outcome := s.Create(another);
  }
}
