// The mutex of Asmt_4/uthread.c on values: a queue of waiting threads, the holder's own record
// among them, kept sorted by priority, and the thread currently entitled to hold the lock.
// Module WaitQueue shows that the linked records refine this.
module PriorityLock {
  import opened Basics
  import opened Sorting
  import opened PriorityRing

  datatype Lock = Lock(queue: seq<Thread>, locking: Option<Thread>)

  // uthread_mutex_init
  const FREE := Lock([], None)

  // A thread that locks again has several records.
  ghost predicate OneThreadPerId(queue: seq<Thread>) {
    forall t, u | t in queue && u in queue :: t.id == u.id ==> t == u
  }

  // locking is stale while the queue is empty (unlock leaves it pointing at the last holder).
  ghost predicate Valid(m: Lock) {
    && Ordered(m.queue, PRIORITY)
    && OneThreadPerId(m.queue)
    && (m.queue != [] ==> m.locking.Some? && m.locking.value in m.queue)
  }

  // The masked part of uthread_mutex_lock.
  ghost predicate Enqueue(m: Lock, t: Thread, r: Lock) {
    && Ordered(r.queue, PRIORITY)
    && multiset(r.queue) == multiset(m.queue) + multiset{t}
    && r.locking == if m.queue == [] then Some(t) else m.locking
  }

  ghost predicate HasRecord(m: Lock, id: nat) {
    exists i :: 0 <= i < |m.queue| && m.queue[i].id == id
  }

  lemma EnqueueValid(m: Lock, t: Thread, r: Lock)
    requires Valid(m) && OneThreadPerId(m.queue + [t]) && Enqueue(m, t, r)
    ensures Valid(r) && |r.queue| == |m.queue| + 1
    ensures forall u | u in r.queue :: u in m.queue || u == t
    ensures forall u | u in m.queue || u == t :: u in r.queue
    ensures DistinctIds(m.queue) && !HasRecord(m, t.id) ==> DistinctIds(r.queue)
  {
    var all := m.queue + [t];
    assert multiset(r.queue) == multiset(all);
    if DistinctIds(m.queue) && !HasRecord(m, t.id) {
      DistinctIdsOfPermutation(all, r.queue);
    }
    forall u ensures u in r.queue <==> u in all {
      assert u in r.queue <==> u in multiset(r.queue);
      assert u in all <==> u in multiset(all);
    }
    assert |multiset(all)| == |multiset(r.queue)|;
  }

  // A sort may put the new record in front of its equals.
  lemma EnqueueInFront(m: Lock, t: Thread)
    requires Ordered(m.queue, PRIORITY) && forall u | u in m.queue :: t.pri <= u.pri
    ensures Enqueue(m, t, Lock([t] + m.queue, if m.queue == [] then Some(t) else m.locking))
  {
  }

  lemma DistinctIdsOfPermutation(s: seq<Thread>, p: seq<Thread>)
    requires DistinctIds(s) && multiset(s) == multiset(p)
    ensures DistinctIds(p)
  {
    var id := (t: Thread) => t.id;
    MapPermutation(s, p, id);
    PermutationDistinct(Map(s, id), Map(p, id));
    forall i, j | 0 <= i < j < |p| ensures p[i].id != p[j].id {
      assert Map(p, id)[i] != Map(p, id)[j];
    }
  }

  function Find(queue: seq<Thread>, t: Thread): (k: nat)
    requires t in queue
    ensures k < |queue| && queue[k] == t && forall i | 0 <= i < k :: queue[i] != t
  {
    if queue[0] == t then 0 else Find(queue[1..], t) + 1
  }

  // uthread_mutex_unlock by the thread entitled to hold the lock.
  function Unlock(m: Lock): (r: Lock)
    requires m.queue != [] && m.locking.Some? && m.locking.value in m.queue
  {
    var rest := Without(m.queue, Find(m.queue, m.locking.value));
    Lock(rest, if rest == [] then m.locking else Some(rest[0]))
  }

  lemma RestOneThreadPerId(queue: seq<Thread>, k: nat)
    requires OneThreadPerId(queue) && k < |queue|
    ensures OneThreadPerId(Without(queue, k))
  {
    forall t | t in Without(queue, k) ensures t in queue {
    }
  }

  lemma RestOrdered(queue: seq<Thread>, k: nat)
    requires Ordered(queue, PRIORITY) && k < |queue|
    ensures Ordered(Without(queue, k), PRIORITY)
    ensures forall t | t in Without(queue, k) :: Without(queue, k)[0].pri <= t.pri
  {
    var rest := Without(queue, k);
    forall i, j | 0 <= i < j < |rest| ensures PRIORITY(rest[i]) <= PRIORITY(rest[j]) {
    }
    forall t | t in rest ensures rest[0].pri <= t.pri {
      assert t in multiset(rest);
      HeadIsMinimum(rest, t);
    }
  }

  // Priority handoff: exactly one record of the holder goes, its first, wherever sorting has put
  // it; the others keep their order, and a best-priority record is entitled next.
  lemma Handoff(m: Lock)
    requires Valid(m) && m.queue != []
    ensures
      var r, holder := Unlock(m), m.locking.value;
      && Valid(r)
      && multiset(m.queue) == multiset(r.queue) + multiset{holder}
      && (exists k | 0 <= k < |m.queue| ::
            && m.queue[k] == holder && (forall i | 0 <= i < k :: m.queue[i] != holder)
            && r.queue == m.queue[..k] + m.queue[k + 1..])
      && (r.queue != [] ==> r.locking.value in r.queue && forall t | t in r.queue :: r.locking.value.pri <= t.pri)
      && r.locking == if r.queue == [] then m.locking else Some(r.queue[0])
  {
    var k := Find(m.queue, m.locking.value);
    WithoutMultiset(m.queue, k);
    RestOneThreadPerId(m.queue, k);
    RestOrdered(m.queue, k);
    assert Without(m.queue, k) == m.queue[..k] + m.queue[k + 1..];
  }

  // The records left by unlock are the others' records, when no thread has locked twice.
  lemma UnlockRecords(m: Lock)
    requires Valid(m) && DistinctIds(m.queue) && m.queue != []
    ensures DistinctIds(Unlock(m).queue)
    ensures forall t | t in Unlock(m).queue :: t in m.queue
    ensures forall id :: HasRecord(Unlock(m), id) <==> HasRecord(m, id) && id != m.locking.value.id
  {
    var k := Find(m.queue, m.locking.value);
    var rest := Unlock(m).queue;
    assert forall i | 0 <= i < |rest| :: rest[i] == m.queue[if i < k then i else i + 1];
    forall id ensures HasRecord(Unlock(m), id) <==> HasRecord(m, id) && id != m.locking.value.id {
      if i :| 0 <= i < |m.queue| && m.queue[i].id == id && i != k {
        assert rest[if i < k then i else i - 1].id == id;
      }
    }
  }

  // The search of unlock stops at the holder's first record.
  lemma UnlockAt(m: Lock, k: nat)
    requires Valid(m) && k < |m.queue| && Some(m.queue[k]) == m.locking
    requires forall i | 0 <= i < k :: m.queue[i] != m.queue[k]
    ensures
      var rest := Without(m.queue, k);
      Unlock(m) == Lock(rest, if rest == [] then m.locking else Some(rest[0]))
    ensures Valid(Unlock(m))
  {
    assert Find(m.queue, m.queue[k]) == k;
    Handoff(m);
  }

  // ------------------------------------------------------------------ recursive locking

  // A holder that has locked twice and unlocks once is still inside its outer section. It keeps
  // the lock if every other record is worse, and loses it if some record is better. In runs nobody
  // better waits while the holder runs (SpinLock.NoBetterSpinner); among equals the sort decides.
  lemma NestedUnlock(m: Lock)
    requires Valid(m) && m.queue != [] && multiset(m.queue)[m.locking.value] > 1
    ensures
      var holder, next := m.locking.value, Unlock(m).locking.value;
      && holder in Unlock(m).queue
      && ((exists t :: t in m.queue && t.pri < holder.pri) ==> next != holder)
      && ((forall t | t in m.queue && t != holder :: t.pri > holder.pri) ==> next == holder)
  {
    var holder, rest := m.locking.value, Unlock(m).queue;
    Handoff(m);
    assert holder in multiset(rest);
    forall t ensures t in m.queue <==> t in rest {
      assert t in m.queue <==> t in multiset(m.queue);
      assert t in rest <==> t in multiset(rest);
    }
  }

  // Sorted before the holder's two records, another thread is entitled after one unlock.
  lemma LockedTwice(t: Thread, other: Thread, m: Lock)
    requires other.pri <= t.pri && other.id != t.id && m == Lock([other, t, t], Some(t))
    ensures Valid(m) && Unlock(m) == Lock([other, t], Some(other))
  {
    UnlockAt(m, 1);
    assert Without(m.queue, 1) == [other, t];
  }

  lemma EnqueuedInFront(m: Lock, t: Thread) returns (r: Lock)
    requires Ordered(m.queue, PRIORITY) && forall u | u in m.queue :: t.pri <= u.pri
    ensures Enqueue(m, t, r) && r == Lock([t] + m.queue, if m.queue == [] then Some(t) else m.locking)
  {
    r := Lock([t] + m.queue, if m.queue == [] then Some(t) else m.locking);
    EnqueueInFront(m, t);
  }

  // So mutual exclusion needs the rule that a thread does not lock what it holds: whenever a
  // thread locks twice and one of the same or a better priority asks for the lock, the sort may
  // put it first, and one unlock hands it over. SpinLock.TwoInside is a run to such a state.
  lemma RecursionBreaksExclusion(t: Thread, other: Thread) returns (m1: Lock, m2: Lock, m3: Lock)
    requires other.pri <= t.pri && other.id != t.id
    ensures Enqueue(FREE, t, m1) && m1.locking == Some(t)
    ensures Enqueue(m1, t, m2) && m2.locking == Some(t)
    ensures Enqueue(m2, other, m3) && m3.queue != [] && m3.locking == Some(t) && t in m3.queue
    ensures Unlock(m3).locking == Some(other) && t in Unlock(m3).queue
  {
    m1 := EnqueuedInFront(FREE, t);
    m2 := EnqueuedInFront(m1, t);
    m3 := EnqueuedInFront(m2, other);
    LockedTwice(t, other, m3);
  }
}
