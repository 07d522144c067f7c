// The records behind module PriorityLock: uthread_mutex_t with its singly linked list of
// uthread_wait_record_t (Asmt_4/uthread.c:325-452). wait_queue_tail is written as the source
// writes it; unlock does not maintain it and nothing reads it, so the invariant leaves it out.
module WaitQueue {
  import opened Basics
  import opened Sorting
  import opened PriorityRing
  import opened PriorityLock
  import opened UThreadRing

  class WaitRecord {
    const thread: UThread
    var next: WaitRecord?

    // uthread_wait_record_init
    constructor (current: UThread)
      ensures thread == current && next == null
    {
      thread, next := current, null;
    }
  }

  // The value uthread_wait_record_priority_sort compares.
  const BY_THREAD_PRIORITY: WaitRecord -> int := (r: WaitRecord) => r.thread.pri

  ghost function Waiting(records: seq<WaitRecord>): (q: seq<Thread>)
    ensures |q| == |records| && forall i | 0 <= i < |records| :: q[i] == records[i].thread.AsThread()
  {
    Map(records, (r: WaitRecord) => r.thread.AsThread())
  }

  ghost predicate Chain(records: seq<WaitRecord>)
    reads records
  {
    forall i {:trigger records[i].next} | 0 <= i < |records| ::
      records[i].next == if i + 1 == |records| then null else records[i + 1]
  }

  ghost predicate OneObjectPerId(records: seq<WaitRecord>) {
    forall r, s | r in records && s in records :: r.thread.id == s.thread.id ==> r.thread == s.thread
  }

  lemma SameRecords(all: seq<WaitRecord>, p: seq<WaitRecord>)
    requires multiset(p) == multiset(all) && Distinct(all)
    ensures |p| == |all| && Distinct(p) && forall r :: r in p <==> r in all
  {
    PermutationDistinct(all, p);
    forall r ensures r in p <==> r in all {
      assert r in p <==> r in multiset(p);
      assert r in all <==> r in multiset(all);
    }
  }

  class Mutex {
    var locking: UThread?
    var length: nat
    var head: WaitRecord?
    var tail: WaitRecord?
    ghost var records: seq<WaitRecord>

    ghost function Abs(): Lock
      reads this
    {
      Lock(Waiting(records), if locking == null then None else Some(locking.AsThread()))
    }

    ghost predicate Valid()
      reads this, records
    {
      && PriorityLock.Valid(Abs())
      && OneObjectPerId(records)
      && (records != [] ==> exists i :: 0 <= i < |records| && records[i].thread == locking)
      && Linked(records)
    }

    ghost predicate Linked(rs: seq<WaitRecord>)
      reads this, rs
    {
      && length == |rs| && Distinct(rs)
      && head == (if rs == [] then null else rs[0])
      && Chain(rs)
    }

    // uthread_mutex_init
    constructor ()
      ensures Valid() && Abs() == FREE
    {
      locking, length, head, tail := null, 0, null, null;
      records := [];
    }

    // The copy loop of uthread_mutex_lock.
    method CopyQueue(buf: array<WaitRecord>) returns (count: nat)
      requires head == (if records == [] then null else records[0]) && Chain(records)
      requires buf.Length > |records|
      modifies buf
      ensures count == |records| && buf[..count] == records
    {
      var p := head;
      count := 0;
      while p != null
        invariant count <= |records|
        invariant p == if count == |records| then null else records[count]
        invariant buf[..count] == records[..count]
        decreases |records| - count
      {
        buf[count] := p;
        p := p.next;
        count := count + 1;
      }
    }

    lemma WithRecord(w: WaitRecord)
      requires Distinct(records) && OneObjectPerId(records) && w !in records
      requires forall r | r in records :: r.thread.id == w.thread.id ==> r.thread == w.thread
      ensures Distinct(records + [w]) && OneObjectPerId(records + [w])
    {
    }

    // The masked region of uthread_mutex_lock (lines 340-390), run by `current`, which may have
    // records already. Ids name threads.
    method Enqueue(current: UThread)
      requires Valid() && forall r | r in records :: r.thread.id == current.id ==> r.thread == current
      modifies this, records
      ensures Valid() && (forall r | r in records :: r in old(records) || fresh(r))
      ensures PriorityLock.Enqueue(old(Abs()), current.AsThread(), Abs())
      ensures length == old(length) + 1
      ensures locking == if old(records) == [] then current else old(locking)
    {
      var newWait := new WaitRecord(current);
      length := length + 1;
      if length == 1 {
        head, tail, locking := newWait, newWait, newWait.thread;
        records := [newWait];
        assert Waiting(records) == [current.AsThread()];
      } else {
        WithRecord(newWait);
        SortIn(newWait);
      }
    }

    // p is a legal next queue: the old records and w, in priority order.
    ghost predicate NextQueue(p: seq<WaitRecord>, w: WaitRecord)
      reads this
    {
      && |p| == |records| + 1 && Distinct(p) && OneObjectPerId(p)
      && PriorityLock.Enqueue(Abs(), w.thread.AsThread(), Abs().(queue := Waiting(p)))
      && (forall r | r in p :: r in records || r == w)
      && (exists i :: 0 <= i < |p| && p[i].thread == locking)
    }

    lemma SortedIsNextQueue(p: seq<WaitRecord>, w: WaitRecord)
      requires PriorityLock.Valid(Abs()) && records != []
      requires exists i :: 0 <= i < |records| && records[i].thread == locking
      requires Distinct(records + [w]) && OneObjectPerId(records + [w])
      requires multiset(p) == multiset(records + [w]) && Ordered(p, BY_THREAD_PRIORITY)
      ensures NextQueue(p, w)
    {
      var all := records + [w];
      SameRecords(all, p);
      var thread := (r: WaitRecord) => r.thread.AsThread();
      MapPermutation(all, p, thread);
      assert Waiting(all) == Waiting(records) + [w.thread.AsThread()];
      forall i, j | 0 <= i < j < |p| ensures p[i].thread.pri <= p[j].thread.pri {
        assert BY_THREAD_PRIORITY(p[i]) <= BY_THREAD_PRIORITY(p[j]);
      }
      var i :| 0 <= i < |records| && records[i].thread == locking;
      assert all[i] in p;
    }

    // The else branch of uthread_mutex_lock: copy, sort, and retie the records.
    method SortIn(newWait: WaitRecord)
      requires PriorityLock.Valid(Abs()) && OneObjectPerId(records + [newWait]) && Distinct(records + [newWait])
      requires exists i :: 0 <= i < |records| && records[i].thread == locking
      requires records != [] && length == |records| + 1 && head == records[0] && Chain(records)
      modifies this, records, newWait
      ensures Valid() && (forall r | r in records :: r in old(records) || r == newWait)
      ensures PriorityLock.Enqueue(old(Abs()), newWait.thread.AsThread(), Abs())
      ensures length == old(length) && locking == old(locking)
    {
      var buf := new WaitRecord[length](_ => newWait);
      var count := CopyQueue(buf);
      buf[count] := newWait;
      assert buf[..] == records + [newWait];
      Qsort(buf, BY_THREAD_PRIORITY);
      SortedIsNextQueue(buf[..], newWait);
      Install(buf, newWait);
    }

    lemma NextQueueValid(p: seq<WaitRecord>, w: WaitRecord)
      requires PriorityLock.Valid(Abs()) && OneObjectPerId(records + [w]) && NextQueue(p, w)
      ensures PriorityLock.Valid(Abs().(queue := Waiting(p)))
    {
      var all := records + [w];
      assert Waiting(all) == Waiting(records) + [w.thread.AsThread()];
      EnqueueValid(Abs(), w.thread.AsThread(), Abs().(queue := Waiting(p)));
    }

    method Install(buf: array<WaitRecord>, newWait: WaitRecord)
      requires PriorityLock.Valid(Abs()) && records != [] && OneObjectPerId(records + [newWait])
      requires length == |records| + 1 == buf.Length
      requires NextQueue(buf[..], newWait)
      modifies this, records, newWait
      ensures Valid() && (forall r | r in records :: r in old(records) || r == newWait)
      ensures PriorityLock.Enqueue(old(Abs()), newWait.thread.AsThread(), Abs())
      ensures length == old(length) && locking == old(locking)
    {
      ghost var rs, next := buf[..], Abs().(queue := Waiting(buf[..]));
      NextQueueValid(rs, newWait);
      head := buf[0];
      tail := buf[length - 1];
      assert forall i | 0 <= i < buf.Length :: buf[i] in rs;
      tail.next := null;
      Retie(buf);
      assert buf[..] == rs && Abs().(queue := Waiting(rs)) == next;
      SetRecords(rs);
    }

    ghost method SetRecords(rs: seq<WaitRecord>)
      requires PriorityLock.Valid(Abs().(queue := Waiting(rs))) && Linked(rs) && OneObjectPerId(rs)
      requires rs != [] ==> exists i :: 0 <= i < |rs| && rs[i].thread == locking
      modifies this`records
      ensures Valid() && records == rs
    {
      records := rs;
    }

    // The queue without record k: k's predecessor, if any, must point past it.
    lemma ChainWithout(k: nat, rs: seq<WaitRecord>)
      requires k < |records| && rs == Without(records, k)
      requires forall i {:trigger records[i].next} | 0 <= i < |records| && i + 1 != k ::
                 records[i].next == if i + 1 == |records| then null else records[i + 1]
      requires k > 0 ==> records[k - 1].next == if k + 1 == |records| then null else records[k + 1]
      ensures Chain(rs)
      ensures Waiting(rs) == Without(Waiting(records), k)
    {
      forall i | 0 <= i < |rs| ensures rs[i].next == if i + 1 == |rs| then null else rs[i + 1] {
        var j := if i < k then i else i + 1;
        assert rs[i] == records[j];
        assert i + 1 < |rs| ==> rs[i + 1] == records[if i + 1 < k then i + 1 else i + 2];
      }
    }

    // The unlinking part of uthread_mutex_unlock with other records present; k is where the
    // holder's first record was. The exit for "wait record not found" is never taken.
    method Unlink() returns (ghost k: nat)
      requires Valid() && |records| > 1
      modifies this`head, records
      ensures k < |records| && records[k].thread == locking && forall i | 0 <= i < k :: records[i].thread != locking
      ensures head == Without(records, k)[0]
      ensures Chain(Without(records, k))
    {
      if head.thread == locking {
        head, k := head.next, 0;
      } else {
        var prev, search := head, head.next;
        k := 1;
        while search.thread != locking
          invariant 1 <= k < |records|
          invariant prev == records[k - 1] && search == records[k]
          invariant forall i | 0 <= i < k :: records[i].thread != locking
          decreases |records| - k
        {
          prev := search;
          search := search.next;
          if search == null {
            assert false;
          }
          k := k + 1;
        }
        prev.next := search.next;
      }
      ChainWithout(k, Without(records, k));
    }

    ghost method Drop(m: Lock, k: nat, holder: UThread)
      requires PriorityLock.Valid(m) && OneObjectPerId(records) && Distinct(records)
      requires m.queue == Waiting(records) && k < |records| && m.locking == Some(holder.AsThread())
      requires records[k].thread == holder && forall i | 0 <= i < k :: records[i].thread != holder
      requires Linked(Without(records, k)) && locking != null
      requires if |records| == 1 then locking == holder else locking == Without(records, k)[0].thread
      modifies this`records
      ensures Valid() && records == Without(old(records), k)
      ensures Abs() == PriorityLock.Unlock(m)
    {
      ghost var rs := Without(records, k);
      assert Waiting(rs) == Without(m.queue, k);
      forall i | 0 <= i < k ensures m.queue[i] != m.queue[k] {
        assert records[i].thread.id != records[k].thread.id;
      }
      UnlockAt(m, k);
      SetRecords(rs);
    }

    // uthread_mutex_unlock by the thread entitled to hold the lock; k is its first record's place.
    method Unlock() returns (ghost k: nat)
      requires Valid() && records != []
      modifies this, records
      ensures Valid()
      ensures k < |old(records)| && old(records)[k].thread == old(locking)
      ensures forall i | 0 <= i < k :: old(records)[i].thread != old(locking)
      ensures records == Without(old(records), k)
      ensures Abs() == PriorityLock.Unlock(old(Abs()))
      ensures length == old(length) - 1
      ensures locking == if records == [] then old(locking) else records[0].thread
    {
      ghost var m, holder := Abs(), locking;
      if length == 1 {
        k := 0;
        head, tail := null, null;
      } else {
        k := Unlink();
        locking := head.thread;
      }
      length := length - 1;
      Drop(m, k, holder);
    }
  }

  // The retying loop; the last record's next is NULL already.
  method Retie(buf: array<WaitRecord>)
    requires buf.Length > 0 && Distinct(buf[..]) && buf[buf.Length - 1].next == null
    modifies buf[..]
    ensures Chain(buf[..])
  {
    var pos := 1;
    while pos < buf.Length
      invariant 1 <= pos <= buf.Length
      invariant forall i | 0 <= i < pos - 1 :: buf[..][i].next == buf[..][i + 1]
      invariant buf[..][buf.Length - 1].next == null
    {
      buf[pos - 1].next := buf[pos];
      pos := pos + 1;
    }
  }
}
