// Threads of Asmt_4/uthread.c contending for one mutex: the scheduler of PriorityRing and the
// wait queue of PriorityLock together. Only the running thread acts; the timer may preempt it
// between any two events (the masked regions of lock and unlock are one event each).
module SpinLock {
  import opened Basics
  import opened PriorityRing
  import opened PriorityLock

  // spinning: enqueued, in the loop of uthread_mutex_lock (line 392).
  // holding: returned from lock and not yet called unlock. All other threads are idle.
  datatype Sys = Sys(sched: Sched, lock: Lock, spinning: set<nat>, holding: set<nat>) {
    function Me(): Thread
      requires sched.cur < |sched.ring|
    {
      sched.Running()
    }

    predicate MyTurn()
      requires sched.cur < |sched.ring|
    {
      lock.locking == Some(Me())
    }
  }

  datatype Event = Acquire | Enter | Spin | Release | Tick | Leave | Spawn(t: Thread)

  const START := Sys(PriorityRing.Init(), FREE, {}, {})

  // A spinning thread does nothing else. No recursive locking (PriorityLock.NestedUnlock says what
  // it would break), only the holder unlocks, no thread exits with a record.
  ghost predicate Step(s: Sys, e: Event, r: Sys) {
    && PriorityRing.Valid(s.sched)
    && var me := s.Me().id;
       match e
       case Acquire =>
         && me !in s.spinning + s.holding
         && PriorityLock.Enqueue(s.lock, s.Me(), r.lock)
         && r == Sys(s.sched, r.lock, s.spinning + {me}, s.holding)
       case Enter =>
         && me in s.spinning && s.MyTurn()
         && r == s.(spinning := s.spinning - {me}, holding := s.holding + {me})
       case Spin =>
         && me in s.spinning && !s.MyTurn()
         && r == s.(sched := Yield(s.sched))
       case Release =>
         && me in s.holding
         && s.lock.queue != [] && s.lock.locking.Some? && s.lock.locking.value in s.lock.queue
         && r == s.(lock := PriorityLock.Unlock(s.lock), holding := s.holding - {me})
       case Tick =>
         r == s.(sched := Yield(s.sched))
       case Leave =>
         && me !in s.spinning + s.holding
         && |s.sched.ring| > 1
         && r == s.(sched := Exit(s.sched))
       case Spawn(t) =>
         && me !in s.spinning
         && PriorityRing.Create(s.sched, t, r.sched)
         && r == s.(sched := r.sched)
  }

  ghost predicate Run(ss: seq<Sys>, es: seq<Event>) {
    && |ss| == |es| + 1
    && forall i | 0 <= i < |es| :: Step(ss[i], es[i], ss[i + 1])
  }

  // ------------------------------------------------------------------ safety

  ghost predicate RecordIds(s: Sys) {
    forall id :: id in s.spinning + s.holding <==> HasRecord(s.lock, id)
  }

  ghost predicate Inv(s: Sys) {
    && PriorityRing.Valid(s.sched)
    && PriorityLock.Valid(s.lock) && DistinctIds(s.lock.queue)
    && (forall t | t in s.lock.queue :: t in s.sched.ring)
    && RecordIds(s)
    && s.spinning !! s.holding
    && (forall id | id in s.holding :: s.lock.locking.Some? && s.lock.locking.value.id == id)
    && NoBetterSpinner(s)
  }

  // The running thread is no worse than any that is caught in the loop: a thread spins from the
  // moment it runs, and every switch goes on in the class or to the head.
  ghost predicate NoBetterSpinner(s: Sys)
    requires s.sched.cur < |s.sched.ring|
  {
    forall x | x in s.sched.ring && x.id in s.spinning :: s.Me().pri <= x.pri
  }

  lemma SwitchTarget(s: Sched, r: Sched, x: Thread)
    requires PriorityRing.Valid(s) && (r == Yield(s) || (|s.ring| > 1 && r == Exit(s))) && x in r.ring
    ensures r.Running().pri == s.Running().pri || r.Running().pri <= x.pri
    ensures x in s.ring
  {
    var i :| 0 <= i < |r.ring| && r.ring[i] == x;
    if r.cur == 0 {
      SwitchValid(s, r);
      assert PRIORITY(r.ring[0]) <= PRIORITY(r.ring[i]);
    }
  }

  lemma SwitchValid(s: Sched, r: Sched)
    requires PriorityRing.Valid(s) && (r == Yield(s) || (|s.ring| > 1 && r == Exit(s)))
    ensures PriorityRing.Valid(r)
  {
    if r != Yield(s) {
      ExitValid(s);
    }
  }

  lemma SwitchKeepsNoBetterSpinner(s: Sys, r: Sys)
    requires PriorityRing.Valid(s.sched) && NoBetterSpinner(s) && r == s.(sched := r.sched)
    requires r.sched == Yield(s.sched) || (|s.sched.ring| > 1 && r.sched == Exit(s.sched))
    ensures NoBetterSpinner(r)
  {
    forall x | x in r.sched.ring && x.id in r.spinning ensures r.Me().pri <= x.pri {
      SwitchTarget(s.sched, r.sched, x);
    }
  }

  lemma StepKeepsInv(s: Sys, e: Event, r: Sys)
    requires Inv(s) && Step(s, e, r)
    ensures Inv(r)
  {
    match e
    case Acquire => AcquireKeepsInv(s, r);
    case Enter =>
    case Spin => SwitchKeepsNoBetterSpinner(s, r);
    case Release => ReleaseKeepsInv(s, r);
    case Tick => SwitchKeepsNoBetterSpinner(s, r);
    case Leave => LeaveKeepsInv(s, r);
    case Spawn(t) => SpawnKeepsInv(s, t, r);
  }

  lemma AcquireKeepsInv(s: Sys, r: Sys)
    requires Inv(s) && Step(s, Acquire, r)
    ensures Inv(r)
  {
    assert !HasRecord(s.lock, s.Me().id);
    assert OneThreadPerId(s.lock.queue + [s.Me()]) by {
      forall t | t in s.lock.queue ensures t.id != s.Me().id {
        RecordOf(s.lock, t.id);
      }
    }
    EnqueueValid(s.lock, s.Me(), r.lock);
    forall id ensures HasRecord(r.lock, id) <==> HasRecord(s.lock, id) || id == s.Me().id {
      RecordOf(s.lock, id);
      RecordOf(r.lock, id);
    }
  }

  lemma ReleaseKeepsInv(s: Sys, r: Sys)
    requires Inv(s) && Step(s, Release, r)
    ensures Inv(r)
  {
    Handoff(s.lock);
    UnlockRecords(s.lock);
  }

  lemma LeaveKeepsInv(s: Sys, r: Sys)
    requires Inv(s) && Step(s, Leave, r)
    ensures Inv(r)
  {
    ExitValid(s.sched);
    SwitchKeepsNoBetterSpinner(s, r);
    forall t | t in s.lock.queue ensures t in r.sched.ring {
      RecordOf(s.lock, t.id);
      assert t.id != s.Me().id;
      var i :| 0 <= i < |s.sched.ring| && s.sched.ring[i] == t;
      assert r.sched.ring[if i < s.sched.cur then i else i - 1] == t;
    }
  }

  lemma SpawnKeepsInv(s: Sys, t: Thread, r: Sys)
    requires Inv(s) && Step(s, Spawn(t), r)
    ensures Inv(r)
  {
    forall u | u in s.sched.ring ensures u in r.sched.ring {
      assert u in multiset(s.sched.ring);
      assert u in multiset(r.sched.ring);
    }
    forall x | x in r.sched.ring && x.id in r.spinning ensures r.Me().pri <= x.pri {
      RecordOf(s.lock, x.id);
      var u :| u in s.lock.queue && u.id == x.id;
      SameThread(r.sched, x, u);
    }
  }

  lemma RecordOf(m: Lock, id: nat)
    ensures HasRecord(m, id) <==> exists t :: t in m.queue && t.id == id
  {
    if t :| t in m.queue && t.id == id {
      var i :| 0 <= i < |m.queue| && m.queue[i] == t;
    }
  }

  // Mutual exclusion in every reachable state: whoever is between lock and unlock is the thread
  // locking_thread names and has its record in the queue, so there is at most one; and the
  // threads with a record are exactly those inside lock or holding.
  lemma {:induction false} MutualExclusion(ss: seq<Sys>, es: seq<Event>, n: nat)
    requires Run(ss, es) && ss[0] == START && n <= |es|
    ensures Inv(ss[n])
    ensures forall a, b | a in ss[n].holding && b in ss[n].holding :: a == b
    ensures forall a | a in ss[n].holding :: HasRecord(ss[n].lock, a) && a !in ss[n].spinning
  {
    if n == 0 {
      assert !exists id :: HasRecord(FREE, id);
    } else {
      MutualExclusion(ss, es, n - 1);
      StepKeepsInv(ss[n - 1], es[n - 1], ss[n]);
    }
  }

  // ------------------------------------------------------------------ when the loop can end

  // t is entitled to hold the lock.
  ghost predicate Owns(s: Sys, t: Thread) {
    s.lock.queue != [] && s.lock.locking == Some(t)
  }

  lemma OwnerIsLive(s: Sys, t: Thread)
    requires Inv(s) && Owns(s, t)
    ensures t in s.sched.ring
    ensures forall x | x in s.sched.ring && x.id in s.holding :: x == t
  {
    forall x | x in s.sched.ring && x.id in s.holding ensures x == t {
      SameThread(s.sched, x, t);
    }
  }

  lemma SameThread(s: Sched, x: Thread, y: Thread)
    requires PriorityRing.Valid(s) && x in s.ring && y in s.ring
    ensures x.id == y.id ==> x == y
  {
  }

  ghost predicate SpinsAhead(s: Sys, x: Thread, t: Thread) {
    x in s.sched.ring && x.id in s.spinning && x.pri < t.pri
  }

  // A thread better than t is caught in the loop.
  ghost predicate BetterSpins(s: Sys, t: Thread) {
    exists x :: SpinsAhead(s, x, t)
  }

  lemma StillOwns(s: Sys, e: Event, r: Sys, t: Thread)
    requires Inv(s) && Owns(s, t) && s.Me() != t && Step(s, e, r)
    ensures Owns(r, t)
  {
    OwnerIsLive(s, t);
    if e == Acquire {
      EnqueuedNotEmpty(s.lock, s.Me(), r.lock);
    }
  }

  lemma StaysLive(s: Sched, r: Sched, x: Thread)
    requires PriorityRing.Valid(s) && x in s.ring
    requires (|s.ring| > 1 && s.Running() != x && r == Exit(s)) || exists t :: PriorityRing.Create(s, t, r)
    ensures x in r.ring
  {
    if t :| PriorityRing.Create(s, t, r) {
      assert x in multiset(s.ring);
      assert x in multiset(r.ring);
    } else {
      var i :| 0 <= i < |s.ring| && s.ring[i] == x;
      assert r.ring[if i < s.cur then i else i - 1] == x;
    }
  }

  // While a better thread than the owner spins, that stays so: the spinner cannot leave, and
  // neither can the owner, which is not running.
  lemma StillSpins(s: Sys, e: Event, r: Sys, x: Thread, t: Thread)
    requires Inv(s) && Owns(s, t) && SpinsAhead(s, x, t) && s.Me() != t && Step(s, e, r)
    ensures Inv(r) && Owns(r, t) && SpinsAhead(r, x, t)
  {
    StepKeepsInv(s, e, r);
    StillOwns(s, e, r, t);
    match e
    case Enter =>
    case Leave => StaysLive(s.sched, r.sched, x);
    case Spawn(u) => StaysLive(s.sched, r.sched, x);
    case _ =>
  }

  lemma EnqueuedNotEmpty(m: Lock, t: Thread, r: Lock)
    requires PriorityLock.Enqueue(m, t, r)
    ensures r.queue != []
  {
    assert t in multiset(r.queue);
  }

  // The owner is shut out: a better thread spins.
  ghost predicate Barred(s: Sys, x: Thread, t: Thread) {
    Inv(s) && Owns(s, t) && SpinsAhead(s, x, t)
  }

  // Priority inversion: in no run from here, of any length, whatever the other threads do, is the
  // owner ever scheduled; the lock never moves and x spins for ever.
  lemma {:induction false} PriorityInversion(ss: seq<Sys>, es: seq<Event>, x: Thread, t: Thread, n: nat)
    requires Run(ss, es) && Barred(ss[0], x, t) && n <= |es|
    ensures Barred(ss[n], x, t) && ss[n].Me() != t && Owns(ss[n], t) && x.id in ss[n].spinning
  {
    if n == 0 {
    } else {
      PriorityInversion(ss, es, x, t, n - 1);
      StillSpins(ss[n - 1], es[n - 1], ss[n], x, t);
    }
  }

  // Some run from s ends in r.
  ghost predicate Leads(ss: seq<Sys>, es: seq<Event>, s: Sys, r: Sys) {
    Run(ss, es) && ss[0] == s && ss[|es|] == r
  }

  ghost predicate Reaches(s: Sys, r: Sys) {
    exists ss, es :: Leads(ss, es, s, r)
  }

  lemma ReachesSelf(s: Sys)
    ensures Reaches(s, s)
  {
    assert Leads([s], [], s, s);
  }

  lemma ReachesNext(s: Sys, m: Sys, e: Event, r: Sys)
    requires Reaches(s, m) && Step(m, e, r)
    ensures Reaches(s, r)
  {
    var ss, es :| Leads(ss, es, s, m);
    assert Leads(ss + [r], es + [e], s, r);
  }

  lemma ReachesOver(s: Sys, m: Sys, r: Sys)
    requires Reaches(s, m) && Reaches(m, r)
    ensures Reaches(s, r)
  {
    var ss, es :| Leads(ss, es, s, m);
    var ss', es' :| Leads(ss', es', m, r);
    assert Leads(ss + ss'[1..], es + es', s, r);
  }

  ghost function Later(s: Sys, m: nat): Sys
    requires s.sched.cur < |s.sched.ring|
  {
    s.(sched := Yields(s.sched, m))
  }

  lemma {:induction false} ReachesLater(s: Sys, m: nat)
    requires Inv(s)
    ensures Inv(Later(s, m)) && Reaches(s, Later(s, m))
  {
    if m == 0 {
      ReachesSelf(s);
    } else {
      ReachesLater(s, m - 1);
      StepKeepsInv(Later(s, m - 1), Tick, Later(s, m));
      ReachesNext(s, Later(s, m - 1), Tick, Later(s, m));
    }
  }

  // r differs from s in who runs and who has exited only.
  predicate SameLock(s: Sys, r: Sys) {
    r == s.(sched := r.sched)
  }

  lemma TopOwnerCanRun(s: Sys, t: Thread, j: nat)
    requires Inv(s) && s.sched.cur == 0 && j < |s.sched.ring| && s.sched.ring[j] == t && t.pri == s.sched.ring[0].pri
    ensures Inv(Later(s, j)) && Reaches(s, Later(s, j)) && Later(s, j).Me() == t
  {
    ReachesLater(s, j);
    InClass(s.sched.ring, 0, j);
    YieldsClosedForm(s.sched, j);
  }

  // A head better than the owner is idle, when nothing better spins: it can exit.
  lemma HeadCanLeave(s: Sys, t: Thread) returns (r: Sys)
    requires Inv(s) && Owns(s, t) && !BetterSpins(s, t)
    requires s.sched.cur == 0 && s.sched.ring[0].pri < t.pri
    ensures Inv(r) && Reaches(s, r) && SameLock(s, r) && !BetterSpins(r, t) && |r.sched.ring| < |s.sched.ring|
  {
    OwnerIsLive(s, t);
    assert !SpinsAhead(s, s.Me(), t) && s.Me().id !in s.holding;
    r := s.(sched := Exit(s.sched));
    StepKeepsInv(s, Leave, r);
    NoneBetter(s, r, t);
    ReachesSelf(s);
    ReachesNext(s, s, Leave, r);
  }

  // If nothing better than the owner spins, some run schedules it: switch to the head, let the
  // better threads exit one by one, and go round the owner's class.
  lemma OwnerCanRun(s: Sys, t: Thread) returns (r: Sys)
    requires Inv(s) && Owns(s, t) && !BetterSpins(s, t)
    ensures Inv(r) && Reaches(s, r) && r.Me() == t && SameLock(s, r)
    decreases |s.sched.ring|, s.sched.cur > 0
  {
    var ring, i := s.sched.ring, s.sched.cur;
    OwnerIsLive(s, t);
    var j :| 0 <= j < |ring| && ring[j] == t;
    assert PRIORITY(ring[0]) <= PRIORITY(ring[j]);
    if i > 0 {
      var head := Later(s, ClassEnd(ring, i) - i + 1);
      HeadReached(s.sched, ClassEnd(ring, i) - i + 1);
      ReachesLater(s, ClassEnd(ring, i) - i + 1);
      NoneBetter(s, head, t);
      r := OwnerCanRun(head, t);
      ReachesOver(s, head, r);
    } else if ring[0].pri == t.pri {
      r := Later(s, j);
      TopOwnerCanRun(s, t, j);
    } else {
      var next := HeadCanLeave(s, t);
      r := OwnerCanRun(next, t);
      ReachesOver(s, next, r);
    }
  }

  lemma NoneBetter(s: Sys, r: Sys, t: Thread)
    requires !BetterSpins(s, t) && SameLock(s, r) && forall x | x in r.sched.ring :: x in s.sched.ring
    ensures !BetterSpins(r, t)
  {
    forall x ensures !SpinsAhead(r, x, t) {
      assert !SpinsAhead(s, x, t);
    }
  }

  ghost predicate CanRun(s: Sys, t: Thread) {
    exists r :: Reaches(s, r) && r.sched.cur < |r.sched.ring| && r.Me() == t
  }

  // Exactly when the entitled thread can still get the processor, in any run: no thread better
  // than it is caught in the loop.
  lemma OwnerCanRunIff(s: Sys, t: Thread)
    requires Inv(s) && Owns(s, t)
    ensures CanRun(s, t) <==> !BetterSpins(s, t)
  {
    if !BetterSpins(s, t) {
      var r := OwnerCanRun(s, t);
    } else {
      var x :| SpinsAhead(s, x, t);
      forall r | Reaches(s, r) && r.sched.cur < |r.sched.ring| ensures r.Me() != t {
        var ss, es :| Leads(ss, es, s, r);
        PriorityInversion(ss, es, x, t, |es|);
      }
    }
  }

  // ------------------------------------------------------------------ when lock can return

  // Some run gets the thread with this id out of the loop and into its critical section.
  ghost predicate CanHold(s: Sys, id: nat) {
    exists r :: Reaches(s, r) && id in r.holding
  }

  lemma CanHoldOver(s: Sys, m: Sys, id: nat)
    requires Reaches(s, m) && CanHold(m, id)
    ensures CanHold(s, id)
  {
    var r :| Reaches(m, r) && id in r.holding;
    ReachesOver(s, m, r);
  }

  // The owner, running, goes on to its critical section if it is not there yet.
  lemma OwnerEnters(s: Sys, t: Thread) returns (r: Sys)
    requires Inv(s) && Owns(s, t) && s.Me() == t
    ensures Inv(r) && Reaches(s, r) && t.id in r.holding && r.lock == s.lock && r.sched == s.sched
    ensures r.spinning == s.spinning - {t.id}
  {
    ReachesSelf(s);
    RecordOf(s.lock, t.id);
    if t.id in s.holding {
      r := s;
    } else {
      r := s.(spinning := s.spinning - {t.id}, holding := s.holding + {t.id});
      StepKeepsInv(s, Enter, r);
      ReachesNext(s, s, Enter, r);
    }
  }

  // After the handoff nothing better than the new owner spins.
  lemma NewOwnerIsBest(s: Sys, r: Sys, w: nat)
    requires Inv(s) && Step(s, Release, r) && w in r.spinning
    ensures Inv(r) && r.lock.queue != [] && |r.lock.queue| < |s.lock.queue|
    ensures Owns(r, r.lock.locking.value) && !BetterSpins(r, r.lock.locking.value)
  {
    StepKeepsInv(s, Release, r);
    Handoff(s.lock);
    assert |multiset(s.lock.queue)| == |multiset(r.lock.queue)| + 1;
    assert HasRecord(r.lock, w);
    forall x ensures !SpinsAhead(r, x, r.lock.locking.value) {
      if x in r.sched.ring && x.id in r.spinning {
        RecordOf(r.lock, x.id);
        var u :| u in r.lock.queue && u.id == x.id;
        SameThread(r.sched, x, u);
      }
    }
  }

  // Let the owner finish and hand over, until it is the waiter's turn.
  lemma WaiterCanHold(s: Sys, t: Thread, w: nat)
    requires Inv(s) && Owns(s, t) && !BetterSpins(s, t) && w in s.spinning
    ensures CanHold(s, w)
    decreases |s.lock.queue|
  {
    var running := OwnerCanRun(s, t);
    var inside := OwnerEnters(running, t);
    ReachesOver(s, running, inside);
    if t.id != w {
      var next := inside.(lock := PriorityLock.Unlock(inside.lock), holding := inside.holding - {t.id});
      assert Step(inside, Release, next);
      NewOwnerIsBest(inside, next, w);
      ReachesNext(s, inside, Release, next);
      WaiterCanHold(next, next.lock.locking.value, w);
      CanHoldOver(s, next, w);
    }
  }

  // What a caller can test before uthread_mutex_lock: the call can return, in some run, if and
  // only if nobody is queued or locking_thread is no worse than the caller. Otherwise it never
  // does, whatever happens (PriorityInversion).
  lemma LockCanReturnIff(s: Sys, r: Sys)
    requires Inv(s) && Step(s, Acquire, r)
    ensures CanHold(r, s.Me().id) <==> s.lock.queue == [] || s.lock.locking.value.pri <= s.Me().pri
  {
    var w, t := s.Me(), r.lock.locking.value;
    StepKeepsInv(s, Acquire, r);
    EnqueuedNotEmpty(s.lock, w, r.lock);
    assert Owns(r, t);
    if s.lock.queue == [] || s.lock.locking.value.pri <= w.pri {
      assert !BetterSpins(r, t) by {
        forall x ensures !SpinsAhead(r, x, t) {
        }
      }
      WaiterCanHold(r, t, w.id);
    } else {
      assert SpinsAhead(r, w, t);
      forall q | Reaches(r, q) ensures w.id !in q.holding {
        var ss, es :| Leads(ss, es, r, q);
        PriorityInversion(ss, es, w, t, |es|);
      }
    }
  }

  // Along every run from there: the caller spins and the lock does not move.
  lemma LockNeverReturns(ss: seq<Sys>, es: seq<Event>, n: nat)
    requires Run(ss, es) && Inv(ss[0]) && 0 < n <= |es| && es[0] == Acquire
    requires ss[0].lock.queue != [] && ss[0].Me().pri < ss[0].lock.locking.value.pri
    ensures ss[0].Me().id in ss[n].spinning && ss[n].lock.locking == ss[0].lock.locking
  {
    var w, t := ss[0].Me(), ss[0].lock.locking.value;
    assert Step(ss[0], es[0], ss[1]);
    StepKeepsInv(ss[0], es[0], ss[1]);
    EnqueuedNotEmpty(ss[0].lock, w, ss[1].lock);
    assert Barred(ss[1], w, t);
    assert Run(ss[1..], es[1..]);
    PriorityInversion(ss[1..], es[1..], w, t, n - 1);
  }

  // ------------------------------------------------------------------ how soon it ends

  ghost predicate NoSpawn(es: seq<Event>) {
    forall i | 0 <= i < |es| :: !es[i].Spawn?
  }

  // Events that end in another choice of thread.
  function Switches(es: seq<Event>, n: nat): nat
    requires n <= |es|
  {
    if n == 0 then 0
    else Switches(es, n - 1) + if es[n - 1].Spin? || es[n - 1].Tick? || es[n - 1].Leave? then 1 else 0
  }

  // In every run without creates, a thread of the top class (the owner, say) runs after exactly
  // as many switches as it is away round the class, and not before, whatever the other threads
  // do: spin, acquire, release, exit or get preempted.
  lemma {:induction false} TopThreadRuns(ss: seq<Sys>, es: seq<Event>, t: Thread, n: nat)
    requires Run(ss, es) && NoSpawn(es) && n <= |es|
    requires PriorityRing.Valid(ss[0].sched) && InTop(ss[0].sched) && TopThread(ss[0].sched, t)
    requires Switches(es, n) <= Distance(ss[0].sched, t)
    ensures PriorityRing.Valid(ss[n].sched) && InTop(ss[n].sched) && TopThread(ss[n].sched, t)
    ensures Distance(ss[n].sched, t) == Distance(ss[0].sched, t) - Switches(es, n)
    ensures ss[n].Me() == t <==> Switches(es, n) == Distance(ss[0].sched, t)
  {
    if n == 0 {
      DistanceZero(ss[0].sched, t);
    } else {
      TopThreadRuns(ss, es, t, n - 1);
      var s, e, r := ss[n - 1], es[n - 1], ss[n];
      assert Step(s, e, r);
      if e.Spin? || e.Tick? {
        YieldApproaches(s.sched, t);
      } else if e.Leave? {
        ExitApproaches(s.sched, t);
      }
      DistanceZero(r.sched, t);
    }
  }

  // The running thread is in the top class and every other thread of that class, the owner
  // excepted, is caught in the loop.
  ghost predicate OthersSpin(s: Sys, owner: Thread) {
    && Inv(s)
    && InTop(s.sched)
    && forall j | 0 <= j < TopSize(s.sched.ring) :: s.sched.ring[j] == owner || s.sched.ring[j].id in s.spinning
  }

  lemma OthersStillSpin(s: Sys, owner: Thread, m: nat)
    requires OthersSpin(s, owner)
    ensures OthersSpin(Later(s, m), owner)
  {
    RoundRobin(s.sched, m);
  }

  lemma OneMoreSpin(s: Sys, m: nat, e: Event, r: Sys, owner: Thread)
    requires OthersSpin(s, owner) && Owns(s, owner) && Yields(s.sched, m).Running() != owner
    requires Step(Later(s, m), e, r)
    ensures r == Later(s, m + 1)
  {
    OthersStillSpin(s, owner, m);
    TopIsPrefix(s.sched.ring, Later(s, m).sched.cur);
    assert Later(s, m).Me().id in s.spinning;
  }

  // Until the entitled thread is scheduled, every event is one pass of a spin loop or a timer
  // tick: nothing but the running thread changes.
  lemma OnlySpins(ss: seq<Sys>, es: seq<Event>, owner: Thread, n: nat)
    requires Run(ss, es) && OthersSpin(ss[0], owner) && Owns(ss[0], owner) && n <= |es|
    requires forall m: nat | m < n :: Yields(ss[0].sched, m).Running() != owner
    ensures ss[n] == Later(ss[0], n)
  {
    var k := 0;
    while k < n
      invariant k <= n && ss[k] == Later(ss[0], k)
    {
      assert Step(ss[k], es[k], ss[k + 1]);
      OneMoreSpin(ss[0], k, es[k], ss[k + 1], owner);
      k := k + 1;
    }
  }

  // The entitled thread is in the top class and the rest of the class spins: within one round of
  // the class it gets the processor, be it a preempted holder or a waiter not yet through.
  lemma OwnerScheduled(ss: seq<Sys>, es: seq<Event>, owner: Thread)
    requires Run(ss, es) && OthersSpin(ss[0], owner) && Owns(ss[0], owner)
    requires owner in ss[0].sched.ring[..TopSize(ss[0].sched.ring)]
    requires |es| >= TopSize(ss[0].sched.ring)
    ensures exists n | 0 <= n < TopSize(ss[0].sched.ring) ::
              ss[n] == Later(ss[0], n) && ss[n].Me() == owner && ss[n].MyTurn()
  {
    var s := ss[0].sched;
    var j :| 0 <= j < TopSize(s.ring) && s.ring[j] == owner;
    var n := if s.cur <= j then j - s.cur else j - s.cur + TopSize(s.ring);
    TopIsPrefix(s.ring, s.cur);
    forall m: nat | m < n ensures Yields(s, m).Running() != owner {
      EachOncePerRound(s, j, m);
      assert s.ring[Yields(s, m).cur].id != s.ring[j].id;
    }
    EachOncePerRound(s, j, n);
    OnlySpins(ss, es, owner, n);
  }

  // So where the rest of the top class spins, the loop of line 392 ends exactly when the entitled
  // thread has the head's priority.
  lemma SpinLoopEndsIff(s: Sys, owner: Thread)
    requires OthersSpin(s, owner) && Owns(s, owner)
    ensures (exists m: nat :: Yields(s.sched, m).Running() == owner) <==> owner.pri == s.sched.ring[0].pri
  {
    var ring := s.sched.ring;
    OwnerIsLive(s, owner);
    var j :| 0 <= j < |ring| && ring[j] == owner;
    TopIsPrefix(ring, j);
    TopIsPrefix(ring, s.sched.cur);
    ClassEndOfMember(ring, 0, s.sched.cur);
    ScheduledIff(s.sched, j);
    if j < TopSize(ring) {
      assert Yields(s.sched, Delay(ring, s.sched.cur, j)).Running() == owner;
    }
    forall m: nat | Yields(s.sched, m).Running() == owner ensures EventuallyRuns(s.sched, j) {
      var i := Yields(s.sched, m).cur;
      assert ring[i].id == ring[j].id;
    }
  }

  // The inversion is five events away from the start: the initial thread takes the lock and
  // creates a better one, which is scheduled and asks for the lock.
  lemma InversionReachable() returns (ss: seq<Sys>, es: seq<Event>)
    ensures Run(ss, es) && ss[0] == START && |es| == 5
    ensures Barred(ss[5], Thread(1, 1), Thread(0, 9))
  {
    var main, a := Thread(0, 9), Thread(1, 1);
    var s0 := START;
    var s1 := Sys(s0.sched, Lock([main], Some(main)), {0}, {});
    var s2 := s1.(spinning := {}, holding := {0});
    var s3 := s2.(sched := Sched([a, main], 1, 2));
    var s4 := s3.(sched := Sched([a, main], 0, 2));
    var s5 := Sys(s4.sched, Lock([a, main], Some(main)), {1}, {0});
    ss, es := [s0, s1, s2, s3, s4, s5], [Acquire, Enter, Spawn(a), Tick, Acquire];
    assert Step(s0, Acquire, s1);
    assert Step(s1, Enter, s2);
    assert multiset([a, main]) == multiset([main]) + multiset{a};
    assert Step(s2, Spawn(a), s3);
    assert Step(s3, Tick, s4);
    assert Step(s4, Acquire, s5);
    MutualExclusion(ss, es, 5);
    assert a in s5.sched.ring;
  }

  // ------------------------------------------------------------------ recursive locking

  // Runs in which a holder may also lock again, which returns at once, and unlock that inner
  // section: it stays in its outer one.
  datatype NestedEvent = Plain(e: Event) | LockAgain | UnlockInner

  ghost predicate NestedStep(s: Sys, e: NestedEvent, r: Sys) {
    match e
    case Plain(p) => Step(s, p, r)
    case LockAgain =>
      && PriorityRing.Valid(s.sched) && s.Me().id in s.holding && s.MyTurn()
      && PriorityLock.Enqueue(s.lock, s.Me(), r.lock)
      && r == s.(lock := r.lock)
    case UnlockInner =>
      && PriorityRing.Valid(s.sched) && s.Me().id in s.holding
      && s.lock.queue != [] && s.lock.locking.Some? && s.lock.locking.value in s.lock.queue
      && r == s.(lock := PriorityLock.Unlock(s.lock))
  }

  ghost predicate NestedRun(ss: seq<Sys>, es: seq<NestedEvent>) {
    && |ss| == |es| + 1
    && forall i | 0 <= i < |es| :: NestedStep(ss[i], es[i], ss[i + 1])
  }

  // Two threads of one priority: 0 locks twice, 1 asks and is sorted before it, 0 unlocks once.
  const MAIN := Thread(0, 9)
  const OTHER := Thread(1, 9)

  function Scene(k: nat): Sys {
    match k
    case 0 => START
    case 1 => Sys(START.sched, Lock([MAIN], Some(MAIN)), {0}, {})
    case 2 => Sys(START.sched, Lock([MAIN], Some(MAIN)), {}, {0})
    case 3 => Sys(START.sched, Lock([MAIN, MAIN], Some(MAIN)), {}, {0})
    case 4 => Sys(Sched([MAIN, OTHER], 0, 2), Lock([MAIN, MAIN], Some(MAIN)), {}, {0})
    case 5 => Sys(Sched([MAIN, OTHER], 1, 2), Lock([MAIN, MAIN], Some(MAIN)), {}, {0})
    case 6 => Sys(Sched([MAIN, OTHER], 1, 2), Lock([OTHER, MAIN, MAIN], Some(MAIN)), {1}, {0})
    case 7 => Sys(Sched([MAIN, OTHER], 0, 2), Lock([OTHER, MAIN, MAIN], Some(MAIN)), {1}, {0})
    case 8 => Sys(Sched([MAIN, OTHER], 0, 2), Lock([OTHER, MAIN], Some(OTHER)), {1}, {0})
    case 9 => Sys(Sched([MAIN, OTHER], 1, 2), Lock([OTHER, MAIN], Some(OTHER)), {1}, {0})
    case _ => Sys(Sched([MAIN, OTHER], 1, 2), Lock([OTHER, MAIN], Some(OTHER)), {}, {0, 1})
  }

  function SceneEvent(k: nat): NestedEvent {
    match k
    case 0 | 5 => Plain(Acquire)
    case 1 | 9 => Plain(Enter)
    case 2 => LockAgain
    case 3 => Plain(Spawn(OTHER))
    case 7 => UnlockInner
    case _ => Plain(Tick)
  }

  lemma Enqueued(s: Sys, r: Sys)
    requires PriorityRing.Valid(s.sched) && s.Me().id !in s.spinning + s.holding
    requires PriorityLock.Enqueue(s.lock, s.Me(), r.lock)
    requires r.sched == s.sched && r.spinning == s.spinning + {s.Me().id} && r.holding == s.holding
    ensures NestedStep(s, Plain(Acquire), r)
  {
  }

  lemma EnqueuedAgain(s: Sys, r: Sys)
    requires PriorityRing.Valid(s.sched) && s.Me().id in s.holding && s.MyTurn()
    requires PriorityLock.Enqueue(s.lock, s.Me(), r.lock)
    requires r.sched == s.sched && r.spinning == s.spinning && r.holding == s.holding
    ensures NestedStep(s, LockAgain, r)
  {
  }

  lemma Dequeued(s: Sys, r: Sys)
    requires PriorityRing.Valid(s.sched) && s.Me().id in s.holding
    requires s.lock.queue != [] && s.lock.locking.Some? && s.lock.locking.value in s.lock.queue
    requires r.lock == PriorityLock.Unlock(s.lock)
    requires r.sched == s.sched && r.spinning == s.spinning && r.holding == s.holding
    ensures NestedStep(s, UnlockInner, r)
  {
  }

  lemma LockScenes()
    ensures PriorityLock.Enqueue(FREE, MAIN, Lock([MAIN], Some(MAIN)))
    ensures PriorityLock.Enqueue(Lock([MAIN], Some(MAIN)), MAIN, Lock([MAIN, MAIN], Some(MAIN)))
  {
    EnqueueInFront(FREE, MAIN);
    EnqueueInFront(Lock([MAIN], Some(MAIN)), MAIN);
  }

  lemma CreateScene()
    ensures NestedStep(Scene(3), SceneEvent(3), Scene(4))
  {
    assert [MAIN, OTHER] == [MAIN] + [OTHER];
  }

  lemma AskScene()
    ensures PriorityLock.Enqueue(Lock([MAIN, MAIN], Some(MAIN)), OTHER, Lock([OTHER, MAIN, MAIN], Some(MAIN)))
  {
    EnqueueInFront(Lock([MAIN, MAIN], Some(MAIN)), OTHER);
  }

  lemma LeftScene(m: Lock, r: Lock)
    requires m == Lock([OTHER, MAIN, MAIN], Some(MAIN)) && r == Lock([OTHER, MAIN], Some(OTHER))
    ensures m.queue != [] && m.locking.value in m.queue && PriorityLock.Unlock(m) == r
  {
    LockedTwice(MAIN, OTHER, m);
  }

  lemma FirstScenes()
    ensures NestedStep(Scene(0), SceneEvent(0), Scene(1)) && NestedStep(Scene(2), SceneEvent(2), Scene(3))
  {
    LockScenes();
    Enqueued(Scene(0), Scene(1));
    EnqueuedAgain(Scene(2), Scene(3));
  }

  lemma MiddleScene()
    ensures NestedStep(Scene(5), SceneEvent(5), Scene(6))
  {
    AskScene();
    Enqueued(Scene(5), Scene(6));
  }

  lemma UnlockScene()
    ensures NestedStep(Scene(7), SceneEvent(7), Scene(8))
  {
    LeftScene(Scene(7).lock, Scene(8).lock);
    Dequeued(Scene(7), Scene(8));
  }

  lemma SceneStep(k: nat)
    requires k < 10
    ensures NestedStep(Scene(k), SceneEvent(k), Scene(k + 1))
  {
    if k == 0 || k == 2 {
      FirstScenes();
    } else if k == 3 {
      CreateScene();
    } else if k == 5 {
      MiddleScene();
    } else if k == 7 {
      UnlockScene();
    }
  }

  // With recursive locking there are runs to states with two threads between lock and unlock.
  lemma TwoInside() returns (ss: seq<Sys>, es: seq<NestedEvent>)
    ensures NestedRun(ss, es) && ss[0] == START && ss[|es|].holding == {0, 1}
  {
    ss, es := seq(11, i requires 0 <= i => Scene(i)), seq(10, i requires 0 <= i => SceneEvent(i));
    forall i | 0 <= i < |es| ensures NestedStep(ss[i], es[i], ss[i + 1]) {
      SceneStep(i);
    }
  }
}
