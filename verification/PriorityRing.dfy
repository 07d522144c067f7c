// The priority thread package of Asmt_4/uthread.c on values: the circular list is a sequence
// sorted by priority (a smaller number is better), read from head_thread, and the running
// thread is an index into it. Module UThreadRing shows that the pointer code refines this.
module PriorityRing {
  import opened Sorting

  datatype Thread = Thread(id: nat, pri: int)

  // live is the C counter live_uthreads, which uthread_exit never decrements.
  datatype Sched = Sched(ring: seq<Thread>, cur: nat, live: nat) {
    function Running(): Thread
      requires cur < |ring|
    {
      ring[cur]
    }
  }

  const PRIORITY: Thread -> int := (t: Thread) => t.pri

  ghost predicate DistinctIds(ring: seq<Thread>) {
    forall i, j | 0 <= i < j < |ring| :: ring[i].id != ring[j].id
  }

  ghost predicate Valid(s: Sched) {
    && s.cur < |s.ring| <= s.live
    && Ordered(s.ring, PRIORITY)
    && DistinctIds(s.ring)
  }

  // uthread_init: the calling thread alone, at the worst priority.
  function Init(): (s: Sched)
    ensures Valid(s)
  {
    Sched([Thread(0, 9)], 0, 1)
  }

  // The position the `next` pointer of position i leads to.
  function Succ(n: nat, i: nat): (r: nat)
    requires i < n
    ensures r < n
  {
    if i + 1 == n then 0 else i + 1
  }

  // ------------------------------------------------------------------ transitions

  function Yield(s: Sched): (r: Sched)
    requires s.cur < |s.ring|
    ensures r.cur < |r.ring|
  {
    var nx := Succ(|s.ring|, s.cur);
    s.(cur := if s.ring[s.cur].pri < s.ring[nx].pri then 0 else nx)
  }

  // Exit with other threads left. The position that runs next is read in the shortened ring.
  function Exit(s: Sched): (r: Sched)
    requires s.cur < |s.ring| && |s.ring| > 1
    ensures r.cur < |r.ring|
  {
    var nx := Succ(|s.ring|, s.cur);
    var next := if s.cur == 0 || s.ring[s.cur].pri < s.ring[nx].pri || nx == 0 then 0 else s.cur;
    Sched(Without(s.ring, s.cur), next, s.live)
  }

  // Create: some sorted arrangement of the old threads and the new one; nobody is switched in.
  // The sort covers live + 1 slots and only |ring| + 1 of them are filled, so this is defined
  // exactly while no thread has exited.
  ghost predicate Create(s: Sched, t: Thread, r: Sched) {
    && Valid(s) && Valid(r)
    && s.live == |s.ring|
    && multiset(r.ring) == multiset(s.ring) + multiset{t}
    && r.Running() == s.Running()
    && r.live == s.live + 1
  }

  datatype Action = YieldA | ExitA | CreateA(t: Thread)

  // uthread_exit dereferences head_thread, which is NULL until the first create (live == 1).
  ghost predicate Step(s: Sched, a: Action, r: Sched) {
    && Valid(s)
    && match a
       case YieldA => r == Yield(s)
       case ExitA => |s.ring| > 1 && r == Exit(s)
       case CreateA(t) => Create(s, t, r)
  }

  lemma ExitValid(s: Sched)
    requires Valid(s) && |s.ring| > 1
    ensures Valid(Exit(s))
  {
  }

  lemma StepValid(s: Sched, a: Action, r: Sched)
    requires Step(s, a, r)
    ensures Valid(r)
  {
    if a.ExitA? {
      ExitValid(s);
    }
  }

  ghost predicate Run(ss: seq<Sched>, acts: seq<Action>) {
    && |ss| == |acts| + 1
    && Valid(ss[0])
    && forall i | 0 <= i < |acts| :: Step(ss[i], acts[i], ss[i + 1])
  }

  // ------------------------------------------------------------------ priority classes

  // Last position of the priority class of position i.
  function ClassEnd(ring: seq<Thread>, i: nat): (e: nat)
    requires i < |ring|
    ensures i <= e < |ring|
    decreases |ring| - i
  {
    if i + 1 < |ring| && ring[i + 1].pri == ring[i].pri then ClassEnd(ring, i + 1) else i
  }

  lemma {:induction false} ClassEndSpec(ring: seq<Thread>, i: nat)
    requires i < |ring|
    ensures
      var e := ClassEnd(ring, i);
      && (forall j | i <= j <= e :: ring[j].pri == ring[i].pri)
      && (e + 1 < |ring| ==> ring[e + 1].pri != ring[i].pri)
    decreases |ring| - i
  {
    if i + 1 == |ring| || ring[i + 1].pri != ring[i].pri {
    } else {
      ClassEndSpec(ring, i + 1);
    }
  }

  function NextPosition(ring: seq<Thread>, i: nat): nat
    requires i < |ring|
  {
    if i == ClassEnd(ring, i) then 0 else i + 1
  }

  // Size of the best priority class.
  function TopSize(ring: seq<Thread>): nat
    requires ring != []
  {
    ClassEnd(ring, 0) + 1
  }

  ghost predicate InTop(s: Sched)
    requires Valid(s)
  {
    s.Running().pri == s.ring[0].pri
  }

  // The top class is exactly an initial segment of a sorted ring.
  lemma TopIsPrefix(ring: seq<Thread>, j: nat)
    requires Ordered(ring, PRIORITY) && j < |ring|
    ensures ring[j].pri == ring[0].pri <==> j < TopSize(ring)
  {
    var e := ClassEnd(ring, 0);
    ClassEndSpec(ring, 0);
    if j > e {
      assert PRIORITY(ring[0]) <= PRIORITY(ring[e + 1]) <= PRIORITY(ring[j]);
    }
  }

  lemma ClassEndOfMember(ring: seq<Thread>, i: nat, j: nat)
    requires i <= j < |ring| && j <= ClassEnd(ring, i)
    ensures ClassEnd(ring, j) == ClassEnd(ring, i)
    decreases j - i
  {
    if i < j {
      ClassEndOfMember(ring, i + 1, j);
    }
  }

  // What the pointer comparisons of uthread_yield amount to.
  lemma YieldWithinClass(s: Sched)
    requires s.cur < |s.ring| && Ordered(s.ring, PRIORITY)
    ensures Yield(s).cur == NextPosition(s.ring, s.cur)
  {
    if s.cur + 1 < |s.ring| {
      assert PRIORITY(s.ring[s.cur]) <= PRIORITY(s.ring[s.cur + 1]);
    }
  }

  // ------------------------------------------------------------------ repeated yields

  function Yields(s: Sched, m: nat): (r: Sched)
    requires s.cur < |s.ring|
    ensures r.cur < |r.ring| && r.ring == s.ring && r.live == s.live
  {
    if m == 0 then s else Yield(Yields(s, m - 1))
  }

  // x mod k, by repeated subtraction.
  function Residue(x: nat, k: nat): (r: nat)
    requires k > 0
    ensures r < k
  {
    if x < k then x else Residue(x - k, k)
  }

  lemma {:induction false} ResidueIsMod(x: nat, k: nat)
    requires k > 0
    ensures Residue(x, k) == x % k
  {
    if x < k {
    } else {
      ResidueIsMod(x - k, k);
      ModOneLess(x, k);
    }
  }

  lemma ModOneLess(x: nat, k: nat)
    requires 0 < k <= x
    ensures x % k == (x - k) % k
  {
    var q, r := (x - k) / k, (x - k) % k;
    assert x - k == q * k + r;
    assert (q + 1) * k == q * k + k;
    QuotientUnique(x / k, x % k, q + 1, r, k);
  }

  lemma QuotientUnique(q: int, r: nat, q': int, r': nat, k: nat)
    requires r < k && r' < k && q * k + r == q' * k + r'
    ensures r == r'
  {
    assert (q - q') * k == q * k - q' * k == r' - r;
    assert (q' - q) * k == r - r';
    if q > q' {
      MultipleAtLeast(q - q', k);
    } else if q < q' {
      MultipleAtLeast(q' - q, k);
    }
  }

  lemma {:induction false} MultipleAtLeast(d: nat, k: nat)
    requires d > 0
    ensures d * k >= k
  {
    if d == 1 {
    } else {
      MultipleAtLeast(d - 1, k);
      assert d * k == (d - 1) * k + k;
    }
  }

  lemma {:induction false} NextResidue(x: nat, k: nat)
    requires k > 0
    ensures Residue(x + 1, k) == if Residue(x, k) == k - 1 then 0 else Residue(x, k) + 1
  {
    if x < k {
    } else {
      NextResidue(x - k, k);
    }
  }

  // Closed form from any state: run to the end of the current class, then cycle through the
  // top class for ever.
  function Position(ring: seq<Thread>, i: nat, m: nat): (p: nat)
    requires i < |ring|
  {
    var toEnd := ClassEnd(ring, i) - i;
    if m <= toEnd then i + m else Residue(m - toEnd - 1, TopSize(ring))
  }

  lemma PositionStep(ring: seq<Thread>, i: nat, m: nat)
    requires i < |ring|
    ensures Position(ring, i, m) < |ring|
    ensures Position(ring, i, m + 1) == NextPosition(ring, Position(ring, i, m))
  {
    var toEnd := ClassEnd(ring, i) - i;
    var p := Position(ring, i, m);
    if m <= toEnd {
      ClassEndOfMember(ring, i, p);
    } else {
      ClassEndOfMember(ring, 0, p);
      NextResidue(m - toEnd - 1, TopSize(ring));
    }
  }

  lemma {:induction false} YieldsClosedForm(s: Sched, m: nat)
    requires Valid(s)
    ensures Yields(s, m).cur == Position(s.ring, s.cur, m)
  {
    if m == 0 {
    } else {
      var before := Yields(s, m - 1);
      YieldsClosedForm(s, m - 1);
      YieldWithinClass(before);
      PositionStep(s.ring, s.cur, m - 1);
    }
  }

  // Strict priority with round robin: a running top thread at index i runs next at (i + m) mod k.
  lemma RoundRobin(s: Sched, m: nat)
    requires Valid(s) && InTop(s)
    ensures Yields(s, m).cur == (s.cur + m) % TopSize(s.ring)
    ensures InTop(Yields(s, m))
  {
    var k := TopSize(s.ring);
    TopIsPrefix(s.ring, s.cur);
    TopPosition(s.ring, s.cur, m);
    YieldsClosedForm(s, m);
    ResidueIsMod(s.cur + m, k);
    TopIsPrefix(s.ring, Yields(s, m).cur);
  }

  lemma TopPosition(ring: seq<Thread>, i: nat, m: nat)
    requires i < |ring| && i < TopSize(ring)
    ensures Position(ring, i, m) == Residue(i + m, TopSize(ring))
  {
    ClassEndOfMember(ring, 0, i);
  }

  // In any k consecutive yields each thread of the class runs exactly once.
  lemma EachOncePerRound(s: Sched, j: nat, m: nat)
    requires Valid(s) && InTop(s) && j < TopSize(s.ring) && m < TopSize(s.ring)
    ensures Yields(s, m).cur == j
       <==> m == if s.cur <= j then j - s.cur else j - s.cur + TopSize(s.ring)
  {
    TopIsPrefix(s.ring, s.cur);
    TopPosition(s.ring, s.cur, m);
    YieldsClosedForm(s, m);
  }

  lemma InClass(ring: seq<Thread>, i: nat, j: nat)
    requires Ordered(ring, PRIORITY) && i <= j < |ring| && ring[j].pri == ring[i].pri
    ensures j <= ClassEnd(ring, i)
  {
    ClassEndSpec(ring, i);
    assert forall k | i <= k <= j :: PRIORITY(ring[i]) <= PRIORITY(ring[k]) <= PRIORITY(ring[j]);
  }

  // From any state, repeated yields are at the head for the first time (after step 0) after
  // exactly (end of the current class - current index + 1) of them.
  lemma HeadReached(s: Sched, m: nat)
    requires Valid(s) && 0 < m <= ClassEnd(s.ring, s.cur) - s.cur + 1
    ensures Yields(s, m).cur == 0 <==> m == ClassEnd(s.ring, s.cur) - s.cur + 1
  {
    YieldsClosedForm(s, m);
  }

  // Position j is ever scheduled by yields alone.
  ghost predicate EventuallyRuns(s: Sched, j: nat)
    requires Valid(s)
  {
    exists m: nat :: Yields(s, m).cur == j
  }

  // How many yields until position j runs, when it ever does.
  function Delay(ring: seq<Thread>, i: nat, j: nat): nat
    requires i < |ring|
  {
    if i <= j <= ClassEnd(ring, i) then j - i else ClassEnd(ring, i) - i + 1 + j
  }

  // Exactly which positions yields alone ever schedule: the rest of the running class and the
  // whole top class, each within the rest of the class plus one round of the top class.
  lemma ScheduledIff(s: Sched, j: nat)
    requires Valid(s) && j < |s.ring|
    ensures EventuallyRuns(s, j) <==> s.cur <= j <= ClassEnd(s.ring, s.cur) || j < TopSize(s.ring)
    ensures EventuallyRuns(s, j) ==>
              && Yields(s, Delay(s.ring, s.cur, j)).cur == j
              && Delay(s.ring, s.cur, j) <= ClassEnd(s.ring, s.cur) - s.cur + TopSize(s.ring)
  {
    if s.cur <= j <= ClassEnd(s.ring, s.cur) || j < TopSize(s.ring) {
      YieldsClosedForm(s, Delay(s.ring, s.cur, j));
      assert EventuallyRuns(s, j);
    } else {
      forall m: nat ensures Yields(s, m).cur != j {
        YieldsClosedForm(s, m);
      }
      assert !EventuallyRuns(s, j);
    }
  }

  // ------------------------------------------------------------------ exits and creates

  // Exit hands the processor to the thread a yield would have chosen, or, when a yield would
  // have kept the exiting head running, to its successor.
  lemma ExitRunsYieldTarget(s: Sched)
    requires Valid(s) && |s.ring| > 1
    ensures Exit(s).Running() ==
            if Yield(s).Running() == s.Running() then s.ring[1] else Yield(s).Running()
  {
  }

  lemma ExitKeepsTop(s: Sched)
    requires Valid(s) && InTop(s) && |s.ring| > 1
    ensures var r := Exit(s); r.Running().pri == r.ring[0].pri
  {
  }

  lemma HeadIsMinimum(ring: seq<Thread>, x: Thread)
    requires Ordered(ring, PRIORITY) && x in multiset(ring)
    ensures ring[0].pri <= x.pri
  {
    var i := IndexIn(x, ring);
    assert PRIORITY(ring[0]) <= PRIORITY(ring[i]);
  }

  lemma CreateHead(s: Sched, t: Thread, r: Sched)
    requires Create(s, t, r)
    ensures r.ring[0].pri == if t.pri < s.ring[0].pri then t.pri else s.ring[0].pri
  {
    assert r.ring[0] in multiset(r.ring) && s.ring[0] in multiset(s.ring);
    HeadIsMinimum(r.ring, s.ring[0]);
    HeadIsMinimum(r.ring, t);
    if r.ring[0] != t {
      HeadIsMinimum(s.ring, r.ring[0]);
    }
  }

  // One step from a top-class state stays in the top class unless it creates a thread strictly
  // better than the head.
  lemma TopPreservedIff(s: Sched, a: Action, r: Sched)
    requires Step(s, a, r) && InTop(s)
    ensures Valid(r)
    ensures InTop(r) <==> !(a.CreateA? && a.t.pri < s.ring[0].pri)
  {
    StepValid(s, a, r);
    match a
    case YieldA =>
    case ExitA => ExitKeepsTop(s);
    case CreateA(t) => CreateHead(s, t, r);
  }

  // Nobody is switched in by a create: in every run the same thread runs before and after it.
  lemma CreateSwitchesNobody(ss: seq<Sched>, acts: seq<Action>, i: nat)
    requires Run(ss, acts) && i < |acts| && acts[i].CreateA?
    ensures ss[i].cur < |ss[i].ring| && ss[i + 1].cur < |ss[i + 1].ring|
    ensures ss[i + 1].ring[ss[i + 1].cur] == ss[i].ring[ss[i].cur]
  {
    assert Step(ss[i], acts[i], ss[i + 1]);
  }

  // Over a whole run: once in the top class, always there, as long as no create beats the head.
  lemma {:induction false} TopClassPersists(ss: seq<Sched>, acts: seq<Action>, n: nat)
    requires Run(ss, acts) && n <= |acts|
    requires InTop(ss[0])
    requires forall i | 0 <= i < n && acts[i].CreateA? :: ss[i].ring != [] && acts[i].t.pri >= ss[i].ring[0].pri
    ensures Valid(ss[n]) && InTop(ss[n])
  {
    if n == 0 {
    } else {
      TopClassPersists(ss, acts, n - 1);
      TopPreservedIff(ss[n - 1], acts[n - 1], ss[n]);
    }
  }

  // ------------------------------------------------------------------ switches in the top class

  ghost predicate TopThread(s: Sched, t: Thread)
    requires Valid(s)
  {
    t in s.ring && t.pri == s.ring[0].pri
  }

  function PlaceOf(ring: seq<Thread>, t: Thread): (j: nat)
    requires t in ring
    ensures j < |ring| && ring[j] == t
  {
    if ring[0] == t then 0 else PlaceOf(ring[1..], t) + 1
  }

  // How many positions of the top class t is away from the running thread, round the class.
  function Distance(s: Sched, t: Thread): int
    requires s.cur < |s.ring| && t in s.ring
  {
    var j := PlaceOf(s.ring, t);
    if s.cur <= j then j - s.cur else j - s.cur + TopSize(s.ring)
  }

  lemma PlaceIs(ring: seq<Thread>, t: Thread, j: nat)
    requires DistinctIds(ring) && j < |ring| && ring[j] == t
    ensures PlaceOf(ring, t) == j
  {
    assert ring[PlaceOf(ring, t)].id == ring[j].id;
  }

  lemma DistanceZero(s: Sched, t: Thread)
    requires Valid(s) && InTop(s) && TopThread(s, t)
    ensures 0 <= Distance(s, t) < TopSize(s.ring)
    ensures Distance(s, t) == 0 <==> s.Running() == t
  {
    TopIsPrefix(s.ring, s.cur);
    TopIsPrefix(s.ring, PlaceOf(s.ring, t));
    if s.Running() == t {
      PlaceIs(s.ring, t, s.cur);
    }
  }

  // Each yield and each exit brings t one position nearer.
  lemma YieldApproaches(s: Sched, t: Thread)
    requires Valid(s) && InTop(s) && TopThread(s, t) && s.Running() != t
    ensures InTop(Yield(s)) && TopThread(Yield(s), t) && Distance(Yield(s), t) == Distance(s, t) - 1
  {
    TopIsPrefix(s.ring, s.cur);
    TopIsPrefix(s.ring, PlaceOf(s.ring, t));
    YieldWithinClass(s);
    ClassEndOfMember(s.ring, 0, s.cur);
  }

  lemma TopSizeIs(ring: seq<Thread>, k: nat)
    requires 0 < k <= |ring| && (forall i | 0 <= i < k :: ring[i].pri == ring[0].pri)
    requires k < |ring| ==> ring[k].pri != ring[0].pri
    ensures TopSize(ring) == k
  {
    ClassEndSpec(ring, 0);
  }

  lemma ExitTopSize(s: Sched)
    requires Valid(s) && InTop(s) && TopSize(s.ring) > 1
    ensures |s.ring| > 1 && TopSize(Exit(s).ring) == TopSize(s.ring) - 1
  {
    ClassEndSpec(s.ring, 0);
    TopIsPrefix(s.ring, s.cur);
    TopSizeIs(Exit(s).ring, TopSize(s.ring) - 1);
  }

  lemma ExitTarget(s: Sched)
    requires Valid(s) && InTop(s) && |s.ring| > 1
    ensures Exit(s).cur == if s.cur + 1 == TopSize(s.ring) then 0 else s.cur
  {
    TopIsPrefix(s.ring, s.cur);
    YieldWithinClass(s);
    ClassEndOfMember(s.ring, 0, s.cur);
  }

  lemma ExitApproaches(s: Sched, t: Thread)
    requires Valid(s) && InTop(s) && TopThread(s, t) && s.Running() != t && |s.ring| > 1
    ensures
      var r := Exit(s);
      Valid(r) && InTop(r) && TopThread(r, t) && Distance(r, t) == Distance(s, t) - 1
  {
    var r, j := Exit(s), PlaceOf(s.ring, t);
    ExitValid(s);
    ExitKeepsTop(s);
    TopIsPrefix(s.ring, s.cur);
    TopIsPrefix(s.ring, j);
    var j' := if j < s.cur then j else j - 1;
    assert r.ring[j'] == t;
    PlaceIs(r.ring, t, j');
    ExitTopSize(s);
    ExitTarget(s);
  }

  // ------------------------------------------------------------------ conservation

  function New(a: Action): multiset<Thread> {
    if a.CreateA? then multiset{a.t} else multiset{}
  }

  function Gone(s: Sched, a: Action): multiset<Thread>
    requires s.cur < |s.ring|
  {
    if a.ExitA? then multiset{s.Running()} else multiset{}
  }

  // The threads created in the first n steps.
  function Created(acts: seq<Action>, n: nat): multiset<Thread>
    requires n <= |acts|
  {
    if n == 0 then multiset{} else Created(acts, n - 1) + New(acts[n - 1])
  }

  ghost predicate Indexed(ss: seq<Sched>, acts: seq<Action>) {
    |ss| == |acts| + 1 && forall i | 0 <= i < |ss| :: ss[i].cur < |ss[i].ring|
  }

  // The threads that exited in the first n steps.
  function Exited(ss: seq<Sched>, acts: seq<Action>, n: nat): multiset<Thread>
    requires Indexed(ss, acts) && n <= |acts|
  {
    if n == 0 then multiset{} else Exited(ss, acts, n - 1) + Gone(ss[n - 1], acts[n - 1])
  }

  ghost predicate Conserves(s: Sched, a: Action, r: Sched)
    requires s.cur < |s.ring|
  {
    && multiset(r.ring) + Gone(s, a) == multiset(s.ring) + New(a)
    && r.live == s.live + |New(a)|
  }

  lemma StepConserves(s: Sched, a: Action, r: Sched)
    requires Step(s, a, r)
    ensures Conserves(s, a, r)
  {
    WithoutMultiset(s.ring, s.cur);
  }

  lemma {:induction false} SumOfSteps(ss: seq<Sched>, acts: seq<Action>, n: nat)
    requires Indexed(ss, acts) && n <= |acts|
    requires forall i | 0 <= i < |acts| :: Conserves(ss[i], acts[i], ss[i + 1])
    ensures multiset(ss[n].ring) + Exited(ss, acts, n) == multiset(ss[0].ring) + Created(acts, n)
    ensures ss[n].live == ss[0].live + |Created(acts, n)|
  {
    if n == 0 {
    } else {
      SumOfSteps(ss, acts, n - 1);
      assert Conserves(ss[n - 1], acts[n - 1], ss[n]);
      Rebalance(multiset(ss[n - 1].ring), multiset(ss[n].ring), Exited(ss, acts, n - 1),
                multiset(ss[0].ring), Created(acts, n - 1), Gone(ss[n - 1], acts[n - 1]), New(acts[n - 1]));
    }
  }

  lemma Rebalance<T>(ring: multiset<T>, ring': multiset<T>, out: multiset<T>, start: multiset<T>,
                     made: multiset<T>, gone: multiset<T>, arrived: multiset<T>)
    requires ring + out == start + made
    requires ring' + gone == ring + arrived
    ensures ring' + (out + gone) == start + (made + arrived)
  {
    assert ring' + (out + gone) == (ring' + gone) + out;
    assert ring + arrived + out == (ring + out) + arrived;
  }

  // No thread is lost or duplicated by sorting and relinking: at every moment the ring plus the
  // exited threads are the initial threads plus the created ones; and live_uthreads counts
  // every thread ever made.
  lemma Conservation(ss: seq<Sched>, acts: seq<Action>, n: nat)
    requires Run(ss, acts) && n <= |acts|
    ensures Indexed(ss, acts)
    ensures multiset(ss[n].ring) + Exited(ss, acts, n) == multiset(ss[0].ring) + Created(acts, n)
    ensures ss[n].live == ss[0].live + |Created(acts, n)|
  {
    RunValid(ss, acts);
    forall i | 0 <= i < |acts| ensures Conserves(ss[i], acts[i], ss[i + 1]) {
      StepConserves(ss[i], acts[i], ss[i + 1]);
    }
    SumOfSteps(ss, acts, n);
  }

  lemma RunValid(ss: seq<Sched>, acts: seq<Action>)
    requires Run(ss, acts)
    ensures forall i | 0 <= i < |ss| :: Valid(ss[i])
  {
    forall i | 0 <= i < |ss| ensures Valid(ss[i]) {
      if i > 0 {
        StepValid(ss[i - 1], acts[i - 1], ss[i]);
      }
    }
  }

  // The counter is never decremented, so a create after an exit would sort slots that were
  // never filled: in every run from the initial state, all creates come before the first exit.
  lemma CreatesPrecedeExits(ss: seq<Sched>, acts: seq<Action>, i: nat, j: nat)
    requires Run(ss, acts) && i < j < |acts|
    requires acts[i].ExitA?
    ensures !acts[j].CreateA?
  {
    assert Step(ss[i], acts[i], ss[i + 1]);
    GapNeverCloses(ss, acts, i + 1, j);
    assert Step(ss[j], acts[j], ss[j + 1]);
  }

  lemma {:induction false} GapNeverCloses(ss: seq<Sched>, acts: seq<Action>, i: nat, j: nat)
    requires Run(ss, acts) && i <= j <= |acts|
    requires ss[i].live > |ss[i].ring|
    ensures ss[j].live > |ss[j].ring|
  {
    if i == j {
    } else {
      GapNeverCloses(ss, acts, i, j - 1);
      assert Step(ss[j - 1], acts[j - 1], ss[j]);
    }
  }

  // In runs from the start, the counter exceeds the ring, so that a create would sort unfilled
  // slots, exactly when some thread has exited.
  lemma {:induction false} UnfilledIff(ss: seq<Sched>, acts: seq<Action>, n: nat)
    requires Run(ss, acts) && ss[0] == Init() && n <= |acts|
    ensures Valid(ss[n])
    ensures ss[n].live > |ss[n].ring| <==> exists i :: 0 <= i < n && acts[i].ExitA?
  {
    if n == 0 {
    } else {
      UnfilledIff(ss, acts, n - 1);
      assert Step(ss[n - 1], acts[n - 1], ss[n]);
      StepValid(ss[n - 1], acts[n - 1], ss[n]);
      StepGap(ss[n - 1], acts[n - 1], ss[n]);
    }
  }

  lemma StepGap(s: Sched, a: Action, r: Sched)
    requires Step(s, a, r)
    ensures r.live > |r.ring| <==> s.live > |s.ring| || a.ExitA?
  {
    StepConserves(s, a, r);
    assert |multiset(r.ring) + Gone(s, a)| == |multiset(s.ring) + New(a)|;
  }
}
