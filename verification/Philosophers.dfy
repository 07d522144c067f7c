// The dining philosophers of Asmt_5/philosophers/philosophers.c as a transition system over any
// number of philosophers and any interleaving of their statements. pthread mutexes are owners,
// the condition variable is the set of parked philosophers; a signal wakes at least one parked
// philosopher if there is one, and a parked philosopher may also wake spuriously.
module Philosophers {
  import opened Basics
  import opened Tally

  // The statement a philosopher is about to execute (lines 128-156).
  datatype Pc =
    | Think         // sleep, then become hungry
    | Try           // trylock of the chopstick lock
    | LockCv        // the trylock failed
    | Wait          // pthread_cond_wait: release and park
    | Parked        // inside pthread_cond_wait, not woken
    | Reacquire     // woken, inside pthread_cond_wait
    | UnlockCv
    | LockChop
    | PickRight
    | PickLeft
    | StartEat      // update_state to EATING
    | Eat           // the meal itself
    | PutRight
    | PutLeft
    | LockSignal
    | Signal
    | UnlockSignal
    | EndEat        // update_state to THINKING
    | UnlockChop

  datatype Mood = THINKING | HUNGRY | EATING

  datatype Table = Table(
    pc: seq<Pc>,
    mood: seq<Mood>,
    down: seq<bool>,          // chopsticks; number c lies between philosophers c - 1 and c
    chop: Option<nat>,        // owner of chopstick_manipulation_lock
    cv: Option<nat>)          // owner of canEat_mutex

  // The wiring of main: left is the own chopstick, right the next one round.
  function Left(n: nat, p: nat): nat { p }

  function Right(n: nat, p: nat): nat
    requires n > 0
  {
    (p + 1) % n
  }

  ghost predicate Shape(s: Table, n: nat) {
    n > 0 && |s.pc| == |s.mood| == |s.down| == n
  }

  function Start(n: nat): Table {
    Table(seq(n, _ => Think), seq(n, _ => THINKING), seq(n, _ => true), None, None)
  }

  // ------------------------------------------------------------------ transitions

  // Running(p, woken): philosopher p executes its statement; woken is used by Signal only.
  datatype Move = Running(p: nat, woken: set<nat>) | Spurious(p: nat)

  // Can p execute its statement without being woken?
  predicate Enabled(s: Table, p: nat)
    requires p < |s.pc|
  {
    match s.pc[p]
    case Parked => false
    case LockCv | Reacquire | LockSignal => s.cv == None
    case LockChop => s.chop == None
    case _ => true
  }

  predicate IsParked(s: Table, q: nat) {
    q < |s.pc| && s.pc[q] == Parked
  }

  ghost predicate LegalWakeup(s: Table, woken: set<nat>) {
    && (forall q | q in woken :: IsParked(s, q))
    && (woken == {} ==> forall q: nat :: !IsParked(s, q))
  }

  function Awaken(pc: seq<Pc>, woken: set<nat>): seq<Pc> {
    seq(|pc|, i requires 0 <= i < |pc| => if i in woken then Reacquire else pc[i])
  }

  // The effect of p's statement, the wake-ups of Signal aside.
  function Do(s: Table, p: nat): Table
    requires p < |s.pc| == |s.mood| == |s.down| && Enabled(s, p)
  {
    var n := |s.pc|;
    match s.pc[p]
    case Think => s.(mood := s.mood[p := HUNGRY], pc := s.pc[p := Try])
    case Try => if s.chop == None then s.(chop := Some(p), pc := s.pc[p := PickRight])
                else s.(pc := s.pc[p := LockCv])
    case LockCv => s.(cv := Some(p), pc := s.pc[p := Wait])
    case Wait => s.(cv := None, pc := s.pc[p := Parked])
    case Parked => s
    case Reacquire => s.(cv := Some(p), pc := s.pc[p := UnlockCv])
    case UnlockCv => s.(cv := None, pc := s.pc[p := LockChop])
    case LockChop => s.(chop := Some(p), pc := s.pc[p := PickRight])
    case PickRight => s.(down := s.down[Right(n, p) := false], pc := s.pc[p := PickLeft])
    case PickLeft => s.(down := s.down[Left(n, p) := false], pc := s.pc[p := StartEat])
    case StartEat => s.(mood := s.mood[p := EATING], pc := s.pc[p := Eat])
    case Eat => s.(pc := s.pc[p := PutRight])
    case PutRight => s.(down := s.down[Right(n, p) := true], pc := s.pc[p := PutLeft])
    case PutLeft => s.(down := s.down[Left(n, p) := true], pc := s.pc[p := LockSignal])
    case LockSignal => s.(cv := Some(p), pc := s.pc[p := Signal])
    case Signal => s.(pc := s.pc[p := UnlockSignal])
    case UnlockSignal => s.(cv := None, pc := s.pc[p := EndEat])
    case EndEat => s.(mood := s.mood[p := THINKING], pc := s.pc[p := UnlockChop])
    case UnlockChop => s.(chop := None, pc := s.pc[p := Think])
  }

  ghost predicate Step(n: nat, s: Table, m: Move, r: Table) {
    && Shape(s, n)
    && m.p < n
    && match m
       case Running(p, woken) =>
         && Enabled(s, p)
         && (if s.pc[p] == Signal then LegalWakeup(s, woken) else woken == {})
         && r == Do(s, p).(pc := Awaken(Do(s, p).pc, woken))
       case Spurious(p) =>
         && s.pc[p] == Parked
         && r == s.(pc := s.pc[p := Reacquire])
  }

  ghost predicate Run(n: nat, ss: seq<Table>, ms: seq<Move>) {
    && |ss| == |ms| + 1
    && forall i | 0 <= i < |ms| :: Step(n, ss[i], ms[i], ss[i + 1])
  }

  // ------------------------------------------------------------------ invariant

  predicate HoldsChop(pc: Pc) {
    pc.PickRight? || pc.PickLeft? || pc.StartEat? || pc.Eat? || pc.PutRight? || pc.PutLeft?
    || pc.LockSignal? || pc.Signal? || pc.UnlockSignal? || pc.EndEat? || pc.UnlockChop?
  }

  predicate HoldsCv(pc: Pc) {
    pc.Wait? || pc.UnlockCv? || pc.Signal? || pc.UnlockSignal?
  }

  // Failed the trylock and not yet woken.
  predicate Stuck(pc: Pc) {
    pc.LockCv? || pc.Wait? || pc.Parked?
  }

  // Is chopstick c up while p holds the lock at pc? With one philosopher both are the same.
  function Up(n: nat, p: nat, pc: Pc, c: nat): bool
    requires n > 0
  {
    if c == Right(n, p) then pc.PickLeft? || pc.StartEat? || pc.Eat? || pc.PutRight?
    else c == Left(n, p) && (pc.StartEat? || pc.Eat? || pc.PutRight? || pc.PutLeft?)
  }

  function MoodAt(pc: Pc): Mood {
    if pc.Think? || pc.UnlockChop? then THINKING
    else if pc.Eat? || pc.PutRight? || pc.PutLeft? || pc.LockSignal? || pc.Signal?
            || pc.UnlockSignal? || pc.EndEat? then EATING
    else HUNGRY
  }

  ghost predicate Owners(n: nat, s: Table)
    requires Shape(s, n)
  {
    && (s.chop.Some? ==> s.chop.value < n)
    && (s.cv.Some? ==> s.cv.value < n)
    && (forall p | 0 <= p < n :: HoldsChop(s.pc[p]) <==> s.chop == Some(p))
    && (forall p | 0 <= p < n :: HoldsCv(s.pc[p]) <==> s.cv == Some(p))
  }

  ghost predicate Moods(n: nat, s: Table)
    requires Shape(s, n)
  {
    forall p | 0 <= p < n :: s.mood[p] == MoodAt(s.pc[p])
  }

  ghost predicate Chopsticks(n: nat, s: Table)
    requires Shape(s, n) && Owners(n, s)
  {
    forall c | 0 <= c < n ::
      s.down[c] <==> !(s.chop.Some? && Up(n, s.chop.value, s.pc[s.chop.value], c))
  }

  ghost predicate SomeoneFree(n: nat, s: Table)
    requires Shape(s, n)
  {
    exists p :: 0 <= p < n && !Stuck(s.pc[p])
  }

  ghost predicate Inv(n: nat, s: Table) {
    Shape(s, n) && Owners(n, s) && Moods(n, s) && Chopsticks(n, s) && SomeoneFree(n, s)
  }

  // A step leaves every other philosopher where it is, or turns Parked into Reacquire.
  lemma Others(n: nat, s: Table, m: Move, r: Table, q: nat)
    requires Step(n, s, m, r) && q < n && q != m.p
    ensures Shape(r, n)
    ensures r.pc[q] == s.pc[q] || (s.pc[q] == Parked && r.pc[q] == Reacquire)
    ensures r.mood[q] == s.mood[q]
  {
  }

  lemma Mover(n: nat, s: Table, p: nat, woken: set<nat>, r: Table)
    requires Step(n, s, Running(p, woken), r)
    ensures Shape(r, n) && r.pc[p] == Do(s, p).pc[p]
    ensures r.mood == Do(s, p).mood && r.down == Do(s, p).down && r.chop == Do(s, p).chop && r.cv == Do(s, p).cv
  {
    assert s.pc[p] != Parked;
  }

  // A statement takes a free lock, gives back an own one, or leaves it alone.
  predicate LockMove(before: Option<nat>, after: Option<nat>, p: nat) {
    after == before || (before == None && after == Some(p)) || (before == Some(p) && after == None)
  }

  lemma DoOwners(n: nat, s: Table, p: nat)
    requires Shape(s, n) && Owners(n, s) && p < n && Enabled(s, p)
    ensures var r := Do(s, p);
            && Shape(r, n)
            && LockMove(s.chop, r.chop, p) && LockMove(s.cv, r.cv, p)
            && (HoldsChop(r.pc[p]) <==> r.chop == Some(p))
            && (HoldsCv(r.pc[p]) <==> r.cv == Some(p))
  {
    assert HoldsChop(s.pc[p]) <==> s.chop == Some(p);
    assert HoldsCv(s.pc[p]) <==> s.cv == Some(p);
  }

  lemma StepOwners(n: nat, s: Table, m: Move, r: Table)
    requires Shape(s, n) && Owners(n, s) && Step(n, s, m, r)
    ensures Shape(r, n) && Owners(n, r)
  {
    if m.Running? {
      Mover(n, s, m.p, m.woken, r);
      DoOwners(n, s, m.p);
    }
    forall q | 0 <= q < n
      ensures HoldsChop(r.pc[q]) <==> r.chop == Some(q)
      ensures HoldsCv(r.pc[q]) <==> r.cv == Some(q)
    {
      if q != m.p {
        Others(n, s, m, r, q);
      }
    }
  }

  lemma StepMoods(n: nat, s: Table, m: Move, r: Table)
    requires Shape(s, n) && Moods(n, s) && Step(n, s, m, r)
    ensures Shape(r, n) && Moods(n, r)
  {
    forall q | 0 <= q < n && q != m.p ensures r.mood[q] == MoodAt(r.pc[q]) {
      Others(n, s, m, r, q);
    }
    if m.Running? {
      Mover(n, s, m.p, m.woken, r);
    }
  }

  // Only the holder of the chopstick lock touches chopsticks.
  lemma StepChopsticks(n: nat, s: Table, m: Move, r: Table)
    requires Shape(s, n) && Owners(n, s) && Chopsticks(n, s) && Step(n, s, m, r)
    requires Shape(r, n) && Owners(n, r)
    ensures Chopsticks(n, r)
  {
    if m.Running? {
      Mover(n, s, m.p, m.woken, r);
    }
    if s.chop.Some? && s.chop.value != m.p {
      Others(n, s, m, r, s.chop.value);
    }
  }

  // A trylock fails only while somebody else holds the chopstick lock, and that one is not stuck.
  lemma StepSomeoneFree(n: nat, s: Table, m: Move, r: Table)
    requires Shape(s, n) && Owners(n, s) && SomeoneFree(n, s) && Step(n, s, m, r)
    ensures Shape(r, n) && SomeoneFree(n, r)
  {
    var free :| 0 <= free < n && !Stuck(s.pc[free]);
    if m.Running? {
      Mover(n, s, m.p, m.woken, r);
      if s.pc[m.p] == Try && s.chop.Some? {
        free := s.chop.value;
      }
    }
    if free != m.p {
      Others(n, s, m, r, free);
    }
    assert !Stuck(r.pc[free]);
  }

  lemma StepKeepsInv(n: nat, s: Table, m: Move, r: Table)
    requires Inv(n, s) && Step(n, s, m, r)
    ensures Inv(n, r)
  {
    StepOwners(n, s, m, r);
    StepMoods(n, s, m, r);
    StepChopsticks(n, s, m, r);
    StepSomeoneFree(n, s, m, r);
  }

  lemma {:induction false} RunKeepsInv(n: nat, ss: seq<Table>, ms: seq<Move>, k: nat)
    requires n > 0 && Run(n, ss, ms) && ss[0] == Start(n) && k <= |ms|
    ensures Inv(n, ss[k])
  {
    if k == 0 {
      assert !Stuck(ss[0].pc[0]);
    } else {
      RunKeepsInv(n, ss, ms, k - 1);
      StepKeepsInv(n, ss[k - 1], ms[k - 1], ss[k]);
    }
  }

  // ------------------------------------------------------------------ safety

  lemma InvSafe(n: nat, s: Table)
    requires Inv(n, s)
    ensures forall p, q | 0 <= p < n && 0 <= q < n && s.mood[p] == EATING && s.mood[q] == EATING :: p == q
    ensures forall p | 0 <= p < n && s.pc[p] == Eat ::
              s.mood[p] == EATING && !s.down[Left(n, p)] && !s.down[Right(n, p)]
    ensures s.chop == None ==> (forall c | 0 <= c < n :: s.down[c]) && (forall p | 0 <= p < n :: s.mood[p] != EATING)
  {
    forall p | 0 <= p < n && s.mood[p] == EATING ensures s.chop == Some(p) {
      assert HoldsChop(s.pc[p]);
    }
    forall p | 0 <= p < n && s.pc[p] == Eat ensures !s.down[Left(n, p)] && !s.down[Right(n, p)] {
      assert Up(n, p, Eat, Left(n, p)) && Up(n, p, Eat, Right(n, p));
    }
  }

  // Which chopsticks are up at which statement: the own one, p, and the next one round, taken in
  // the order right, left and put back in the same order. With two philosophers or more they are
  // two. All are down when the signal is sent, under both locks.
  lemma ChopsticksByStatement(n: nat, s: Table, p: nat)
    requires Inv(n, s) && p < n
    ensures
      var next := if p + 1 == n then 0 else p + 1;
      && (n >= 2 ==> next != p)
      && (n >= 2 && s.pc[p] == PickLeft ==> s.down[p] && !s.down[next])
      && (s.pc[p] == StartEat || s.pc[p] == Eat || s.pc[p] == PutRight ==> !s.down[p] && !s.down[next])
      && (n >= 2 && s.pc[p] == PutLeft ==> !s.down[p] && s.down[next])
    ensures s.pc[p] == PickRight || s.pc[p] == LockSignal || s.pc[p] == Signal || s.pc[p] == EndEat ==>
              forall c | 0 <= c < n :: s.down[c]
    ensures s.pc[p] == Signal ==> s.chop == Some(p) && s.cv == Some(p)
    ensures s.pc[p] == UnlockChop ==> s.chop == Some(p) && s.cv != Some(p)
  {
    NextIsRight(n, p);
  }

  lemma NextIsRight(n: nat, p: nat)
    requires p < n
    ensures Right(n, p) == if p + 1 == n then 0 else p + 1
  {
  }

  // Chopstick safety in every reachable state.
  lemma ChopstickSafety(n: nat, ss: seq<Table>, ms: seq<Move>, k: nat)
    requires n > 0 && Run(n, ss, ms) && ss[0] == Start(n) && k <= |ms|
    ensures
      var s := ss[k];
      && Shape(s, n)
      && (forall p, q | 0 <= p < n && 0 <= q < n && s.mood[p] == EATING && s.mood[q] == EATING :: p == q)
      && (forall p | 0 <= p < n && s.pc[p] == Eat ::
            s.mood[p] == EATING && !s.down[Left(n, p)] && !s.down[Right(n, p)])
      && (s.chop == None ==> (forall c | 0 <= c < n :: s.down[c]) && (forall p | 0 <= p < n :: s.mood[p] != EATING))
  {
    RunKeepsInv(n, ss, ms, k);
    InvSafe(n, ss[k]);
  }

  // ------------------------------------------------------------------ the threads' statements

  // The shared objects of the program and each philosopher's control point. Philosopher advances
  // philosopher p by its next statement; a blocking call is made only while it does not block.
  class Dining {
    const n: nat
    const left: array<nat>   // chopstick numbers, as main wires them
    const right: array<nat>
    const down: array<bool>
    const mood: array<Mood>
    var pc: seq<Pc>
    var chop: Option<nat>
    var cv: Option<nat>

    ghost function Abs(): Table
      reads this, down, mood
    {
      Table(pc, mood[..], down[..], chop, cv)
    }

    ghost predicate Valid()
      reads this, down, mood, left, right
    {
      && Shape(Abs(), n) && left != right
      && left.Length == right.Length == n
      && forall p | 0 <= p < n :: left[p] == Left(n, p) && right[p] == Right(n, p)
    }

    constructor (count: nat)
      requires count > 0
      ensures Valid() && n == count && Abs() == Start(count) && fresh(down) && fresh(mood)
      ensures Inv(n, Abs())
      ensures forall p | 0 <= p < n :: left[p] == p && right[p] == left[if p + 1 == n then 0 else p + 1]
      ensures forall p | 0 <= p < n :: n >= 2 ==> left[p] != right[p]
    {
      n := count;
      down := new bool[count](_ => true);
      mood := new Mood[count](_ => THINKING);
      left := new nat[count](i => i);
      right := new nat[count](i requires 0 <= i => (i + 1) % count);
      pc := seq(count, _ => Think);
      chop, cv := None, None;
      new;
      RunKeepsInv(count, [Abs()], [], 0);
      WiringClosesRing();
    }

    // The wiring of main: the own chopstick on the left, the next one's on the right, and the
    // last philosopher shares one with the first.
    lemma WiringClosesRing()
      requires Valid()
      ensures forall p | 0 <= p < n :: left[p] == p && right[p] == left[if p + 1 == n then 0 else p + 1]
      ensures forall p | 0 <= p < n :: n >= 2 ==> left[p] != right[p]
    {
      forall p | 0 <= p < n ensures Right(n, p) == if p + 1 == n then 0 else p + 1 {
        NextIsRight(n, p);
      }
    }

    method PickupRight(p: nat)
      requires Valid() && p < n
      modifies down
      ensures Valid() && down[..] == old(down[..])[Right(n, p) := false]
    {
      down[right[p]] := false;
    }

    method PickupLeft(p: nat)
      requires Valid() && p < n
      modifies down
      ensures Valid() && down[..] == old(down[..])[Left(n, p) := false]
    {
      down[left[p]] := false;
    }

    method PutdownRight(p: nat)
      requires Valid() && p < n
      modifies down
      ensures Valid() && down[..] == old(down[..])[Right(n, p) := true]
    {
      down[right[p]] := true;
    }

    method PutdownLeft(p: nat)
      requires Valid() && p < n
      modifies down
      ensures Valid() && down[..] == old(down[..])[Left(n, p) := true]
    {
      down[left[p]] := true;
    }

    method UpdateState(p: nat, state: Mood)
      requires Valid() && p < n
      modifies mood
      ensures Valid() && mood[..] == old(mood[..])[p := state]
    {
      mood[p] := state;
    }

    method Statement(p: nat, woken: set<nat>)
      requires Valid() && p < n && Enabled(Abs(), p)
      requires if pc[p] == Signal then LegalWakeup(Abs(), woken) else woken == {}
      modifies this, down, mood
      ensures Valid() && Step(n, old(Abs()), Running(p, woken), Abs())
    {
      var next := pc[p];
      match pc[p] {
        case Think => UpdateState(p, HUNGRY); next := Try;
        case Try =>
          if chop == None { chop := Some(p); next := PickRight; } else { next := LockCv; }
        case LockCv => cv := Some(p); next := Wait;
        case Wait => cv := None; next := Parked;
        case Parked =>
        case Reacquire => cv := Some(p); next := UnlockCv;
        case UnlockCv => cv := None; next := LockChop;
        case LockChop => chop := Some(p); next := PickRight;
        case PickRight => PickupRight(p); next := PickLeft;
        case PickLeft => PickupLeft(p); next := StartEat;
        case StartEat => UpdateState(p, EATING); next := Eat;
        case Eat => next := PutRight;
        case PutRight => PutdownRight(p); next := PutLeft;
        case PutLeft => PutdownLeft(p); next := LockSignal;
        case LockSignal => cv := Some(p); next := Signal;
        case Signal => next := UnlockSignal;
        case UnlockSignal => cv := None; next := EndEat;
        case EndEat => UpdateState(p, THINKING); next := UnlockChop;
        case UnlockChop => chop := None; next := Think;
      }
      pc := Awaken(pc[p := next], woken);
    }

    // The next statement of philosopher p; woken is whom pthread_cond_signal wakes, when p is
    // about to signal. Whoever sits down to the meal eats alone, with both chopsticks up.
    method Philosopher(p: nat, woken: set<nat>)
      requires Valid() && Inv(n, Abs()) && p < n && Enabled(Abs(), p)
      requires if pc[p] == Signal then LegalWakeup(Abs(), woken) else woken == {}
      modifies this, down, mood
      ensures Valid() && Inv(n, Abs()) && Step(n, old(Abs()), Running(p, woken), Abs())
      ensures pc[p] == Eat ==>
                && !down[left[p]] && !down[right[p]] && !down[p] && !down[if p + 1 == n then 0 else p + 1]
                && forall q | 0 <= q < n :: mood[q] == EATING <==> q == p
    {
      ghost var s := Abs();
      Statement(p, woken);
      StepKeepsInv(n, s, Running(p, woken), Abs());
      InvSafe(n, Abs());
      NextIsRight(n, p);
    }
  }

  // ------------------------------------------------------------------ no deadlock, no livelock

  // Some philosopher has a statement it can execute now, without any spurious wake-up.
  lemma AlwaysEnabled(n: nat, s: Table)
    requires Inv(n, s)
    ensures exists p :: 0 <= p < n && Enabled(s, p)
  {
    var free :| 0 <= free < n && !Stuck(s.pc[free]);
    if !Enabled(s, free) {
      if s.pc[free] == LockChop {
        var holder := s.chop.value;
        assert HoldsChop(s.pc[holder]);
        if !Enabled(s, holder) {
          assert s.pc[holder] == LockSignal && HoldsCv(s.pc[s.cv.value]);
          assert Enabled(s, s.cv.value);
        }
      } else {
        assert HoldsCv(s.pc[s.cv.value]);
        assert Enabled(s, s.cv.value);
      }
    }
  }

  // Distance to the next meal, counted backwards from its start round the philosopher's cycle.
  // Parking is followed by being woken, so a signal or a spurious wake-up also moves forward.
  function Rank(pc: Pc): nat {
    match pc
    case StartEat => 0
    case PickLeft => 1
    case PickRight => 2
    case LockChop => 3
    case UnlockCv => 4
    case Reacquire => 5
    case Parked => 6
    case Wait => 7
    case LockCv => 8
    case Try => 9
    case Think => 10
    case UnlockChop => 11
    case EndEat => 12
    case UnlockSignal => 13
    case Signal => 14
    case LockSignal => 15
    case PutLeft => 16
    case PutRight => 17
    case Eat => 18
  }

  const MAX_RANK := 18

  function Total(s: Table): nat {
    Sum(s.pc, Rank)
  }

  ghost predicate StartsMeal(s: Table, m: Move) {
    m.Running? && m.p < |s.pc| && s.pc[m.p] == StartEat
  }

  lemma StepsTowardsMeal(n: nat, s: Table, m: Move, r: Table)
    requires Step(n, s, m, r) && !StartsMeal(s, m)
    ensures |r.pc| == n && Total(r) < Total(s)
  {
    forall q | 0 <= q < n && q != m.p ensures Rank(r.pc[q]) <= Rank(s.pc[q]) {
      Others(n, s, m, r, q);
    }
    if m.Running? {
      Mover(n, s, m.p, m.woken, r);
    }
    assert Rank(r.pc[m.p]) < Rank(s.pc[m.p]);
    SumMonotone(s.pc, r.pc, Rank);
  }

  lemma {:induction false} MealOrCountdown(n: nat, ss: seq<Table>, ms: seq<Move>, i: nat, k: nat)
    requires Run(n, ss, ms) && i + k <= |ms| && Shape(ss[i], n)
    requires forall j | i <= j < i + k :: !StartsMeal(ss[j], ms[j])
    ensures |ss[i + k].pc| == n && Total(ss[i + k]) + k <= Total(ss[i])
  {
    if k == 0 {
    } else {
      MealOrCountdown(n, ss, ms, i, k - 1);
      StepsTowardsMeal(n, ss[i + k - 1], ms[i + k - 1], ss[i + k]);
    }
  }

  // System-wide progress: wherever a run stands, some philosopher starts a meal within the next
  // 18n + 1 steps, in every interleaving, with every choice of whom a signal wakes and with any
  // spurious wake-ups. With AlwaysEnabled: no deadlock and no livelock.
  lemma SomebodyEats(n: nat, ss: seq<Table>, ms: seq<Move>, i: nat)
    requires Run(n, ss, ms) && i + MAX_RANK * n + 1 <= |ms|
    ensures exists j :: i <= j < i + MAX_RANK * n + 1 && StartsMeal(ss[j], ms[j])
  {
    assert Step(n, ss[i], ms[i], ss[i + 1]);
    SumBound(ss[i].pc, Rank, MAX_RANK);
    if forall j | i <= j < i + MAX_RANK * n + 1 :: !StartsMeal(ss[j], ms[j]) {
      MealOrCountdown(n, ss, ms, i, MAX_RANK * n + 1);
    }
  }
}
