// The repository's report calls its philosophers starvation free (Asmt_5/philosophers/REPORT:16).
// They are so exactly when there is one: a philosopher that has been woken must still win the
// chopstick lock, and another's trylock can always come first. Fair scheduling does not help, for
// whoever waits for that lock is blocked again and again.
module Starvation {
  import opened Basics
  import opened Philosophers

  lemma Alone(n: nat, s: Table, p: nat, r: Table)
    requires Shape(s, n) && p < n && Enabled(s, p) && r == Do(s, p)
    requires s.pc[p] == Signal ==> forall q: nat :: !IsParked(s, q)
    ensures Step(n, s, Running(p, {}), r)
  {
    assert Awaken(Do(s, p).pc, {}) == Do(s, p).pc;
  }

  // Two philosophers: control points, moods, chopsticks, locks.
  function At(pc0: Pc, pc1: Pc, mood0: Mood, mood1: Mood, d0: bool, d1: bool, chop: Option<nat>, cv: Option<nat>)
    : Table
  {
    Table([pc0, pc1], [mood0, mood1], [d0, d1], chop, cv)
  }

  // Philosopher 0 is not parked; 1 is at a statement that touches no chopstick.
  predicate HandsOff(t: Table) {
    && |t.pc| == |t.mood| == |t.down| == 2
    && t.pc[0] != Parked
    && !(t.pc[1].PickRight? || t.pc[1].PickLeft? || t.pc[1].PutRight? || t.pc[1].PutLeft?)
  }

  // Philosopher 1 fails its trylock while 0 eats, parks, is woken by 0's signal and goes to wait
  // for the chopstick lock.
  function Prefix(k: nat): (t: Table)
    ensures HandsOff(t)
  {
    match k
    case 0 => At(Think, Think, THINKING, THINKING, true, true, None, None)
    case 1 => At(Try, Think, HUNGRY, THINKING, true, true, None, None)
    case 2 => At(PickRight, Think, HUNGRY, THINKING, true, true, Some(0), None)
    case 3 => At(PickRight, Try, HUNGRY, HUNGRY, true, true, Some(0), None)
    case 4 => At(PickRight, LockCv, HUNGRY, HUNGRY, true, true, Some(0), None)
    case 5 => At(PickRight, Wait, HUNGRY, HUNGRY, true, true, Some(0), Some(1))
    case 6 => At(PickRight, Parked, HUNGRY, HUNGRY, true, true, Some(0), None)
    case 7 => At(PickLeft, Parked, HUNGRY, HUNGRY, true, false, Some(0), None)
    case 8 => At(StartEat, Parked, HUNGRY, HUNGRY, false, false, Some(0), None)
    case 9 => At(Eat, Parked, EATING, HUNGRY, false, false, Some(0), None)
    case 10 => At(PutRight, Parked, EATING, HUNGRY, false, false, Some(0), None)
    case 11 => At(PutLeft, Parked, EATING, HUNGRY, false, true, Some(0), None)
    case 12 => At(LockSignal, Parked, EATING, HUNGRY, true, true, Some(0), None)
    case 13 => At(Signal, Parked, EATING, HUNGRY, true, true, Some(0), Some(0))
    case 14 => At(UnlockSignal, Reacquire, EATING, HUNGRY, true, true, Some(0), Some(0))
    case 15 => At(EndEat, Reacquire, EATING, HUNGRY, true, true, Some(0), None)
    case 16 => At(UnlockChop, Reacquire, THINKING, HUNGRY, true, true, Some(0), None)
    case 17 => At(Think, Reacquire, THINKING, HUNGRY, true, true, None, None)
    case 18 => At(Think, UnlockCv, THINKING, HUNGRY, true, true, None, Some(1))
    case _ => Cycle(0)
  }

  function PrefixMove(k: nat): (m: Move)
    ensures m.Running? && m.p < 2 && m.woken <= {1}
  {
    if 2 <= k < 6 || k == 17 || k == 18 then Running(1, {})
    else if k == 13 then Running(0, {1})
    else Running(0, {})
  }

  // Philosopher 0's round, statement by statement, while philosopher 1 waits.
  function Cycle(k: nat): (t: Table)
    ensures HandsOff(t)
  {
    match k
    case 0 => At(Think, LockChop, THINKING, HUNGRY, true, true, None, None)
    case 1 => At(Try, LockChop, HUNGRY, HUNGRY, true, true, None, None)
    case 2 => At(PickRight, LockChop, HUNGRY, HUNGRY, true, true, Some(0), None)
    case 3 => At(PickLeft, LockChop, HUNGRY, HUNGRY, true, false, Some(0), None)
    case 4 => At(StartEat, LockChop, HUNGRY, HUNGRY, false, false, Some(0), None)
    case 5 => At(Eat, LockChop, EATING, HUNGRY, false, false, Some(0), None)
    case 6 => At(PutRight, LockChop, EATING, HUNGRY, false, false, Some(0), None)
    case 7 => At(PutLeft, LockChop, EATING, HUNGRY, false, true, Some(0), None)
    case 8 => At(LockSignal, LockChop, EATING, HUNGRY, true, true, Some(0), None)
    case 9 => At(Signal, LockChop, EATING, HUNGRY, true, true, Some(0), Some(0))
    case 10 => At(UnlockSignal, LockChop, EATING, HUNGRY, true, true, Some(0), Some(0))
    case 11 => At(EndEat, LockChop, EATING, HUNGRY, true, true, Some(0), None)
    case _ => At(UnlockChop, LockChop, THINKING, HUNGRY, true, true, Some(0), None)
  }

  function NextInCycle(k: nat): nat {
    if k == 12 then 0 else k + 1
  }

  lemma PickingUp(k: nat)
    requires k < 6
    ensures Enabled(Cycle(k), 0) && Do(Cycle(k), 0) == Cycle(NextInCycle(k))
  {
  }

  lemma PuttingDown(k: nat)
    requires 6 <= k < 9
    ensures Enabled(Cycle(k), 0) && Do(Cycle(k), 0) == Cycle(NextInCycle(k))
  {
  }

  lemma Signalling(k: nat)
    requires 9 <= k < 13
    ensures Enabled(Cycle(k), 0) && Do(Cycle(k), 0) == Cycle(NextInCycle(k))
  {
  }

  lemma NobodyParked(k: nat, q: nat)
    ensures !IsParked(Cycle(k), q)
  {
  }

  lemma CycleStep(k: nat)
    requires k < 13
    ensures Step(2, Cycle(k), Running(0, {}), Cycle(NextInCycle(k)))
  {
    if k < 6 {
      PickingUp(k);
    } else if k < 9 {
      PuttingDown(k);
    } else {
      Signalling(k);
    }
    forall q: nat ensures !IsParked(Cycle(k), q) {
      NobodyParked(k, q);
    }
    Alone(2, Cycle(k), 0, Cycle(NextInCycle(k)));
  }

  // m executes a statement other than Signal.
  predicate Quietly(s: Table, m: Move, r: Table) {
    && |s.pc| == |s.mood| == |s.down| == 2
    && m.Running? && m.woken == {} && m.p < 2
    && Enabled(s, m.p) && s.pc[m.p] != Signal
    && r == Do(s, m.p)
  }

  lemma UntilParked(k: nat)
    requires k < 8
    ensures Quietly(Prefix(k), PrefixMove(k), Prefix(k + 1))
  {
  }

  lemma UntilSignal(k: nat)
    requires 8 <= k < 13
    ensures Quietly(Prefix(k), PrefixMove(k), Prefix(k + 1))
  {
  }

  lemma AfterSignal(k: nat)
    requires 14 <= k < 19
    ensures Quietly(Prefix(k), PrefixMove(k), Prefix(k + 1))
  {
  }

  lemma Quiet(s: Table, m: Move, r: Table)
    requires Quietly(s, m, r)
    ensures Step(2, s, m, r)
  {
    Alone(2, s, m.p, r);
  }

  lemma PrefixStep(k: nat)
    requires k < 19 && k != 13
    ensures Step(2, Prefix(k), PrefixMove(k), Prefix(k + 1))
  {
    var s, m, r := Prefix(k), PrefixMove(k), Prefix(k + 1);
    assert Quietly(s, m, r) by {
      if k < 8 {
        UntilParked(k);
      } else if k < 13 {
        UntilSignal(k);
      } else {
        AfterSignal(k);
      }
    }
    Quiet(s, m, r);
  }

  lemma SignalStep()
    ensures Step(2, Prefix(13), PrefixMove(13), Prefix(14))
  {
    assert IsParked(Prefix(13), 1);
    assert Awaken(Do(Prefix(13), 0).pc, {1}) == Prefix(14).pc;
  }

  // ------------------------------------------------------------------ any number of philosophers

  // Philosophers 0 and 1 of a table of two play 0 and k + 1 of a table of n. Those between wait
  // for the chopstick lock already, those behind have not begun.
  function Place(k: nat, p: nat): nat {
    if p == 0 then 0 else k + 1
  }

  function Among<T>(n: nat, k: nat, two: seq<T>, between: T, behind: T): (r: seq<T>)
    requires |two| == 2 && k + 1 < n
    ensures |r| == n
  {
    seq(n, i requires 0 <= i < n =>
      if i == 0 then two[0] else if i <= k then between else if i == k + 1 then two[1] else behind)
  }

  function LiftOwner(k: nat, owner: Option<nat>): Option<nat> {
    if owner.None? then None else Some(Place(k, owner.value))
  }

  function Lift(n: nat, k: nat, t: Table): (r: Table)
    requires |t.pc| == |t.mood| == |t.down| == 2 && k + 1 < n
    ensures |r.pc| == |r.mood| == |r.down| == n
  {
    Table(Among(n, k, t.pc, LockChop, Think), Among(n, k, t.mood, HUNGRY, THINKING),
          Among(n, 0, t.down, true, true), LiftOwner(k, t.chop), LiftOwner(k, t.cv))
  }

  function LiftSet(k: nat, woken: set<nat>): set<nat> {
    if 1 in woken then {k + 1} else {}
  }

  function LiftMove(k: nat, m: Move): Move
    requires m.Running?
  {
    Running(Place(k, m.p), LiftSet(k, m.woken))
  }

  // Statements that touch moods, chopsticks, or neither.
  predicate TouchesMood(pc: Pc) {
    pc.Think? || pc.StartEat? || pc.EndEat?
  }

  predicate TouchesChopstick(pc: Pc) {
    pc.PickRight? || pc.PickLeft? || pc.PutRight? || pc.PutLeft?
  }

  predicate Lifts(n: nat, k: nat, t: Table, p: nat)
    requires HandsOff(t) && p < 2 && k + 1 < n && Enabled(t, p)
  {
    && Enabled(Lift(n, k, t), Place(k, p)) && Lift(n, k, t).pc[Place(k, p)] == t.pc[p]
    && |Do(t, p).pc| == |Do(t, p).mood| == |Do(t, p).down| == 2
    && Do(Lift(n, k, t), Place(k, p)) == Lift(n, k, Do(t, p))
  }

  lemma LiftPc(n: nat, k: nat, two: seq<Pc>, p: nat, x: Pc)
    requires |two| == 2 && p < 2 && k + 1 < n
    ensures Among(n, k, two, LockChop, Think)[Place(k, p) := x] == Among(n, k, two[p := x], LockChop, Think)
  {
  }

  lemma LiftMood(n: nat, k: nat, two: seq<Mood>, p: nat, x: Mood)
    requires |two| == 2 && p < 2 && k + 1 < n
    ensures Among(n, k, two, HUNGRY, THINKING)[Place(k, p) := x] == Among(n, k, two[p := x], HUNGRY, THINKING)
  {
  }

  lemma LiftDown(n: nat, two: seq<bool>, c: nat, x: bool)
    requires |two| == 2 && c < 2 <= n
    ensures Among(n, 0, two, true, true)[c := x] == Among(n, 0, two[c := x], true, true)
  {
  }

  lemma LiftMoodDo(n: nat, k: nat, t: Table, p: nat)
    requires HandsOff(t) && p < 2 && k + 1 < n && Enabled(t, p) && TouchesMood(t.pc[p])
    ensures Lifts(n, k, t, p)
  {
    LiftPc(n, k, t.pc, p, Do(t, p).pc[p]);
    LiftMood(n, k, t.mood, p, Do(t, p).mood[p]);
  }

  lemma LiftChopstickDo(n: nat, k: nat, t: Table, p: nat)
    requires HandsOff(t) && p < 2 && k + 1 < n && Enabled(t, p) && TouchesChopstick(t.pc[p])
    ensures Lifts(n, k, t, p)
  {
    var c := if t.pc[p].PickRight? || t.pc[p].PutRight? then 1 else 0;
    assert p == 0 && Right(n, 0) == 1 == Right(2, 0);
    LiftPc(n, k, t.pc, p, Do(t, p).pc[p]);
    LiftDown(n, t.down, c, Do(t, p).down[c]);
  }

  lemma LiftLockDo(n: nat, k: nat, t: Table, p: nat)
    requires HandsOff(t) && p < 2 && k + 1 < n && Enabled(t, p)
    requires !TouchesMood(t.pc[p]) && !TouchesChopstick(t.pc[p])
    ensures Lifts(n, k, t, p)
  {
    LiftPc(n, k, t.pc, p, Do(t, p).pc[p]);
  }

  lemma LiftDo(n: nat, k: nat, t: Table, p: nat)
    requires HandsOff(t) && p < 2 && k + 1 < n && Enabled(t, p)
    ensures Lifts(n, k, t, p)
  {
    if TouchesMood(t.pc[p]) {
      LiftMoodDo(n, k, t, p);
    } else if TouchesChopstick(t.pc[p]) {
      LiftChopstickDo(n, k, t, p);
    } else {
      LiftLockDo(n, k, t, p);
    }
  }

  lemma LiftAwaken(n: nat, k: nat, t: Table, woken: set<nat>)
    requires HandsOff(t) && k + 1 < n && woken <= {1}
    ensures Lift(n, k, t.(pc := Awaken(t.pc, woken)))
         == Lift(n, k, t).(pc := Awaken(Lift(n, k, t).pc, LiftSet(k, woken)))
  {
  }

  lemma LiftWakeup(n: nat, k: nat, t: Table, woken: set<nat>)
    requires HandsOff(t) && k + 1 < n && woken <= {1} && LegalWakeup(t, woken)
    ensures LegalWakeup(Lift(n, k, t), LiftSet(k, woken))
  {
    assert woken == {} ==> !IsParked(t, 1);
  }

  lemma LiftStep(n: nat, k: nat, t: Table, m: Move, r: Table)
    requires Step(2, t, m, r) && m.Running? && HandsOff(t) && HandsOff(r)
    requires k + 1 < n && m.woken <= {1}
    ensures Step(n, Lift(n, k, t), LiftMove(k, m), Lift(n, k, r))
  {
    LiftDo(n, k, t, m.p);
    assert HandsOff(Do(t, m.p));
    LiftAwaken(n, k, Do(t, m.p), m.woken);
    if t.pc[m.p] == Signal {
      LiftWakeup(n, k, t, m.woken);
    }
  }

  // Everybody but philosopher 0 goes to wait, one after the other; then 0 eats for ever.
  function StateAt(n: nat, i: nat): (t: Table)
    requires n >= 2
  {
    if i < 19 * (n - 1) then Lift(n, i / 19, Prefix(i % 19)) else Lift(n, n - 2, Cycle((i - 19 * (n - 1)) % 13))
  }

  function MoveAt(n: nat, i: nat): Move
    requires n >= 2
  {
    if i < 19 * (n - 1) then LiftMove(i / 19, PrefixMove(i % 19)) else LiftMove(n - 2, Running(0, {}))
  }

  lemma NextMod13(x: nat)
    ensures (x + 1) % 13 == if x % 13 == 12 then 0 else x % 13 + 1
  {
  }

  lemma NextMod19(x: nat)
    ensures (x + 1) % 19 == if x % 19 == 18 then 0 else x % 19 + 1
    ensures (x + 1) / 19 == if x % 19 == 18 then x / 19 + 1 else x / 19
  {
  }

  // One more philosopher waits.
  lemma Joined(n: nat, k: nat)
    requires k + 2 < n
    ensures Lift(n, k, Cycle(0)) == Lift(n, k + 1, Prefix(0))
  {
  }

  lemma EarlyStep(n: nat, k: nat, j: nat)
    requires k + 1 < n && j < 19
    ensures Step(n, Lift(n, k, Prefix(j)), LiftMove(k, PrefixMove(j)), Lift(n, k, Prefix(j + 1)))
  {
    if j == 13 {
      SignalStep();
    } else {
      PrefixStep(j);
    }
    LiftStep(n, k, Prefix(j), PrefixMove(j), Prefix(j + 1));
  }

  lemma LateStep(n: nat, k: nat)
    requires n >= 2 && k < 13
    ensures Step(n, Lift(n, n - 2, Cycle(k)), LiftMove(n - 2, Running(0, {})), Lift(n, n - 2, Cycle(NextInCycle(k))))
  {
    CycleStep(k);
    LiftStep(n, n - 2, Cycle(k), Running(0, {}), Cycle(NextInCycle(k)));
  }

  lemma EarlyStepAt(n: nat, i: nat)
    requires n >= 2 && i < 19 * (n - 1)
    ensures Step(n, StateAt(n, i), MoveAt(n, i), StateAt(n, i + 1))
  {
    var k, j := i / 19, i % 19;
    NextMod19(i);
    EarlyStep(n, k, j);
    if i + 1 == 19 * (n - 1) {
      assert k == n - 2 && j == 18;
    } else if j == 18 {
      Joined(n, k);
    }
  }

  lemma LateStepAt(n: nat, i: nat)
    requires n >= 2 && i >= 19 * (n - 1)
    ensures Step(n, StateAt(n, i), MoveAt(n, i), StateAt(n, i + 1))
  {
    var x := i - 19 * (n - 1);
    var k := x % 13;
    NextMod13(x);
    assert i + 1 - 19 * (n - 1) == x + 1;
    LateStep(n, k);
  }

  // Philosopher q waits for the chopstick lock.
  predicate Hungry(t: Table, q: nat) {
    q < |t.pc| == |t.mood| && t.mood[q] == HUNGRY && t.pc[q] == LockChop
  }

  // Step i of the run: only 0 eats, in the end once in every 13 steps.
  ghost predicate OnlyZeroEats(n: nat, t: Table, m: Move, i: nat)
    requires n >= 2
  {
    var first := 19 * (n - 1);
    && m.Running? && |m.woken| <= 1
    && (StartsMeal(t, m) ==> m.p == 0)
    && (i >= first ==> m.p == 0 && (StartsMeal(t, m) <==> (i - first) % 13 == 4))
  }

  // Before step i of the run: from 19(n - 1) on, the others are hungry, and free to go on in 2
  // steps out of 13.
  ghost predicate OthersWait(n: nat, t: Table, i: nat)
    requires n >= 2
  {
    var first := 19 * (n - 1);
    i >= first ==> forall q | 0 < q < n :: Hungry(t, q) && (Enabled(t, q) <==> (i - first) % 13 < 2)
  }

  lemma PrefixMeals(n: nat, k: nat, j: nat)
    requires k + 1 < n && j < 19
    ensures StartsMeal(Lift(n, k, Prefix(j)), LiftMove(k, PrefixMove(j))) ==> j == 8
  {
  }

  lemma ScheduleAt(n: nat, i: nat)
    requires n >= 2
    ensures OnlyZeroEats(n, StateAt(n, i), MoveAt(n, i), i) && OthersWait(n, StateAt(n, i), i)
  {
    if i < 19 * (n - 1) {
      PrefixMeals(n, i / 19, i % 19);
    } else {
      var k := (i - 19 * (n - 1)) % 13;
      assert k < 13;
    }
  }

  lemma RunAt(n: nat, i: nat, t: Table, m: Move, r: Table)
    requires n >= 2 && t == StateAt(n, i) && m == MoveAt(n, i) && r == StateAt(n, i + 1)
    ensures Step(n, t, m, r) && OnlyZeroEats(n, t, m, i)
  {
    ScheduleAt(n, i);
    if i < 19 * (n - 1) {
      EarlyStepAt(n, i);
    } else {
      LateStepAt(n, i);
    }
  }

  function States(n: nat, len: nat): (ss: seq<Table>)
    requires n >= 2
    ensures |ss| == len && forall i | 0 <= i < len :: ss[i] == StateAt(n, i)
  {
    seq(len, i requires 0 <= i => StateAt(n, i))
  }

  function Moves(n: nat, len: nat): (ms: seq<Move>)
    requires n >= 2
    ensures |ms| == len && forall i | 0 <= i < len :: ms[i] == MoveAt(n, i)
  {
    seq(len, i requires 0 <= i => MoveAt(n, i))
  }

  lemma StatesRun(n: nat, ss: seq<Table>, ms: seq<Move>)
    requires n >= 2 && ss == States(n, |ms| + 1) && ms == Moves(n, |ms|)
    ensures Run(n, ss, ms) && forall i | 0 <= i < |ms| :: OnlyZeroEats(n, ss[i], ms[i], i)
  {
    forall i | 0 <= i < |ms| ensures Step(n, ss[i], ms[i], ss[i + 1]) && OnlyZeroEats(n, ss[i], ms[i], i) {
      RunAt(n, i, ss[i], ms[i], ss[i + 1]);
    }
  }

  // A run from the start, of any length: from step 19(n - 1) on philosopher 0 has a meal in every
  // 13 steps and all the others stay hungry, waiting for a lock that is taken 11 steps out of 13.
  // No wake-up is spurious and no signal wakes more than one.
  lemma StarvationRun(n: nat, len: nat) returns (ss: seq<Table>, ms: seq<Move>)
    requires n >= 2
    ensures Run(n, ss, ms) && ss[0] == Start(n) && |ms| == len
    ensures forall i | 0 <= i < len :: OnlyZeroEats(n, ss[i], ms[i], i)
    ensures forall i | 0 <= i <= len :: OthersWait(n, ss[i], i)
  {
    ss, ms := States(n, len + 1), Moves(n, len);
    StatesRun(n, ss, ms);
    forall i | 0 <= i <= len ensures OthersWait(n, ss[i], i) {
      ScheduleAt(n, i);
    }
    StartIsLifted(n);
  }

  lemma StartIsLifted(n: nat)
    requires n >= 2
    ensures Start(n) == Lift(n, 0, Prefix(0)) == StateAt(n, 0)
  {
  }

  // ------------------------------------------------------------------ the exact condition

  // Within w steps from i on, p moves or is blocked at some moment.
  ghost predicate Served(ss: seq<Table>, ms: seq<Move>, p: nat, i: nat, w: nat)
    requires i + w <= |ms| < |ss|
  {
    exists j :: i <= j < i + w && (ms[j].p == p || (p < |ss[j].pc| && !Enabled(ss[j], p)))
  }

  // Weak fairness with window w: nobody stays able to move for w steps without moving.
  ghost predicate Fair(n: nat, ss: seq<Table>, ms: seq<Move>, w: nat)
    requires |ss| == |ms| + 1
  {
    forall p: nat, i: nat | p < n && i + w <= |ms| :: Served(ss, ms, p, i, w)
  }

  ghost predicate EatsWithin(ss: seq<Table>, ms: seq<Move>, p: nat, i: nat, b: nat)
    requires i + b <= |ms| < |ss|
  {
    exists j :: i <= j < i + b && ms[j].p == p && StartsMeal(ss[j], ms[j])
  }

  ghost predicate FairRun(n: nat, ss: seq<Table>, ms: seq<Move>, w: nat) {
    Run(n, ss, ms) && ss[0] == Start(n) && Fair(n, ss, ms, w)
  }

  ghost predicate AllEatWithin(n: nat, ss: seq<Table>, ms: seq<Move>, b: nat)
    requires |ss| == |ms| + 1
  {
    forall p: nat, i: nat | p < n && i + b <= |ms| :: EatsWithin(ss, ms, p, i, b)
  }

  // In every fair run every philosopher eats again and again, within b steps.
  ghost predicate Bounded(n: nat, w: nat, b: nat) {
    forall ss, ms | FairRun(n, ss, ms, w) :: AllEatWithin(n, ss, ms, b)
  }

  ghost predicate StarvationFreeUnder(n: nat, w: nat) {
    exists b: nat :: Bounded(n, w, b)
  }

  ghost predicate StarvationFree(n: nat) {
    forall w: nat :: StarvationFreeUnder(n, w)
  }

  lemma AloneEats(w: nat)
    ensures Bounded(1, w, MAX_RANK + 1)
  {
    var b := MAX_RANK + 1;
    forall ss, ms | FairRun(1, ss, ms, w) ensures AllEatWithin(1, ss, ms, b) {
      forall p: nat, i: nat | p < 1 && i + b <= |ms| ensures EatsWithin(ss, ms, p, i, b) {
        SomebodyEats(1, ss, ms, i);
        var j :| i <= j < i + b && StartsMeal(ss[j], ms[j]);
        assert Step(1, ss[j], ms[j], ss[j + 1]);
      }
    }
  }

  // The starving run is fair: 0 moves at every step of the cycle, and the others are blocked in
  // every stretch of three.
  lemma StarvationIsFair(n: nat, ss: seq<Table>, ms: seq<Move>, w: nat)
    requires n >= 2 && w >= 19 * n && |ss| == |ms| + 1
    requires forall i | 0 <= i < |ms| :: OnlyZeroEats(n, ss[i], ms[i], i)
    requires forall i | 0 <= i <= |ms| :: OthersWait(n, ss[i], i)
    ensures Fair(n, ss, ms, w)
  {
    var first := 19 * (n - 1);
    forall p: nat, i: nat | p < n && i + w <= |ms| ensures Served(ss, ms, p, i, w) {
      var j := if i < first then first else i;
      if p == 0 {
        assert OnlyZeroEats(n, ss[j], ms[j], j);
      } else {
        var x := j - first;
        var c := if x % 13 == 0 then j + 2 else if x % 13 == 1 then j + 1 else j;
        NextMod13(x);
        NextMod13(x + 1);
        assert c - first == x + (c - j) && (c - first) % 13 >= 2;
        assert OthersWait(n, ss[c], c);
        assert Hungry(ss[c], p) && !Enabled(ss[c], p);
      }
    }
  }

  // However long the window, from step 19(n - 1) on philosopher 1 does not eat within any bound.
  lemma NoBound(n: nat, w: nat, b: nat)
    requires n >= 2 && w >= 19 * n
    ensures !Bounded(n, w, b)
  {
    var first := 19 * (n - 1);
    var ss, ms := StarvationRun(n, first + w + b);
    StarvationIsFair(n, ss, ms, w);
    assert FairRun(n, ss, ms, w);
    assert !EatsWithin(ss, ms, 1, first, b) by {
      forall j | first <= j < first + b ensures ms[j].p != 1 {
        assert OnlyZeroEats(n, ss[j], ms[j], j);
      }
    }
  }

  // Every philosopher eats within some bound in all fair runs if and only if there is only one.
  lemma StarvationFreeIff(n: nat)
    requires n > 0
    ensures StarvationFree(n) <==> n == 1
  {
    if n == 1 {
      forall w: nat ensures StarvationFreeUnder(n, w) {
        AloneEats(w);
      }
    } else {
      forall b: nat ensures !Bounded(n, 19 * n, b) {
        NoBound(n, 19 * n, b);
      }
      assert !StarvationFreeUnder(n, 19 * n);
    }
  }
}
