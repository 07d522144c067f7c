// Schedulers that are fairer than those of module Starvation: whoever is able to move again and
// again does move. Then two philosophers do not starve; three can, because a signal may always
// wake another than the one that starves.
module StrongFairness {
  import opened Basics
  import opened Tally
  import opened Philosophers
  import opened Starvation

  predicate Able(t: Table, p: nat) {
    p < |t.pc| && Enabled(t, p)
  }

  function Ables(ss: seq<Table>, p: nat): (r: seq<bool>)
    ensures |r| == |ss| && forall j | 0 <= j < |ss| :: r[j] == Able(ss[j], p)
  {
    seq(|ss|, j requires 0 <= j < |ss| => Able(ss[j], p))
  }

  function Trues(bs: seq<bool>, i: nat, k: nat): nat
    requires i + k <= |bs|
  {
    if k == 0 then 0 else Trues(bs, i, k - 1) + Bit(bs[i + k - 1])
  }

  // How often p is able to move at the k states from i on.
  function TimesAble(ss: seq<Table>, p: nat, i: nat, k: nat): nat
    requires i + k <= |ss|
  {
    Trues(Ables(ss, p), i, k)
  }

  ghost predicate Moves(ms: seq<Move>, p: nat, i: nat, k: nat)
    requires i + k <= |ms|
  {
    exists j :: i <= j < i + k && ms[j].p == p
  }

  // Strong fairness with threshold w: whoever is able to move w times in a stretch of the run
  // moves in it.
  ghost predicate StronglyFair(n: nat, ss: seq<Table>, ms: seq<Move>, w: nat)
    requires |ss| == |ms| + 1
  {
    forall p: nat, i: nat, k: nat | p < n && i + k <= |ms| && TimesAble(ss, p, i, k) >= w :: Moves(ms, p, i, k)
  }

  ghost predicate StronglyFairRun(n: nat, ss: seq<Table>, ms: seq<Move>, w: nat) {
    Run(n, ss, ms) && ss[0] == Start(n) && StronglyFair(n, ss, ms, w)
  }

  ghost predicate StronglyBounded(n: nat, w: nat, b: nat) {
    forall ss, ms | StronglyFairRun(n, ss, ms, w) :: AllEatWithin(n, ss, ms, b)
  }

  ghost predicate FreeUnder(n: nat, w: nat) {
    exists b: nat :: StronglyBounded(n, w, b)
  }

  // Under strong fairness every philosopher eats again and again, within some bound.
  ghost predicate StronglyStarvationFree(n: nat) {
    forall w: nat :: FreeUnder(n, w)
  }

  lemma {:induction false} TruesSplit(bs: seq<bool>, i: nat, a: nat, b: nat)
    requires i + a + b <= |bs|
    ensures Trues(bs, i, a + b) == Trues(bs, i, a) + Trues(bs, i + a, b)
  {
    if b == 0 {
    } else {
      TruesSplit(bs, i, a, b - 1);
    }
  }

  lemma {:induction false} TrueOnce(bs: seq<bool>, i: nat, k: nat, j: nat)
    requires i <= j < i + k <= |bs| && bs[j]
    ensures Trues(bs, i, k) >= 1
  {
    if j == i + k - 1 {
    } else {
      TrueOnce(bs, i, k - 1, j);
    }
  }

  // ------------------------------------------------------------------ one philosopher's way

  ghost predicate Eats(ss: seq<Table>, ms: seq<Move>, p: nat, j: nat)
    requires j < |ms| < |ss|
  {
    ms[j].p == p && StartsMeal(ss[j], ms[j])
  }

  // Unless it sits down to a meal, a philosopher only comes nearer to one, and stays at its
  // statement only if it does not move.
  lemma NeverBack(n: nat, s: Table, m: Move, r: Table, p: nat)
    requires Step(n, s, m, r) && p < n && !(m.p == p && StartsMeal(s, m))
    ensures |r.pc| == n
    ensures if r.pc[p] == s.pc[p] then m.p != p else Rank(r.pc[p]) < Rank(s.pc[p])
  {
    if m.p != p {
      Others(n, s, m, r, p);
    } else if m.Running? {
      Mover(n, s, p, m.woken, r);
    }
  }

  // p stays at one statement in the k states from i on and does not move between them.
  ghost predicate Waits(ss: seq<Table>, ms: seq<Move>, p: nat, i: nat, k: nat)
    requires i + k <= |ms| < |ss|
  {
    && p < |ss[i].pc|
    && (forall j | i <= j <= i + k :: p < |ss[j].pc| && ss[j].pc[p] == ss[i].pc[p])
    && forall j | i <= j < i + k :: ms[j].p != p
  }

  lemma WaitsInPart(ss: seq<Table>, ms: seq<Move>, p: nat, i: nat, k: nat, a: nat, b: nat)
    requires i + k <= |ms| < |ss| && Waits(ss, ms, p, i, k) && a + b <= k
    ensures Waits(ss, ms, p, i + a, b)
  {
  }

  lemma {:induction false} RankDropsOrWaits(n: nat, ss: seq<Table>, ms: seq<Move>, p: nat, i: nat, k: nat)
    requires Run(n, ss, ms) && p < n && i + k <= |ms| && |ss[i].pc| == n
    requires forall j | i <= j < i + k :: !Eats(ss, ms, p, j)
    ensures |ss[i + k].pc| == n
    ensures Rank(ss[i + k].pc[p]) < Rank(ss[i].pc[p]) || Waits(ss, ms, p, i, k)
  {
    if k == 0 {
    } else {
      RankDropsOrWaits(n, ss, ms, p, i, k - 1);
      var j := i + k - 1;
      assert Step(n, ss[j], ms[j], ss[j + 1]) && !Eats(ss, ms, p, j);
      NeverBack(n, ss[j], ms[j], ss[j + 1], p);
    }
  }

  // ------------------------------------------------------------------ two philosophers

  // How many moves the other philosopher, at pc, makes at most before it lets one at `wait` go on:
  // before it gives back the lock waited for, or comes to signal.
  function Until(wait: Pc, pc: Pc): nat {
    match wait
    case Parked => UntilSignal(pc)
    case LockChop => UntilChopFree(pc)
    case LockCv | Reacquire | LockSignal => UntilCvFree(pc)
    case _ => 0
  }

  function UntilSignal(pc: Pc): nat {
    match pc
    case Signal => 0
    case LockSignal => 1
    case PutLeft => 2
    case PutRight => 3
    case Eat => 4
    case StartEat => 5
    case PickLeft => 6
    case PickRight => 7
    case LockChop => 8
    case UnlockCv => 9
    case Reacquire => 10
    case Parked => 11
    case Wait => 12
    case LockCv => 13
    case Try => 14
    case Think => 15
    case UnlockChop => 16
    case EndEat => 17
    case UnlockSignal => 18
  }

  function UntilChopFree(pc: Pc): nat {
    match pc
    case UnlockChop => 1
    case EndEat => 2
    case UnlockSignal => 3
    case Signal => 4
    case LockSignal => 5
    case PutLeft => 6
    case PutRight => 7
    case Eat => 8
    case StartEat => 9
    case PickLeft => 10
    case PickRight => 11
    case _ => 0
  }

  function UntilCvFree(pc: Pc): nat {
    match pc
    case Wait | UnlockCv | UnlockSignal => 1
    case Signal => 2
    case _ => 0
  }

  lemma UntilBound(wait: Pc, pc: Pc)
    ensures Until(wait, pc) <= 18
  {
  }

  // Each move of the other brings that nearer.
  lemma OtherApproaches(s: Table, m: Move, r: Table, p: nat)
    requires Step(2, s, m, r) && p < 2 && m.p == 1 - p && Until(s.pc[p], s.pc[1 - p]) > 0
    ensures |r.pc| == 2 && Until(s.pc[p], r.pc[1 - p]) < Until(s.pc[p], s.pc[1 - p])
  {
    if m.Running? {
      Mover(2, s, m.p, m.woken, r);
    }
  }

  lemma {:induction false} OtherArrives(ss: seq<Table>, ms: seq<Move>, p: nat, i: nat, k: nat)
    requires Run(2, ss, ms) && p < 2 && i + k <= |ms| && Waits(ss, ms, p, i, k)
    requires |ss[i].pc| == 2 && Until(ss[i].pc[p], ss[i].pc[1 - p]) <= k
    ensures exists j :: i <= j <= i + k && |ss[j].pc| == 2 && Until(ss[i].pc[p], ss[j].pc[1 - p]) == 0
    decreases k
  {
    if Until(ss[i].pc[p], ss[i].pc[1 - p]) == 0 {
    } else {
      assert Step(2, ss[i], ms[i], ss[i + 1]);
      OtherApproaches(ss[i], ms[i], ss[i + 1], p);
      OtherArrives(ss, ms, p, i + 1, k - 1);
    }
  }

  // There the waiting philosopher is able to move; one that is parked is woken by the next step.
  lemma ThenAble(s: Table, p: nat)
    requires Inv(2, s) && p < 2 && s.pc[p] != Parked && Until(s.pc[p], s.pc[1 - p]) == 0
    ensures Able(s, p)
  {
    if s.chop.Some? {
      assert HoldsChop(s.pc[s.chop.value]);
    }
    if s.cv.Some? {
      assert HoldsCv(s.pc[s.cv.value]);
    }
  }

  lemma ThenWoken(s: Table, m: Move, r: Table, p: nat)
    requires Step(2, s, m, r) && p < 2 && m.p == 1 - p && s.pc[p] == Parked && s.pc[1 - p] == Signal
    ensures |r.pc| == 2 && r.pc[p] != Parked
  {
    assert IsParked(s, p);
    var q :| q in m.woken;
    assert IsParked(s, q);
  }

  lemma OtherArrivesIn18(ss: seq<Table>, ms: seq<Move>, p: nat, i: nat) returns (j: nat)
    requires Run(2, ss, ms) && ss[0] == Start(2) && p < 2 && i + 19 <= |ms| && Waits(ss, ms, p, i, 19)
    ensures i <= j <= i + 18 && Inv(2, ss[j]) && Until(ss[j].pc[p], ss[j].pc[1 - p]) == 0
  {
    RunKeepsInv(2, ss, ms, i);
    UntilBound(ss[i].pc[p], ss[i].pc[1 - p]);
    OtherArrives(ss, ms, p, i, 18);
    j :| i <= j <= i + 18 && |ss[j].pc| == 2 && Until(ss[i].pc[p], ss[j].pc[1 - p]) == 0;
    RunKeepsInv(2, ss, ms, j);
  }

  lemma NotParked(ss: seq<Table>, ms: seq<Move>, p: nat, i: nat, j: nat)
    requires Run(2, ss, ms) && p < 2 && i + 19 <= |ms| && Waits(ss, ms, p, i, 19) && i <= j <= i + 18
    requires Inv(2, ss[j]) && Until(ss[j].pc[p], ss[j].pc[1 - p]) == 0
    ensures ss[j].pc[p] != Parked
  {
    assert Step(2, ss[j], ms[j], ss[j + 1]);
    if ss[j].pc[p] == Parked {
      ThenWoken(ss[j], ms[j], ss[j + 1], p);
    }
  }

  // In any 19 steps the waiting philosopher is able to move at some moment.
  lemma AbleInBlock(ss: seq<Table>, ms: seq<Move>, p: nat, i: nat, b: nat)
    requires Run(2, ss, ms) && ss[0] == Start(2) && p < 2 && b == 19 && i + b <= |ms| && Waits(ss, ms, p, i, b)
    ensures TimesAble(ss, p, i, b) >= 1
  {
    var j := OtherArrivesIn18(ss, ms, p, i);
    NotParked(ss, ms, p, i, j);
    ThenAble(ss[j], p);
    TrueOnce(Ables(ss, p), i, b, j);
  }

  lemma OneMore(bs: seq<bool>, i: nat, k: nat, b: nat)
    requires i + k + b <= |bs| && Trues(bs, i + k, b) >= 1
    ensures Trues(bs, i, k + b) >= Trues(bs, i, k) + 1
  {
    TruesSplit(bs, i, k, b);
  }

  lemma {:induction false} OneInEachBlock(bs: seq<bool>, i: nat, w: nat, b: nat, d: nat)
    requires b == 19 && d == 19 * w && i + d <= |bs|
    requires forall j: nat | i <= j && j + b <= i + d :: Trues(bs, j, b) >= 1
    ensures Trues(bs, i, d) >= w
    decreases w
  {
    if w == 0 {
    } else {
      OneInEachBlock(bs, i, w - 1, b, d - b);
      OneMore(bs, i, d - b, b);
    }
  }

  lemma AbleInBlocks(ss: seq<Table>, ms: seq<Move>, p: nat, i: nat, w: nat, b: nat, d: nat)
    requires Run(2, ss, ms) && ss[0] == Start(2) && p < 2 && b == 19 && d == 19 * w
    requires i + d <= |ms| && Waits(ss, ms, p, i, d)
    ensures TimesAble(ss, p, i, d) >= w
  {
    var bs := Ables(ss, p);
    forall j: nat | i <= j && j + b <= i + d ensures Trues(bs, j, b) >= 1 {
      WaitsInPart(ss, ms, p, i, d, j - i, b);
      AbleInBlock(ss, ms, p, j, b);
    }
    OneInEachBlock(bs, i, w, b, d);
  }

  lemma WaitsNoLonger(ss: seq<Table>, ms: seq<Move>, w: nat, p: nat, i: nat)
    requires StronglyFairRun(2, ss, ms, w) && p < 2 && i + 19 * w <= |ms|
    ensures !Waits(ss, ms, p, i, 19 * w)
  {
    if Waits(ss, ms, p, i, 19 * w) {
      AbleInBlocks(ss, ms, p, i, w, 19, 19 * w);
    }
  }

  function Span(r: nat, d: nat): nat {
    if r == 0 then d else d + Span(r - 1, d)
  }

  // So in d steps a philosopher eats or comes nearer to its meal, and within 19 times that it
  // eats.
  lemma {:induction false} EatsSoon(ss: seq<Table>, ms: seq<Move>, w: nat, d: nat, p: nat, i: nat, r: nat)
    requires StronglyFairRun(2, ss, ms, w) && d == 19 * w && p < 2 && i + Span(r, d) <= |ms|
    requires |ss[i].pc| == 2 && Rank(ss[i].pc[p]) <= r
    ensures exists j :: i <= j < i + Span(r, d) && Eats(ss, ms, p, j)
    decreases r
  {
    if forall j | i <= j < i + d :: !Eats(ss, ms, p, j) {
      RankDropsOrWaits(2, ss, ms, p, i, d);
      WaitsNoLonger(ss, ms, w, p, i);
      if r > 0 {
        EatsSoon(ss, ms, w, d, p, i + d, r - 1);
      }
    }
  }

  lemma RankBound(pc: Pc)
    ensures Rank(pc) <= MAX_RANK
  {
  }

  lemma TwoEat(w: nat)
    ensures StronglyBounded(2, w, Span(MAX_RANK, 19 * w))
  {
    var b := Span(MAX_RANK, 19 * w);
    forall ss: seq<Table>, ms: seq<Move> | StronglyFairRun(2, ss, ms, w) ensures AllEatWithin(2, ss, ms, b) {
      forall p: nat, i: nat | p < 2 && i + b <= |ms| ensures EatsWithin(ss, ms, p, i, b) {
        RunKeepsInv(2, ss, ms, i);
        RankBound(ss[i].pc[p]);
        EatsSoon(ss, ms, w, 19 * w, p, i, MAX_RANK);
        var j :| i <= j < i + b && Eats(ss, ms, p, j);
      }
    }
  }

  lemma OneEats(w: nat)
    ensures StronglyBounded(1, w, MAX_RANK + 1)
  {
    var b := MAX_RANK + 1;
    forall ss: seq<Table>, ms: seq<Move> | StronglyFairRun(1, ss, ms, w) ensures AllEatWithin(1, ss, ms, b) {
      forall p: nat, i: nat | p < 1 && i + b <= |ms| ensures EatsWithin(ss, ms, p, i, b) {
        SomebodyEats(1, ss, ms, i);
        var j :| i <= j < i + b && StartsMeal(ss[j], ms[j]);
        assert Step(1, ss[j], ms[j], ss[j + 1]);
      }
    }
  }

  // ------------------------------------------------------------------ three philosophers and more

  function MoodsOf(pc: seq<Pc>): (r: seq<Mood>)
    ensures |r| == |pc|
  {
    seq(|pc|, i requires 0 <= i < |pc| => MoodAt(pc[i]))
  }

  // Philosophers x and y are at px and py, the others parked; right and left say which chopsticks
  // of x are down.
  function DuoPc(n: nat, x: nat, y: nat, px: Pc, py: Pc): (r: seq<Pc>)
    ensures |r| == n
  {
    seq(n, i => if i == x then px else if i == y then py else Parked)
  }

  function DuoDown(n: nat, x: nat, right: bool, left: bool): (r: seq<bool>)
    requires n > 0
    ensures |r| == n
  {
    seq(n, c => if c == Right(n, x) then right else if c == Left(n, x) then left else true)
  }

  function Duo(n: nat, x: nat, y: nat, px: Pc, py: Pc, right: bool, left: bool, chop: nat, cv: Option<nat>): (t: Table)
    requires n > 0
    ensures Shape(t, n)
  {
    var pc := DuoPc(n, x, y, px, py);
    Table(pc, MoodsOf(pc), DuoDown(n, x, right, left), if chop < n then Some(chop) else None, cv)
  }

  predicate Pair(n: nat, x: nat, y: nat) {
    n >= 3 && x < 2 && y < 2 && x != y
  }

  // x has the chopstick lock and the others are parked. It eats and wakes y, which gets the lock
  // next; x asks for it again and parks. Then x and y have changed places.
  function Round(n: nat, x: nat, y: nat, k: nat): (t: Table)
    requires n > 0
    ensures Shape(t, n)
  {
    match k
    case 0 => Duo(n, x, y, PickRight, Parked, true, true, x, None)
    case 1 => Duo(n, x, y, PickLeft, Parked, false, true, x, None)
    case 2 => Duo(n, x, y, StartEat, Parked, false, false, x, None)
    case 3 => Duo(n, x, y, Eat, Parked, false, false, x, None)
    case 4 => Duo(n, x, y, PutRight, Parked, false, false, x, None)
    case 5 => Duo(n, x, y, PutLeft, Parked, true, false, x, None)
    case 6 => Duo(n, x, y, LockSignal, Parked, true, true, x, None)
    case 7 => Duo(n, x, y, Signal, Parked, true, true, x, Some(x))
    case 8 => Duo(n, x, y, UnlockSignal, Reacquire, true, true, x, Some(x))
    case 9 => Duo(n, x, y, EndEat, Reacquire, true, true, x, None)
    case 10 => Duo(n, x, y, UnlockChop, Reacquire, true, true, x, None)
    case 11 => Duo(n, x, y, Think, Reacquire, true, true, n, None)
    case 12 => Duo(n, x, y, Think, UnlockCv, true, true, n, Some(y))
    case 13 => Duo(n, x, y, Think, LockChop, true, true, n, None)
    case 14 => Duo(n, x, y, Think, PickRight, true, true, y, None)
    case 15 => Duo(n, x, y, Try, PickRight, true, true, y, None)
    case 16 => Duo(n, x, y, LockCv, PickRight, true, true, y, None)
    case 17 => Duo(n, x, y, Wait, PickRight, true, true, y, Some(x))
    case _ => Duo(n, x, y, Parked, PickRight, true, true, y, None)
  }

  function MoverAt(x: nat, y: nat, k: nat): nat {
    if 11 <= k < 14 then y else x
  }

  function RoundMove(x: nat, y: nat, k: nat): Move {
    Running(MoverAt(x, y, k), if k == 7 then {y} else {})
  }

  lemma DuoPcMoves(n: nat, x: nat, y: nat, px: Pc, py: Pc, a: Pc)
    requires x < n && y < n && x != y
    ensures DuoPc(n, x, y, px, py)[x := a] == DuoPc(n, x, y, a, py)
    ensures DuoPc(n, x, y, px, py)[y := a] == DuoPc(n, x, y, px, a)
  {
  }

  lemma DuoMoods(n: nat, x: nat, y: nat, px: Pc, py: Pc, a: Pc)
    requires x < n && y < n && x != y
    ensures MoodsOf(DuoPc(n, x, y, a, py)) == MoodsOf(DuoPc(n, x, y, px, py))[x := MoodAt(a)]
    ensures MoodsOf(DuoPc(n, x, y, px, a)) == MoodsOf(DuoPc(n, x, y, px, py))[y := MoodAt(a)]
  {
  }

  lemma DuoDownMoves(n: nat, x: nat, right: bool, left: bool, d: bool)
    requires n >= 3 && x < 2
    ensures DuoDown(n, x, right, left)[Right(n, x) := d] == DuoDown(n, x, d, left)
    ensures DuoDown(n, x, right, left)[Left(n, x) := d] == DuoDown(n, x, right, d)
    ensures DuoDown(n, x, true, true) == seq(n, _ => true)
  {
  }

  // The mover's statement leads from one state of the round to the next, wake-ups aside.
  predicate Follows(n: nat, x: nat, y: nat, k: nat)
    requires Pair(n, x, y) && k < 18
  {
    var t, p := Round(n, x, y, k), MoverAt(x, y, k);
    Enabled(t, p) && t.pc[p] != Signal && Do(t, p) == Round(n, x, y, k + 1)
  }

  lemma Take(n: nat, x: nat, y: nat, k: nat)
    requires Pair(n, x, y) && k < 2
    ensures Follows(n, x, y, k)
  {
    DuoPcMoves(n, x, y, if k == 0 then PickRight else PickLeft, Parked, if k == 0 then PickLeft else StartEat);
    DuoMoods(n, x, y, if k == 0 then PickRight else PickLeft, Parked, if k == 0 then PickLeft else StartEat);
    DuoDownMoves(n, x, true, true, false);
    DuoDownMoves(n, x, false, true, false);
  }

  lemma EatMeal(n: nat, x: nat, y: nat, k: nat)
    requires Pair(n, x, y) && 2 <= k < 4
    ensures Follows(n, x, y, k)
  {
    DuoPcMoves(n, x, y, if k == 2 then StartEat else Eat, Parked, if k == 2 then Eat else PutRight);
    DuoMoods(n, x, y, if k == 2 then StartEat else Eat, Parked, if k == 2 then Eat else PutRight);
  }

  lemma PutBack(n: nat, x: nat, y: nat, k: nat)
    requires Pair(n, x, y) && 4 <= k < 6
    ensures Follows(n, x, y, k)
  {
    DuoPcMoves(n, x, y, if k == 4 then PutRight else PutLeft, Parked, if k == 4 then PutLeft else LockSignal);
    DuoMoods(n, x, y, if k == 4 then PutRight else PutLeft, Parked, if k == 4 then PutLeft else LockSignal);
    DuoDownMoves(n, x, false, false, true);
    DuoDownMoves(n, x, true, false, true);
  }

  lemma BeforeSignal(n: nat, x: nat, y: nat)
    requires Pair(n, x, y)
    ensures Follows(n, x, y, 6)
  {
    DuoPcMoves(n, x, y, LockSignal, Parked, Signal);
    DuoMoods(n, x, y, LockSignal, Parked, Signal);
  }

  lemma WakeUp(n: nat, x: nat, y: nat)
    requires Pair(n, x, y)
    ensures Step(n, Round(n, x, y, 7), RoundMove(x, y, 7), Round(n, x, y, 8))
  {
    var t, r := Round(n, x, y, 7), Round(n, x, y, 8);
    DuoPcMoves(n, x, y, Signal, Parked, UnlockSignal);
    DuoMoods(n, x, y, Signal, Parked, UnlockSignal);
    DuoMoods(n, x, y, UnlockSignal, Parked, Reacquire);
    assert IsParked(t, y);
    assert Awaken(Do(t, x).pc, {y}) == r.pc;
  }

  lemma GiveUp(n: nat, x: nat, y: nat, k: nat)
    requires Pair(n, x, y) && 8 <= k < 11
    ensures Follows(n, x, y, k)
  {
    var before := if k == 8 then UnlockSignal else if k == 9 then EndEat else UnlockChop;
    var now := if k == 8 then EndEat else if k == 9 then UnlockChop else Think;
    DuoPcMoves(n, x, y, before, Reacquire, now);
    DuoMoods(n, x, y, before, Reacquire, now);
  }

  lemma TakeOver(n: nat, x: nat, y: nat, k: nat)
    requires Pair(n, x, y) && 11 <= k < 14
    ensures Follows(n, x, y, k)
  {
    var before := if k == 11 then Reacquire else if k == 12 then UnlockCv else LockChop;
    var now := if k == 11 then UnlockCv else if k == 12 then LockChop else PickRight;
    DuoPcMoves(n, x, y, Think, before, now);
    DuoMoods(n, x, y, Think, before, now);
  }

  lemma AskAgain(n: nat, x: nat, y: nat, k: nat)
    requires Pair(n, x, y) && 14 <= k < 16
    ensures Follows(n, x, y, k)
  {
    DuoPcMoves(n, x, y, if k == 14 then Think else Try, PickRight, if k == 14 then Try else LockCv);
    DuoMoods(n, x, y, if k == 14 then Think else Try, PickRight, if k == 14 then Try else LockCv);
  }

  lemma ParkAgain(n: nat, x: nat, y: nat, k: nat)
    requires Pair(n, x, y) && 16 <= k < 18
    ensures Follows(n, x, y, k)
  {
    DuoPcMoves(n, x, y, if k == 16 then LockCv else Wait, PickRight, if k == 16 then Wait else Parked);
    DuoMoods(n, x, y, if k == 16 then LockCv else Wait, PickRight, if k == 16 then Wait else Parked);
  }

  lemma RoundFollows(n: nat, x: nat, y: nat, k: nat)
    requires Pair(n, x, y) && k < 18 && k != 7
    ensures Follows(n, x, y, k)
  {
    if k < 2 {
      Take(n, x, y, k);
    } else if k < 4 {
      EatMeal(n, x, y, k);
    } else if k < 6 {
      PutBack(n, x, y, k);
    } else if k < 7 {
      BeforeSignal(n, x, y);
    } else if k < 11 {
      GiveUp(n, x, y, k);
    } else if k < 14 {
      TakeOver(n, x, y, k);
    } else if k < 16 {
      AskAgain(n, x, y, k);
    } else {
      ParkAgain(n, x, y, k);
    }
  }

  lemma RoundStep(n: nat, x: nat, y: nat, k: nat)
    requires Pair(n, x, y) && k < 18
    ensures Step(n, Round(n, x, y, k), RoundMove(x, y, k), Round(n, x, y, k + 1))
  {
    if k == 7 {
      WakeUp(n, x, y);
    } else {
      RoundFollows(n, x, y, k);
      Alone(n, Round(n, x, y, k), MoverAt(x, y, k), Round(n, x, y, k + 1));
    }
  }

  lemma PlacesChanged(n: nat, x: nat, y: nat)
    requires Pair(n, x, y)
    ensures Round(n, x, y, 18) == Round(n, y, x, 0)
  {
    DuoDownMoves(n, x, true, true, true);
    DuoDownMoves(n, y, true, true, true);
    assert DuoPc(n, x, y, Parked, PickRight) == DuoPc(n, y, x, PickRight, Parked);
  }

  // How it comes to that: 0 takes the chopstick lock, and 1, 2, ... fail to and park. Philosophers
  // 1 to k are parked, k + 1 is at pc.
  function Gathering(n: nat, k: nat, pc: Pc, cv: Option<nat>): (t: Table)
    ensures |t.pc| == |t.mood| == |t.down| == n
  {
    var pcs := seq(n, i =>
      if i == 0 then PickRight else if i <= k then Parked else if i == k + 1 then pc else Think);
    Table(pcs, MoodsOf(pcs), seq(n, _ => true), Some(0), cv)
  }

  function Stage(n: nat, k: nat, st: nat): (t: Table)
    ensures |t.pc| == |t.mood| == |t.down| == n
  {
    match st
    case 0 => Gathering(n, k, Think, None)
    case 1 => Gathering(n, k, Try, None)
    case 2 => Gathering(n, k, LockCv, None)
    case 3 => Gathering(n, k, Wait, Some(k + 1))
    case _ => Gathering(n, k, Parked, None)
  }

  lemma GatheringMoves(n: nat, k: nat, pc: Pc, a: Pc, cv: Option<nat>)
    requires k + 1 < n
    ensures Gathering(n, k, pc, cv).pc[k + 1 := a] == Gathering(n, k, a, cv).pc
    ensures Gathering(n, k, pc, cv).mood[k + 1 := MoodAt(a)] == Gathering(n, k, a, cv).mood
    ensures MoodAt(a) == MoodAt(pc) ==> Gathering(n, k, pc, cv).mood == Gathering(n, k, a, cv).mood
  {
  }

  lemma StageDo(n: nat, k: nat, st: nat)
    requires k + 1 < n && st < 4
    ensures Enabled(Stage(n, k, st), k + 1) && Stage(n, k, st).pc[k + 1] != Signal
    ensures Do(Stage(n, k, st), k + 1) == Stage(n, k, st + 1)
  {
    var t, r := Stage(n, k, st), Stage(n, k, st + 1);
    GatheringMoves(n, k, t.pc[k + 1], r.pc[k + 1], t.cv);
  }

  lemma StageStep(n: nat, k: nat, st: nat)
    requires k + 1 < n && st < 4
    ensures Step(n, Stage(n, k, st), Running(k + 1, {}), Stage(n, k, st + 1))
  {
    StageDo(n, k, st);
    Alone(n, Stage(n, k, st), k + 1, Stage(n, k, st + 1));
  }

  lemma OneMoreParked(n: nat, k: nat)
    requires k + 2 < n
    ensures Stage(n, k, 4) == Stage(n, k + 1, 0)
  {
    assert Stage(n, k, 4).pc == Stage(n, k + 1, 0).pc;
  }

  lemma AllParked(n: nat)
    requires n >= 3
    ensures Stage(n, n - 2, 4) == Round(n, 0, 1, 0)
  {
    assert Stage(n, n - 2, 4).pc == DuoPc(n, 0, 1, PickRight, Parked);
    DuoDownMoves(n, 0, true, true, true);
  }

  // 0 is at pc, all others think.
  function Opening(n: nat, pc: Pc): (t: Table)
    requires n > 0
    ensures Shape(t, n)
  {
    var pcs := seq(n, i => if i == 0 then pc else Think);
    Table(pcs, MoodsOf(pcs), seq(n, _ => true), if pc == PickRight then Some(0) else None, None)
  }

  lemma OpeningSteps(n: nat)
    requires n >= 3
    ensures Start(n) == Opening(n, Think)
    ensures Step(n, Opening(n, Think), Running(0, {}), Opening(n, Try))
    ensures Step(n, Opening(n, Try), Running(0, {}), Stage(n, 0, 0))
  {
    assert Start(n).pc == Opening(n, Think).pc && Start(n).mood == Opening(n, Think).mood;
    assert Do(Opening(n, Think), 0).pc == Opening(n, Try).pc;
    assert Do(Opening(n, Think), 0).mood == Opening(n, Try).mood;
    assert Do(Opening(n, Try), 0).pc == Stage(n, 0, 0).pc;
    assert Do(Opening(n, Try), 0).mood == Stage(n, 0, 0).mood;
    Alone(n, Opening(n, Think), 0, Opening(n, Try));
    Alone(n, Opening(n, Try), 0, Stage(n, 0, 0));
  }

  // ------------------------------------------------------------------ the run

  // Steps until all but 0 are parked.
  function Parking(n: nat): nat
    requires n >= 3
  {
    2 + 4 * (n - 1)
  }

  function FromParking(n: nat, c: nat): Table
    requires n >= 3
  {
    if c < 18 then Round(n, 0, 1, c) else Round(n, 1, 0, c - 18)
  }

  function FromParkingMove(c: nat): Move {
    if c < 18 then RoundMove(0, 1, c) else RoundMove(1, 0, c - 18)
  }

  function TableAt(n: nat, i: nat): Table
    requires n >= 3
  {
    if i == 0 then Opening(n, Think)
    else if i == 1 then Opening(n, Try)
    else if i < Parking(n) then Stage(n, (i - 2) / 4, (i - 2) % 4)
    else FromParking(n, (i - Parking(n)) % 36)
  }

  function MovesAt(n: nat, i: nat): Move
    requires n >= 3
  {
    if i < 2 then Running(0, {})
    else if i < Parking(n) then Running((i - 2) / 4 + 1, {})
    else FromParkingMove((i - Parking(n)) % 36)
  }

  lemma NextMod36(x: nat)
    ensures (x + 1) % 36 == if x % 36 == 35 then 0 else x % 36 + 1
  {
  }

  lemma FromParkingStep(n: nat, c: nat, t: Table, m: Move, r: Table)
    requires n >= 3 && c < 36
    requires t == FromParking(n, c) && m == FromParkingMove(c) && r == FromParking(n, if c == 35 then 0 else c + 1)
    ensures Step(n, t, m, r)
  {
    if c < 18 {
      RoundStep(n, 0, 1, c);
    } else {
      RoundStep(n, 1, 0, c - 18);
    }
    PlacesChanged(n, 0, 1);
    PlacesChanged(n, 1, 0);
  }

  lemma StageAt(n: nat, i: nat, k: nat, st: nat)
    requires n >= 3 && k + 1 < n && st < 4 && i == 2 + 4 * k + st
    ensures TableAt(n, i) == Stage(n, k, st) && MovesAt(n, i) == Running(k + 1, {})
  {
    assert (4 * k + st) / 4 == k && (4 * k + st) % 4 == st;
  }

  lemma LastStage(n: nat)
    requires n >= 3
    ensures TableAt(n, Parking(n)) == Stage(n, n - 2, 4)
  {
    AllParked(n);
  }

  lemma NextStage(n: nat, i: nat, k: nat, st: nat)
    requires n >= 3 && k + 1 < n && st < 4 && i == 2 + 4 * k + st
    ensures TableAt(n, i + 1) == Stage(n, k, st + 1)
  {
    if st < 3 {
      StageAt(n, i + 1, k, st + 1);
    } else if k + 2 < n {
      StageAt(n, i + 1, k + 1, 0);
      OneMoreParked(n, k);
    } else {
      LastStage(n);
    }
  }

  lemma ParkingStep(n: nat, i: nat, k: nat, st: nat, t: Table, m: Move, r: Table)
    requires n >= 3 && k + 1 < n && st < 4 && i == 2 + 4 * k + st
    requires t == TableAt(n, i) && m == MovesAt(n, i) && r == TableAt(n, i + 1)
    ensures Step(n, t, m, r)
  {
    StageAt(n, i, k, st);
    NextStage(n, i, k, st);
    StageStep(n, k, st);
  }

  lemma LaterStep(n: nat, i: nat, t: Table, m: Move, r: Table)
    requires n >= 3 && i >= Parking(n) && t == TableAt(n, i) && m == MovesAt(n, i) && r == TableAt(n, i + 1)
    ensures Step(n, t, m, r)
  {
    var x := i - Parking(n);
    NextMod36(x);
    assert i + 1 - Parking(n) == x + 1;
    FromParkingStep(n, x % 36, t, m, r);
  }

  // From step 4n - 2 on: 0 and 1 move, in turn, and the others are parked.
  ghost predicate InTurn(n: nat, t: Table, m: Move, i: nat)
    requires n >= 3
  {
    var c := (i - Parking(n)) % 36;
    && m.Running? && |m.woken| <= 1
    && (i >= Parking(n) ==>
          && m.p < 2 && (c == 0 ==> m.p == 0) && (c == 18 ==> m.p == 1)
          && (StartsMeal(t, m) <==> c == 2 || c == 20))
  }

  ghost predicate OthersParked(n: nat, t: Table, i: nat)
    requires n >= 3
  {
    |t.pc| == n && (i >= Parking(n) ==> forall q | 2 <= q < n :: t.pc[q] == Parked)
  }

  lemma RoundIsInTurn(n: nat, x: nat, y: nat, k: nat)
    requires Pair(n, x, y) && k < 18
    ensures StartsMeal(Round(n, x, y, k), RoundMove(x, y, k)) <==> k == 2
    ensures forall q | 2 <= q < n :: Round(n, x, y, k).pc[q] == Parked
  {
  }

  lemma AtStep(n: nat, i: nat, t: Table, m: Move, r: Table)
    requires n >= 3 && t == TableAt(n, i) && m == MovesAt(n, i) && r == TableAt(n, i + 1)
    ensures Step(n, t, m, r)
  {
    if i < 2 {
      OpeningSteps(n);
    } else if i < Parking(n) {
      ParkingStep(n, i, (i - 2) / 4, (i - 2) % 4, t, m, r);
    } else {
      LaterStep(n, i, t, m, r);
    }
  }

  lemma AtState(n: nat, i: nat)
    requires n >= 3
    ensures InTurn(n, TableAt(n, i), MovesAt(n, i), i) && OthersParked(n, TableAt(n, i), i)
  {
    if i >= Parking(n) {
      var c := (i - Parking(n)) % 36;
      assert c < 36;
      if c < 18 {
        RoundIsInTurn(n, 0, 1, c);
      } else {
        RoundIsInTurn(n, 1, 0, c - 18);
      }
    }
  }

  function Tables(n: nat, len: nat): (ss: seq<Table>)
    requires n >= 3
    ensures |ss| == len && forall i | 0 <= i < len :: ss[i] == TableAt(n, i)
  {
    seq(len, i requires 0 <= i => TableAt(n, i))
  }

  function TheirMoves(n: nat, len: nat): (ms: seq<Move>)
    requires n >= 3
    ensures |ms| == len && forall i | 0 <= i < len :: ms[i] == MovesAt(n, i)
  {
    seq(len, i requires 0 <= i => MovesAt(n, i))
  }

  // A run from the start, of any length, in which in the end 0 and 1 eat in turn, waking each
  // other, and all the others stay parked. No wake-up is spurious, no signal wakes more than one.
  lemma AlternatingRun(n: nat, len: nat) returns (ss: seq<Table>, ms: seq<Move>)
    requires n >= 3
    ensures Run(n, ss, ms) && ss[0] == Start(n) && |ms| == len
    ensures forall i | 0 <= i < len :: InTurn(n, ss[i], ms[i], i)
    ensures forall i | 0 <= i <= len :: OthersParked(n, ss[i], i)
  {
    ss, ms := Tables(n, len + 1), TheirMoves(n, len);
    TablesRun(n, ss, ms);
    forall i | 0 <= i <= len ensures OthersParked(n, ss[i], i) && (i < len ==> InTurn(n, ss[i], ms[i], i)) {
      AtState(n, i);
    }
    OpeningSteps(n);
  }

  lemma TablesRun(n: nat, ss: seq<Table>, ms: seq<Move>)
    requires n >= 3 && ss == Tables(n, |ms| + 1) && ms == TheirMoves(n, |ms|)
    ensures Run(n, ss, ms)
  {
    forall i | 0 <= i < |ms| ensures Step(n, ss[i], ms[i], ss[i + 1]) {
      AtStep(n, i, ss[i], ms[i], ss[i + 1]);
    }
  }

  // ------------------------------------------------------------------ it is strongly fair

  lemma {:induction false} FewTrues(bs: seq<bool>, i: nat, k: nat, first: nat)
    requires i + k <= |bs| && forall j | first <= j < |bs| :: !bs[j]
    ensures Trues(bs, i, k) <= if i + k <= first then k else if i < first then first - i else 0
  {
    if k == 0 {
    } else {
      FewTrues(bs, i, k - 1, first);
    }
  }

  lemma {:induction false} TruesBound(bs: seq<bool>, i: nat, k: nat)
    requires i + k <= |bs|
    ensures Trues(bs, i, k) <= k
  {
    if k == 0 {
    } else {
      TruesBound(bs, i, k - 1);
    }
  }

  lemma NextTurn(x: nat, turn: nat) returns (d: nat)
    requires turn < 36
    ensures d < 36 && (x + d) % 36 == turn
  {
    d := (turn + 36 - x % 36) % 36;
  }

  lemma EaterMoves(n: nat, ss: seq<Table>, ms: seq<Move>, p: nat, i: nat, k: nat)
    requires n >= 3 && p < 2 && i + k <= |ms| < |ss| && k >= Parking(n) + 36
    requires forall j | 0 <= j < |ms| :: InTurn(n, ss[j], ms[j], j)
    ensures Moves(ms, p, i, k)
  {
    var from := if i < Parking(n) then Parking(n) else i;
    var d := NextTurn(from - Parking(n), if p == 0 then 0 else 18);
    assert (from + d - Parking(n)) % 36 == (from - Parking(n) + d) % 36;
    assert InTurn(n, ss[from + d], ms[from + d], from + d);
  }

  lemma ParkedSeldomAble(n: nat, ss: seq<Table>, p: nat, i: nat, k: nat)
    requires n >= 3 && 2 <= p < n && i + k <= |ss|
    requires forall j | 0 <= j < |ss| :: OthersParked(n, ss[j], j)
    ensures TimesAble(ss, p, i, k) <= Parking(n)
  {
    forall j | Parking(n) <= j < |ss| ensures !Ables(ss, p)[j] {
      assert OthersParked(n, ss[j], j);
    }
    FewTrues(Ables(ss, p), i, k, Parking(n));
  }

  lemma AlternatingIsFair(n: nat, ss: seq<Table>, ms: seq<Move>, w: nat)
    requires n >= 3 && w >= Parking(n) + 36 && |ss| == |ms| + 1
    requires forall i | 0 <= i < |ms| :: InTurn(n, ss[i], ms[i], i)
    requires forall i | 0 <= i <= |ms| :: OthersParked(n, ss[i], i)
    ensures StronglyFair(n, ss, ms, w)
  {
    forall p: nat, i: nat, k: nat | p < n && i + k <= |ms| && TimesAble(ss, p, i, k) >= w
      ensures Moves(ms, p, i, k)
    {
      if p < 2 {
        TruesBound(Ables(ss, p), i, k);
        EaterMoves(n, ss, ms, p, i, k);
      } else {
        ParkedSeldomAble(n, ss, p, i, k);
      }
    }
  }

  // However high the threshold, philosopher 2 does not eat within any bound.
  lemma NoStrongBound(n: nat, w: nat, b: nat)
    requires n >= 3 && w >= Parking(n) + 36
    ensures !StronglyBounded(n, w, b)
  {
    var ss, ms := AlternatingRun(n, Parking(n) + w + b);
    AlternatingIsFair(n, ss, ms, w);
    assert StronglyFairRun(n, ss, ms, w);
    assert !EatsWithin(ss, ms, 2, Parking(n), b) by {
      forall j | Parking(n) <= j < Parking(n) + b ensures ms[j].p != 2 {
        assert InTurn(n, ss[j], ms[j], j);
      }
    }
  }

  // Under strong fairness every philosopher eats again and again if and only if there are at most
  // two.
  lemma StronglyStarvationFreeIff(n: nat)
    requires n > 0
    ensures StronglyStarvationFree(n) <==> n <= 2
  {
    if n <= 2 {
      forall w: nat ensures FreeUnder(n, w) {
        if n == 1 {
          OneEats(w);
        } else {
          TwoEat(w);
        }
      }
    } else {
      var w := Parking(n) + 36;
      forall b: nat ensures !StronglyBounded(n, w, b) {
        NoStrongBound(n, w, b);
      }
      assert !FreeUnder(n, w);
    }
  }
}
