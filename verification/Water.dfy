// The H2O rendezvous of Asmt_5/h2o/h2o_sem.cpp: any number of hydrogen and oxygen threads, in any
// interleaving. A region bracketed by the mutex makes no blocking call, so it is one step;
// sem_wait is enabled while the semaphore is positive.
module Water {
  import opened Basics
  import opened Tally

  // What the atom does next. A hydrogen becomes a First or a Second when it counts itself.
  datatype Pc =
    | HNew | HCount
    | FirstWait      // sem_wait(&h2_avail)
    | FirstPrint | FirstDone
    | SecondWait     // sem_wait(&o_avail)
    | SecondPostH2   // sem_post(&h2_avail)
    | SecondPostBoth // sem_post(&h_both_avail)
    | SecondPrint | SecondDone
    | ONew
    | OPost          // sem_post(&o_avail)
    | OWait          // sem_wait(&h_both_avail)
    | OPrint | ODone

  datatype State = State(pc: seq<Pc>, numH: nat, oAvail: nat, h2Avail: nat, hBoth: nat)

  // Groups of atoms that the semaphores and the counter keep account of.
  datatype Group =
    | Hydrogen | Oxygen
    | First | Second       // hydrogens counted, by the parity num_h had
    | Bond                 // seconds past sem_wait(&o_avail): one for each molecule under way
    | H2Posted             // seconds past sem_post(&h2_avail)
    | BothPosted           // seconds past sem_post(&h_both_avail)
    | FirstThrough         // firsts past sem_wait(&h2_avail)
    | OPosted              // oxygens past sem_post(&o_avail)
    | OThrough             // oxygens past sem_wait(&h_both_avail)
    | HThrough             // hydrogens past their last semaphore operation
    | HWater | OWater      // hydrogens, oxygens that have printed Water

  datatype Kind = HAtom | FirstAtom | SecondAtom | OAtom

  function KindOf(p: Pc): Kind {
    match p
    case HNew | HCount => HAtom
    case FirstWait | FirstPrint | FirstDone => FirstAtom
    case SecondWait | SecondPostH2 | SecondPostBoth | SecondPrint | SecondDone => SecondAtom
    case ONew | OPost | OWait | OPrint | ODone => OAtom
  }

  // Steps the atom has left at most.
  function ToDo(p: Pc): nat {
    match p
    case HNew => 6
    case HCount => 5
    case SecondWait => 4
    case SecondPostH2 => 3
    case SecondPostBoth => 2
    case SecondPrint => 1
    case FirstWait => 2
    case FirstPrint => 1
    case ONew => 4
    case OPost => 3
    case OWait => 2
    case OPrint => 1
    case FirstDone | SecondDone | ODone => 0
  }

  predicate In(g: Group, p: Pc) {
    match g
    case Hydrogen => KindOf(p) != OAtom
    case Oxygen => KindOf(p) == OAtom
    case First => KindOf(p) == FirstAtom
    case Second => KindOf(p) == SecondAtom
    case Bond => KindOf(p) == SecondAtom && ToDo(p) <= 3
    case H2Posted => KindOf(p) == SecondAtom && ToDo(p) <= 2
    case BothPosted => KindOf(p) == SecondAtom && ToDo(p) <= 1
    case FirstThrough => KindOf(p) == FirstAtom && ToDo(p) <= 1
    case OPosted => KindOf(p) == OAtom && ToDo(p) <= 2
    case OThrough => KindOf(p) == OAtom && ToDo(p) <= 1
    case HWater => KindOf(p) != OAtom && ToDo(p) == 0
    case HThrough => (KindOf(p) == FirstAtom || KindOf(p) == SecondAtom) && ToDo(p) <= 1
    case OWater => KindOf(p) == OAtom && ToDo(p) == 0
  }

  function Member(g: Group): Pc -> nat {
    (p: Pc) => Bit(In(g, p))
  }

  function Count(pc: seq<Pc>, g: Group): nat {
    if pc == [] then 0 else Bit(In(g, pc[0])) + Count(pc[1..], g)
  }

  lemma {:induction false} CountIsSum(pc: seq<Pc>, g: Group)
    ensures Count(pc, g) == Sum(pc, Member(g))
  {
    if pc == [] {
    } else {
      CountIsSum(pc[1..], g);
    }
  }

  // The laws of Tally, for groups.
  lemma CountUpdate(pc: seq<Pc>, i: nat, b: Pc, g: Group)
    requires i < |pc|
    ensures Count(pc[i := b], g) + Bit(In(g, pc[i])) == Count(pc, g) + Bit(In(g, b))
  {
    CountIsSum(pc, g);
    CountIsSum(pc[i := b], g);
    SumUpdate(pc, i, b, Member(g));
  }

  lemma CountAtMost(pc: seq<Pc>, g: Group, g': Group)
    requires forall i | 0 <= i < |pc| :: In(g, pc[i]) ==> In(g', pc[i])
    ensures Count(pc, g) <= Count(pc, g')
  {
    CountIsSum(pc, g);
    CountIsSum(pc, g');
    SumAtMost(pc, Member(g), Member(g'));
  }

  lemma CountSplits(pc: seq<Pc>, g: Group, g': Group, whole: Group)
    requires forall i | 0 <= i < |pc| :: Bit(In(whole, pc[i])) == Bit(In(g, pc[i])) + Bit(In(g', pc[i]))
    ensures Count(pc, whole) == Count(pc, g) + Count(pc, g')
  {
    CountIsSum(pc, g);
    CountIsSum(pc, g');
    CountIsSum(pc, whole);
    SumSplits(pc, Member(g), Member(g'), Member(whole));
  }

  lemma CountZero(pc: seq<Pc>, g: Group)
    requires forall i | 0 <= i < |pc| :: !In(g, pc[i])
    ensures Count(pc, g) == 0
  {
    CountIsSum(pc, g);
    SumZero(pc, Member(g));
  }

  ghost predicate Start(s: State) {
    && (forall i | 0 <= i < |s.pc| :: s.pc[i] == HNew || s.pc[i] == ONew)
    && s.numH == s.oAvail == s.h2Avail == s.hBoth == 0
  }

  predicate Enabled(s: State, i: nat)
    requires i < |s.pc|
  {
    match s.pc[i]
    case FirstWait => s.h2Avail > 0
    case SecondWait => s.oAvail > 0
    case OWait => s.hBoth > 0
    case FirstDone | SecondDone | ODone => false
    case _ => true
  }

  // H is lines 33-57 of the source, O lines 59-71.
  function Do(s: State, i: nat): (r: State)
    requires i < |s.pc| && Enabled(s, i)
    ensures |r.pc| == |s.pc|
  {
    match s.pc[i]
    case HNew => s.(pc := s.pc[i := HCount])
    case HCount => s.(numH := s.numH + 1, pc := s.pc[i := if s.numH % 2 == 0 then FirstWait else SecondWait])
    case FirstWait => s.(h2Avail := s.h2Avail - 1, pc := s.pc[i := FirstPrint])
    case FirstPrint => s.(pc := s.pc[i := FirstDone])
    case SecondWait => s.(oAvail := s.oAvail - 1, pc := s.pc[i := SecondPostH2])
    case SecondPostH2 => s.(h2Avail := s.h2Avail + 1, pc := s.pc[i := SecondPostBoth])
    case SecondPostBoth => s.(hBoth := s.hBoth + 1, pc := s.pc[i := SecondPrint])
    case SecondPrint => s.(pc := s.pc[i := SecondDone])
    case ONew => s.(pc := s.pc[i := OPost])
    case OPost => s.(oAvail := s.oAvail + 1, pc := s.pc[i := OWait])
    case OWait => s.(hBoth := s.hBoth - 1, pc := s.pc[i := OPrint])
    case OPrint => s.(pc := s.pc[i := ODone])
    case FirstDone | SecondDone | ODone => s
  }

  ghost predicate Step(s: State, i: nat, r: State) {
    i < |s.pc| && Enabled(s, i) && r == Do(s, i)
  }

  ghost predicate Run(ss: seq<State>, moves: seq<nat>) {
    && |ss| == |moves| + 1
    && forall k | 0 <= k < |moves| :: Step(ss[k], moves[k], ss[k + 1])
  }

  // ------------------------------------------------------------------ conservation

  // Every atom keeps its element, and num_h splits the counted hydrogens by parity.
  ghost predicate Census(s: State, h: nat, o: nat) {
    && Count(s.pc, Hydrogen) == h && Count(s.pc, Oxygen) == o
    && Count(s.pc, First) == (s.numH + 1) / 2
    && Count(s.pc, Second) == s.numH / 2
  }

  // Each semaphore holds its posts minus its completed waits.
  ghost predicate Posts(s: State) {
    && s.oAvail + Count(s.pc, Bond) == Count(s.pc, OPosted)
    && s.h2Avail + Count(s.pc, FirstThrough) == Count(s.pc, H2Posted)
    && s.hBoth + Count(s.pc, OThrough) == Count(s.pc, BothPosted)
  }

  ghost predicate Inv(s: State, h: nat, o: nat) {
    Census(s, h, o) && Posts(s)
  }

  lemma Moved(s: State, i: nat, r: State, g: Group)
    requires Step(s, i, r)
    ensures i < |r.pc|
    ensures Count(r.pc, g) == Count(s.pc, g) + Bit(In(g, r.pc[i])) - Bit(In(g, s.pc[i]))
  {
    assert r.pc == s.pc[i := r.pc[i]];
    CountUpdate(s.pc, i, r.pc[i], g);
  }

  // How a step changes each semaphore against the groups it accounts for.
  lemma StepBalance(s: State, i: nat, r: State)
    requires Step(s, i, r)
    ensures i < |r.pc|
    ensures
      var a, b := s.pc[i], r.pc[i];
      && r.oAvail - s.oAvail == Bit(In(OPosted, b)) - Bit(In(OPosted, a)) - Bit(In(Bond, b)) + Bit(In(Bond, a))
      && r.h2Avail - s.h2Avail
         == Bit(In(H2Posted, b)) - Bit(In(H2Posted, a)) - Bit(In(FirstThrough, b)) + Bit(In(FirstThrough, a))
      && r.hBoth - s.hBoth
         == Bit(In(BothPosted, b)) - Bit(In(BothPosted, a)) - Bit(In(OThrough, b)) + Bit(In(OThrough, a))
  {
  }

  // How a step changes num_h against the groups it splits.
  lemma StepParity(s: State, i: nat, r: State)
    requires Step(s, i, r)
    ensures i < |r.pc|
    ensures
      var a, b := s.pc[i], r.pc[i];
      && (r.numH + 1) / 2 - (s.numH + 1) / 2 == Bit(In(First, b)) - Bit(In(First, a))
      && r.numH / 2 - s.numH / 2 == Bit(In(Second, b)) - Bit(In(Second, a))
      && In(Hydrogen, a) == In(Hydrogen, b) && In(Oxygen, a) == In(Oxygen, b)
  {
  }

  lemma StepKeepsCensus(s: State, i: nat, r: State, h: nat, o: nat)
    requires Census(s, h, o) && Step(s, i, r)
    ensures Census(r, h, o)
  {
    StepParity(s, i, r);
    Moved(s, i, r, Hydrogen);
    Moved(s, i, r, Oxygen);
    Moved(s, i, r, First);
    Moved(s, i, r, Second);
  }

  lemma StepKeepsPosts(s: State, i: nat, r: State)
    requires Posts(s) && Step(s, i, r)
    ensures Posts(r)
  {
    StepBalance(s, i, r);
    Moved(s, i, r, Bond);
    Moved(s, i, r, H2Posted);
    Moved(s, i, r, BothPosted);
    Moved(s, i, r, FirstThrough);
    Moved(s, i, r, OPosted);
    Moved(s, i, r, OThrough);
  }

  lemma StartInv(s: State)
    requires Start(s)
    ensures Inv(s, Count(s.pc, Hydrogen), Count(s.pc, Oxygen))
  {
    CountZero(s.pc, First);
    CountZero(s.pc, Second);
    CountZero(s.pc, Bond);
    CountZero(s.pc, H2Posted);
    CountZero(s.pc, BothPosted);
    CountZero(s.pc, FirstThrough);
    CountZero(s.pc, OPosted);
    CountZero(s.pc, OThrough);
  }

  lemma {:induction false} RunKeepsInv(ss: seq<State>, moves: seq<nat>, k: nat)
    requires Run(ss, moves) && Start(ss[0]) && k <= |moves|
    ensures Inv(ss[k], Count(ss[0].pc, Hydrogen), Count(ss[0].pc, Oxygen))
  {
    var h, o := Count(ss[0].pc, Hydrogen), Count(ss[0].pc, Oxygen);
    if k == 0 {
      StartInv(ss[0]);
    } else {
      RunKeepsInv(ss, moves, k - 1);
      StepKeepsCensus(ss[k - 1], moves[k - 1], ss[k], h, o);
      StepKeepsPosts(ss[k - 1], moves[k - 1], ss[k]);
    }
  }

  // ------------------------------------------------------------------ safety at every moment

  lemma GroupsNest(pc: seq<Pc>)
    ensures Count(pc, BothPosted) <= Count(pc, H2Posted) <= Count(pc, Bond) <= Count(pc, Second)
  {
    CountAtMost(pc, BothPosted, H2Posted);
    CountAtMost(pc, H2Posted, Bond);
    CountAtMost(pc, Bond, Second);
  }

  lemma WaterNeedsPosts(pc: seq<Pc>)
    ensures Count(pc, OWater) <= Count(pc, OThrough)
    ensures Count(pc, HWater) <= Count(pc, FirstThrough) + Count(pc, BothPosted)
  {
    CountAtMost(pc, OWater, OThrough);
    CountSplits(pc, FirstThrough, BothPosted, HThrough);
    CountAtMost(pc, HWater, HThrough);
  }

  // Never more molecules under way than oxygen posts or pairs of counted hydrogens, and no atom
  // gets through ahead of a molecule it belongs to.
  ghost predicate Safe(s: State) {
    && Count(s.pc, Bond) <= Count(s.pc, OPosted) && Count(s.pc, Bond) <= s.numH / 2
    && Count(s.pc, OThrough) <= Count(s.pc, Bond)
    && Count(s.pc, FirstThrough) <= Count(s.pc, Bond)
    && Count(s.pc, OWater) <= Count(s.pc, Bond)
    && Count(s.pc, HWater) <= 2 * Count(s.pc, Bond)
    && s.hBoth + Count(s.pc, OThrough) <= s.h2Avail + Count(s.pc, FirstThrough)  // h2_avail is posted first
  }

  lemma InvSafe(s: State, h: nat, o: nat)
    requires Inv(s, h, o)
    ensures Safe(s)
  {
    GroupsNest(s.pc);
    WaterNeedsPosts(s.pc);
  }

  lemma NoOverproduction(ss: seq<State>, moves: seq<nat>, k: nat)
    requires Run(ss, moves) && Start(ss[0]) && k <= |moves|
    ensures Safe(ss[k])
  {
    RunKeepsInv(ss, moves, k);
    InvSafe(ss[k], Count(ss[0].pc, Hydrogen), Count(ss[0].pc, Oxygen));
  }

  // ------------------------------------------------------------------ termination and outcome

  lemma {:induction false} StepsAreBounded(ss: seq<State>, moves: seq<nat>, k: nat)
    requires Run(ss, moves) && k <= |moves|
    ensures Sum(ss[k].pc, ToDo) + k <= Sum(ss[0].pc, ToDo)
  {
    if k == 0 {
    } else {
      StepsAreBounded(ss, moves, k - 1);
      var s, i, r := ss[k - 1], moves[k - 1], ss[k];
      assert Step(s, i, r);
      assert r.pc == s.pc[i := r.pc[i]];
      SumUpdate(s.pc, i, r.pc[i], ToDo);
    }
  }

  ghost predicate Quiescent(s: State) {
    forall i | 0 <= i < |s.pc| :: !Enabled(s, i)
  }

  // Where an atom can stand when nothing is enabled.
  predicate AtRest(s: State, p: Pc) {
    || p.FirstDone? || p.SecondDone? || p.ODone?
    || (p.FirstWait? && s.h2Avail == 0)
    || (p.SecondWait? && s.oAvail == 0)
    || (p.OWait? && s.hBoth == 0)
  }

  // At rest, groups that differ only in passing states coincide, and a positive semaphore has
  // nobody left waiting for it.
  lemma SecondsAtRest(s: State)
    requires forall i | 0 <= i < |s.pc| :: AtRest(s, s.pc[i])
    ensures Count(s.pc, Bond) == Count(s.pc, H2Posted) == Count(s.pc, BothPosted)
  {
    CountAtMost(s.pc, Bond, BothPosted);
    GroupsNest(s.pc);
  }

  lemma HydrogensAtRest(s: State)
    requires forall i | 0 <= i < |s.pc| :: AtRest(s, s.pc[i])
    ensures Count(s.pc, HWater) == Count(s.pc, FirstThrough) + Count(s.pc, BothPosted)
    ensures Count(s.pc, Hydrogen) == Count(s.pc, First) + Count(s.pc, Second)
  {
    CountSplits(s.pc, FirstThrough, BothPosted, HWater);
    CountSplits(s.pc, First, Second, Hydrogen);
  }

  lemma OxygensAtRest(s: State)
    requires forall i | 0 <= i < |s.pc| :: AtRest(s, s.pc[i])
    ensures Count(s.pc, OPosted) == Count(s.pc, Oxygen)
    ensures Count(s.pc, OWater) == Count(s.pc, OThrough)
  {
    var pc := s.pc;
    CountAtMost(pc, Oxygen, OPosted);
    CountAtMost(pc, OPosted, Oxygen);
    CountAtMost(pc, OThrough, OWater);
    CountAtMost(pc, OWater, OThrough);
  }

  lemma SecondsDoNotWait(s: State)
    requires forall i | 0 <= i < |s.pc| :: AtRest(s, s.pc[i])
    ensures s.oAvail > 0 ==> Count(s.pc, Second) <= Count(s.pc, Bond)
  {
    if s.oAvail > 0 {
      CountAtMost(s.pc, Second, Bond);
    }
  }

  lemma FirstsDoNotWait(s: State)
    requires forall i | 0 <= i < |s.pc| :: AtRest(s, s.pc[i])
    ensures s.h2Avail > 0 ==> Count(s.pc, First) <= Count(s.pc, FirstThrough)
  {
    if s.h2Avail > 0 {
      CountAtMost(s.pc, First, FirstThrough);
    }
  }

  lemma OxygensDoNotWait(s: State)
    requires forall i | 0 <= i < |s.pc| :: AtRest(s, s.pc[i])
    ensures s.hBoth > 0 ==> Count(s.pc, OPosted) <= Count(s.pc, OThrough)
  {
    if s.hBoth > 0 {
      CountAtMost(s.pc, OPosted, OThrough);
    }
  }

  lemma QuiescentCounts(s: State, h: nat, o: nat)
    requires Inv(s, h, o) && Quiescent(s)
    ensures Count(s.pc, OWater) == Min(o, h / 2) && Count(s.pc, HWater) == 2 * Min(o, h / 2)
  {
    forall i | 0 <= i < |s.pc| ensures AtRest(s, s.pc[i]) {
      assert !Enabled(s, i);
    }
    SecondsAtRest(s);
    HydrogensAtRest(s);
    OxygensAtRest(s);
    GroupsNest(s.pc);
    SecondsDoNotWait(s);
    FirstsDoNotWait(s);
    OxygensDoNotWait(s);
  }

  // Every run of n atoms takes at most 6n steps, and wherever it can go no further exactly
  // m oxygens and 2m hydrogens have printed Water, with m = min(#O, #H / 2).
  lemma EveryRunMakesAllTheWater(ss: seq<State>, moves: seq<nat>)
    requires Run(ss, moves) && Start(ss[0])
    ensures |moves| <= 6 * |ss[0].pc|
    ensures
      var m := Min(Count(ss[0].pc, Oxygen), Count(ss[0].pc, Hydrogen) / 2);
      var last := ss[|moves|];
      Quiescent(last) ==> Count(last.pc, OWater) == m && Count(last.pc, HWater) == 2 * m
  {
    StepsAreBounded(ss, moves, |moves|);
    SumBound(ss[0].pc, ToDo, 6);
    RunKeepsInv(ss, moves, |moves|);
    if Quiescent(ss[|moves|]) {
      QuiescentCounts(ss[|moves|], Count(ss[0].pc, Hydrogen), Count(ss[0].pc, Oxygen));
    }
  }

  // ------------------------------------------------------------------ the threads' statements

  class Semaphore {
    var value: nat

    // sem_init with value 0
    constructor ()
      ensures value == 0
    {
      value := 0;
    }

    method Wait()
      requires value > 0
      modifies this
      ensures value == old(value) - 1
    {
      value := value - 1;
    }

    method Post()
      modifies this
      ensures value == old(value) + 1
    {
      value := value + 1;
    }
  }

  // The program's semaphores and counter, and the atoms' control points. H and O advance atom i
  // by its next statement, a sem_wait only while it does not block; they return whether the
  // statement prints Water.
  class Rendezvous {
    const oAvail: Semaphore
    const h2Avail: Semaphore
    const hBoth: Semaphore
    var numH: nat
    var pc: seq<Pc>
    ghost const h: nat  // how many hydrogens and oxygens there are
    ghost const o: nat

    ghost function Abs(): State
      reads this, oAvail, h2Avail, hBoth
    {
      State(pc, numH, oAvail.value, h2Avail.value, hBoth.value)
    }

    ghost predicate Separate() {
      oAvail != h2Avail && oAvail != hBoth && h2Avail != hBoth
    }

    ghost predicate Valid()
      reads this, oAvail, h2Avail, hBoth
    {
      Separate() && Inv(Abs(), h, o)
    }

    // The atoms are given by element.
    constructor (hydrogen: seq<bool>)
      ensures Valid() && Start(Abs()) && |pc| == |hydrogen|
      ensures forall i | 0 <= i < |pc| :: pc[i] == if hydrogen[i] then HNew else ONew
    {
      var atoms := seq(|hydrogen|, i requires 0 <= i < |hydrogen| => if hydrogen[i] then HNew else ONew);
      pc, numH := atoms, 0;
      oAvail := new Semaphore();
      h2Avail := new Semaphore();
      hBoth := new Semaphore();
      h, o := Count(atoms, Hydrogen), Count(atoms, Oxygen);
      new;
      StartInv(Abs());
    }

    ghost method Advanced(s: State, i: nat)
      requires Inv(s, h, o) && Step(s, i, Abs())
      ensures Inv(Abs(), h, o) && Safe(Abs())
      ensures i < |pc| == |s.pc|
      ensures forall g :: Count(pc, g) == Count(s.pc, g) + Bit(In(g, pc[i])) - Bit(In(g, s.pc[i]))
    {
      StepKeepsCensus(s, i, Abs(), h, o);
      StepKeepsPosts(s, i, Abs());
      InvSafe(Abs(), h, o);
      forall g ensures Count(pc, g) == Count(s.pc, g) + Bit(In(g, pc[i])) - Bit(In(g, s.pc[i])) {
        Moved(s, i, Abs(), g);
      }
    }

    method HStatement(i: nat) returns (printed: bool)
      requires Separate() && i < |pc| && KindOf(pc[i]) != OAtom && Enabled(Abs(), i)
      modifies this, oAvail, h2Avail, hBoth
      ensures Step(old(Abs()), i, Abs())
      ensures printed <==> pc[i] != old(pc[i]) && ToDo(pc[i]) == 0
    {
      printed := false;
      match pc[i] {
        case HNew =>
          pc := pc[i := HCount];
        case HCount =>
          pc := pc[i := if numH % 2 == 0 then FirstWait else SecondWait];
          numH := numH + 1;
        case FirstWait =>
          h2Avail.Wait();
          pc := pc[i := FirstPrint];
        case FirstPrint =>
          printed := true;
          pc := pc[i := FirstDone];
        case SecondWait =>
          oAvail.Wait();
          pc := pc[i := SecondPostH2];
        case SecondPostH2 =>
          h2Avail.Post();
          pc := pc[i := SecondPostBoth];
        case SecondPostBoth =>
          hBoth.Post();
          pc := pc[i := SecondPrint];
        case SecondPrint =>
          printed := true;
          pc := pc[i := SecondDone];
        case _ =>
      }
    }

    lemma WaterByPrinting(s: State, i: nat, r: State)
      requires Step(s, i, r)
      ensures
        var a, b := s.pc[i], r.pc[i];
        && Bit(In(HWater, b)) - Bit(In(HWater, a)) == Bit(KindOf(a) != OAtom && b != a && ToDo(b) == 0)
        && Bit(In(OWater, b)) - Bit(In(OWater, a)) == Bit(KindOf(a) == OAtom && b != a && ToDo(b) == 0)
    {
    }

    // Lines 33-57. Each Water a hydrogen prints is accounted for by a molecule under way.
    method H(i: nat) returns (printed: bool)
      requires Valid() && i < |pc| && KindOf(pc[i]) != OAtom && Enabled(Abs(), i)
      modifies this, oAvail, h2Avail, hBoth
      ensures Valid() && Safe(Abs()) && Step(old(Abs()), i, Abs())
      ensures Count(pc, HWater) == old(Count(pc, HWater)) + Bit(printed) <= 2 * Count(pc, Bond)
    {
      ghost var s := Abs();
      printed := HStatement(i);
      WaterByPrinting(s, i, Abs());
      Advanced(s, i);
    }

    method OStatement(i: nat) returns (printed: bool)
      requires Separate() && i < |pc| && KindOf(pc[i]) == OAtom && Enabled(Abs(), i)
      modifies this, oAvail, h2Avail, hBoth
      ensures Step(old(Abs()), i, Abs())
      ensures printed <==> pc[i] != old(pc[i]) && ToDo(pc[i]) == 0
    {
      printed := false;
      match pc[i] {
        case ONew =>
          pc := pc[i := OPost];
        case OPost =>
          oAvail.Post();
          pc := pc[i := OWait];
        case OWait =>
          hBoth.Wait();
          pc := pc[i := OPrint];
        case OPrint =>
          printed := true;
          pc := pc[i := ODone];
        case _ =>
      }
    }

    // Lines 59-71.
    method O(i: nat) returns (printed: bool)
      requires Valid() && i < |pc| && KindOf(pc[i]) == OAtom && Enabled(Abs(), i)
      modifies this, oAvail, h2Avail, hBoth
      ensures Valid() && Safe(Abs()) && Step(old(Abs()), i, Abs())
      ensures Count(pc, OWater) == old(Count(pc, OWater)) + Bit(printed) <= Count(pc, Bond)
    {
      ghost var s := Abs();
      printed := OStatement(i);
      WaterByPrinting(s, i, Abs());
      Advanced(s, i);
    }
  }
}
