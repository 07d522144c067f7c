// The semaphore version of the bounded buffer, Asmt_5/prodcon/prodcon_sem.cpp: any number of
// producers and consumers, in any interleaving. The buffer is a stack whose head index starts at
// 0 and moves before a write, so slots 1 to bufferlen are used; the model gives the memory
// bufferlen + 1 slots, one more than `new char[bufferlen]`.
module BoundedBuffer {
  import opened Basics
  import opened Tally

  // ------------------------------------------------------------------ the buffer itself

  datatype Store = Store(buffer: seq<char>, pos: nat) {
    ghost predicate Valid() {
      pos < |buffer|
    }

    // The items inserted and not yet removed, oldest first.
    function Items(): seq<char>
      requires pos < |buffer|
    {
      buffer[1..pos + 1]
    }
  }

  function Insert(s: Store, item: char): Store
    requires s.pos + 1 < |s.buffer|
  {
    Store(s.buffer[s.pos + 1 := item], s.pos + 1)
  }

  function Remove(s: Store): Store
    requires 0 < s.pos < |s.buffer|
  {
    s.(pos := s.pos - 1)
  }

  lemma InsertPushes(s: Store, item: char)
    requires s.pos + 1 < |s.buffer|
    ensures Insert(s, item).Items() == s.Items() + [item]
  {
  }

  lemma RemovePops(s: Store)
    requires 0 < s.pos < |s.buffer|
    ensures s.Items() == Remove(s).Items() + [s.buffer[s.pos]]
  {
  }

  class Buffer {
    var buffer: array<char>
    var pos: nat

    ghost function Abs(): Store
      reads this, buffer
    {
      Store(buffer[..], pos)
    }

    constructor (bufferlen: nat)
      ensures Abs().Valid() && Abs().Items() == [] && fresh(buffer) && buffer.Length == bufferlen + 1
    {
      buffer := new char[bufferlen + 1](_ => ' ');
      pos := 0;
    }

    method InsertItem(item: char)
      requires pos + 1 < buffer.Length
      modifies this`pos, buffer
      ensures Abs() == Insert(old(Abs()), item)
      ensures Abs().Items() == old(Abs().Items()) + [item]
    {
      pos := pos + 1;
      buffer[pos] := item;
      InsertPushes(old(Abs()), item);
    }

    method RemoveItem() returns (item: char)
      requires 0 < pos < buffer.Length
      modifies this`pos
      ensures Abs() == Remove(old(Abs()))
      ensures old(Abs().Items()) == Abs().Items() + [item]
    {
      item := buffer[pos];
      pos := pos - 1;
      RemovePops(old(Abs()));
    }
  }

  // ------------------------------------------------------------------ the protocol

  datatype Pc =
    | PWait     // sem_wait(&canWrite)
    | PInsert
    | PPost     // sem_post(&canRead)
    | CWait     // sem_wait(&canRead)
    | CRemove
    | CPost     // sem_post(&canWrite)

  datatype Op = Inserted(c: char) | Removed(c: char)

  // log is a history variable: the buffer operations so far.
  datatype State = State(pc: seq<Pc>, canRead: nat, canWrite: nat, store: Store, log: seq<Op>)

  ghost predicate Start(s: State, len: nat) {
    && (forall i | 0 <= i < |s.pc| :: s.pc[i] == PWait || s.pc[i] == CWait)
    && s.canRead == 0 && s.canWrite == len
    && s.store.pos == 0 && |s.store.buffer| == len + 1
    && s.log == []
  }

  // A thread blocks only in sem_wait.
  predicate Enabled(s: State, i: nat)
    requires i < |s.pc|
  {
    match s.pc[i]
    case PWait => s.canWrite > 0
    case CWait => s.canRead > 0
    case _ => true
  }

  // The array index the thread's next statement touches, if any.
  function Touches(s: State, i: nat): int
    requires i < |s.pc|
  {
    match s.pc[i]
    case PInsert => s.store.pos + 1
    case CRemove => s.store.pos
    case _ => -1
  }

  ghost predicate Step(s: State, i: nat, item: char, r: State) {
    && i < |s.pc|
    && Enabled(s, i)
    && match s.pc[i]
       case PWait => r == s.(canWrite := s.canWrite - 1, pc := s.pc[i := PInsert])
       case PInsert =>
         && s.store.pos + 1 < |s.store.buffer|
         && r == s.(store := Insert(s.store, item), pc := s.pc[i := PPost], log := s.log + [Inserted(item)])
       case PPost => r == s.(canRead := s.canRead + 1, pc := s.pc[i := PWait])
       case CWait => r == s.(canRead := s.canRead - 1, pc := s.pc[i := CRemove])
       case CRemove =>
         && 0 < s.store.pos < |s.store.buffer|
         && r == s.(store := Remove(s.store), pc := s.pc[i := CPost],
                    log := s.log + [Removed(s.store.buffer[s.store.pos])])
       case CPost => r == s.(canWrite := s.canWrite + 1, pc := s.pc[i := CWait])
  }

  ghost predicate Run(ss: seq<State>, moves: seq<(nat, char)>) {
    && |ss| == |moves| + 1
    && forall k | 0 <= k < |moves| :: Step(ss[k], moves[k].0, moves[k].1, ss[k + 1])
  }

  // ------------------------------------------------------------------ invariant

  // Threads that have taken a token and not given one back.
  function InFlight(p: Pc): nat {
    Bit(p != PWait && p != CWait)
  }

  // Threads that account for an item in the buffer that canRead does not count.
  function Holding(p: Pc): nat {
    Bit(p == PPost || p == CRemove)
  }

  ghost predicate Inv(s: State, len: nat) {
    && |s.store.buffer| == len + 1
    && s.canRead + s.canWrite + Sum(s.pc, InFlight) == len
    && s.store.pos == s.canRead + Sum(s.pc, Holding)
    && s.store.pos <= len
    && StackAfter(s.log) == Some(s.store.Items())
  }

  function Apply(st: seq<char>, op: Op): Option<seq<char>> {
    match op
    case Inserted(c) => Some(st + [c])
    case Removed(c) => if st != [] && st[|st| - 1] == c then Some(st[..|st| - 1]) else None
  }

  // What is on the stack after the logged operations, None if some removal did not return the
  // latest item not yet removed.
  function StackAfter(log: seq<Op>): Option<seq<char>> {
    if log == [] then Some([])
    else
      var before := StackAfter(log[..|log| - 1]);
      if before.None? then None else Apply(before.value, log[|log| - 1])
  }

  lemma StackAfterOne(log: seq<Op>, op: Op)
    requires StackAfter(log).Some?
    ensures StackAfter(log + [op]) == Apply(StackAfter(log).value, op)
  {
    assert (log + [op])[..|log|] == log;
  }

  lemma StepKeepsTokens(s: State, i: nat, item: char, r: State, len: nat)
    requires Inv(s, len) && Step(s, i, item, r)
    ensures r.canRead + r.canWrite + Sum(r.pc, InFlight) == len
    ensures r.store.pos == r.canRead + Sum(r.pc, Holding)
    ensures r.store.pos <= len
  {
    assert r.pc == s.pc[i := r.pc[i]];
    SumUpdate(s.pc, i, r.pc[i], InFlight);
    SumUpdate(s.pc, i, r.pc[i], Holding);
    SumAtMost(r.pc, Holding, InFlight);
  }

  lemma StepKeepsStack(s: State, i: nat, item: char, r: State, len: nat)
    requires Inv(s, len) && Step(s, i, item, r)
    ensures |r.store.buffer| == len + 1 && r.store.pos <= len
    ensures StackAfter(r.log) == Some(r.store.Items())
  {
    if s.pc[i] == PInsert {
      InsertPushes(s.store, item);
      StackAfterOne(s.log, Inserted(item));
    } else if s.pc[i] == CRemove {
      var top := s.store.buffer[s.store.pos];
      RemovePops(s.store);
      StackAfterOne(s.log, Removed(top));
      assert s.store.Items()[..s.store.pos - 1] == r.store.Items();
    }
  }

  lemma StepKeepsInv(s: State, i: nat, item: char, r: State, len: nat)
    requires Inv(s, len) && Step(s, i, item, r)
    ensures Inv(r, len)
  {
    StepKeepsTokens(s, i, item, r, len);
    StepKeepsStack(s, i, item, r, len);
  }

  // In every state the next buffer access is inside slots 1 to len, so Step's own bounds on
  // insertion and removal never block a thread; and it is slot len, which the program does not
  // allocate, exactly when this access fills or empties the last place.
  lemma AccessInRange(s: State, i: nat, len: nat)
    requires Inv(s, len) && i < |s.pc|
    ensures s.pc[i] == PInsert || s.pc[i] == CRemove ==>
              && 1 <= Touches(s, i) <= len
              && (Touches(s, i) == len <==> |s.store.Items()| + Bit(s.pc[i] == PInsert) == len)
  {
    if s.pc[i] == PInsert {
      SumUpdate(s.pc, i, PPost, Holding);
      SumUpdate(s.pc, i, PPost, InFlight);
      SumAtMost(s.pc[i := PPost], Holding, InFlight);
    } else if s.pc[i] == CRemove {
      SumIncludes(s.pc, i, Holding);
    }
  }

  function InsertedItems(log: seq<Op>): multiset<char> {
    if log == [] then multiset{}
    else
      var op := log[|log| - 1];
      InsertedItems(log[..|log| - 1]) + if op.Inserted? then multiset{op.c} else multiset{}
  }

  function RemovedItems(log: seq<Op>): multiset<char> {
    if log == [] then multiset{}
    else
      var op := log[|log| - 1];
      RemovedItems(log[..|log| - 1]) + if op.Removed? then multiset{op.c} else multiset{}
  }

  lemma {:induction false} NothingLost(log: seq<Op>)
    requires StackAfter(log).Some?
    ensures InsertedItems(log) == RemovedItems(log) + multiset(StackAfter(log).value)
  {
    if log == [] {
    } else {
      NothingLost(log[..|log| - 1]);
      ApplyKeepsItems(StackAfter(log[..|log| - 1]).value, log[|log| - 1]);
    }
  }

  lemma ApplyKeepsItems(st: seq<char>, op: Op)
    requires Apply(st, op).Some?
    ensures op.Inserted? ==> multiset(Apply(st, op).value) == multiset(st) + multiset{op.c}
    ensures op.Removed? ==> multiset(st) == multiset(Apply(st, op).value) + multiset{op.c}
  {
    if op.Removed? {
      assert st == st[..|st| - 1] + [op.c];
    }
  }

  lemma {:induction false} RunKeepsInv(ss: seq<State>, moves: seq<(nat, char)>, len: nat, k: nat)
    requires Run(ss, moves) && Start(ss[0], len) && k <= |moves|
    ensures Inv(ss[k], len)
  {
    if k == 0 {
      SumZero(ss[0].pc, InFlight);
      SumZero(ss[0].pc, Holding);
      assert ss[0].store.Items() == [];
    } else {
      RunKeepsInv(ss, moves, len, k - 1);
      StepKeepsInv(ss[k - 1], moves[k - 1].0, moves[k - 1].1, ss[k], len);
    }
  }

  // Every interleaving: tokens are conserved, accesses stay in slots 1 to len, removals are
  // last-in first-out, and inserted items equal removed items plus the buffer's contents.
  lemma BufferIsSafe(ss: seq<State>, moves: seq<(nat, char)>, len: nat, k: nat)
    requires Run(ss, moves) && Start(ss[0], len) && k <= |moves|
    ensures
      var s := ss[k];
      && s.canRead + s.canWrite + Sum(s.pc, InFlight) == len
      && s.store.pos <= len < |s.store.buffer|
      && (forall i | 0 <= i < |s.pc| && (s.pc[i] == PInsert || s.pc[i] == CRemove) :: 1 <= Touches(s, i) <= len)
      && StackAfter(s.log) == Some(s.store.Items())
      && InsertedItems(s.log) == RemovedItems(s.log) + multiset(s.store.Items())
  {
    RunKeepsInv(ss, moves, len, k);
    var s := ss[k];
    forall i | 0 <= i < |s.pc| ensures s.pc[i] == PInsert || s.pc[i] == CRemove ==> 1 <= Touches(s, i) <= len {
      AccessInRange(s, i, len);
    }
    NothingLost(s.log);
  }

  // With a producer, a consumer and a buffer of at least one slot, somebody can always move.
  lemma NeverStuck(s: State, len: nat, p: nat, c: nat)
    requires Inv(s, len) && len > 0 && p < |s.pc| && c < |s.pc|
    requires s.pc[p] == PWait || s.pc[p] == PInsert || s.pc[p] == PPost
    requires s.pc[c] == CWait || s.pc[c] == CRemove || s.pc[c] == CPost
    ensures exists i :: 0 <= i < |s.pc| && Enabled(s, i)
  {
    if forall i | 0 <= i < |s.pc| :: !Enabled(s, i) {
      assert !Enabled(s, p) && !Enabled(s, c);
      forall i | 0 <= i < |s.pc| ensures InFlight(s.pc[i]) == 0 {
        assert !Enabled(s, i);
      }
      SumZero(s.pc, InFlight);
    }
  }

  // Statements until the thread's next buffer operation.
  function Rank(p: Pc): nat {
    match p
    case PInsert | CRemove => 0
    case PWait | CWait => 1
    case PPost | CPost => 2
  }

  ghost predicate MovesItem(s: State, i: nat) {
    i < |s.pc| && (s.pc[i] == PInsert || s.pc[i] == CRemove)
  }

  lemma StepsTowardsItem(s: State, i: nat, item: char, r: State)
    requires Step(s, i, item, r)
    ensures |r.pc| == |s.pc|
    ensures if MovesItem(s, i) then |r.log| == |s.log| + 1 else Sum(r.pc, Rank) + 1 == Sum(s.pc, Rank)
  {
    assert r.pc == s.pc[i := r.pc[i]];
    SumUpdate(s.pc, i, r.pc[i], Rank);
  }

  lemma {:induction false} ItemOrCountdown(ss: seq<State>, moves: seq<(nat, char)>, i: nat, k: nat)
    requires Run(ss, moves) && i + k <= |moves|
    requires forall j | i <= j < i + k :: !MovesItem(ss[j], moves[j].0)
    ensures |ss[i + k].pc| == |ss[i].pc| && Sum(ss[i + k].pc, Rank) + k == Sum(ss[i].pc, Rank)
  {
    if k == 0 {
    } else {
      ItemOrCountdown(ss, moves, i, k - 1);
      StepsTowardsItem(ss[i + k - 1], moves[i + k - 1].0, moves[i + k - 1].1, ss[i + k]);
    }
  }

  // Wherever a run of n threads stands, some item is inserted or removed within the next 2n + 1
  // steps. With NeverStuck: no deadlock and no livelock.
  lemma ItemMoves(ss: seq<State>, moves: seq<(nat, char)>, i: nat)
    requires Run(ss, moves) && i < |ss| && i + 2 * |ss[i].pc| + 1 <= |moves|
    ensures exists j :: i <= j < i + 2 * |ss[i].pc| + 1 && |ss[j + 1].log| == |ss[j].log| + 1
  {
    var k := 2 * |ss[i].pc| + 1;
    SumBound(ss[i].pc, Rank, 2);
    if forall j | i <= j < i + k :: !MovesItem(ss[j], moves[j].0) {
      ItemOrCountdown(ss, moves, i, k);
    } else {
      var j :| i <= j < i + k && MovesItem(ss[j], moves[j].0);
      StepsTowardsItem(ss[j], moves[j].0, moves[j].1, ss[j + 1]);
    }
  }

  // ------------------------------------------------------------------ the missing slot

  // The program allocates slots 0 to len - 1 only. With one producer and one consumer, as main
  // starts them, and the consumer not scheduled for a while, the head reaches any k.
  lemma {:induction false} Fill(len: nat, k: nat) returns (ss: seq<State>, moves: seq<(nat, char)>)
    requires k <= len
    ensures Run(ss, moves) && Start(ss[0], len)
    ensures var s := ss[|moves|];
            s.pc == [PWait, CWait] && s.canWrite == len - k && s.store.pos == k && |s.store.buffer| == len + 1
  {
    if k == 0 {
      ss := [State([PWait, CWait], 0, len, Store(seq(len + 1, _ => ' '), 0), [])];
      moves := [];
    } else {
      ss, moves := Fill(len, k - 1);
      var s := ss[|moves|];
      var s1 := s.(canWrite := s.canWrite - 1, pc := [PInsert, CWait]);
      var s2 := s1.(store := Insert(s1.store, 'A'), pc := [PPost, CWait], log := s1.log + [Inserted('A')]);
      var s3 := s2.(canRead := s2.canRead + 1, pc := [PWait, CWait]);
      assert Step(s, 0, 'A', s1) && Step(s1, 0, 'A', s2) && Step(s2, 0, 'A', s3);
      ss, moves := ss + [s1, s2, s3], moves + [(0, 'A'), (0, 'A'), (0, 'A')];
    }
  }

  // So for every buffer length there is a run that touches slot len, outside the allocation.
  lemma LastSlotReached(len: nat) returns (ss: seq<State>, moves: seq<(nat, char)>)
    requires len > 0
    ensures Run(ss, moves) && Start(ss[0], len)
    ensures ss[|moves|].pc == [PInsert, CWait] && Touches(ss[|moves|], 0) == len
  {
    ss, moves := Fill(len, len - 1);
    var s := ss[|moves|];
    var s1 := s.(canWrite := s.canWrite - 1, pc := [PInsert, CWait]);
    assert Step(s, 0, 'A', s1);
    ss, moves := ss + [s1], moves + [(0, 'A')];
  }

  // ------------------------------------------------------------------ the threads' statements

  // The program's shared state. Produce and Consume advance thread i by its next statement; a
  // sem_wait is called only while it does not block.
  class Program {
    const len: nat
    const shared: Buffer
    var pc: seq<Pc>
    var canRead: nat
    var canWrite: nat
    ghost var log: seq<Op>

    ghost function Snapshot(): State
      reads this, shared, shared.buffer
    {
      State(pc, canRead, canWrite, shared.Abs(), log)
    }

    constructor (bufferlen: nat, producers: nat, consumers: nat)
      ensures Start(Snapshot(), bufferlen) && len == bufferlen && |pc| == producers + consumers
      ensures Inv(Snapshot(), len)
      ensures forall i | 0 <= i < |pc| :: pc[i] == if i < producers then PWait else CWait
    {
      len := bufferlen;
      shared := new Buffer(bufferlen);
      pc := seq(producers + consumers, i => if i < producers then PWait else CWait);
      canRead, canWrite, log := 0, bufferlen, [];
      new;
      RunKeepsInv([Snapshot()], [], len, 0);
    }

    method Produce(i: nat, item: char)
      requires Inv(Snapshot(), len) && i < |pc| && Enabled(Snapshot(), i)
      requires pc[i] == PWait || pc[i] == PInsert || pc[i] == PPost
      modifies this, shared, shared.buffer
      ensures Step(old(Snapshot()), i, item, Snapshot()) && Inv(Snapshot(), len)
    {
      AccessInRange(Snapshot(), i, len);
      ghost var s := Snapshot();
      if pc[i] == PWait {
        canWrite := canWrite - 1;
        pc := pc[i := PInsert];
      } else if pc[i] == PInsert {
        shared.InsertItem(item);
        log := log + [Inserted(item)];
        pc := pc[i := PPost];
      } else {
        canRead := canRead + 1;
        pc := pc[i := PWait];
      }
      StepKeepsInv(s, i, item, Snapshot(), len);
    }

    method Consume(i: nat) returns (item: char)
      requires Inv(Snapshot(), len) && i < |pc| && Enabled(Snapshot(), i)
      requires pc[i] == CWait || pc[i] == CRemove || pc[i] == CPost
      modifies this, shared
      ensures Step(old(Snapshot()), i, item, Snapshot()) && Inv(Snapshot(), len)
      ensures old(pc[i]) == CRemove ==> old(shared.Abs().Items()) == shared.Abs().Items() + [item]
    {
      ghost var s := Snapshot();
      item := ' ';
      if pc[i] == CWait {
        canRead := canRead - 1;
        pc := pc[i := CRemove];
      } else if pc[i] == CRemove {
        AccessInRange(s, i, len);
        item := shared.RemoveItem();
        log := log + [Removed(item)];
        pc := pc[i := CPost];
      } else {
        canWrite := canWrite + 1;
        pc := pc[i := CWait];
      }
      StepKeepsInv(s, i, item, Snapshot(), len);
    }
  }
}
