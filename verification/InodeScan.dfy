// The search of Asmt_6/recover.c for inodes: find_inode and the loop of main around it
// (lines 82-87, 365-367, 415-430). Both owner ids must match, although recover.h says either.
module InodeScan {
  import opened Basics

  const INODE_WORDS := 25  // sizeof(struct inode) / sizeof(int)
  const UID_WORD := 2      // uid is the third field, gid the fourth

  // The image as whole words, and the word behind it, which the search reads when the last word
  // equals uid.
  datatype Memory = Memory(words: seq<int>, past: int, uid: int, gid: int)

  predicate Hit(m: Memory, p: nat) {
    && p < |m.words|
    && m.words[p] == m.uid
    && (if p + 1 < |m.words| then m.words[p + 1] else m.past) == m.gid
  }

  lemma AdjacentIdsMatch(m: Memory)
    ensures forall p | 0 <= p < |m.words| - 1 && m.words[p] == m.uid && m.words[p + 1] == m.gid :: Hit(m, p)
  {
  }

  // find_inode: the first match at or after `start`. The inode begins UID_WORD words earlier.
  method FindInode(m: Memory, start: nat) returns (r: Option<nat>)
    ensures r.None? ==> forall p | start <= p :: !Hit(m, p)
    ensures r.Some? ==> start <= r.value && Hit(m, r.value) && forall p | start <= p < r.value :: !Hit(m, p)
    ensures r.Some? ==>
              && r.value < |m.words| && m.words[r.value] == m.uid
              && (if r.value + 1 == |m.words| then m.past else m.words[r.value + 1]) == m.gid
    ensures forall p | start <= p < |m.words| - 1 && m.words[p] == m.uid && m.words[p + 1] == m.gid ::
              r.Some? && r.value <= p
  {
    AdjacentIdsMatch(m);
    var p := start;
    while p < |m.words|
      invariant start <= p
      invariant forall q | start <= q < p :: !Hit(m, q)
    {
      if m.words[p] == m.uid && (if p + 1 < |m.words| then m.words[p + 1] else m.past) == m.gid {
        return Some(p);
      }
      p := p + 1;
    }
    return None;
  }

  // Where the search resumes: one whole inode after the start of the one found.
  function Resume(p: nat): nat {
    p - UID_WORD + INODE_WORDS
  }

  // The matches reported by a scan from `from`.
  function Reported(m: Memory, from: nat): seq<nat>
    decreases |m.words| - from
  {
    if from >= |m.words| then []
    else if Hit(m, from) then [from] + Reported(m, Resume(from))
    else Reported(m, from + 1)
  }

  // The search loop of main.
  method Scan(m: Memory) returns (found: seq<nat>)
    ensures found == Reported(m, 0) && OnePerInode(m, found)
  {
    found := [];
    var from := 0;
    var f := FindInode(m, from);
    SkipMisses(m, from, f);
    while f.Some?
      invariant f.Some? ==> from <= f.value < |m.words| && Hit(m, f.value)
      invariant Reported(m, 0) == found + (if f.None? then [] else [f.value] + Reported(m, Resume(f.value)))
      decreases if f.None? then 0 else |m.words| - f.value
    {
      found := found + [f.value];
      from := Resume(f.value);
      f := FindInode(m, from);
      SkipMisses(m, from, f);
    }
    ScanDistances(m);
  }

  lemma {:induction false} SkipMisses(m: Memory, from: nat, f: Option<nat>)
    requires f.None? ==> forall p | from <= p :: !Hit(m, p)
    requires f.Some? ==> from <= f.value && Hit(m, f.value) && forall p | from <= p < f.value :: !Hit(m, p)
    ensures Reported(m, from) == if f.None? then [] else [f.value] + Reported(m, Resume(f.value))
    decreases |m.words| - from
  {
    if from >= |m.words| || Hit(m, from) {
    } else {
      SkipMisses(m, from + 1, f);
    }
  }

  // p is reported or lies in the 22 words after a reported match.
  ghost predicate Covered(found: seq<nat>, p: nat) {
    exists i :: 0 <= i < |found| && found[i] <= p < Resume(found[i])
  }

  // Only matches are reported, a whole inode apart or more.
  ghost predicate Spaced(m: Memory, found: seq<nat>, from: nat) {
    && (forall i | 0 <= i < |found| :: Hit(m, found[i]) && from <= found[i])
    && (forall i, j | 0 <= i < j < |found| :: Resume(found[i]) <= found[j])
  }

  lemma {:induction false} ReportedIsSpaced(m: Memory, from: nat)
    ensures Spaced(m, Reported(m, from), from)
    decreases |m.words| - from
  {
    if from >= |m.words| {
    } else {
      ReportedIsSpaced(m, if Hit(m, from) then Resume(from) else from + 1);
    }
  }

  lemma {:induction false} EveryMatchIsCovered(m: Memory, from: nat, p: nat)
    requires from <= p && Hit(m, p)
    ensures Covered(Reported(m, from), p)
    decreases |m.words| - from
  {
    var r := Reported(m, from);
    if Hit(m, from) {
      if p < Resume(from) {
        assert r[0] <= p < Resume(r[0]);
      } else {
        EveryMatchIsCovered(m, Resume(from), p);
        var rest := Reported(m, Resume(from));
        var i :| 0 <= i < |rest| && rest[i] <= p < Resume(rest[i]);
        assert r[i + 1] == rest[i];
      }
    } else {
      EveryMatchIsCovered(m, from + 1, p);
    }
  }

  ghost predicate Covers(m: Memory, found: seq<nat>, from: nat) {
    forall p {:trigger Covered(found, p)} | from <= p && Hit(m, p) :: Covered(found, p)
  }

  // Spacing and coverage pin the report down: no other sequence has both.
  lemma {:induction false} ReportIsUnique(m: Memory, from: nat, found: seq<nat>)
    requires Spaced(m, found, from) && Covers(m, found, from)
    ensures found == Reported(m, from)
    decreases |m.words| - from
  {
    if from >= |m.words| {
      assert forall p | p in found :: from <= p < |m.words|;
      assert |found| == 0;
    } else if Hit(m, from) {
      FirstCovers(m, from, found);
      RestCovers(m, from, found);
      ReportIsUnique(m, Resume(from), found[1..]);
    } else {
      assert forall i | 0 <= i < |found| :: found[i] != from;
      assert Covers(m, found, from + 1) by {
        forall p | from + 1 <= p && Hit(m, p) ensures Covered(found, p) {
        }
      }
      ReportIsUnique(m, from + 1, found);
    }
  }

  lemma FirstCovers(m: Memory, from: nat, found: seq<nat>)
    requires Spaced(m, found, from) && Hit(m, from) && Covers(m, found, from)
    ensures found != [] && found[0] == from
  {
    assert Covered(found, from);
  }

  lemma RestCovers(m: Memory, from: nat, found: seq<nat>)
    requires Spaced(m, found, from) && Covers(m, found, from) && found != [] && found[0] == from
    ensures Spaced(m, found[1..], Resume(from)) && Covers(m, found[1..], Resume(from))
  {
    var rest := found[1..];
    forall p | Resume(from) <= p && Hit(m, p) ensures Covered(rest, p) {
      assert Covered(found, p);
      var i :| 0 <= i < |found| && found[i] <= p < Resume(found[i]);
      assert rest[i - 1] == found[i];
    }
  }

  // A scan of the whole image: strictly increasing reports at least 23 words apart, and every
  // match is reported or hidden in the 22 words after a reported one.
  lemma ScanIsExact(m: Memory, found: seq<nat>)
    ensures found == Reported(m, 0) <==> Spaced(m, found, 0) && Covers(m, found, 0)
  {
    ReportedIsSpaced(m, 0);
    forall p | 0 <= p && Hit(m, p) ensures Covered(Reported(m, 0), p) {
      EveryMatchIsCovered(m, 0, p);
    }
    if Spaced(m, found, 0) && Covers(m, found, 0) {
      ReportIsUnique(m, 0, found);
    }
  }

  // ------------------------------------------------------------------ the distances, in words

  // p is reported or lies in the 22 words after a reported match.
  ghost predicate InInodeOf(found: seq<nat>, p: nat) {
    exists i :: 0 <= i < |found| && found[i] <= p <= found[i] + 22
  }

  // Only matches are reported, 23 words apart or more, and none is overlooked.
  ghost predicate OnePerInode(m: Memory, found: seq<nat>) {
    && (forall i | 0 <= i < |found| :: Hit(m, found[i]))
    && (forall i, j | 0 <= i < j < |found| :: found[i] + 23 <= found[j])
    && (forall p: nat {:trigger InInodeOf(found, p)} | Hit(m, p) :: InInodeOf(found, p))
  }

  lemma ScanDistances(m: Memory)
    ensures OnePerInode(m, Reported(m, 0))
  {
    var found := Reported(m, 0);
    ReportedIsSpaced(m, 0);
    forall i, j | 0 <= i < j < |found| ensures found[i] + 23 <= found[j] {
      assert Resume(found[i]) <= found[j];
    }
    forall p: nat | Hit(m, p) ensures InInodeOf(found, p) {
      EveryMatchIsCovered(m, 0, p);
      var i :| 0 <= i < |found| && found[i] <= p < Resume(found[i]);
      assert found[i] <= p <= found[i] + 22;
    }
  }

  // The inodes of a table are 25 words each: behind a reported one its neighbour is reported too,
  // unless one of the two words before that already matches.
  lemma NeighbourIsReported(m: Memory, p: nat)
    requires p in Reported(m, 0) && Hit(m, p + 25) && !Hit(m, p + 23) && !Hit(m, p + 24)
    ensures p + 25 in Reported(m, 0)
  {
    ScanDistances(m);
    NextMatch(m, Reported(m, 0), p);
  }

  lemma NextMatch(m: Memory, found: seq<nat>, p: nat)
    requires OnePerInode(m, found)
    requires p in found && Hit(m, p + 25) && !Hit(m, p + 23) && !Hit(m, p + 24)
    ensures p + 25 in found
  {
    var i :| 0 <= i < |found| && found[i] == p;
    assert InInodeOf(found, p + 25);
    var j :| 0 <= j < |found| && found[j] <= p + 25 <= found[j] + 22;
    FarAhead(m, found, i, j);
    assert Hit(m, found[j]);
  }

  lemma FarAhead(m: Memory, found: seq<nat>, i: nat, j: nat)
    requires OnePerInode(m, found) && i < |found| && j < |found| && found[i] < found[j]
    ensures found[i] + 23 <= found[j]
  {
  }

  // Two inodes back to back from word 0: both are reported, and nothing else.
  lemma TwoInodesReported(m: Memory)
    requires |m.words| == 50 && m.uid == 7 && m.gid == 8
    requires forall p | 0 <= p < 50 ::
               m.words[p] == if p == 2 || p == 27 then 7 else if p == 3 || p == 28 then 8 else 0
    ensures Reported(m, 0) == [2, 27]
  {
    forall p: nat ensures Hit(m, p) <==> p == 2 || p == 27 {
      if p < 50 {
        assert m.words[p] == m.words[p];
      }
    }
    assert Spaced(m, [2, 27], 0);
    forall p | 0 <= p && Hit(m, p) ensures Covered([2, 27], p) {
      assert p == [2, 27][if p == 2 then 0 else 1];
    }
    ScanIsExact(m, [2, 27]);
  }
}
