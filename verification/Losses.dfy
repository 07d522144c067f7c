// What the word past unwind_iblock's buffer costs: where it is zero, a full indirect block is
// taken for one without pointers. Zero counts as a block number, so a block padded with zeros is
// full.
module Losses {
  import opened Basics
  import opened BlockMap
  import opened InodeScan
  import opened Recovery

  ghost predicate Full(image: Image, b: int)
    requires InRange(image, b)
  {
    |Pointers(image, b)| == N_WORDS
  }

  // The data blocks behind indirect block b are lost.
  ghost predicate Lost(image: Image, b: int, after: int)
    requires InRange(image, b)
  {
    Full(image, b) && after == 0
  }

  ghost predicate SomeLost(image: Image, bs: seq<int>, k: nat, ws: seq<int>)
    requires AllInRange(image, bs) && k <= |bs| <= |ws|
  {
    exists i :: 0 <= i < k && Lost(image, bs[i], ws[i])
  }

  lemma SeenWhole(image: Image, b: int, after: int)
    requires InRange(image, b)
    ensures !Lost(image, b, after) ==> Seen(image, b, after) == Pointers(image, b)
    ensures Lost(image, b, after) ==> |Seen(image, b, after)| == 0 < |Pointers(image, b)|
    ensures Lost(image, b, after) <==> Unwind(image, b, after).None?
  {
  }

  // Nothing is lost from a list of indirect blocks exactly when no block of it is lost.
  lemma SeenOrLost(image: Image, bs: seq<int>, k: nat, ws: seq<int>)
    requires AllInRange(image, bs) && k <= |bs| <= |ws|
    ensures !SomeLost(image, bs, k, ws) ==> SeenIn(image, bs, k, ws) == Unfold(image, bs, k)
    ensures SomeLost(image, bs, k, ws) ==> |SeenIn(image, bs, k, ws)| < |Unfold(image, bs, k)|
  {
    var seen, all := SeenLists(image, bs, ws), PointerLists(image, bs);
    forall i | 0 <= i < k
      ensures if Lost(image, bs[i], ws[i]) then |seen[i]| < |all[i]| else seen[i] == all[i]
    {
      SeenWhole(image, bs[i], ws[i]);
    }
    if !SomeLost(image, bs, k, ws) {
      JoinedSame(seen, all, k);
    } else {
      JoinedShorter(seen, all, k);
    }
  }

  // Does recovery, were it to go through the whole file, lose data blocks?
  ghost predicate MeetsLoss(image: Image, f: Inode, w: Strays)
    requires Acceptable(image, f)
  {
    var ps := Pointers(image, f.i2block);
    || SomeLost(image, f.iblocks, N_IBLOCKS, w.single)
    || SomeLost(image, ps, |ps|, w.double)
    || (Lost(image, f.i2block, w.main) && Unfold(image, ps, |ps|) != [])
  }

  // Where nothing is lost, as with words other than zero, recovery gives exactly the file's
  // content, for every image, every acceptable inode and every size.
  lemma RecoversContent(image: Image, f: Inode, w: Strays)
    requires Acceptable(image, f) && !MeetsLoss(image, f, w) && !Lost(image, f.i2block, w.main)
    ensures Recovered(image, f, w) == Some(Content(image, f))
  {
    SeenCounts(image, f, w);
    SeenWhole(image, f.i2block, w.main);
  }

  lemma NonZeroWordsLoseNothing(image: Image, f: Inode, w: Strays)
    requires Acceptable(image, f) && 0 !in w.single && w.main != 0 && 0 !in w.double
    ensures !MeetsLoss(image, f, w) && !Lost(image, f.i2block, w.main)
  {
  }

  lemma SeenCounts(image: Image, f: Inode, w: Strays)
    requires Acceptable(image, f)
    ensures !MeetsLoss(image, f, w) ==>
              && BlocksSeen(image, f, w) == FileBlocks(image, f)
              && (Lost(image, f.i2block, w.main) ==> |FirstSeen(image, f, w)| == |FileBlocks(image, f)|)
    ensures MeetsLoss(image, f, w) ==>
              || |BlocksSeen(image, f, w)| < |FileBlocks(image, f)|
              || (Lost(image, f.i2block, w.main) && |FirstSeen(image, f, w)| < |FileBlocks(image, f)|)
  {
    var ps := Pointers(image, f.i2block);
    SeenWhole(image, f.i2block, w.main);
    SeenOrLost(image, f.iblocks, N_IBLOCKS, w.single);
    SeenOrLost(image, ps, |ps|, w.double);
  }

  // Exactly when the program completes, and then exactly when it has copied enough, whatever the
  // size: it exits if it needs a lost double-indirect block, and otherwise falls short if it has
  // lost blocks and needs more than are left.
  lemma CompletesIff(image: Image, f: Inode, w: Strays)
    requires Acceptable(image, f)
    ensures Recovered(image, f, w).Some?
       <==> !Lost(image, f.i2block, w.main) || f.size <= Bytes(|FirstSeen(image, f, w)|)
    ensures
      var r := Recovered(image, f, w);
      r.Some? ==>
        (|r.value| == |Content(image, f)|
         <==> !MeetsLoss(image, f, w) || f.size <= Bytes(|BlocksSeen(image, f, w)|))
  {
    SeenCounts(image, f, w);
    SeenWhole(image, f.i2block, w.main);
    FlattenLength(image, FileBlocks(image, f));
    FlattenLength(image, BlocksSeen(image, f, w));
    FirstAtMost(image, f, w);
  }

  lemma FirstAtMost(image: Image, f: Inode, w: Strays)
    requires Acceptable(image, f)
    ensures |FirstSeen(image, f, w)| <= |FileBlocks(image, f)|
    ensures |FirstSeen(image, f, w)| <= |BlocksSeen(image, f, w)|
  {
    SeenOrLost(image, f.iblocks, N_IBLOCKS, w.single);
  }

  // For a file that needs every block its inode leads to, and no more, the content itself is
  // right exactly when nothing is lost.
  lemma WholeFileIff(image: Image, f: Inode, w: Strays)
    requires Acceptable(image, f)
    requires Bytes(|FileBlocks(image, f)| - 1) < f.size <= Bytes(|FileBlocks(image, f)|)
    ensures Recovered(image, f, w) == Some(Content(image, f)) <==> !MeetsLoss(image, f, w)
  {
    SeenCounts(image, f, w);
    SeenWhole(image, f.i2block, w.main);
    FlattenLength(image, FileBlocks(image, f));
    FlattenLength(image, BlocksSeen(image, f, w));
  }

  // ------------------------------------------------------------------ up to the first lost block

  ghost function FirstLost(image: Image, bs: seq<int>, ws: seq<int>, i: nat): (k: nat)
    requires AllInRange(image, bs) && i <= |bs| <= |ws|
    ensures i <= k <= |bs| && (forall j | i <= j < k :: !Lost(image, bs[j], ws[j]))
    ensures k < |bs| ==> Lost(image, bs[k], ws[k])
    decreases |bs| - i
  {
    if i == |bs| || Lost(image, bs[i], ws[i]) then i else FirstLost(image, bs, ws, i + 1)
  }

  // The file's data blocks up to the first lost indirect block, in the order they are visited.
  ghost function BeforeLoss(image: Image, f: Inode, w: Strays): (r: seq<int>)
    requires Acceptable(image, f)
    ensures AllInRange(image, r)
  {
    var k, ps := FirstLost(image, f.iblocks, w.single, 0), Pointers(image, f.i2block);
    f.dblocks + Unfold(image, f.iblocks, k)
    + if k < N_IBLOCKS || Lost(image, f.i2block, w.main) then []
      else Unfold(image, ps, FirstLost(image, ps, w.double, 0))
  }

  lemma UnfoldedFirst(image: Image, bs: seq<int>, ws: seq<int>)
    requires AllInRange(image, bs) && |bs| <= |ws|
    ensures
      var k := FirstLost(image, bs, ws, 0);
      && Unfold(image, bs, k) <= Unfold(image, bs, |bs|)
      && Unfold(image, bs, k) <= SeenIn(image, bs, |bs|, ws)
      && (k == |bs| ==> Unfold(image, bs, k) == SeenIn(image, bs, |bs|, ws))
  {
    var k := FirstLost(image, bs, ws, 0);
    SeenOrLost(image, bs, k, ws);
    JoinedGrows(PointerLists(image, bs), k, |bs|);
    JoinedGrows(SeenLists(image, bs, ws), k, |bs|);
  }

  lemma StopsInSingle(image: Image, f: Inode, w: Strays)
    requires Acceptable(image, f)
    requires FirstLost(image, f.iblocks, w.single, 0) < N_IBLOCKS || Lost(image, f.i2block, w.main)
    ensures BeforeLoss(image, f, w) <= FileBlocks(image, f)
    ensures BeforeLoss(image, f, w) <= FirstSeen(image, f, w) <= BlocksSeen(image, f, w)
  {
    var first, ps := Unfold(image, f.iblocks, FirstLost(image, f.iblocks, w.single, 0)), Pointers(image, f.i2block);
    UnfoldedFirst(image, f.iblocks, w.single);
    ConcatGrows(f.dblocks, first, Unfold(image, f.iblocks, N_IBLOCKS), Unfold(image, ps, |ps|));
    ConcatGrows(f.dblocks, first, SeenIn(image, f.iblocks, N_IBLOCKS, w.single), []);
  }

  lemma StopsInDouble(image: Image, f: Inode, w: Strays)
    requires Acceptable(image, f)
    requires FirstLost(image, f.iblocks, w.single, 0) == N_IBLOCKS && !Lost(image, f.i2block, w.main)
    ensures BeforeLoss(image, f, w) <= FileBlocks(image, f)
    ensures BeforeLoss(image, f, w) <= BlocksSeen(image, f, w)
  {
    UnfoldedFirst(image, f.iblocks, w.single);
    SeenWhole(image, f.i2block, w.main);
    UnfoldedFirst(image, Pointers(image, f.i2block), w.double);
  }

  lemma BeforeLossIsPrefix(image: Image, f: Inode, w: Strays)
    requires Acceptable(image, f)
    ensures BeforeLoss(image, f, w) <= FileBlocks(image, f)
    ensures BeforeLoss(image, f, w) <= BlocksSeen(image, f, w)
    ensures Lost(image, f.i2block, w.main) ==> BeforeLoss(image, f, w) <= FirstSeen(image, f, w)
  {
    if FirstLost(image, f.iblocks, w.single, 0) < N_IBLOCKS || Lost(image, f.i2block, w.main) {
      StopsInSingle(image, f, w);
    } else {
      StopsInDouble(image, f, w);
    }
  }

  // The output file, whether the program completes or exits.
  ghost function Output(image: Image, f: Inode, w: Strays): seq<Byte>
    requires Acceptable(image, f)
  {
    match Recovered(image, f, w)
    case None => Flatten(image, FirstSeen(image, f, w))
    case Some(file) => file
  }

  // For every size and all stray words, the output agrees with the file's content up to the
  // first lost indirect block.
  lemma AgreesBeforeLoss(image: Image, f: Inode, w: Strays, n: int)
    requires Acceptable(image, f)
    ensures n <= Bytes(|BeforeLoss(image, f, w)|) ==> Take(Output(image, f, w), n) == Take(Content(image, f), n)
  {
    var before := BeforeLoss(image, f, w);
    if n > Bytes(|before|) {
      return;
    }
    BeforeLossIsPrefix(image, f, w);
    SeenWhole(image, f.i2block, w.main);
    TakeTwice(Flatten(image, FileBlocks(image, f)), f.size, n);
    FirstBytes(image, before, FileBlocks(image, f), Min(f.size, n));
    if Recovered(image, f, w).None? {
      FirstBytes(image, before, FirstSeen(image, f, w), n);
    } else {
      TakeTwice(Flatten(image, BlocksSeen(image, f, w)), f.size, n);
      FirstBytes(image, before, BlocksSeen(image, f, w), Min(f.size, n));
    }
  }

  // So every file that ends before the first lost indirect block is recovered.
  lemma RecoversBeforeLoss(image: Image, f: Inode, w: Strays)
    requires Acceptable(image, f)
    ensures f.size <= Bytes(|BeforeLoss(image, f, w)|) ==> Recovered(image, f, w) == Some(Content(image, f))
  {
    if f.size <= Bytes(|BeforeLoss(image, f, w)|) {
      BeforeLossIsPrefix(image, f, w);
      SeenWhole(image, f.i2block, w.main);
      FirstBytes(image, BeforeLoss(image, f, w), FileBlocks(image, f), f.size);
      FirstBytes(image, BeforeLoss(image, f, w), BlocksSeen(image, f, w), f.size);
    }
  }

  // The first n bytes of what two block lists hold behind a common prefix of p blocks.
  ghost predicate RestCoincides(image: Image, a: seq<int>, b: seq<int>, p: nat, n: int)
    requires AllInRange(image, a) && AllInRange(image, b) && p <= |a| && p <= |b|
  {
    Take(Flatten(image, a[p..]), n) == Take(Flatten(image, b[p..]), n)
  }

  lemma SameBehind(image: Image, a: seq<int>, b: seq<int>, p: nat, n: int)
    requires AllInRange(image, a) && AllInRange(image, b) && p <= |a| && p <= |b| && a[..p] == b[..p]
    requires n > Bytes(p)
    ensures Take(Flatten(image, a), n) == Take(Flatten(image, b), n) <==> RestCoincides(image, a, b, p, n - Bytes(p))
  {
    var first := Flatten(image, a[..p]);
    SplitBytes(image, a, p, n);
    SplitBytes(image, b, p, n);
    var x, y := Take(Flatten(image, a[p..]), n - Bytes(p)), Take(Flatten(image, b[p..]), n - Bytes(p));
    if first + x == first + y {
      assert x == (first + x)[|first|..] && y == (first + y)[|first|..];
    }
  }

  lemma SplitBytes(image: Image, a: seq<int>, p: nat, n: int)
    requires AllInRange(image, a) && p <= |a| && n > Bytes(p)
    ensures Take(Flatten(image, a), n) == Flatten(image, a[..p]) + Take(Flatten(image, a[p..]), n - Bytes(p))
  {
    assert a == a[..p] + a[p..];
    FlattenConcat(image, a[..p], a[p..]);
    FlattenLength(image, a[..p]);
    TakeConcat(Flatten(image, a[..p]), Flatten(image, a[p..]), n);
  }

  lemma RecoveredIs(image: Image, f: Inode, w: Strays)
    requires Acceptable(image, f)
    ensures Recovered(image, f, w) ==
            if Lost(image, f.i2block, w.main) && f.size > Bytes(|FirstSeen(image, f, w)|) then None
            else Some(Take(Flatten(image, BlocksSeen(image, f, w)), f.size))
  {
    SeenWhole(image, f.i2block, w.main);
  }

  lemma RecoversBehindIff(image: Image, f: Inode, w: Strays)
    requires Acceptable(image, f) && f.size > Bytes(|BeforeLoss(image, f, w)|)
    ensures
      var p, seen := |BeforeLoss(image, f, w)|, BlocksSeen(image, f, w);
      && p <= |seen| && p <= |FileBlocks(image, f)|
      && (Recovered(image, f, w) == Some(Content(image, f)) <==>
          && (!Lost(image, f.i2block, w.main) || f.size <= Bytes(|FirstSeen(image, f, w)|))
          && RestCoincides(image, seen, FileBlocks(image, f), p, f.size - Bytes(p)))
  {
    BeforeLossIsPrefix(image, f, w);
    RecoveredIs(image, f, w);
    SameBehind(image, BlocksSeen(image, f, w), FileBlocks(image, f), |BeforeLoss(image, f, w)|, f.size);
  }

  // The byte-level remainder of CompletesIff: behind the first lost block the output is the
  // content only if the program completes and the later blocks that slide in hold the same bytes.
  lemma RecoversIff(image: Image, f: Inode, w: Strays)
    requires Acceptable(image, f)
    ensures
      var p, seen := |BeforeLoss(image, f, w)|, BlocksSeen(image, f, w);
      && p <= |seen| && p <= |FileBlocks(image, f)|
      && (Recovered(image, f, w) == Some(Content(image, f)) <==>
          || f.size <= Bytes(p)
          || ((!Lost(image, f.i2block, w.main) || f.size <= Bytes(|FirstSeen(image, f, w)|))
              && RestCoincides(image, seen, FileBlocks(image, f), p, f.size - Bytes(p))))
  {
    BeforeLossIsPrefix(image, f, w);
    if f.size <= Bytes(|BeforeLoss(image, f, w)|) {
      RecoversBeforeLoss(image, f, w);
    } else {
      RecoversBehindIff(image, f, w);
    }
  }

  // ------------------------------------------------------------------ images that show the loss

  // The image as find_inode sees it; `past` is what lies behind it.
  function Mapped(image: Image, past: int, uid: int, gid: int): Memory {
    Memory(seq(|image| / 4, k requires 0 <= k < |image| / 4 => Word(image, k)), past, uid, gid)
  }

  // The inode that a match at word p leads to, as struct inode of Asmt_6/recover.h lays it out.
  function InodeAt(image: Image, p: nat): Inode
    requires UID_WORD <= p && 4 * (p - UID_WORD + INODE_WORDS) <= |image|
  {
    var q := p - 2;
    Inode(Word(image, q + 4),
          seq(N_DBLOCKS, i requires 0 <= i < N_DBLOCKS => Word(image, q + 8 + i)),
          seq(N_IBLOCKS, i requires 0 <= i < N_IBLOCKS => Word(image, q + 20 + i)),
          Word(image, q + 23), Word(image, q + 24))
  }

  // The search finds the inode at word p first, and it is f.
  ghost predicate FoundFirst(image: Image, past: int, uid: int, gid: int, p: nat, f: Inode) {
    && UID_WORD <= p && 4 * (p - UID_WORD + INODE_WORDS) <= |image| && f == InodeAt(image, p)
    && Hit(Mapped(image, past, uid, gid), p)
    && forall q: nat | q < p :: !Hit(Mapped(image, past, uid, gid), q)
  }

  lemma ZeroBlock(image: Image, b: int)
    requires InRange(image, b) && forall i | Bytes(b) <= i < Bytes(b) + BLOCK_SIZE :: image[i] == 0
    ensures Full(image, b)
  {
    var ws := Words(image, b);
    forall k | 0 <= k < N_WORDS ensures ws[k] == 0 {
      assert ws[k] == Word(BlockBytes(image, b), k);
    }
    assert FirstInvalid(image, ws, 0) == N_WORDS;
  }

  const ZEROS: Strays := StrayWords(seq(N_IBLOCKS, _ => 0), 0, seq(N_WORDS, _ => 0))

  // The search resumes right behind the last field of the inode.
  lemma InodeEnds(image: Image, p: nat)
    requires p >= UID_WORD && 4 * Resume(p) <= |image|
    ensures InodeAt(image, p).i3block == Word(image, Resume(p) - 1)
  {
  }

  // Two blocks: zeros, and an inode of user 7 and group 8, 13 blocks long, whose first word is foo
  // and whose last two single-indirect blocks and double-indirect block are block e. Its time
  // fields are no block numbers, its first and last direct block and its triple-indirect one are 1.
  function Disk(foo: Byte, e: Byte): (image: Image)
    ensures |image| == 2 * BLOCK_SIZE
  {
    seq(2 * BLOCK_SIZE, i =>
      if i == 1024 then foo
      else if i == 1032 then 7
      else if i == 1036 then 8
      else if i == 1041 then 0x34
      else if i == 1044 || i == 1048 || i == 1052 then 9
      else if i == 1056 || i == 1100 || i == 1120 then 1
      else if i == 1108 || i == 1112 || i == 1116 then e
      else 0)
  }

  function DiskInode(e: Byte): Inode {
    Inode(13312, [1, 0, 0, 0, 0, 0, 0, 0, 0, 0, 0, 1], [0, e, e], e, 1)
  }

  lemma DiskWord(foo: Byte, e: Byte, k: nat)
    requires k < 512
    ensures Word(Disk(foo, e), k) ==
            if k == 256 then foo else if k == 258 then 7 else if k == 259 then 8 else if k == 260 then 13312
            else if 261 <= k < 264 then 9 else if k == 264 || k == 275 || k == 280 then 1
            else if 277 <= k < 280 then e else 0
  {
  }

  lemma DiskFound(foo: Byte, e: Byte, past: int)
    requires foo != 7
    ensures FoundFirst(Disk(foo, e), past, 7, 8, 258, DiskInode(e))
  {
    forall k: nat | k < 512
      ensures Word(Disk(foo, e), k) ==
              if k == 256 then foo else if k == 258 then 7 else if k == 259 then 8 else if k == 260 then 13312
              else if 261 <= k < 264 then 9 else if k == 264 || k == 275 || k == 280 then 1
              else if 277 <= k < 280 then e else 0
    {
      DiskWord(foo, e, k);
    }
    var f := InodeAt(Disk(foo, e), 258);
    assert f.dblocks == DiskInode(e).dblocks;
    assert f.iblocks == DiskInode(e).iblocks;
  }

  // Block 0 is full and lost; of the others only block e is used, and nothing is seen there.
  lemma DiskLosses(foo: Byte, e: Byte)
    requires (foo == 0 && e == 0) || (foo == 2 && e == 1)
    ensures Acceptable(Disk(foo, e), DiskInode(e)) && Lost(Disk(foo, e), 0, 0)
    ensures Seen(Disk(foo, e), e, 0) == [] && (Lost(Disk(foo, e), e, 0) <==> e == 0)
  {
    ZeroBlock(Disk(foo, e), 0);
    SeenWhole(Disk(foo, e), 0, 0);
    if e == 1 {
      assert Words(Disk(foo, e), 1)[0] == Word(BlockBytes(Disk(foo, e), 1), 0) == 2;
      assert Pointers(Disk(foo, e), 1) == [];
    }
  }

  lemma OnlyDirect(image: Image, f: Inode)
    requires Acceptable(image, f) && forall i | 0 <= i < N_IBLOCKS :: Seen(image, f.iblocks[i], 0) == []
    ensures FirstSeen(image, f, ZEROS) == f.dblocks
  {
    NothingJoined(SeenLists(image, f.iblocks, ZEROS.single), N_IBLOCKS);
  }

  lemma LongEnough(image: Image, f: Inode)
    requires Acceptable(image, f) && Full(image, f.iblocks[0]) && f.size == Bytes(N_DBLOCKS + 1)
    ensures |Content(image, f)| == f.size
  {
    FirstListCounts(PointerLists(image, f.iblocks), N_IBLOCKS);
    FlattenLength(image, FileBlocks(image, f));
  }

  lemma FirstListCounts<T>(lists: seq<seq<T>>, k: nat)
    requires 0 < k <= |lists|
    ensures |Joined(lists, k)| >= |lists[0]|
  {
    JoinedGrows(lists, 1, k);
    assert Joined(lists, 1) == Joined(lists, 0) + lists[0];
  }

  // Zero words past the buffers: on this image the search finds an inode of thirteen blocks, and
  // the program exits.
  lemma ExitHappens(past: int) returns (image: Image, f: Inode)
    ensures FoundFirst(image, past, 7, 8, 258, f) && Acceptable(image, f)
    ensures f.size == Bytes(N_DBLOCKS + 1) == |Content(image, f)|
    ensures Recovered(image, f, ZEROS) == None
  {
    image, f := Disk(0, 0), DiskInode(0);
    DiskFound(0, 0, past);
    DiskLosses(0, 0);
    OnlyDirect(image, f);
    LongEnough(image, f);
  }

  // On this one it completes, and the thirteenth block is missing.
  lemma SilentLossHappens(past: int) returns (image: Image, f: Inode)
    ensures FoundFirst(image, past, 7, 8, 258, f) && Acceptable(image, f)
    ensures f.size == Bytes(N_DBLOCKS + 1) == |Content(image, f)|
    ensures
      var r := Recovered(image, f, ZEROS);
      r.Some? && |r.value| == Bytes(N_DBLOCKS)
  {
    image, f := Disk(2, 1), DiskInode(1);
    DiskFound(2, 1, past);
    DiskLosses(2, 1);
    SeenWhole(image, 0, 0);
    OnlyDirect(image, f);
    FlattenLength(image, f.dblocks);
    LongEnough(image, f);
  }
}
