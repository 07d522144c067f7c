// The copying part of Asmt_6/recover.c: copy_dblock, copy_i1block, unwind_iblock, check_inode
// and the direct, single and double indirect stages of main. The output file is a sequence of
// bytes that grows; fwrite and malloc succeed. Integers are mathematical.
module Recovery {
  import opened Basics
  import opened BlockMap

  const GEN_ERROR := -1
  const NEG_BYTE_REQ := -2
  const NO_POINTERS_IN_IBLOCK := -3

  const IS_DBLOCK := 1
  const IS_IBLOCK := 2

  // unwind_iblock reads one word past its buffer when all 256 words of a block are block
  // numbers. What lies there is up to the compiler and the stack: `after` stands for it. If it is
  // zero, a full block is reported as having no pointers.
  function Unwind(image: Image, b: int, after: int): Option<seq<int>>
    requires InRange(image, b)
  {
    var ps := Pointers(image, b);
    if |ps| == N_WORDS && after == 0 then None else Some(ps)
  }

  // The words past the buffer at each call for one file: copy_i1block on the inode's indirect
  // blocks, main on the double-indirect block, copy_i1block on the entries of that one.
  datatype StrayWords = StrayWords(single: seq<int>, main: int, double: seq<int>)

  type Strays = w: StrayWords | |w.single| == N_IBLOCKS && |w.double| == N_WORDS
    witness StrayWords(seq(N_IBLOCKS, _ => 0), 0, seq(N_WORDS, _ => 0))

  // The data blocks copy_i1block goes through.
  function Seen(image: Image, b: int, after: int): (r: seq<int>)
    requires InRange(image, b)
    ensures AllInRange(image, r) && |r| <= N_WORDS
  {
    var u := Unwind(image, b, after);
    if u.None? then [] else u.value
  }

  function SeenLists(image: Image, bs: seq<int>, ws: seq<int>): (r: seq<seq<int>>)
    requires AllInRange(image, bs) && |bs| <= |ws|
    ensures |r| == |bs| && forall i | 0 <= i < |bs| :: r[i] == Seen(image, bs[i], ws[i])
  {
    seq(|bs|, i requires 0 <= i < |bs| => Seen(image, bs[i], ws[i]))
  }

  // The data blocks recovery goes through for the first k of the given indirect blocks.
  function SeenIn(image: Image, bs: seq<int>, k: nat, ws: seq<int>): (r: seq<int>)
    requires AllInRange(image, bs) && |bs| <= |ws| && k <= |bs|
    ensures AllInRange(image, r)
  {
    JoinedInRange(image, SeenLists(image, bs, ws), k);
    Joined(SeenLists(image, bs, ws), k)
  }

  // used_block_array ws the first k of a list of data blocks have been marked.
  function Marked(used: seq<int>, bs: seq<int>, k: nat): (r: seq<int>)
    requires k <= |bs| && forall i | 0 <= i < |bs| :: 0 <= bs[i] < |used|
    ensures |r| == |used|
  {
    if k == 0 then used else Marked(used, bs, k - 1)[bs[k - 1] := IS_DBLOCK]
  }

  // used_block_array after copy_i1block has gone through the first k of a list of indirect blocks.
  function MarkedIndirects(image: Image, used: seq<int>, bs: seq<int>, k: nat, ws: seq<int>): (r: seq<int>)
    requires AllInRange(image, bs) && |bs| <= |ws| && k <= |bs| && |used| == MaxBlock(image)
    ensures |r| == |used|
  {
    if k == 0 then used
    else MarkedIndirect(image, MarkedIndirects(image, used, bs, k - 1, ws), bs[k - 1], ws[k - 1])
  }

  function MarkedIndirect(image: Image, used: seq<int>, b: int, after: int): (r: seq<int>)
    requires InRange(image, b) && |used| == MaxBlock(image)
    ensures |r| == |used|
  {
    match Unwind(image, b, after)
    case None => used
    case Some(ps) => Marked(used[b := IS_IBLOCK], ps, |ps|)[b := IS_IBLOCK]
  }

  // used_block_array after recovering a whole file, given how much the single stage copies.
  function MarkedFile(image: Image, used: seq<int>, f: Inode, w: Strays, first: nat): (r: seq<int>)
    requires Acceptable(image, f) && |used| == MaxBlock(image)
    ensures |r| == |used|
  {
    var direct := if f.size < 0 then used else Marked(used, f.dblocks, N_DBLOCKS);
    var single :=
      if f.size <= Bytes(N_DBLOCKS) then direct else MarkedIndirects(image, direct, f.iblocks, N_IBLOCKS, w.single);
    var ps := Seen(image, f.i2block, w.main);
    if f.size <= first || Unwind(image, f.i2block, w.main).None? then single
    else MarkedIndirects(image, single[f.i2block := IS_IBLOCK], ps, |ps|, w.double)
  }

  // The numbers used_block_array holds: 2 at an indirect block, 1 at the data blocks it points to.
  ghost predicate IndirectMarks(before: seq<int>, b: int, bs: seq<int>, after: seq<int>) {
    && |after| == |before|
    && forall k | 0 <= k < |after| :: after[k] == if k == b then 2 else if k in bs then 1 else before[k]
  }

  lemma MarkedIsMarks(used: seq<int>, b: int, bs: seq<int>)
    requires 0 <= b < |used| && forall i | 0 <= i < |bs| :: 0 <= bs[i] < |used|
    ensures IndirectMarks(used, b, bs, Marked(used[b := IS_IBLOCK], bs, |bs|)[b := IS_IBLOCK])
  {
    forall k: nat | k < |used| && k != b
      ensures Marked(used[b := IS_IBLOCK], bs, |bs|)[k] == if k in bs then 1 else used[k]
    {
      MarkedSet(used[b := IS_IBLOCK], bs, |bs|, k);
      assert bs[..|bs|] == bs;
    }
  }

  datatype Outcome = Rejected | NoPointersInI2 | Copied(bytes: int)

  class Recoverer {
    const image: Image
    const strays: Strays
    var output: seq<Byte>
    const used: array<int>

    ghost predicate Valid() {
      used.Length == MaxBlock(image)
    }

    constructor (image: Image, strays: Strays)
      ensures Valid() && this.image == image && this.strays == strays && output == []
      ensures fresh(used) && forall i | 0 <= i < used.Length :: used[i] == 0
    {
      this.image, this.strays, this.output := image, strays, [];
      used := new int[|image| / BLOCK_SIZE](_ => 0);
    }

    method CheckInode(f: Inode) returns (r: int)
      requires Valid() && Shaped(f)
      ensures r == 0 || r == -1
      ensures r == 0 <==> Acceptable(image, f)
      ensures r == 0 <==>
              && (forall i | 0 <= i < 12 :: 0 <= f.dblocks[i] < |image| / 1024)
              && (forall i | 0 <= i < 3 :: 0 <= f.iblocks[i] < |image| / 1024)
              && 0 <= f.i2block < |image| / 1024 && 0 <= f.i3block < |image| / 1024
    {
      var maxBlock := |image| / BLOCK_SIZE;
      for pos := 0 to N_DBLOCKS
        invariant AllInRange(image, f.dblocks[..pos])
      {
        if f.dblocks[pos] < 0 || f.dblocks[pos] >= maxBlock {
          return GEN_ERROR;
        }
      }
      for pos := 0 to N_IBLOCKS
        invariant AllInRange(image, f.dblocks) && AllInRange(image, f.iblocks[..pos])
      {
        if f.iblocks[pos] < 0 || f.iblocks[pos] >= maxBlock {
          return GEN_ERROR;
        }
      }
      if f.i2block < 0 || f.i2block >= maxBlock {
        return GEN_ERROR;
      }
      if f.i3block < 0 || f.i3block >= maxBlock {
        return GEN_ERROR;
      }
      return 0;
    }

    method CopyDblock(block: int, bytes: int) returns (r: int)
      requires Valid() && InRange(image, block)
      modifies this`output, used
      ensures bytes < 0 ==> r == NEG_BYTE_REQ && output == old(output) && used[..] == old(used[..])
      ensures bytes >= 0 ==>
                && r == Min(bytes, BLOCK_SIZE)
                && output == old(output) + Take(BlockBytes(image, block), bytes)
                && used[..] == old(used[..])[block := IS_DBLOCK]
      ensures bytes < 0 ==> r == -2
      ensures bytes >= 0 ==>
                && r == (if bytes < 1024 then bytes else 1024) && used[block] == 1
    {
      if bytes < 0 {
        return NEG_BYTE_REQ;
      }
      var count := bytes;
      if count > BLOCK_SIZE {
        count := BLOCK_SIZE;
      }
      output := output + image[Bytes(block)..Bytes(block) + count];
      used[block] := IS_DBLOCK;
      return count;
    }

    // The buffer receives the block's words; the count is the length of their valid prefix.
    method UnwindIblock(block: int, buffer: array<int>, after: int) returns (r: int)
      requires Valid() && InRange(image, block)
      requires buffer.Length == N_WORDS && buffer != used
      modifies buffer, used
      ensures buffer[..] == Words(image, block)
      ensures r == NO_POINTERS_IN_IBLOCK <==> Unwind(image, block, after).None?
      ensures r == NO_POINTERS_IN_IBLOCK ==> used[..] == old(used[..])
      ensures r != NO_POINTERS_IN_IBLOCK ==>
                && 0 <= r <= N_WORDS && buffer[..r] == Unwind(image, block, after).value
                && used[..] == old(used[..])[block := IS_IBLOCK]
      ensures r == -3 || (0 <= r <= 256 && used[block] == 2)
      ensures r >= 0 ==> forall i | 0 <= i < r :: 0 <= buffer[i] < |image| / 1024
      ensures 0 <= r < 256 ==> buffer[r] < 0 || buffer[r] >= |image| / 1024
      ensures r == -3 <==> after == 0 && forall i | 0 <= i < 256 :: 0 <= buffer[i] < |image| / 1024
    {
      var words := Words(image, block);
      forall i | 0 <= i < N_WORDS {
        buffer[i] := words[i];
      }
      var maxBlock := |image| / BLOCK_SIZE;
      var pos := 0;
      while pos < N_WORDS
        invariant 0 <= pos <= N_WORDS
        invariant buffer[..] == words && FirstInvalid(image, words, 0) == FirstInvalid(image, words, pos)
      {
        if buffer[pos] < 0 || buffer[pos] >= maxBlock {
          break;
        }
        pos := pos + 1;
      }
      var stop := if pos < N_WORDS then buffer[pos] else after;
      if stop == 0 {
        return NO_POINTERS_IN_IBLOCK;
      }
      used[block] := IS_IBLOCK;
      return pos;
    }

    // Copies the data blocks of one indirect block, up to `bytes` bytes in all.
    method CopyI1block(block: int, bytes: int, after: int) returns (r: int)
      requires Valid() && InRange(image, block)
      modifies this`output, used
      ensures bytes < 0 ==> r == NEG_BYTE_REQ
      ensures bytes >= 0 && Unwind(image, block, after).None? ==> r == NO_POINTERS_IN_IBLOCK
      ensures r < 0 ==> output == old(output) && used[..] == old(used[..]) && r == if bytes < 0 then -2 else -3
      ensures r >= 0 ==> IndirectMarks(old(used[..]), block, Pointers(image, block), used[..])
      ensures bytes >= 0 && Unwind(image, block, after).Some? ==>
                var ps := Pointers(image, block);
                && r == |Take(Flatten(image, ps), bytes)|
                && output == old(output) + Take(Flatten(image, ps), bytes)
                && used[..] == Marked(old(used[..])[block := IS_IBLOCK], ps, |ps|)[block := IS_IBLOCK]
    {
      if bytes < 0 {
        return NEG_BYTE_REQ;
      }
      var buffer := new int[N_WORDS](_ => 0);
      var count := UnwindIblock(block, buffer, after);
      if count == NO_POINTERS_IN_IBLOCK {
        return NO_POINTERS_IN_IBLOCK;
      }
      var copied := CopyPointers(buffer, count, Pointers(image, block), bytes);
      used[block] := IS_IBLOCK;
      MarkedIsMarks(old(used[..]), block, Pointers(image, block));
      return copied;
    }

    // The loop of copy_i1block over the block numbers it has unwound.
    method CopyPointers(buffer: array<int>, count: nat, ghost ps: seq<int>, bytes: nat) returns (copied: nat)
      requires Valid() && AllInRange(image, ps)
      requires buffer != used && count <= buffer.Length && buffer[..count] == ps
      modifies this`output, used
      ensures copied == |Take(Flatten(image, ps), bytes)|
      ensures output == old(output) + Take(Flatten(image, ps), bytes)
      ensures used[..] == Marked(old(used[..]), ps, |ps|)
    {
      ghost var pieces, file := Blocks(image, ps), output;
      copied := 0;
      var pos := 0;
      while pos < count
        invariant 0 <= pos <= count && buffer[..count] == ps
        invariant copied == |Budgeted(pieces, pos, bytes)|
        invariant output == file + Budgeted(pieces, pos, bytes)
        invariant used[..] == Marked(old(used[..]), ps, pos)
      {
        assert buffer[pos] == buffer[..count][pos];
        ghost var before := output;
        var n := CopyDblock(buffer[pos], bytes - copied);
        BudgetedStep(pieces, pos, bytes, file, before, output);
        copied := copied + n;
        pos := pos + 1;
      }
      BudgetedIsTruncation(pieces, |pieces|, bytes);
    }

    // Lines 116-142. A negative size makes every copy_dblock refuse.
    method DirectStage(f: Inode) returns (copied: nat)
      requires Valid() && Acceptable(image, f)
      modifies this`output, used
      ensures copied == |Take(Flatten(image, f.dblocks), f.size)|
      ensures output == old(output) + Take(Flatten(image, f.dblocks), f.size)
      ensures used[..] == if f.size < 0 then old(used[..]) else Marked(old(used[..]), f.dblocks, N_DBLOCKS)
    {
      ghost var pieces, budget := Blocks(image, f.dblocks), if f.size < 0 then 0 else f.size;
      copied := 0;
      var pos := 0;
      while pos < N_DBLOCKS
        invariant 0 <= pos <= N_DBLOCKS
        invariant copied == |Budgeted(pieces, pos, budget)|
        invariant output == old(output) + Budgeted(pieces, pos, budget)
        invariant used[..] == if f.size < 0 then old(used[..]) else Marked(old(used[..]), f.dblocks, pos)
      {
        ghost var before := output;
        var n := CopyDblock(f.dblocks[pos], f.size - copied);
        BudgetedStep(pieces, pos, budget, old(output), before, output);
        if n >= 0 {
          copied := copied + n;
        }
        pos := pos + 1;
      }
      BudgetedIsTruncation(pieces, |pieces|, budget);
    }

    // The body of the loop below: an indirect block reported without pointers is passed over.
    method CopySeen(bs: seq<int>, ws: seq<int>, ghost pieces: seq<seq<Byte>>, ghost marks: seq<seq<int>>,
                    i: nat, bytes: nat)
      returns (copied: nat)
      requires Valid() && AllInRange(image, bs) && |bs| <= |ws| && Contents(image, ws, bs, pieces) && i < |bs|
      requires Trail(image, ws, bs, marks) && used[..] == marks[i]
      modifies this`output, used
      ensures copied == |Take(pieces[i], bytes)| && output == old(output) + Take(pieces[i], bytes)
      ensures used[..] == marks[i + 1]
    {
      assert Place(i);
      var n := CopyI1block(bs[i], bytes, ws[i]);
      copied := if n >= 0 then n else 0;
    }

    // The loop that lines 153-177 run over the inode's indirect blocks and lines 201-233 over
    // the entries of the double-indirect block. All entries are in range, so the source's
    // further range tests never fire.
    method CopyIndirects(bs: seq<int>, ws: seq<int>, ghost pieces: seq<seq<Byte>>, ghost marks: seq<seq<int>>,
                         size: int, start: nat)
      returns (copied: nat)
      requires Valid() && AllInRange(image, bs) && |bs| <= |ws| && Contents(image, ws, bs, pieces) && start <= size
      requires Trail(image, ws, bs, marks) && used[..] == marks[0]
      modifies this`output, used
      ensures
        var all := Take(Joined(pieces, |pieces|), size - start);
        copied == start + |all| && output == old(output) + all
      ensures used[..] == marks[|bs|]
    {
      ghost var file, budget: nat := output, size - start;
      copied := start;
      var pos := 0;
      while pos < |bs|
        invariant 0 <= pos <= |bs|
        invariant copied == start + |Budgeted(pieces, pos, budget)|
        invariant output == file + Budgeted(pieces, pos, budget)
        invariant used[..] == marks[pos]
      {
        ghost var before := output;
        var n := CopySeen(bs, ws, pieces, marks, pos, size - copied);
        BudgetedStep(pieces, pos, budget, file, before, output);
        copied := copied + n;
        pos := pos + 1;
      }
      BudgetedIsTruncation(pieces, |pieces|, budget);
    }

    // Lines 114-237 with the pieces and the marks spelled out: direct, single indirect, double.
    method CopyStages(f: Inode, ghost single: seq<seq<Byte>>, ghost double: seq<seq<Byte>>,
                      ghost singleMarks: seq<seq<int>>, ghost doubleMarks: seq<seq<int>>)
      returns (outcome: Outcome)
      requires Valid() && Acceptable(image, f)
      requires Contents(image, strays.single, f.iblocks, single) && Trail(image, strays.single, f.iblocks, singleMarks)
      requires Contents(image, strays.double, Seen(image, f.i2block, strays.main), double)
      requires Trail(image, strays.double, Seen(image, f.i2block, strays.main), doubleMarks)
      requires singleMarks[0] == Marked(used[..], f.dblocks, N_DBLOCKS)
      requires doubleMarks[0] == singleMarks[N_IBLOCKS][f.i2block := IS_IBLOCK]
      modifies this`output, used
      ensures
        var first := Flatten(image, f.dblocks) + Joined(single, |single|);
        var all := Take(first + Joined(double, |double|), f.size);
        && (outcome == NoPointersInI2 <==> |first| < f.size && Unwind(image, f.i2block, strays.main).None?)
        && (outcome == NoPointersInI2 ==> output == old(output) + first)
        && (outcome != NoPointersInI2 ==> outcome == Copied(|all|) && output == old(output) + all)
      ensures
        var first := Flatten(image, f.dblocks) + Joined(single, |single|);
        used[..] ==
          if f.size < 0 then old(used[..])
          else if f.size <= Bytes(N_DBLOCKS) then singleMarks[0]
          else if f.size <= |first| || Unwind(image, f.i2block, strays.main).None? then singleMarks[N_IBLOCKS]
          else doubleMarks[|doubleMarks| - 1]
    {
      ghost var direct, s, d := Flatten(image, f.dblocks), Joined(single, |single|), Joined(double, |double|);
      StagedTake(direct, s, d, f.size, old(output));
      FlattenLength(image, f.dblocks);
      var copied := DirectStage(f);
      if copied < f.size {
        copied := CopyIndirects(f.iblocks, strays.single, single, singleMarks, f.size, copied);
      }
      if copied < f.size {
        var buffer := new int[N_WORDS](_ => 0);
        var count := UnwindIblock(f.i2block, buffer, strays.main);
        if count == NO_POINTERS_IN_IBLOCK {
          return NoPointersInI2;
        }
        copied := CopyIndirects(buffer[..count], strays.double, double, doubleMarks, f.size, copied);
      }
      return Copied(copied);
    }

    // Lines 86-237 for one inode: check it, then copy the blocks it leads to.
    method RecoverFile(f: Inode) returns (outcome: Outcome)
      requires Valid() && Shaped(f)
      modifies this`output, used
      ensures outcome == Rejected <==> !Acceptable(image, f)
      ensures outcome == Rejected ==> output == old(output) && used[..] == old(used[..])
      ensures Acceptable(image, f) ==>
                used[..] == MarkedFile(image, old(used[..]), f, strays, Bytes(|FirstSeen(image, f, strays)|))
      ensures Acceptable(image, f) ==>
                match Recovered(image, f, strays)
                case None =>
                  outcome == NoPointersInI2
                  && output == old(output) + Flatten(image, FirstSeen(image, f, strays))
                case Some(file) => outcome == Copied(|file|) && output == old(output) + file
    {
      var check := CheckInode(f);
      if check == GEN_ERROR {
        return Rejected;
      }
      outcome := CopyFile(f);
    }

    // Lines 97-237 for an inode that passes.
    method CopyFile(f: Inode) returns (outcome: Outcome)
      requires Valid() && Acceptable(image, f)
      modifies this`output, used
      ensures used[..] == MarkedFile(image, old(used[..]), f, strays, Bytes(|FirstSeen(image, f, strays)|))
      ensures match Recovered(image, f, strays)
              case None =>
                outcome == NoPointersInI2
                && output == old(output) + Flatten(image, FirstSeen(image, f, strays))
              case Some(file) => outcome == Copied(|file|) && output == old(output) + file
    {
      ghost var single := Pieces(image, f.iblocks, strays.single);
      ghost var double := Pieces(image, Seen(image, f.i2block, strays.main), strays.double);
      StagesAreFlat(image, f, strays);
      ghost var ps, direct := Seen(image, f.i2block, strays.main), Marked(used[..], f.dblocks, N_DBLOCKS);
      ghost var singleMarks := Marks(image, direct, f.iblocks, strays.single);
      ghost var doubleMarks := Marks(image, singleMarks[N_IBLOCKS][f.i2block := IS_IBLOCK], ps, strays.double);
      outcome := CopyStages(f, single, double, singleMarks, doubleMarks);
    }
  }

  function Pieces(image: Image, bs: seq<int>, ws: seq<int>): (r: seq<seq<Byte>>)
    requires AllInRange(image, bs) && |bs| <= |ws|
    ensures Contents(image, ws, bs, r)
  {
    seq(|bs|, i requires 0 <= i < |bs| => Flatten(image, Seen(image, bs[i], ws[i])))
  }

  // The direct and single-indirect data blocks recovery goes through, and all of them.
  function FirstSeen(image: Image, f: Inode, w: Strays): (r: seq<int>)
    requires Acceptable(image, f)
    ensures AllInRange(image, r)
  {
    f.dblocks + SeenIn(image, f.iblocks, N_IBLOCKS, w.single)
  }

  function BlocksSeen(image: Image, f: Inode, w: Strays): (r: seq<int>)
    requires Acceptable(image, f)
    ensures AllInRange(image, r)
  {
    var ps := Seen(image, f.i2block, w.main);
    FirstSeen(image, f, w) + SeenIn(image, ps, |ps|, w.double)
  }

  // The file recovery writes when it runs to its end.
  function Recovered(image: Image, f: Inode, w: Strays): Option<seq<Byte>>
    requires Acceptable(image, f)
  {
    if Bytes(|FirstSeen(image, f, w)|) < f.size && Unwind(image, f.i2block, w.main).None? then None
    else Some(Take(Flatten(image, BlocksSeen(image, f, w)), f.size))
  }

  lemma JoinedIsFlat(image: Image, bs: seq<int>, pieces: seq<seq<Byte>>, ws: seq<int>)
    requires AllInRange(image, bs) && |bs| <= |ws| && Contents(image, ws, bs, pieces)
    ensures Joined(pieces, |bs|) == Flatten(image, SeenIn(image, bs, |bs|, ws))
  {
    var lists := SeenLists(image, bs, ws);
    forall i | 0 <= i < |lists| ensures AllInRange(image, lists[i]) && pieces[i] == Flatten(image, lists[i]) {
      assert Place(i);
    }
    FlattenJoined(image, lists, pieces, |bs|);
  }

  lemma StagesAreFlat(image: Image, f: Inode, w: Strays)
    requires Acceptable(image, f)
    ensures
      var ps := Seen(image, f.i2block, w.main);
      var first := Flatten(image, f.dblocks) + Joined(Pieces(image, f.iblocks, w.single), N_IBLOCKS);
      && first == Flatten(image, FirstSeen(image, f, w)) && |first| == Bytes(|FirstSeen(image, f, w)|)
      && Flatten(image, BlocksSeen(image, f, w)) == first + Joined(Pieces(image, ps, w.double), |ps|)
  {
    var ps := Seen(image, f.i2block, w.main);
    JoinedIsFlat(image, f.iblocks, Pieces(image, f.iblocks, w.single), w.single);
    JoinedIsFlat(image, ps, Pieces(image, ps, w.double), w.double);
    FlattenConcat(image, f.dblocks, SeenIn(image, f.iblocks, N_IBLOCKS, w.single));
    FlattenConcat(image, FirstSeen(image, f, w), SeenIn(image, ps, |ps|, w.double));
    FlattenLength(image, FirstSeen(image, f, w));
  }

  // A stage that is skipped because the budget is used up would have added nothing.
  lemma StagedTake(a: seq<Byte>, b: seq<Byte>, c: seq<Byte>, n: int, file: seq<Byte>)
    ensures
      var one := Take(a, n);
      var two := one + Take(b, n - |one|);
      && Take(a + b, n) == two
      && Take(a + b + c, n) == two + Take(c, n - |two|)
      && file + one + Take(b, n - |one|) == file + two
      && file + two + Take(c, n - |two|) == file + Take(a + b + c, n)
  {
    TakeConcat(a, b, n);
    TakeConcat(a + b, c, n);
  }

  // Names an index for the quantifier in Contents.
  predicate Place(i: nat) { true }

  // pieces[i] is the data that indirect block bs[i] leads to.
  ghost predicate Contents(image: Image, ws: seq<int>, bs: seq<int>, pieces: seq<seq<Byte>>)
    requires AllInRange(image, bs) && |bs| <= |ws|
  {
    && |pieces| == |bs|
    && forall i: nat {:trigger Place(i)} | i < |bs| && Place(i) ::
         pieces[i] == Flatten(image, Seen(image, bs[i], ws[i]))
  }

  // marks[i] is used_block_array before indirect block bs[i] is copied.
  ghost predicate Trail(image: Image, ws: seq<int>, bs: seq<int>, marks: seq<seq<int>>)
    requires AllInRange(image, bs) && |bs| <= |ws|
  {
    && |marks| == |bs| + 1
    && (forall i | 0 <= i < |marks| :: |marks[i]| == MaxBlock(image))
    && forall i: nat {:trigger Place(i)} | i < |bs| && Place(i) ::
         marks[i + 1] == MarkedIndirect(image, marks[i], bs[i], ws[i])
  }

  function Marks(image: Image, used: seq<int>, bs: seq<int>, ws: seq<int>): (r: seq<seq<int>>)
    requires AllInRange(image, bs) && |bs| <= |ws| && |used| == MaxBlock(image)
    ensures Trail(image, ws, bs, r) && r[0] == used && r[|bs|] == MarkedIndirects(image, used, bs, |bs|, ws)
  {
    seq(|bs| + 1, i requires 0 <= i <= |bs| => MarkedIndirects(image, used, bs, i, ws))
  }

  // ------------------------------------------------------------------ what the marks mean

  // Copying indirect block c goes through block b.
  ghost predicate Reads(image: Image, c: int, b: int, after: int)
    requires InRange(image, c)
  {
    Unwind(image, c, after).Some? && (b == c || b in Seen(image, c, after))
  }

  ghost predicate SomeReads(image: Image, bs: seq<int>, k: nat, b: int, ws: seq<int>)
    requires AllInRange(image, bs) && |bs| <= |ws| && k <= |bs|
  {
    exists i :: 0 <= i < k && Reads(image, bs[i], b, ws[i])
  }

  // Recovering the file goes through block b, as data or as an indirect block.
  ghost predicate Visits(image: Image, f: Inode, w: Strays, b: int)
    requires Acceptable(image, f)
  {
    var ps := Seen(image, f.i2block, w.main);
    || (f.size >= 0 && b in f.dblocks)
    || (f.size > Bytes(N_DBLOCKS) && SomeReads(image, f.iblocks, N_IBLOCKS, b, w.single))
    || (f.size > Bytes(|FirstSeen(image, f, w)|) && Unwind(image, f.i2block, w.main).Some?
        && (b == f.i2block || SomeReads(image, ps, |ps|, b, w.double)))
  }

  lemma {:induction false} MarkedSet(used: seq<int>, bs: seq<int>, k: nat, b: nat)
    requires k <= |bs| && b < |used| && forall i | 0 <= i < |bs| :: 0 <= bs[i] < |used|
    ensures Marked(used, bs, k)[b] == if b in bs[..k] then 1 else used[b]
  {
    if k == 0 {
    } else {
      MarkedSet(used, bs, k - 1, b);
      assert bs[..k] == bs[..k - 1] + [bs[k - 1]];
    }
  }

  lemma MarkedIndirectSet(image: Image, used: seq<int>, c: int, after: int, b: nat)
    requires InRange(image, c) && b < |used| == MaxBlock(image)
    ensures MarkedIndirect(image, used, c, after)[b] != 0 <==> used[b] != 0 || Reads(image, c, b, after)
  {
    var ps := Seen(image, c, after);
    MarkedSet(used[c := IS_IBLOCK], ps, |ps|, b);
    assert ps[..|ps|] == ps;
  }

  lemma SomeReadsOneMore(image: Image, bs: seq<int>, k: nat, b: int, ws: seq<int>)
    requires AllInRange(image, bs) && |bs| <= |ws| && 0 < k <= |bs|
    ensures SomeReads(image, bs, k, b, ws)
       <==> SomeReads(image, bs, k - 1, b, ws) || Reads(image, bs[k - 1], b, ws[k - 1])
  {
  }

  lemma {:induction false} TrailSet(image: Image, bs: seq<int>, marks: seq<seq<int>>, k: nat, ws: seq<int>, b: nat)
    requires AllInRange(image, bs) && |bs| <= |ws| && Trail(image, ws, bs, marks) && k <= |bs| && b < MaxBlock(image)
    ensures marks[k][b] != 0 <==> marks[0][b] != 0 || SomeReads(image, bs, k, b, ws)
  {
    if k == 0 {
    } else {
      TrailSet(image, bs, marks, k - 1, ws, b);
      assert Place(k - 1);
      MarkedIndirectSet(image, marks[k - 1], bs[k - 1], ws[k - 1], b);
      SomeReadsOneMore(image, bs, k, b, ws);
    }
  }

  lemma MarkedIndirectsSet(image: Image, used: seq<int>, bs: seq<int>, ws: seq<int>, b: nat)
    requires AllInRange(image, bs) && |bs| <= |ws| && b < |used| == MaxBlock(image)
    ensures MarkedIndirects(image, used, bs, |bs|, ws)[b] != 0
       <==> used[b] != 0 || SomeReads(image, bs, |bs|, b, ws)
  {
    TrailSet(image, bs, Marks(image, used, bs, ws), |bs|, ws, b);
  }

  // After a file's recovery exactly the blocks it goes through are marked, besides those that were.
  lemma MarksAreVisits(image: Image, used: seq<int>, f: Inode, w: Strays, b: nat)
    requires Acceptable(image, f) && b < |used| == MaxBlock(image)
    ensures MarkedFile(image, used, f, w, Bytes(|FirstSeen(image, f, w)|))[b] != 0
       <==> used[b] != 0 || Visits(image, f, w, b)
  {
    var ps := Seen(image, f.i2block, w.main);
    var direct := Marked(used, f.dblocks, N_DBLOCKS);
    var single := MarkedIndirects(image, direct, f.iblocks, N_IBLOCKS, w.single);
    assert f.dblocks[..N_DBLOCKS] == f.dblocks;
    MarkedSet(used, f.dblocks, N_DBLOCKS, b);
    MarkedIndirectsSet(image, direct, f.iblocks, w.single, b);
    MarkedIndirectsSet(image, single[f.i2block := IS_IBLOCK], ps, w.double, b);
  }
}
