// What a recovered file should contain, read straight off the disk image of Asmt_6/recover.c:
// the blocks an inode names, flattened and cut to the file's size.
module BlockMap {
  import opened Basics

  type Byte = b: int | 0 <= b < 256

  const BLOCK_SIZE := 1024
  const N_WORDS := 256  // BLOCK_SIZE / sizeof(int)
  const N_DBLOCKS := 12
  const N_IBLOCKS := 3

  type Image = seq<Byte>

  // The fields recovery reads, as struct inode of Asmt_6/recover.h has them.
  datatype Inode = Inode(size: int, dblocks: seq<int>, iblocks: seq<int>, i2block: int, i3block: int)

  predicate Shaped(f: Inode) {
    |f.dblocks| == N_DBLOCKS && |f.iblocks| == N_IBLOCKS
  }

  // BLOCK_SIZE * k
  function Bytes(k: int): int {
    1024 * k
  }

  function MaxBlock(image: Image): nat {
    |image| / BLOCK_SIZE
  }

  predicate InRange(image: Image, b: int) {
    0 <= b < MaxBlock(image)
  }

  predicate AllInRange(image: Image, bs: seq<int>) {
    forall i | 0 <= i < |bs| :: InRange(image, bs[i])
  }

  predicate Acceptable(image: Image, f: Inode) {
    && Shaped(f)
    && AllInRange(image, f.dblocks) && AllInRange(image, f.iblocks)
    && InRange(image, f.i2block) && InRange(image, f.i3block)
  }

  function BlockBytes(image: Image, b: int): (r: seq<Byte>)
    requires InRange(image, b)
    ensures |r| == BLOCK_SIZE
  {
    image[Bytes(b)..Bytes(b) + BLOCK_SIZE]
  }

  // A 32-bit little-endian two's complement word.
  function Word(bytes: seq<Byte>, k: nat): int
    requires 4 * k + 4 <= |bytes|
  {
    var b0: int, b1: int, b2: int, b3: int := bytes[4 * k], bytes[4 * k + 1], bytes[4 * k + 2], bytes[4 * k + 3];
    var u := b0 + 0x100 * b1 + 0x1_0000 * b2 + 0x100_0000 * b3;
    if u < 0x8000_0000 then u else u - 0x1_0000_0000
  }

  function Words(image: Image, b: int): (r: seq<int>)
    requires InRange(image, b)
    ensures |r| == N_WORDS
  {
    seq(N_WORDS, k requires 0 <= k < N_WORDS => Word(BlockBytes(image, b), k))
  }

  // The first position from k on that does not hold an existing block's number. Zero is a block
  // number like any other.
  function FirstInvalid(image: Image, ws: seq<int>, k: nat): (r: nat)
    requires k <= |ws|
    ensures k <= r <= |ws|
    ensures forall i | k <= i < r :: InRange(image, ws[i])
    ensures r < |ws| ==> !InRange(image, ws[r])
    decreases |ws| - k
  {
    if k < |ws| && InRange(image, ws[k]) then FirstInvalid(image, ws, k + 1) else k
  }

  function Pointers(image: Image, b: int): (r: seq<int>)
    requires InRange(image, b)
    ensures AllInRange(image, r) && |r| <= N_WORDS
  {
    Words(image, b)[..FirstInvalid(image, Words(image, b), 0)]
  }

  // The first n bytes; none for a negative n.
  function Take(s: seq<Byte>, n: int): (r: seq<Byte>)
    ensures |r| == if n <= 0 then 0 else Min(n, |s|)
  {
    if n <= 0 then [] else s[..Min(n, |s|)]
  }

  lemma TakeConcat(a: seq<Byte>, b: seq<Byte>, n: int)
    ensures Take(a + b, n) == Take(a, n) + Take(b, n - |Take(a, n)|)
  {
  }

  // ------------------------------------------------------------------ running budgets

  // The first k pieces joined.
  function Joined<T>(pieces: seq<seq<T>>, k: nat): seq<T>
    requires k <= |pieces|
  {
    if k == 0 then [] else Joined(pieces, k - 1) + pieces[k - 1]
  }

  // The first k pieces copied one after the other, each under what the earlier ones left over.
  function Budgeted(pieces: seq<seq<Byte>>, k: nat, n: nat): (r: seq<Byte>)
    requires k <= |pieces|
    ensures |r| <= n
  {
    if k == 0 then []
    else
      var done := Budgeted(pieces, k - 1, n);
      done + Take(pieces[k - 1], n - |done|)
  }

  // One more piece appended to a file that holds the first k.
  lemma BudgetedStep(pieces: seq<seq<Byte>>, k: nat, n: nat, file: seq<Byte>, before: seq<Byte>, now: seq<Byte>)
    requires k < |pieces| && before == file + Budgeted(pieces, k, n)
    requires now == before + Take(pieces[k], n - |Budgeted(pieces, k, n)|)
    ensures now == file + Budgeted(pieces, k + 1, n)
    ensures |Budgeted(pieces, k + 1, n)| == |Budgeted(pieces, k, n)| + |Take(pieces[k], n - |Budgeted(pieces, k, n)|)|
  {
    var done, more := Budgeted(pieces, k, n), Take(pieces[k], n - |Budgeted(pieces, k, n)|);
    assert (file + done) + more == file + (done + more);
  }

  lemma {:induction false} JoinedConcat<T>(a: seq<seq<T>>, b: seq<seq<T>>, k: nat)
    requires k <= |b|
    ensures Joined(a + b, |a| + k) == Joined(a, |a|) + Joined(b, k)
  {
    if k > 0 {
      JoinedConcat(a, b, k - 1);
    } else {
      JoinedPrefix(a, b, |a|);
    }
  }

  lemma {:induction false} JoinedPrefix<T>(a: seq<seq<T>>, b: seq<seq<T>>, k: nat)
    requires k <= |a|
    ensures Joined(a + b, k) == Joined(a, k)
  {
    if k == 0 {
    } else {
      JoinedPrefix(a, b, k - 1);
    }
  }

  // Joining the same pieces, or pieces none of which is longer and one is shorter.
  lemma {:induction false} JoinedSame<T>(a: seq<seq<T>>, b: seq<seq<T>>, k: nat)
    requires k <= |a| && k <= |b| && forall i | 0 <= i < k :: a[i] == b[i]
    ensures Joined(a, k) == Joined(b, k)
  {
    if k == 0 {
    } else {
      JoinedSame(a, b, k - 1);
    }
  }

  lemma {:induction false} JoinedShorter<T>(a: seq<seq<T>>, b: seq<seq<T>>, k: nat)
    requires k <= |a| && k <= |b| && forall i | 0 <= i < k :: |a[i]| <= |b[i]|
    ensures |Joined(a, k)| <= |Joined(b, k)|
    ensures (exists i :: 0 <= i < k && |a[i]| < |b[i]|) ==> |Joined(a, k)| < |Joined(b, k)|
  {
    if k == 0 {
    } else {
      JoinedShorter(a, b, k - 1);
    }
  }

  lemma {:induction false} NothingJoined<T>(pieces: seq<seq<T>>, k: nat)
    requires k <= |pieces| && forall i | 0 <= i < k :: pieces[i] == []
    ensures Joined(pieces, k) == []
  {
    if k == 0 {
    } else {
      NothingJoined(pieces, k - 1);
    }
  }

  lemma ConcatGrows<T>(a: seq<T>, b: seq<T>, c: seq<T>, rest: seq<T>)
    requires b <= c
    ensures a + b + [] <= a + c + rest && a + b + [] <= a + c
  {
  }

  lemma {:induction false} JoinedGrows<T>(pieces: seq<seq<T>>, i: nat, k: nat)
    requires i <= k <= |pieces|
    ensures Joined(pieces, i) <= Joined(pieces, k)
  {
    if i == k {
    } else {
      JoinedGrows(pieces, i, k - 1);
    }
  }

  lemma {:induction false} JoinedInRange(image: Image, lists: seq<seq<int>>, k: nat)
    requires k <= |lists| && forall i | 0 <= i < k :: AllInRange(image, lists[i])
    ensures AllInRange(image, Joined(lists, k))
  {
    if k == 0 {
    } else {
      JoinedInRange(image, lists, k - 1);
    }
  }

  // Copying under a running budget is joining everything first and truncating once.
  lemma {:induction false} BudgetedIsTruncation(pieces: seq<seq<Byte>>, k: nat, n: nat)
    requires k <= |pieces|
    ensures Budgeted(pieces, k, n) == Take(Joined(pieces, k), n)
  {
    if k == 0 {
    } else {
      BudgetedIsTruncation(pieces, k - 1, n);
      TakeConcat(Joined(pieces, k - 1), pieces[k - 1], n);
    }
  }

  // ------------------------------------------------------------------ block lists

  function Blocks(image: Image, bs: seq<int>): (r: seq<seq<Byte>>)
    requires AllInRange(image, bs)
    ensures |r| == |bs| && forall i | 0 <= i < |bs| :: r[i] == BlockBytes(image, bs[i])
  {
    seq(|bs|, i requires 0 <= i < |bs| => BlockBytes(image, bs[i]))
  }

  function Flatten(image: Image, bs: seq<int>): seq<Byte>
    requires AllInRange(image, bs)
  {
    Joined(Blocks(image, bs), |bs|)
  }

  function PointerLists(image: Image, bs: seq<int>): (r: seq<seq<int>>)
    requires AllInRange(image, bs)
    ensures |r| == |bs| && forall i | 0 <= i < |bs| :: r[i] == Pointers(image, bs[i])
  {
    seq(|bs|, i requires 0 <= i < |bs| => Pointers(image, bs[i]))
  }

  // The data blocks of the first k of the given indirect blocks, in order.
  function Unfold(image: Image, bs: seq<int>, k: nat): (r: seq<int>)
    requires AllInRange(image, bs) && k <= |bs|
    ensures AllInRange(image, r)
  {
    JoinedInRange(image, PointerLists(image, bs), k);
    Joined(PointerLists(image, bs), k)
  }

  // Direct, then single-indirect, then double-indirect data blocks.
  function FileBlocks(image: Image, f: Inode): (r: seq<int>)
    requires Acceptable(image, f)
    ensures AllInRange(image, r)
  {
    var ps := Pointers(image, f.i2block);
    f.dblocks + Unfold(image, f.iblocks, N_IBLOCKS) + Unfold(image, ps, |ps|)
  }

  function Content(image: Image, f: Inode): seq<Byte>
    requires Acceptable(image, f)
  {
    Take(Flatten(image, FileBlocks(image, f)), f.size)
  }

  // ------------------------------------------------------------------ laws

  lemma FlattenConcat(image: Image, a: seq<int>, b: seq<int>)
    requires AllInRange(image, a) && AllInRange(image, b)
    ensures AllInRange(image, a + b)
    ensures Flatten(image, a + b) == Flatten(image, a) + Flatten(image, b)
  {
    BlocksConcat(image, a, b);
    JoinedConcat(Blocks(image, a), Blocks(image, b), |b|);
  }

  lemma BlocksConcat(image: Image, a: seq<int>, b: seq<int>)
    requires AllInRange(image, a) && AllInRange(image, b)
    ensures AllInRange(image, a + b) && Blocks(image, a + b) == Blocks(image, a) + Blocks(image, b)
  {
  }

  // Flattening joined block lists is joining what each flattens to.
  lemma {:induction false} FlattenJoined(image: Image, lists: seq<seq<int>>, pieces: seq<seq<Byte>>, k: nat)
    requires k <= |lists| == |pieces|
    requires forall i | 0 <= i < |lists| :: AllInRange(image, lists[i]) && pieces[i] == Flatten(image, lists[i])
    ensures AllInRange(image, Joined(lists, k)) && Flatten(image, Joined(lists, k)) == Joined(pieces, k)
  {
    JoinedInRange(image, lists, k);
    if k == 0 {
    } else {
      FlattenJoined(image, lists, pieces, k - 1);
      FlattenConcat(image, Joined(lists, k - 1), lists[k - 1]);
    }
  }

  lemma FlattenLength(image: Image, bs: seq<int>)
    requires AllInRange(image, bs)
    ensures |Flatten(image, bs)| == Bytes(|bs|)
  {
    JoinedLength(image, bs, |bs|);
  }

  lemma {:induction false} JoinedLength(image: Image, bs: seq<int>, k: nat)
    requires AllInRange(image, bs) && k <= |bs|
    ensures |Joined(Blocks(image, bs), k)| == Bytes(k)
  {
    if k == 0 {
    } else {
      JoinedLength(image, bs, k - 1);
    }
  }

  // The first bytes of a file depend on its first blocks only.
  lemma FirstBytes(image: Image, a: seq<int>, b: seq<int>, n: int)
    requires AllInRange(image, b) && a <= b && n <= Bytes(|a|)
    ensures AllInRange(image, a) && Take(Flatten(image, b), n) == Take(Flatten(image, a), n)
  {
    var rest := b[|a|..];
    assert b == a + rest;
    FlattenConcat(image, a, rest);
    FlattenLength(image, a);
  }

  lemma TakeTwice(s: seq<Byte>, n: int, m: int)
    ensures Take(Take(s, n), m) == Take(s, Min(n, m))
  {
  }

  // ------------------------------------------------------------------ the same, byte by byte

  // A word is its four bytes, lowest first, in two's complement.
  lemma WordIsItsBytes(bytes: seq<Byte>, k: nat)
    requires 4 * k + 4 <= |bytes|
    ensures -0x8000_0000 <= Word(bytes, k) < 0x8000_0000
    ensures
      var b0: int, b1: int, b2: int, b3: int := bytes[4 * k], bytes[4 * k + 1], bytes[4 * k + 2], bytes[4 * k + 3];
      var u := b0 + 256 * b1 + 65536 * b2 + 16777216 * b3;
      Word(bytes, k) == u || Word(bytes, k) == u - 4294967296
  {
  }

  lemma SomeWords()
    ensures Word([1, 2, 3, 4], 0) == 67305985 && Word([0, 0, 1, 0], 0) == 65536
    ensures Word([255, 255, 255, 255], 0) == -1 && Word([9, 9, 9, 9, 0, 0, 0, 128], 1) == -2147483648
  {
  }

  // What copying a block appends, as a piece of the image.
  lemma FirstBytesOfBlock(image: Image, b: int, n: nat)
    requires 0 <= b < |image| / 1024
    ensures
      var end := 1024 * b + if n < 1024 then n else 1024;
      end <= |image| && Take(BlockBytes(image, b), n) == image[1024 * b..end]
  {
  }

  // The pointers of a block are its longest prefix of existing block numbers, of 256 words.
  lemma PointersAreLongest(image: Image, b: int)
    requires 0 <= b < |image| / 1024
    ensures
      var ps := Pointers(image, b);
      && |ps| <= 256
      && (forall k | 0 <= k < |ps| ::
            ps[k] == Word(image[1024 * b..1024 * b + 1024], k) && 0 <= ps[k] < |image| / 1024)
      && (|ps| < 256 ==> !(0 <= Word(image[1024 * b..1024 * b + 1024], |ps|) < |image| / 1024))
  {
    var ws := Words(image, b);
    assert forall k | 0 <= k < 256 :: ws[k] == Word(BlockBytes(image, b), k);
  }

  lemma {:induction false} JoinedAt(image: Image, bs: seq<int>, k: nat, i: nat)
    requires AllInRange(image, bs) && k <= |bs| && i < 1024 * k
    ensures |Joined(Blocks(image, bs), k)| == 1024 * k
    ensures 0 <= 1024 * bs[i / 1024] + i % 1024 < |image|
    ensures Joined(Blocks(image, bs), k)[i] == image[1024 * bs[i / 1024] + i % 1024]
  {
    JoinedLength(image, bs, k);
    JoinedLength(image, bs, k - 1);
    if i < 1024 * (k - 1) {
      JoinedAt(image, bs, k - 1, i);
    } else {
      assert i / 1024 == k - 1 && i % 1024 == i - 1024 * (k - 1);
      assert Joined(Blocks(image, bs), k)[i] == BlockBytes(image, bs[k - 1])[i - 1024 * (k - 1)];
    }
  }

  // Byte i of a file is byte i % 1024 of the block that comes i / 1024-th in it.
  lemma ContentAt(image: Image, f: Inode, i: nat)
    requires Acceptable(image, f) && i < f.size && i < 1024 * |FileBlocks(image, f)|
    ensures |Content(image, f)| == Min(f.size, 1024 * |FileBlocks(image, f)|)
    ensures 0 <= 1024 * FileBlocks(image, f)[i / 1024] + i % 1024 < |image|
    ensures Content(image, f)[i] == image[1024 * FileBlocks(image, f)[i / 1024] + i % 1024]
  {
    TruncatedAt(image, FileBlocks(image, f), f.size, i);
  }

  lemma TruncatedAt(image: Image, bs: seq<int>, n: int, i: nat)
    requires AllInRange(image, bs) && i < n && i < 1024 * |bs|
    ensures |Take(Flatten(image, bs), n)| == Min(n, 1024 * |bs|)
    ensures 0 <= 1024 * bs[i / 1024] + i % 1024 < |image|
    ensures Take(Flatten(image, bs), n)[i] == image[1024 * bs[i / 1024] + i % 1024]
  {
    JoinedAt(image, bs, |bs|, i);
  }

  // The blocks of a file in order: twelve direct ones, the pointers of three indirect blocks, and
  // those of each block the double-indirect one points to.
  lemma FileBlocksInOrder(image: Image, f: Inode)
    requires Acceptable(image, f)
    ensures |f.dblocks| == 12 && |f.iblocks| == 3
    ensures
      var ps := Pointers(image, f.i2block);
      FileBlocks(image, f)
      == f.dblocks + Pointers(image, f.iblocks[0]) + Pointers(image, f.iblocks[1]) + Pointers(image, f.iblocks[2])
         + Unfold(image, ps, |ps|)
  {
    var lists, a, ps := PointerLists(image, f.iblocks), f.dblocks, Pointers(image, f.i2block);
    ThreeJoined(lists);
    Regrouped(a, lists[0], lists[1], lists[2], Unfold(image, ps, |ps|));
  }

  lemma ThreeJoined<T>(lists: seq<seq<T>>)
    requires |lists| == 3
    ensures Joined(lists, 3) == lists[0] + lists[1] + lists[2]
  {
    assert Joined(lists, 1) == lists[0];
    assert Joined(lists, 2) == lists[0] + lists[1];
  }

  lemma Regrouped<T>(a: seq<T>, b: seq<T>, c: seq<T>, d: seq<T>, e: seq<T>)
    ensures a + (b + c + d) + e == a + b + c + d + e
  {
  }

  lemma UnfoldsInOrder(image: Image, bs: seq<int>, k: nat)
    requires AllInRange(image, bs) && k < |bs|
    ensures Unfold(image, bs, 0) == [] && Unfold(image, bs, k + 1) == Unfold(image, bs, k) + Pointers(image, bs[k])
  {
  }
}
