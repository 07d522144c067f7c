// The heap list of Asmt_3/list_t.c: items linked forward by `next` from head to tail, refined to
// a sequence. list_remove_head leaves the new head's prev and an emptied list's tail stale, so
// the invariant speaks of the forward chain only.
module LinkedQueue {
  import opened Sorting

  class Item<T> {
    const data: T
    var next: Item?<T>
    var prev: Item?<T>

    // list_item_init
    constructor (data: T)
      ensures this.data == data && next == null && prev == null
    {
      this.data, next, prev := data, null, null;
    }
  }

  ghost predicate Chain<T>(items: seq<Item<T>>)
    reads items
  {
    forall i {:trigger items[i].next} | 0 <= i < |items| ::
      items[i].next == if i + 1 == |items| then null else items[i + 1]
  }

  ghost function Data<T>(items: seq<Item<T>>): (r: seq<T>)
    ensures |r| == |items| && forall i | 0 <= i < |items| :: r[i] == items[i].data
  {
    Map(items, (i: Item<T>) => i.data)
  }

  class List<T> {
    var head: Item?<T>
    var tail: Item?<T>
    var length: nat
    const compare: (T, T) -> int
    ghost var items: seq<Item<T>>

    ghost predicate Valid()
      reads this, items
    {
      && length == |items|
      && head == (if items == [] then null else items[0])
      && (items != [] ==> tail == items[|items| - 1])
      && Distinct(items)
      && Chain(items)
    }

    ghost function Contents(): seq<T>
      reads this
    {
      Data(items)
    }

    // list_init
    constructor (compare: (T, T) -> int)
      ensures Valid() && Contents() == [] && items == [] && this.compare == compare
    {
      this.compare := compare;
      head, tail, length, items := null, null, 0, [];
    }

    method InsertTail(v: T)
      requires Valid()
      modifies this, items
      ensures Valid() && Contents() == old(Contents()) + [v]
      ensures |items| == |old(items)| + 1 && items[..|old(items)|] == old(items) && fresh(items[|old(items)|])
      ensures items[|items| - 1].prev == if |items| == 1 then null else items[|items| - 2]
      ensures forall k | 0 <= k < |old(items)| :: items[k].prev == old(items[k].prev)
    {
      var it := new Item(v);
      if length == 0 {
        head := it;
        tail := it;
      } else {
        tail.next := it;
        it.prev := tail;
        tail := it;
      }
      length := length + 1;
      items := items + [it];
    }

    // data_delete and free of the removed item are left out.
    method RemoveHead()
      requires Valid()
      modifies this
      ensures Valid()
      ensures items == if old(items) == [] then [] else old(items)[1..]
      ensures Contents() == if old(Contents()) == [] then [] else old(Contents())[1..]
    {
      if head != null {
        var newHead := head.next;
        length := length - 1;
        head := newHead;
        items := items[1..];
      }
    }

    method RotateOne()
      requires Valid()
      modifies this, items
      ensures Valid()
      ensures items == if |old(items)| <= 1 then old(items) else old(items)[1..] + [old(items)[0]]
      ensures Contents() ==
              if |old(Contents())| <= 1 then old(Contents()) else old(Contents())[1..] + [old(Contents())[0]]
    {
      if length > 1 {
        var oldHead := head;
        head := oldHead.next;
        head.prev := null;
        oldHead.prev := tail;
        oldHead.next := null;
        tail.next := oldHead;
        tail := oldHead;
        items := items[1..] + [oldHead];
      }
    }

    method CopyItems(buf: array<Item<T>>)
      requires Valid() && buf.Length == |items|
      modifies buf
      ensures buf[..] == items
    {
      var current := head;
      var i := 0;
      while i < length
        invariant 0 <= i <= length == buf.Length
        invariant current == if i == |items| then null else items[i]
        invariant buf[..i] == items[..i]
      {
        buf[i] := current;
        current := current.next;
        i := i + 1;
      }
    }

    // The result is the old items and the new one, ordered by compare, for any order the sort
    // gives equal items. prev is right everywhere except that for more than two items the second
    // item's prev is not set.
    method InsertSorted(v: T)
      requires Valid() && Consistent(Contents() + [v], compare)
      modifies this, items
      ensures Valid()
      ensures SortedBy(Contents(), compare)
      ensures multiset(Contents()) == multiset(old(Contents())) + multiset{v}
      ensures items[0].prev == null && (|items| == 2 ==> items[1].prev == items[0])
      ensures forall i | 2 <= i < |items| :: items[i].prev == items[i - 1]
      ensures |items| == |old(items)| + 1
      ensures forall i | 0 <= i < |items| :: items[i] in old(items) || (fresh(items[i]) && items[i].data == v)
      ensures |items| > 2 ==> forall k | 0 <= k < |old(items)| && old(items)[k] == items[1] ::
                items[1].prev == old(items[k].prev)
    {
      ghost var was := items;
      InsertTail(v);
      ghost var tailed := items;
      assert tailed == was + [tailed[|was|]];
      assert tailed[|was|].data == Contents()[|was|] == v;
      SortItems();
      forall k | |items| > 2 && 0 <= k < |was| && was[k] == items[1] ensures items[1].prev == old(was[k].prev) {
        assert tailed[k] == was[k];
      }
      forall i | 0 <= i < |items| && items[i] !in was ensures items[i] == tailed[|was|] {
        assert items[i] in tailed;
      }
    }

    // The copying, sorting and retying that follow.
    method SortItems()
      requires Valid() && items != [] && Consistent(Contents(), compare)
      modifies this, items
      ensures Valid()
      ensures SortedBy(Contents(), compare) && multiset(Contents()) == multiset(old(Contents()))
      ensures items[0].prev == null && (|items| == 2 ==> items[1].prev == items[0])
      ensures forall i | 2 <= i < |items| :: items[i].prev == items[i - 1]
      ensures |items| == |old(items)| && forall i | 0 <= i < |items| :: items[i] in old(items)
      ensures |items| > 2 ==> forall k | 0 <= k < |old(items)| && old(items)[k] == items[1] ::
                items[1].prev == old(items[k].prev)
    {
      var buf := SortedCopy();
      ghost var was, sorted := items, buf[..];
      Retie(buf);
      assert items == sorted;
      forall k | |items| > 2 && 0 <= k < |was| && was[k] == items[1] ensures items[1].prev == old(was[k].prev) {
        assert was[k] == sorted[1];
      }
    }

    // The items in an array of their own, sorted.
    method SortedCopy() returns (buf: array<Item<T>>)
      requires Valid() && items != [] && Consistent(Contents(), compare)
      ensures fresh(buf) && buf.Length == length && Distinct(buf[..])
      ensures forall i | 0 <= i < buf.Length :: buf[i] in items
      ensures SortedBy(Data(buf[..]), compare) && multiset(Data(buf[..])) == multiset(Contents())
    {
      var filler := head;
      buf := new Item<T>[length](_ => filler);
      CopyItems(buf);
      var c := compare;
      ConsistentItems(items, c);
      QsortBy(buf, (x: Item<T>, y: Item<T>) => c(x.data, y.data));
      SortedItems(items, buf[..], c);
    }

    method Retie(buf: array<Item<T>>)
      requires buf.Length == length > 0 && Distinct(buf[..])
      modifies this, buf[..]
      ensures Valid() && items == buf[..]
      ensures items[0].prev == null && (|items| == 2 ==> items[1].prev == items[0])
      ensures |items| > 2 ==> items[1].prev == old(buf[1].prev)
      ensures forall i | 2 <= i < |items| :: items[i].prev == items[i - 1]
    {
      head := buf[0];
      head.prev := null;
      tail := buf[length - 1];
      tail.next := null;
      items := buf[..];
      if length == 2 {
        head.next := tail;
        tail.prev := head;
      }
      if length > 2 {
        head.next := buf[1];
        tail.prev := buf[length - 2];
        RetieInner(buf);
      }
    }
  }

  // The retying loop: it ties items 1, 2, ... in array order.
  method RetieInner<T>(buf: array<Item<T>>)
    requires buf.Length > 2 && Distinct(buf[..])
    requires buf[0].next == buf[1] && buf[buf.Length - 1].next == null
    modifies buf[1..]
    ensures Chain(buf[..])
    ensures buf[1].prev == old(buf[1].prev)
    ensures forall i | 2 <= i < buf.Length :: buf[..][i].prev == buf[..][i - 1]
  {
    var j := 1;
    while j < buf.Length - 1
      invariant 1 <= j <= buf.Length - 1
      invariant forall i | 0 <= i < j :: buf[..][i].next == buf[..][i + 1]
      invariant buf[..][buf.Length - 1].next == null
      invariant buf[..][1].prev == old(buf[1].prev)
      invariant forall i | 2 <= i <= j :: buf[..][i].prev == buf[..][i - 1]
    {
      buf[j].next := buf[j + 1];
      buf[j + 1].prev := buf[j];
      j := j + 1;
    }
  }

  lemma ConsistentItems<T>(all: seq<Item<T>>, compare: (T, T) -> int)
    requires Consistent(Data(all), compare)
    ensures Consistent(all, (x: Item<T>, y: Item<T>) => compare(x.data, y.data))
  {
    forall x | x in all ensures x.data in Data(all) {
      var i :| 0 <= i < |all| && all[i] == x;
      assert Data(all)[i] == x.data;
    }
  }

  lemma SortedItems<T>(all: seq<Item<T>>, p: seq<Item<T>>, compare: (T, T) -> int)
    requires Distinct(all) && multiset(p) == multiset(all)
    requires SortedBy(p, (x: Item<T>, y: Item<T>) => compare(x.data, y.data))
    ensures |p| == |all| && Distinct(p)
    ensures SortedBy(Data(p), compare) && multiset(Data(p)) == multiset(Data(all))
    ensures forall i | 0 <= i < |p| :: p[i] in all
  {
    PermutationDistinct(all, p);
    MapPermutation(all, p, (i: Item<T>) => i.data);
    var c := (x: Item<T>, y: Item<T>) => compare(x.data, y.data);
    forall i, j | 0 <= i < j < |p| ensures compare(Data(p)[i], Data(p)[j]) <= 0 {
      assert c(p[i], p[j]) <= 0;
    }
    forall i | 0 <= i < |p| ensures p[i] in all {
      assert p[i] in multiset(p);
    }
  }

  const BY_VALUE: (int, int) -> int := (a: int, b: int) => a - b

  method TwoAndThree() returns (l: List<int>)
    ensures l.Valid() && l.Contents() == [2, 3] && l.items[0].prev == null
    ensures fresh(l) && fresh(l.items) && l.compare == BY_VALUE
  {
    l := new List<int>(BY_VALUE);
    l.InsertTail(2);
    l.InsertTail(3);
  }

  // The missing prev shows: sorting 1 into 2, 3 leaves the second item without one.
  method StalePrevReached() returns (l: List<int>)
    ensures l.Valid() && l.Contents() == [1, 2, 3]
    ensures l.items[1].prev == null && l.items[2].prev == l.items[1]
  {
    l := TwoAndThree();
    ghost var before := l.items;
    assert before[0].data == l.Contents()[0] && before[1].data == l.Contents()[1];
    AllConsistent(l.Contents() + [1]);
    l.InsertSorted(1);
    SortedThree(l.Contents(), l.compare);
    OnlyTwo(before, l.items[1]) by {
      assert l.items[1].data == l.Contents()[1];
    }
  }

  lemma OnlyTwo(items: seq<Item<int>>, x: Item<int>)
    requires |items| == 2 && items[0].data == 2 && items[1].data == 3 && x in items && x.data == 2
    ensures x == items[0]
  {
  }

  lemma AllConsistent(s: seq<int>)
    ensures Consistent(s, BY_VALUE)
  {
  }

  lemma SortedThree(s: seq<int>, compare: (int, int) -> int)
    requires multiset(s) == multiset([2, 3]) + multiset{1} && SortedBy(s, compare) && compare == BY_VALUE
    ensures s == [1, 2, 3]
  {
    assert |s| == |multiset(s)| == 3;
    assert s == [s[0], s[1], s[2]];
    assert s[0] in multiset(s) && s[1] in multiset(s) && s[2] in multiset(s);
    assert 1 in multiset(s) && 2 in multiset(s) && 3 in multiset(s);
  }
}
