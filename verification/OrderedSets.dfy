/**
 The ordered set of internal/output/ordered_set.go. Deleting an item leaves a tombstone in the
 list, so the set is the list of its live items: a sequence without duplicates.
 */
module OrderedSets {

  // ---------- what an ordered set stands for ----------

  ghost predicate NoDuplicates<T(!new)>(s: seq<T>) {
    forall i, j :: 0 <= i < j < |s| ==> s[i] != s[j]
  }

  /** Adding keeps the place of an item that is already there. */
  function Added<T(==)>(s: seq<T>, x: T): seq<T> {
    if x in s then s else s + [x]
  }

  function AddedAll<T(==)>(s: seq<T>, xs: seq<T>): seq<T> {
    if xs == [] then s else Added(AddedAll(s, xs[..|xs| - 1]), xs[|xs| - 1])
  }

  function Without<T(==)>(s: seq<T>, x: T): seq<T> {
    if s == [] then []
    else Without(s[..|s| - 1], x) + if s[|s| - 1] == x then [] else [s[|s| - 1]]
  }

  function WithoutAll<T(==)>(s: seq<T>, xs: seq<T>): seq<T>
    decreases |xs|
  {
    if xs == [] then s else WithoutAll(Without(s, xs[0]), xs[1..])
  }

  lemma AppendNew<T(!new)>(s: seq<T>, x: T)
    requires NoDuplicates(s) && x !in s
    ensures NoDuplicates(s + [x])
  {
    forall i, j | 0 <= i < j < |s + [x]| ensures (s + [x])[i] != (s + [x])[j] {
      assert s[i] in s;
    }
  }

  lemma AddedAllAppend<T>(s: seq<T>, xs: seq<T>, x: T)
    ensures AddedAll(s, xs + [x]) == Added(AddedAll(s, xs), x)
  {
    assert (xs + [x])[..|xs|] == xs;
  }

  lemma {:induction false} AddedAllKeeps<T(!new)>(s: seq<T>, xs: seq<T>)
    requires NoDuplicates(s)
    ensures NoDuplicates(AddedAll(s, xs)) && s <= AddedAll(s, xs)
    ensures forall x :: x in AddedAll(s, xs) <==> x in s || x in xs
  {
    if xs != [] {
      var n := |xs| - 1;
      AddedAllKeeps(s, xs[..n]);
      assert xs == xs[..n] + [xs[n]];
      var t := AddedAll(s, xs[..n]);
      if xs[n] !in t { AppendNew(t, xs[n]); }
    }
  }

  function First<T(==)>(xs: seq<T>, x: T): nat {
    if xs == [] || xs[0] == x then 0 else 1 + First(xs[1..], x)
  }

  lemma {:induction false} FirstIn<T>(xs: seq<T>, x: T, y: T)
    ensures x in xs ==> First(xs, x) < |xs| && First(xs + [y], x) == First(xs, x)
    ensures x !in xs ==> First(xs, x) == |xs|
    ensures x !in xs && x == y ==> First(xs + [y], x) == |xs|
  {
    if xs != [] {
      FirstIn(xs[1..], x, y);
      assert xs == [xs[0]] + xs[1..] && (xs + [y])[1..] == xs[1..] + [y];
    }
  }

  ghost predicate Ascending<T(!new)>(rank: T -> int, s: seq<T>) {
    forall i, j :: 0 <= i < j < |s| ==> rank(s[i]) < rank(s[j])
  }

  /** The items stand in the order in which they were first added. */
  lemma {:induction false} FirstComesFirst<T(!new)>(xs: seq<T>)
    ensures Ascending(x => First(xs, x), AddedAll([], xs))
  {
    if xs != [] {
      var n := |xs| - 1;
      var t := AddedAll([], xs[..n]);
      FirstComesFirst(xs[..n]);
      AddedAllKeeps([], xs[..n]);
      assert xs == xs[..n] + [xs[n]];
      forall i, j | 0 <= i < j < |AddedAll([], xs)|
        ensures First(xs, AddedAll([], xs)[i]) < First(xs, AddedAll([], xs)[j])
      {
        assert t[i] in t;
        FirstIn(xs[..n], t[i], xs[n]);
        if j < |t| {
          assert t[j] in t;
          FirstIn(xs[..n], t[j], xs[n]);
        } else {
          FirstIn(xs[..n], xs[n], xs[n]);
        }
      }
    }
  }

  lemma {:induction false} WithoutAscending<T(!new)>(rank: T -> int, s: seq<T>, x: T)
    requires Ascending(rank, s)
    ensures Ascending(rank, Without(s, x))
  {
    if s != [] {
      var n := |s| - 1;
      var t := Without(s[..n], x);
      WithoutAscending(rank, s[..n], x);
      WithoutKeeps(s[..n], x);
      forall i | 0 <= i < |t| ensures rank(t[i]) < rank(s[n]) {
        assert t[i] in s[..n];
      }
    }
  }

  lemma {:induction false} WithoutAllAscending<T(!new)>(rank: T -> int, s: seq<T>, xs: seq<T>)
    requires Ascending(rank, s)
    ensures Ascending(rank, WithoutAll(s, xs))
    decreases |xs|
  {
    if xs != [] {
      WithoutAscending(rank, s, xs[0]);
      WithoutAllAscending(rank, Without(s, xs[0]), xs[1..]);
    }
  }

  lemma {:induction false} WithoutKeeps<T(!new)>(s: seq<T>, x: T)
    ensures NoDuplicates(s) ==> NoDuplicates(Without(s, x))
    ensures forall y :: y in Without(s, x) <==> y in s && y != x
  {
    if s != [] {
      var n := |s| - 1;
      WithoutKeeps(s[..n], x);
      assert s == s[..n] + [s[n]];
      if NoDuplicates(s) && s[n] != x { AppendNew(Without(s[..n], x), s[n]); }
    }
  }

  lemma {:induction false} WithoutAbsent<T>(s: seq<T>, x: T)
    requires x !in s
    ensures Without(s, x) == s
  {
    if s != [] {
      assert s == s[..|s| - 1] + [s[|s| - 1]];
      WithoutAbsent(s[..|s| - 1], x);
    }
  }

  lemma WithoutAppend<T>(s: seq<T>, y: T, x: T)
    ensures Without(s + [y], x) == Without(s, x) + if y == x then [] else [y]
  {
    assert (s + [y])[..|s|] == s;
  }

  lemma {:induction false} WithoutAllKeeps<T(!new)>(s: seq<T>, xs: seq<T>)
    ensures NoDuplicates(s) ==> NoDuplicates(WithoutAll(s, xs))
    ensures forall y :: y in WithoutAll(s, xs) <==> y in s && y !in xs
    decreases |xs|
  {
    if xs != [] {
      WithoutKeeps(s, xs[0]);
      WithoutAllKeeps(Without(s, xs[0]), xs[1..]);
      assert xs == [xs[0]] + xs[1..];
    }
  }

  lemma {:induction false} SizeOfNoDuplicates<T(!new)>(s: seq<T>, all: set<T>)
    requires NoDuplicates(s) && forall x :: x in s <==> x in all
    ensures |s| == |all|
  {
    if s != [] {
      var x := s[|s| - 1];
      assert s == s[..|s| - 1] + [x];
      SizeOfNoDuplicates(s[..|s| - 1], all - {x});
    } else {
      assert all == {};
    }
  }

  // ---------- the list with tombstones ----------

  function Live<T>(items: seq<T>, deleted: set<int>): seq<T> {
    if items == [] then []
    else Live(items[..|items| - 1], deleted) + if |items| - 1 in deleted then [] else [items[|items| - 1]]
  }

  /** The table says exactly where each live item is. */
  ghost predicate Indexed<T(!new)>(items: seq<T>, index: map<T, int>, deleted: set<int>) {
    && (forall x :: x in index ==> 0 <= index[x] < |items| && items[index[x]] == x && index[x] !in deleted)
    && (forall i :: 0 <= i < |items| && i !in deleted ==> items[i] in index && index[items[i]] == i)
    && (forall i :: i in deleted ==> 0 <= i < |items|)
  }

  lemma {:induction false} LiveItems<T(!new)>(items: seq<T>, deleted: set<int>)
    ensures forall x :: x in Live(items, deleted) <==> exists i :: 0 <= i < |items| && i !in deleted && items[i] == x
  {
    if items != [] {
      var n := |items| - 1;
      LiveItems(items[..n], deleted);
      assert forall i :: 0 <= i < n ==> items[..n][i] == items[i];
    }
  }

  lemma {:induction false} LiveDistinct<T(!new)>(items: seq<T>, deleted: set<int>)
    requires forall i, j :: 0 <= i < j < |items| && i !in deleted && j !in deleted ==> items[i] != items[j]
    ensures NoDuplicates(Live(items, deleted))
  {
    if items != [] {
      var n := |items| - 1;
      LiveDistinct(items[..n], deleted);
      if n !in deleted {
        if items[n] in Live(items[..n], deleted) {
          var i := LiveHas(items[..n], deleted, items[n]);
        }
        AppendNew(Live(items[..n], deleted), items[n]);
      }
    }
  }

  lemma IndexedIsSet<T(!new)>(items: seq<T>, index: map<T, int>, deleted: set<int>)
    requires Indexed(items, index, deleted)
    ensures NoDuplicates(Live(items, deleted))
    ensures forall x :: x in Live(items, deleted) <==> x in index
    ensures |Live(items, deleted)| == |index|
  {
    LiveItems(items, deleted);
    LiveDistinct(items, deleted);
    SizeOfNoDuplicates(Live(items, deleted), index.Keys);
  }

  lemma {:induction false} LiveWithTombstone<T>(items: seq<T>, deleted: set<int>, at: int)
    requires 0 <= at < |items|
    requires forall i :: 0 <= i < |items| && i !in deleted ==> (items[i] == items[at] <==> i == at)
    ensures Live(items, deleted + {at}) == Without(Live(items, deleted), items[at])
  {
    hide Live, Without;
    var n := |items| - 1;
    var rest := Live(items[..n], deleted);
    LiveNext(items, deleted);
    LiveNext(items, deleted + {at});
    if at < n {
      LiveWithTombstone(items[..n], deleted, at);
    } else {
      LiveBelow(items[..n], deleted, at);
      forall x | x in rest ensures x != items[at] { var _ := LiveHas(items[..n], deleted, x); }
      WithoutAbsent(rest, items[at]);
    }
    if n !in deleted {
      WithoutAppend(rest, items[n], items[at]);
    } else {
      assert rest + [] == rest;
    }
  }

  lemma LiveNext<T>(items: seq<T>, deleted: set<int>)
    requires items != []
    ensures var n := |items| - 1;
            Live(items, deleted) == Live(items[..n], deleted) + if n in deleted then [] else [items[n]]
  {
  }

  lemma {:induction false} LiveBelow<T>(items: seq<T>, deleted: set<int>, at: int)
    requires |items| <= at
    ensures Live(items, deleted + {at}) == Live(items, deleted)
  {
    if items != [] { LiveBelow(items[..|items| - 1], deleted, at); }
  }

  lemma {:induction false} LiveHas<T>(items: seq<T>, deleted: set<int>, x: T) returns (i: int)
    requires x in Live(items, deleted)
    ensures 0 <= i < |items| && i !in deleted && items[i] == x
  {
    i := |items| - 1;
    if i in deleted || items[i] != x { i := LiveHas(items[..i], deleted, x); }
  }

  lemma IndexedDelete<T(!new)>(items: seq<T>, index: map<T, int>, deleted: set<int>, x: T)
    requires Indexed(items, index, deleted) && x in index
    ensures Indexed(items, index - {x}, deleted + {index[x]})
    ensures Live(items, deleted + {index[x]}) == Without(Live(items, deleted), x)
  {
    LiveWithTombstone(items, deleted, index[x]);
  }

  // ---------- the set itself ----------

  class OrderedSet<T(==, !new)> {
    var orderedItems: seq<T>
    var itemSet: map<T, int>
    var deletedIndices: set<int>

    ghost predicate Valid()
      reads this
    {
      Indexed(orderedItems, itemSet, deletedIndices)
    }

    ghost function Contents(): seq<T>
      reads this
    {
      Live(orderedItems, deletedIndices)
    }

    constructor ()
      ensures Valid() && Contents() == []
    {
      orderedItems := [];
      itemSet := map[];
      deletedIndices := {};
    }

    method Add(item: T) returns (added: bool)
      requires Valid()
      modifies this
      ensures Valid()
      ensures added <==> item !in old(Contents())
      ensures Contents() == Added(old(Contents()), item)
    {
      IndexedIsSet(orderedItems, itemSet, deletedIndices);
      if item in itemSet {
        return false;
      }
      ghost var before := orderedItems;
      itemSet := itemSet[item := |orderedItems|];
      orderedItems := orderedItems + [item];
      assert orderedItems[..|before|] == before;
      return true;
    }

    /** A deleted item that is added again goes to the end. */
    method Delete(item: T) returns (deleted: bool)
      requires Valid()
      modifies this
      ensures Valid()
      ensures deleted <==> item in old(Contents())
      ensures Contents() == Without(old(Contents()), item)
    {
      IndexedIsSet(orderedItems, itemSet, deletedIndices);
      if item in itemSet {
        IndexedDelete(orderedItems, itemSet, deletedIndices, item);
        deletedIndices := deletedIndices + {itemSet[item]};
        itemSet := itemSet - {item};
        return true;
      }
      WithoutAbsent(Contents(), item);
      return false;
    }

    method Contains(item: T) returns (b: bool)
      requires Valid()
      ensures b <==> item in Contents()
    {
      IndexedIsSet(orderedItems, itemSet, deletedIndices);
      b := item in itemSet;
    }

    method Items() returns (r: seq<T>)
      requires Valid()
      ensures r == Contents() && NoDuplicates(r)
    {
      r := [];
      for i := 0 to |orderedItems|
        invariant r == Live(orderedItems[..i], deletedIndices)
      {
        assert orderedItems[..i + 1][..i] == orderedItems[..i];
        if i !in deletedIndices {
          r := r + [orderedItems[i]];
        }
      }
      assert orderedItems[..|orderedItems|] == orderedItems;
      IndexedIsSet(orderedItems, itemSet, deletedIndices);
    }

    method Len() returns (n: nat)
      requires Valid()
      ensures n == |Contents()|
    {
      IndexedIsSet(orderedItems, itemSet, deletedIndices);
      n := |itemSet|;
    }
  }

  // ---------- any mix of additions and deletions ----------

  datatype Op<T> = Put(item: T) | Drop(item: T)

  function After<T(==)>(s: seq<T>, ops: seq<Op<T>>): seq<T>
    decreases |ops|
  {
    if ops == [] then s
    else After(match ops[0] case Put(x) => Added(s, x) case Drop(x) => Without(s, x), ops[1..])
  }

  /** The last operation on an item decides whether it is there. */
  function LastIsPut<T(==)>(ops: seq<Op<T>>, x: T, before: bool): bool
    decreases |ops|
  {
    if ops == [] then before
    else LastIsPut(ops[1..], x, if ops[0].item == x then ops[0].Put? else before)
  }

  lemma {:induction false} MixedRuns<T(!new)>(s: seq<T>, ops: seq<Op<T>>)
    requires NoDuplicates(s)
    ensures NoDuplicates(After(s, ops))
    ensures forall x :: x in After(s, ops) <==> LastIsPut(ops, x, x in s)
    decreases |ops|
  {
    if ops != [] {
      WithoutKeeps(s, ops[0].item);
      var s' := match ops[0] case Put(x) => Added(s, x) case Drop(x) => Without(s, x);
      if ops[0].Put? && ops[0].item !in s { AppendNew(s, ops[0].item); }
      MixedRuns(s', ops[1..]);
      forall x ensures x in s' <==> (if ops[0].item == x then ops[0].Put? else x in s) {}
    }
  }

  method Perform<T(==, !new)>(hd: OrderedSet<T>, ops: seq<Op<T>>)
    requires hd.Valid()
    modifies hd
    ensures hd.Valid() && hd.Contents() == After(old(hd.Contents()), ops)
  {
    for i := 0 to |ops|
      invariant hd.Valid()
      invariant After(hd.Contents(), ops[i..]) == After(old(hd.Contents()), ops)
    {
      assert ops[i..][1..] == ops[i + 1..];
      match ops[i] {
        case Put(x) => var _ := hd.Add(x);
        case Drop(x) => var _ := hd.Delete(x);
      }
    }
  }
}
