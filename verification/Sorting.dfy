/**
 Sorting by a string key, for slices.SortFunc. Go's sort leaves the order of equal keys open;
 the one here keeps it, and SortedUnique shows that nothing else is left open.
 */
module Sorting {
  import opened Text

  function Insert<T>(key: T -> string, x: T, s: seq<T>): seq<T> {
    if s == [] || Less(key(x), key(s[0])) then [x] + s else [s[0]] + Insert(key, x, s[1..])
  }

  function SortBy<T>(key: T -> string, s: seq<T>): seq<T> {
    if s == [] then [] else Insert(key, s[|s| - 1], SortBy(key, s[..|s| - 1]))
  }

  /** The key of a string that is sorted by itself. */
  function Same(s: string): string { s }

  ghost predicate Sorted<T>(key: T -> string, s: seq<T>) {
    forall i, j :: 0 <= i < j < |s| ==> !Less(key(s[j]), key(s[i]))
  }

  ghost predicate DistinctKeys<T>(key: T -> string, s: seq<T>) {
    forall i, j :: 0 <= i < j < |s| ==> key(s[i]) != key(s[j])
  }

  lemma {:induction false} InsertKeepsElements<T>(key: T -> string, x: T, s: seq<T>)
    ensures multiset(Insert(key, x, s)) == multiset(s) + multiset{x}
  {
    if s != [] && !Less(key(x), key(s[0])) {
      InsertKeepsElements(key, x, s[1..]);
      assert s == [s[0]] + s[1..];
    }
  }

  lemma {:induction false} InsertSorts<T>(key: T -> string, x: T, s: seq<T>)
    requires Sorted(key, s)
    ensures Sorted(key, Insert(key, x, s))
  {
    var r := Insert(key, x, s);
    InsertKeepsElements(key, x, s);
    if s != [] && !Less(key(x), key(s[0])) {
      InsertSorts(key, x, s[1..]);
      InsertKeepsElements(key, x, s[1..]);
      var tail := Insert(key, x, s[1..]);
      forall j | 0 <= j < |tail| ensures !Less(key(tail[j]), key(s[0])) {
        assert tail[j] in multiset(tail);
        if tail[j] != x {
          assert tail[j] in s[1..];
        }
      }
    } else if s != [] {
      forall j | 0 <= j < |s| ensures !Less(key(s[j]), key(x)) {
        if Less(key(s[j]), key(x)) {
          LessTransitive(key(s[j]), key(x), key(s[0]));
          LessIrreflexive(key(s[0]));
        }
      }
    }
  }

  lemma {:induction false} SortBySorts<T>(key: T -> string, s: seq<T>)
    ensures Sorted(key, SortBy(key, s))
    ensures multiset(SortBy(key, s)) == multiset(s)
  {
    if s != [] {
      hide Sorted;
      var init, x := s[..|s| - 1], s[|s| - 1];
      SortBySorts(key, init);
      InsertSorts(key, x, SortBy(key, init));
      InsertKeepsElements(key, x, SortBy(key, init));
      assert s == init + [x];
    }
  }

  lemma SameElements<T>(key: T -> string, s: seq<T>)
    ensures forall x :: x in SortBy(key, s) <==> x in s
    ensures |SortBy(key, s)| == |s|
  {
    SortBySorts(key, s);
    var r := SortBy(key, s);
    forall x ensures x in r <==> x in s {
      assert x in multiset(r) <==> x in r;
      assert x in multiset(s) <==> x in s;
    }
    assert |multiset(r)| == |r| && |multiset(s)| == |s|;
  }

  lemma TakeOut<T>(s: seq<T>, i: nat)
    requires i < |s|
    ensures multiset(s) == multiset(s[..i]) + multiset{s[i]} + multiset(s[i + 1..])
  {
    assert s == s[..i] + [s[i]] + s[i + 1..];
  }

  lemma SameTails<T>(a: seq<T>, b: seq<T>)
    requires a != [] && b != [] && a[0] == b[0] && multiset(a) == multiset(b)
    ensures multiset(a[1..]) == multiset(b[1..])
  {
    TakeOut(a, 0);
    TakeOut(b, 0);
    assert multiset(a[1..]) == multiset(a) - multiset{a[0]};
    assert multiset(b[1..]) == multiset(b) - multiset{b[0]};
  }

  lemma SortedTail<T>(key: T -> string, a: seq<T>)
    requires a != []
    ensures Sorted(key, a) ==> Sorted(key, a[1..])
    ensures DistinctKeys(key, a) ==> DistinctKeys(key, a[1..])
  {
    var tail := a[1..];
    assert forall i :: 0 <= i < |tail| ==> tail[i] == a[i + 1];
  }

  /** Elements with different keys can be put in order in only one way. */
  lemma {:induction false} SortedUnique<T>(key: T -> string, a: seq<T>, b: seq<T>)
    requires Sorted(key, a) && Sorted(key, b) && multiset(a) == multiset(b) && DistinctKeys(key, a)
    ensures a == b
  {
    assert |a| == |multiset(a)| == |multiset(b)| == |b|;
    if a != [] {
      hide Sorted, DistinctKeys;
      SameFirst(key, a, b);
      SortedTail(key, a);
      SortedTail(key, b);
      SameTails(a, b);
      SortedUnique(key, a[1..], b[1..]);
      assert a == [a[0]] + a[1..] && b == [b[0]] + b[1..];
    }
  }

  lemma SameFirst<T>(key: T -> string, a: seq<T>, b: seq<T>)
    requires Sorted(key, a) && Sorted(key, b) && multiset(a) == multiset(b) && DistinctKeys(key, a) && a != []
    requires b != []
    ensures a[0] == b[0]
  {
    assert a[0] in multiset(b) && b[0] in multiset(a);
    var j :| 0 <= j < |b| && b[j] == a[0];
    var i :| 0 <= i < |a| && a[i] == b[0];
    LessTotal(key(a[0]), key(b[0]));
  }

  lemma Once<T>(key: T -> string, s: seq<T>, i: nat)
    requires DistinctKeys(key, s) && i < |s|
    ensures multiset(s)[s[i]] == 1
  {
    TakeOut(s, i);
    var x := s[i];
    forall k | 0 <= k < i ensures s[..i][k] != x {
      assert key(s[k]) != key(s[i]);
    }
    var after := s[i + 1..];
    forall k | 0 <= k < |after| ensures after[k] != x {
      assert key(s[i]) != key(s[i + 1 + k]);
    }
  }

  lemma DistinctPermuted<T>(key: T -> string, a: seq<T>, b: seq<T>)
    requires multiset(a) == multiset(b) && DistinctKeys(key, a)
    ensures DistinctKeys(key, b)
  {
    forall i, j | 0 <= i < j < |b| ensures key(b[i]) != key(b[j]) {
      assert b[i] in multiset(a) && b[j] in multiset(a);
      var i' :| 0 <= i' < |a| && a[i'] == b[i];
      var j' :| 0 <= j' < |a| && a[j'] == b[j];
      Once(key, a, i');
      TakeOut(b, i);
      assert b[i + 1..][j - i - 1] == b[j];
    }
  }

  /** Any order of the same elements sorts to the same sequence when the keys differ. */
  lemma SortIgnoresOrder<T>(key: T -> string, a: seq<T>, b: seq<T>)
    requires multiset(a) == multiset(b) && DistinctKeys(key, a)
    ensures SortBy(key, a) == SortBy(key, b)
  {
    SortBySorts(key, a);
    SortBySorts(key, b);
    DistinctPermuted(key, a, SortBy(key, a));
    SortedUnique(key, SortBy(key, a), SortBy(key, b));
  }
}
