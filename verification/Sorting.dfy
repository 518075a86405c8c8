/** Sorting by a strict order. The library sort used by the program is free to return any
    sorted rearrangement; `SortedRearrangementUnique` says there is only one whenever the order
    separates the elements, so its result does not depend on the order it was given. */
module Sorting {

  type Order<!T> = (T, T) -> bool

  ghost predicate StrictOrder<T(!new)>(less: Order<T>) {
    && (forall x :: !less(x, x))
    && (forall x, y, z :: less(x, y) && less(y, z) ==> less(x, z))
  }

  /** The order decides between any two different elements of `s`. */
  ghost predicate Separates<T(!new)>(less: Order<T>, s: seq<T>) {
    forall x, y | x in s && y in s && x != y :: less(x, y) || less(y, x)
  }

  /** No later element belongs before an earlier one. */
  ghost predicate Sorted<T(!new)>(less: Order<T>, s: seq<T>) {
    forall i, j | 0 <= i < j < |s| :: !less(s[j], s[i])
  }

  function Insert<T>(less: Order<T>, x: T, s: seq<T>): (r: seq<T>)
    ensures multiset(r) == multiset(s) + multiset{x}
  {
    if s == [] || less(x, s[0]) then
      assert s == [] || s == [s[0]] + s[1..];
      [x] + s
    else
      assert s == [s[0]] + s[1..];
      [s[0]] + Insert(less, x, s[1..])
  }

  function Sort<T>(less: Order<T>, s: seq<T>): (r: seq<T>)
    ensures multiset(r) == multiset(s)
    ensures |r| == |s|
  {
    if s == [] then []
    else
      assert s == s[..|s| - 1] + [s[|s| - 1]];
      var r := Insert(less, s[|s| - 1], Sort(less, s[..|s| - 1]));
      assert |multiset(r)| == |multiset(s)|;
      r
  }

  lemma InSame<T>(a: seq<T>, b: seq<T>)
    requires multiset(a) == multiset(b)
    ensures forall x :: x in a <==> x in b
    ensures |a| == |b|
  {
    forall x ensures x in a <==> x in b {
      assert x in a <==> x in multiset(a);
      assert x in b <==> x in multiset(b);
    }
    assert |multiset(a)| == |multiset(b)|;
  }

  lemma RemoveAt<T>(s: seq<T>, i: nat)
    requires i < |s|
    ensures multiset(s[..i] + s[i + 1..]) == multiset(s) - multiset{s[i]}
  {
    assert s == s[..i] + [s[i]] + s[i + 1..];
  }

  lemma {:induction false} InsertSorted<T(!new)>(less: Order<T>, x: T, s: seq<T>)
    requires StrictOrder(less) && Sorted(less, s) && Separates(less, s + [x])
    ensures Sorted(less, Insert(less, x, s))
  {
    if s != [] && !less(x, s[0]) {
      var t := Insert(less, x, s[1..]);
      InsertSorted(less, x, s[1..]);
      InSame(t, s[1..] + [x]);
      assert multiset(s[1..] + [x]) == multiset(s[1..]) + multiset{x};
      forall y | y in t ensures !less(y, s[0]) {
        assert y in s[1..] + [x];
      }
    } else if s != [] {
      assert s[0] in s + [x];
      forall j | 0 <= j < |s| ensures !less(s[j], x) { }
    }
  }

  lemma {:induction false} SortSorted<T(!new)>(less: Order<T>, s: seq<T>)
    requires StrictOrder(less) && Separates(less, s)
    ensures Sorted(less, Sort(less, s))
  {
    if s != [] {
      var front := s[..|s| - 1];
      SortSorted(less, front);
      InSame(Sort(less, front), front);
      assert forall y :: y in Sort(less, front) + [s[|s| - 1]] ==> y in s;
      InsertSorted(less, s[|s| - 1], Sort(less, front));
    }
  }

  lemma SortedHeadsAgree<T(!new)>(less: Order<T>, a: seq<T>, b: seq<T>)
    requires Separates(less, a) && a != []
    requires multiset(a) == multiset(b) && Sorted(less, a) && Sorted(less, b)
    ensures b != [] && a[0] == b[0]
  {
    InSame(a, b);
    assert a[0] in b && b[0] in a;
    var i :| 0 <= i < |b| && b[i] == a[0];
    var j :| 0 <= j < |a| && a[j] == b[0];
  }

  /** A list has at most one sorted rearrangement under an order that separates its elements. */
  lemma {:induction false} SortedRearrangementUnique<T(!new)>(less: Order<T>, a: seq<T>, b: seq<T>)
    requires Separates(less, a)
    requires multiset(a) == multiset(b) && Sorted(less, a) && Sorted(less, b)
    ensures a == b
  {
    InSame(a, b);
    if a != [] {
      SortedHeadsAgree(less, a, b);
      assert a == [a[0]] + a[1..] && b == [b[0]] + b[1..];
      assert multiset(a[1..]) == multiset(a) - multiset{a[0]};
      assert multiset(b[1..]) == multiset(b) - multiset{b[0]};
      SortedRearrangementUnique(less, a[1..], b[1..]);
    }
  }
}
