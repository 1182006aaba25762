/** Sequences without repeats, and in strict order: there is one way to put things in order. */
module Ordering {

  predicate NoRepeats<T(==)>(s: seq<T>) {
    forall i, j :: 0 <= i < j < |s| ==> s[i] != s[j]
  }

  ghost predicate Asymmetric<T(!new)>(less: (T, T) -> bool) {
    forall x, y :: !(less(x, y) && less(y, x))
  }

  ghost predicate StrictTotal<T(!new)>(less: (T, T) -> bool) {
    && Asymmetric(less)
    && (forall x, y, z :: less(x, y) && less(y, z) ==> less(x, z))
    && (forall x, y :: x == y || less(x, y) || less(y, x))
  }

  ghost predicate InOrder<T>(s: seq<T>, less: (T, T) -> bool) {
    forall i, j :: 0 <= i < j < |s| ==> less(s[i], s[j])
  }

  function Insert<T>(x: T, s: seq<T>, less: (T, T) -> bool): seq<T> {
    if s == [] || less(x, s[0]) then [x] + s else [s[0]] + Insert(x, s[1..], less)
  }

  lemma {:induction false} InsertMembers<T>(x: T, s: seq<T>, less: (T, T) -> bool)
    ensures forall y :: y in Insert(x, s, less) <==> y == x || y in s
  {
    if s != [] && !less(x, s[0]) {
      InsertMembers(x, s[1..], less);
      assert s == [s[0]] + s[1..];
    }
  }

  lemma {:induction false} InsertOrders<T(!new)>(x: T, s: seq<T>, less: (T, T) -> bool)
    requires StrictTotal(less) && InOrder(s, less) && x !in s
    ensures InOrder(Insert(x, s, less), less)
  {
    if s != [] && !less(x, s[0]) {
      InsertOrders(x, s[1..], less);
      InsertMembers(x, s[1..], less);
      var rest := Insert(x, s[1..], less);
      forall j | 0 <= j < |rest| ensures less(s[0], rest[j]) {
        assert rest[j] in rest;
        if rest[j] != x { var k :| 0 <= k < |s[1..]| && s[1..][k] == rest[j]; }
      }
    }
  }

  /** The elements of a set in order. */
  ghost function Arranged<T(!new)>(xs: set<T>, less: (T, T) -> bool): (r: seq<T>)
    requires StrictTotal(less)
    ensures InOrder(r, less)
    ensures forall x :: x in r <==> x in xs
  {
    if xs == {} then []
    else
      var x :| x in xs;
      InsertOrders(x, Arranged(xs - {x}, less), less);
      InsertMembers(x, Arranged(xs - {x}, less), less);
      Insert(x, Arranged(xs - {x}, less), less)
  }

  lemma OrderedTail<T(!new)>(s: seq<T>, less: (T, T) -> bool)
    requires Asymmetric(less) && InOrder(s, less) && s != []
    ensures InOrder(s[1..], less)
    ensures forall x :: x in s[1..] <==> x in s && x != s[0]
  {
    assert s == [s[0]] + s[1..];
    forall x | x in s[1..] ensures x != s[0] {
      var k :| 0 <= k < |s[1..]| && s[1..][k] == x;
      assert less(s[0], s[k + 1]);
    }
  }

  /** Two sequences in order with the same elements are the same. */
  lemma {:induction false} OrderedUnique<T(!new)>(a: seq<T>, b: seq<T>, less: (T, T) -> bool)
    requires Asymmetric(less) && InOrder(a, less) && InOrder(b, less) && forall x :: x in a <==> x in b
    ensures a == b
  {
    assert a != [] ==> a[0] in a;
    assert b != [] ==> b[0] in b;
    if a != [] {
      OrderedTail(a, less);
      OrderedTail(b, less);
      OrderedUnique(a[1..], b[1..], less);
    }
  }

  /** A sequence in order has as many elements as places. */
  lemma {:induction false} OrderedSize<T(!new)>(s: seq<T>, less: (T, T) -> bool)
    requires Asymmetric(less) && InOrder(s, less)
    ensures |s| == |set x | x in s|
  {
    if s == [] {
      assert (set x | x in s) == {};
    } else {
      OrderedTail(s, less);
      OrderedSize(s[1..], less);
      assert (set x | x in s) == {s[0]} + set x | x in s[1..];
    }
  }

  /** The keys of a map come in any order; inserting them one at a time arranges them. */
  method Arrange<T(==, !new)>(xs: set<T>, less: (T, T) -> bool) returns (r: seq<T>)
    requires StrictTotal(less)
    ensures r == Arranged(xs, less)
  {
    r := [];
    var rest := xs;
    while rest != {}
      invariant rest <= xs && InOrder(r, less)
      invariant forall x :: x in r <==> x in xs && x !in rest
      decreases |rest|
    {
      var x :| x in rest;
      InsertOrders(x, r, less);
      InsertMembers(x, r, less);
      r := Insert(x, r, less);
      rest := rest - {x};
    }
    OrderedUnique(r, Arranged(xs, less), less);
  }
}
