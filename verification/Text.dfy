/** Strings as the server's code orders and cuts them: byte-wise order, sorting, joining and splitting. */
module Text {
  import Ordering

  /** The order of sort.Strings: the first difference decides, and a prefix comes first. */
  predicate Less(a: string, b: string) {
    b != [] && (a == [] || a[0] < b[0] || (a[0] == b[0] && Less(a[1..], b[1..])))
  }

  lemma {:induction false} LessTransitive(a: string, b: string, c: string)
    requires Less(a, b) && Less(b, c)
    ensures Less(a, c)
  {
    if a != [] && a[0] == b[0] == c[0] {
      LessTransitive(a[1..], b[1..], c[1..]);
    }
  }

  lemma {:induction false} LessTotal(a: string, b: string)
    ensures !(Less(a, b) && Less(b, a))
    ensures a == b || Less(a, b) || Less(b, a)
    ensures a == b ==> !Less(a, b)
  {
    if a != [] && b != [] && a[0] == b[0] {
      LessTotal(a[1..], b[1..]);
      assert a == [a[0]] + a[1..] && b == [b[0]] + b[1..];
    }
  }

  ghost predicate Increasing(s: seq<string>) {
    forall i, j :: 0 <= i < j < |s| ==> Less(s[i], s[j])
  }

  ghost predicate NonDecreasing(s: seq<string>) {
    forall i, j :: 0 <= i < j < |s| ==> s[i] == s[j] || Less(s[i], s[j])
  }

  /** slices.Sort on strings. */
  function Sort(s: seq<string>): (r: seq<string>)
    ensures NonDecreasing(r)
    ensures multiset(r) == multiset(s)
  {
    if s == [] then []
    else
      var r := Insert(s[0], Sort(s[1..]));
      InsertSorts(s[0], Sort(s[1..]));
      InsertKeeps(s[0], Sort(s[1..]));
      assert s == [s[0]] + s[1..];
      r
  }

  function Insert(x: string, s: seq<string>): (r: seq<string>) {
    if s == [] then [x]
    else if x == s[0] || Less(x, s[0]) then [x] + s
    else [s[0]] + Insert(x, s[1..])
  }

  lemma {:induction false} InsertKeeps(x: string, s: seq<string>)
    ensures multiset(Insert(x, s)) == multiset([x] + s)
    ensures forall y :: y in Insert(x, s) <==> y == x || y in s
  {
    if s != [] && x != s[0] && !Less(x, s[0]) {
      InsertKeeps(x, s[1..]);
      assert s == [s[0]] + s[1..];
    }
  }

  lemma {:induction false} InsertSorts(x: string, s: seq<string>)
    requires NonDecreasing(s)
    ensures NonDecreasing(Insert(x, s))
  {
    if s != [] {
      if x == s[0] || Less(x, s[0]) {
        HeadLeast(x, s);
        InsertFront(x, s);
      } else {
        InsertSorts(x, s[1..]);
        InsertKeeps(x, s[1..]);
        LessTotal(x, s[0]);
        InsertFront(s[0], Insert(x, s[1..]));
      }
    }
  }

  lemma HeadLeast(x: string, s: seq<string>)
    requires NonDecreasing(s) && s != [] && (x == s[0] || Less(x, s[0]))
    ensures forall y :: y in s ==> x == y || Less(x, y)
  {
    forall j | 0 <= j < |s| ensures x == s[j] || Less(x, s[j]) {
      if j > 0 && x != s[0] && s[0] != s[j] { LessTransitive(x, s[0], s[j]); }
    }
  }

  lemma LessOrders()
    ensures Ordering.StrictTotal(Less)
  {
    forall x, y ensures !(Less(x, y) && Less(y, x)) && (x == y || Less(x, y) || Less(y, x)) { LessTotal(x, y); }
    forall x, y, z | Less(x, y) && Less(y, z) ensures Less(x, z) { LessTransitive(x, y, z); }
  }

  /** The keys of a map in order, as sort.Strings leaves them. */
  ghost function SortSet(keys: set<string>): (r: seq<string>)
    ensures Increasing(r)
    ensures forall k :: k in r <==> k in keys
  {
    LessOrders();
    Ordering.Arranged(keys, Less)
  }

  lemma IncreasingUnique(a: seq<string>, b: seq<string>)
    requires Increasing(a) && Increasing(b) && forall k :: k in a <==> k in b
    ensures a == b
  {
    LessOrders();
    Ordering.OrderedUnique(a, b, Less);
  }

  method SortedKeys(keys: set<string>) returns (r: seq<string>)
    ensures r == SortSet(keys)
  {
    LessOrders();
    r := Ordering.Arrange(keys, Less);
  }

  lemma InsertFront(x: string, s: seq<string>)
    requires NonDecreasing(s) && (forall y :: y in s ==> x == y || Less(x, y))
    ensures NonDecreasing([x] + s)
  {}

  /** slices.Compact: runs of equal elements become one. */
  function Compact(s: seq<string>): (r: seq<string>)
    ensures forall x :: x in r <==> x in s
    ensures NonDecreasing(s) ==> Increasing(r)
    ensures s != [] ==> r != [] && r[0] == s[0]
  {
    if |s| <= 1 then s
    else
      var r := Compact(s[1..]);
      assert s == [s[0]] + s[1..];
      assert forall x :: x in r ==> x in s[1..];
      if s[0] == s[1] then r
      else
        assert NonDecreasing(s) ==> Increasing([s[0]] + r) by {
          if NonDecreasing(s) { CompactFront(s, r); }
        }
        [s[0]] + r
  }

  lemma CompactFront(s: seq<string>, r: seq<string>)
    requires |s| > 1 && NonDecreasing(s) && s[0] != s[1] && Increasing(r)
    requires forall x :: x in r ==> x in s[1..]
    ensures Increasing([s[0]] + r)
  {
    forall j | 0 <= j < |r| ensures Less(s[0], r[j]) {
      assert r[j] in s[1..];
      var k :| 1 <= k < |s| && s[k] == r[j];
      if k > 1 && s[1] != s[k] { LessTransitive(s[0], s[1], s[k]); }
    }
  }

  lemma Regroup<T>(a: seq<T>, b: seq<T>, c: seq<T>)
    ensures a + (b + c) == a + b + c
  {}

  /** strings.Split on a one-character separator: always at least one part. */
  function Split<T(==)>(s: seq<T>, sep: T): (r: seq<seq<T>>)
    ensures r != []
    ensures forall p :: p in r ==> sep !in p
  {
    if s == [] then [[]]
    else
      var r := Split(s[1..], sep);
      if s[0] == sep then [[]] + r else [[s[0]] + r[0]] + r[1..]
  }

  /** strings.Join with a one-character separator. */
  function Join<T>(parts: seq<seq<T>>, sep: T): seq<T> {
    if parts == [] then []
    else if |parts| == 1 then parts[0]
    else parts[0] + [sep] + Join(parts[1..], sep)
  }

  lemma {:induction false} JoinSplit<T>(s: seq<T>, sep: T)
    ensures Join(Split(s, sep), sep) == s
  {
    if s != [] {
      JoinSplit(s[1..], sep);
      var r := Split(s[1..], sep);
      assert s == [s[0]] + s[1..];
      if s[0] == sep {
        assert ([[]] + r)[1..] == r;
      } else {
        assert ([[s[0]] + r[0]] + r[1..])[1..] == r[1..];
      }
    }
  }

  lemma {:induction false} SplitPart<T>(p: seq<T>, rest: seq<T>, sep: T)
    requires sep !in p
    ensures Split(p, sep) == [p]
    ensures Split(p + [sep] + rest, sep) == [p] + Split(rest, sep)
  {
    if p == [] {
      assert p + [sep] + rest == [sep] + rest;
    } else {
      assert p == [p[0]] + p[1..];
      SplitPart(p[1..], rest, sep);
      assert (p + [sep] + rest)[1..] == p[1..] + [sep] + rest;
    }
  }

  lemma {:induction false} SplitJoin<T>(parts: seq<seq<T>>, sep: T)
    requires parts != [] && forall p :: p in parts ==> sep !in p
    ensures Split(Join(parts, sep), sep) == parts
  {
    if |parts| == 1 {
      SplitPart(parts[0], [], sep);
    } else {
      SplitJoin(parts[1..], sep);
      SplitPart(parts[0], Join(parts[1..], sep), sep);
    }
  }
}
