/** Sorting by a total order, and why it commutes with leaving elements out. */
module Sorting {

  ghost predicate TotalOrder<T(!new)>(le: (T, T) -> bool) {
    && (forall a, b :: le(a, b) || le(b, a))
    && (forall a, b :: le(a, b) && le(b, a) ==> a == b)
    && (forall a, b, c :: le(a, b) && le(b, c) ==> le(a, c))
  }

  ghost predicate SortedBy<T>(le: (T, T) -> bool, s: seq<T>) {
    forall i, j | 0 <= i < j < |s| :: le(s[i], s[j])
  }

  function Insert<T>(le: (T, T) -> bool, x: T, s: seq<T>): seq<T> {
    if s == [] then [x]
    else if le(x, s[0]) then [x] + s
    else [s[0]] + Insert(le, x, s[1..])
  }

  function Sort<T>(le: (T, T) -> bool, s: seq<T>): seq<T> {
    if s == [] then [] else Insert(le, s[0], Sort(le, s[1..]))
  }

  lemma {:induction false} InsertElements<T>(le: (T, T) -> bool, x: T, s: seq<T>)
    ensures multiset(Insert(le, x, s)) == multiset(s) + multiset{x}
  {
    if s != [] && !le(x, s[0]) {
      InsertElements(le, x, s[1..]);
      assert s == [s[0]] + s[1..];
    }
  }

  lemma {:induction false} InsertSorts<T(!new)>(le: (T, T) -> bool, x: T, s: seq<T>)
    requires TotalOrder(le) && SortedBy(le, s)
    ensures SortedBy(le, Insert(le, x, s))
  {
    if s != [] && !le(x, s[0]) {
      var rest := Insert(le, x, s[1..]);
      InsertSorts(le, x, s[1..]);
      InsertElements(le, x, s[1..]);
      forall j | 0 <= j < |rest| ensures le(s[0], rest[j]) {
        assert rest[j] in multiset(rest);
        if rest[j] != x {
          assert rest[j] in s[1..];
        }
      }
    }
  }

  lemma {:induction false} SortSorts<T(!new)>(le: (T, T) -> bool, s: seq<T>)
    requires TotalOrder(le)
    ensures SortedBy(le, Sort(le, s)) && multiset(Sort(le, s)) == multiset(s)
  {
    if s != [] {
      SortSorts(le, s[1..]);
      InsertSorts(le, s[0], Sort(le, s[1..]));
      InsertElements(le, s[0], Sort(le, s[1..]));
      assert s == [s[0]] + s[1..];
    }
  }

  lemma SameLength<T>(a: seq<T>, b: seq<T>)
    requires multiset(a) == multiset(b)
    ensures |a| == |b|
  {
    assert |multiset(a)| == |a| && |multiset(b)| == |b|;
  }

  lemma SameFirst<T(!new)>(le: (T, T) -> bool, a: seq<T>, b: seq<T>)
    requires TotalOrder(le) && SortedBy(le, a) && SortedBy(le, b) && multiset(a) == multiset(b) && a != [] && b != []
    ensures a[0] == b[0]
  {
    assert a[0] in multiset(b) && b[0] in multiset(a);
    var i :| 0 <= i < |b| && b[i] == a[0];
    var j :| 0 <= j < |a| && a[j] == b[0];
    assert i == 0 || le(b[0], b[i]);
    assert j == 0 || le(a[0], a[j]);
  }

  /** A total order leaves only one way to arrange the same elements. */
  lemma {:induction false} SortedUnique<T(!new)>(le: (T, T) -> bool, a: seq<T>, b: seq<T>)
    requires TotalOrder(le) && SortedBy(le, a) && SortedBy(le, b) && multiset(a) == multiset(b)
    ensures a == b
  {
    hide TotalOrder;
    SameLength(a, b);
    if a != [] {
      SameFirst(le, a, b);
      FirstAndRest(a);
      FirstAndRest(b);
      assert SortedBy(le, a[1..]) && SortedBy(le, b[1..]);
      SortedUnique(le, a[1..], b[1..]);
    }
  }

  lemma FirstAndRest<T>(s: seq<T>)
    requires s != []
    ensures s == [s[0]] + s[1..] && multiset(s[1..]) == multiset(s) - multiset{s[0]}
  {
    assert s == [s[0]] + s[1..];
  }

  /** Any sorted arrangement of the elements is the sorted sequence. */
  lemma SortIs<T(!new)>(le: (T, T) -> bool, s: seq<T>, r: seq<T>)
    requires TotalOrder(le) && SortedBy(le, r) && multiset(r) == multiset(s)
    ensures r == Sort(le, s)
  {
    SortSorts(le, s);
    SortedUnique(le, r, Sort(le, s));
  }

  // ---- leaving elements out ---------------------------------------------------------------

  function Filter<T>(keep: T -> bool, s: seq<T>): seq<T> {
    if s == [] then [] else (if keep(s[0]) then [s[0]] else []) + Filter(keep, s[1..])
  }

  lemma {:induction false} FilterMembers<T(!new)>(keep: T -> bool, s: seq<T>)
    ensures forall x :: x in Filter(keep, s) <==> x in s && keep(x)
    ensures |Filter(keep, s)| <= |s|
  {
    if s != [] {
      FilterMembers(keep, s[1..]);
      assert s == [s[0]] + s[1..];
    }
  }

  lemma {:induction false} FilterConcat<T>(keep: T -> bool, a: seq<T>, b: seq<T>)
    ensures Filter(keep, a + b) == Filter(keep, a) + Filter(keep, b)
  {
    if a == [] {
      assert a + b == b;
    } else {
      assert (a + b)[1..] == a[1..] + b;
      FilterConcat(keep, a[1..], b);
      var first := if keep(a[0]) then [a[0]] else [];
      assert Filter(keep, a + b) == first + Filter(keep, a[1..] + b);
      assert first + (Filter(keep, a[1..]) + Filter(keep, b)) == (first + Filter(keep, a[1..])) + Filter(keep, b);
    }
  }

  lemma {:induction false} FilterCounts<T>(keep: T -> bool, s: seq<T>, x: T)
    ensures multiset(Filter(keep, s))[x] == if keep(x) then multiset(s)[x] else 0
  {
    if s != [] {
      FilterCounts(keep, s[1..], x);
      assert s == [s[0]] + s[1..];
    }
  }

  lemma {:induction false} FilterKeepsSorted<T(!new)>(le: (T, T) -> bool, keep: T -> bool, s: seq<T>)
    requires SortedBy(le, s)
    ensures SortedBy(le, Filter(keep, s))
  {
    if s != [] {
      FilterKeepsSorted(le, keep, s[1..]);
      FilterMembers(keep, s[1..]);
      var rest := Filter(keep, s[1..]);
      forall j | 0 <= j < |rest| ensures le(s[0], rest[j]) {
        assert rest[j] in s[1..];
      }
    }
  }

  /** Sorting and then leaving elements out is leaving them out and then sorting. */
  lemma SortFilter<T(!new)>(le: (T, T) -> bool, keep: T -> bool, s: seq<T>)
    requires TotalOrder(le)
    ensures Sort(le, Filter(keep, s)) == Filter(keep, Sort(le, s))
  {
    SortSorts(le, s);
    FilterKeepsSorted(le, keep, Sort(le, s));
    forall x ensures multiset(Filter(keep, Sort(le, s)))[x] == multiset(Filter(keep, s))[x] {
      FilterCounts(keep, s, x);
      FilterCounts(keep, Sort(le, s), x);
    }
    SortIs(le, Filter(keep, s), Filter(keep, Sort(le, s)));
  }

  // ---- mapping ----------------------------------------------------------------------------

  function Map<T, U>(f: T -> U, s: seq<T>): (r: seq<U>)
    ensures |r| == |s|
    ensures forall i | 0 <= i < |s| :: r[i] == f(s[i])
  {
    if s == [] then [] else [f(s[0])] + Map(f, s[1..])
  }

  function Without<T>(s: seq<T>, i: nat): seq<T>
    requires i < |s|
  {
    s[..i] + s[i + 1..]
  }

  lemma TakeOut<T>(s: seq<T>, i: nat)
    requires i < |s|
    ensures multiset(s) == multiset(Without(s, i)) + multiset{s[i]}
    ensures multiset(Without(s, i)) == multiset(s) - multiset{s[i]} && |Without(s, i)| == |s| - 1
  {
    assert s == s[..i] + [s[i]] + s[i + 1..];
  }

  lemma MapWithout<T, U>(f: T -> U, s: seq<T>, i: nat)
    requires i < |s|
    ensures Map(f, Without(s, i)) == Without(Map(f, s), i)
  {
    hide Map;
    var a, b := Map(f, Without(s, i)), Without(Map(f, s), i);
    assert |a| == |b|;
    forall j | 0 <= j < |a| ensures a[j] == b[j] {
      WithoutAt(s, i, j);
      WithoutAt(Map(f, s), i, j);
    }
  }

  lemma WithoutAt<T>(s: seq<T>, i: nat, j: nat)
    requires i < |s| && j < |s| - 1
    ensures |Without(s, i)| == |s| - 1 && Without(s, i)[j] == s[if j < i then j else j + 1]
  {
  }

  lemma {:induction false} MapElements<T, U>(f: T -> U, a: seq<T>, b: seq<T>)
    requires multiset(a) == multiset(b)
    ensures multiset(Map(f, a)) == multiset(Map(f, b))
    decreases |a|
  {
    hide Map, Without;
    SameLength(a, b);
    if a == [] {
      assert a == b;
    } else {
      assert a[0] in multiset(b);
      var i :| 0 <= i < |b| && b[i] == a[0];
      TakeOut(a, 0);
      TakeOut(b, i);
      MapElements(f, Without(a, 0), Without(b, i));
      MapWithout(f, a, 0);
      MapWithout(f, b, i);
      TakeOut(Map(f, a), 0);
      TakeOut(Map(f, b), i);
    }
  }
}
