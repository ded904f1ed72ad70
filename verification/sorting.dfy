/** Stable sorting by a total preorder, as JavaScript's `Array.prototype.sort` does it. */
module Sorting {

  ghost predicate TotalPreorder<T(!new)>(leq: (T, T) -> bool) {
    && (forall a: T, b: T :: leq(a, b) || leq(b, a))
    && (forall a: T, b: T, c: T :: leq(a, b) && leq(b, c) ==> leq(a, c))
  }

  ghost predicate Sorted<T(!new)>(xs: seq<T>, leq: (T, T) -> bool) {
    forall i, j :: 0 <= i < j < |xs| ==> leq(xs[i], xs[j])
  }

  function Insert<T>(x: T, xs: seq<T>, leq: (T, T) -> bool): seq<T> {
    if xs == [] || leq(x, xs[0]) then [x] + xs else [xs[0]] + Insert(x, xs[1..], leq)
  }

  function Sort<T>(xs: seq<T>, leq: (T, T) -> bool): seq<T> {
    if xs == [] then [] else Insert(xs[0], Sort(xs[1..], leq), leq)
  }

  lemma {:induction false} InsertKeepsItems<T>(x: T, xs: seq<T>, leq: (T, T) -> bool)
    ensures multiset(Insert(x, xs, leq)) == multiset{x} + multiset(xs)
  {
    if xs == [] || leq(x, xs[0]) {
    } else {
      InsertKeepsItems(x, xs[1..], leq);
      assert xs == [xs[0]] + xs[1..];
    }
  }

  lemma {:induction false} SortKeepsItems<T>(xs: seq<T>, leq: (T, T) -> bool)
    ensures multiset(Sort(xs, leq)) == multiset(xs) && |Sort(xs, leq)| == |xs|
  {
    if xs != [] {
      SortKeepsItems(xs[1..], leq);
      InsertKeepsItems(xs[0], Sort(xs[1..], leq), leq);
      assert xs == [xs[0]] + xs[1..];
    }
    assert |multiset(Sort(xs, leq))| == |multiset(xs)|;
  }

  lemma SameItems<T>(a: seq<T>, b: seq<T>, x: T)
    requires multiset(a) == multiset(b)
    ensures x in a <==> x in b
  {
    assert x in a <==> x in multiset(a);
    assert x in b <==> x in multiset(b);
  }

  lemma {:induction false} InsertSorts<T(!new)>(x: T, xs: seq<T>, leq: (T, T) -> bool)
    requires TotalPreorder(leq) && Sorted(xs, leq)
    ensures Sorted(Insert(x, xs, leq), leq)
  {
    if xs == [] || leq(x, xs[0]) {
    } else {
      var rest := Insert(x, xs[1..], leq);
      InsertSorts(x, xs[1..], leq);
      InsertKeepsItems(x, xs[1..], leq);
      forall i | 0 <= i < |rest| ensures leq(xs[0], rest[i]) {
        SameItems(rest, [x] + xs[1..], rest[i]);
      }
    }
  }

  lemma {:induction false} SortSorts<T(!new)>(xs: seq<T>, leq: (T, T) -> bool)
    requires TotalPreorder(leq)
    ensures Sorted(Sort(xs, leq), leq)
  {
    if xs != [] {
      SortSorts(xs[1..], leq);
      InsertSorts(xs[0], Sort(xs[1..], leq), leq);
    }
  }

  /** A sorted list stays as it is. */
  lemma {:induction false} SortOfSorted<T(!new)>(xs: seq<T>, leq: (T, T) -> bool)
    requires Sorted(xs, leq)
    ensures Sort(xs, leq) == xs
  {
    if xs != [] {
      SortOfSorted(xs[1..], leq);
      assert |xs| > 1 ==> leq(xs[0], xs[1]);
      assert xs == [xs[0]] + xs[1..];
    }
  }

  lemma {:induction false} SortTwice<T(!new)>(xs: seq<T>, leq: (T, T) -> bool)
    requires TotalPreorder(leq)
    ensures Sort(Sort(xs, leq), leq) == Sort(xs, leq)
  {
    SortSorts(xs, leq);
    SortOfSorted(Sort(xs, leq), leq);
  }

  // ----- When the sorted form is unique ------------------------------------------------------

  /** Items that compare both ways are the same item. */
  ghost predicate TiesAreEqual<T(!new)>(xs: seq<T>, leq: (T, T) -> bool) {
    forall x, y :: x in xs && y in xs && leq(x, y) && leq(y, x) ==> x == y
  }

  lemma FirstIsUnique<T(!new)>(a: seq<T>, b: seq<T>, leq: (T, T) -> bool)
    requires TotalPreorder(leq) && Sorted(a, leq) && Sorted(b, leq) && multiset(a) == multiset(b)
    requires TiesAreEqual(a, leq) && a != [] && b != []
    ensures a[0] == b[0]
  {
    SameItems(a, b, a[0]);
    SameItems(a, b, b[0]);
    var i :| 0 <= i < |a| && a[i] == b[0];
    var j :| 0 <= j < |b| && b[j] == a[0];
    assert leq(a[0], a[0]) && leq(b[0], b[0]);
    assert leq(a[0], a[i]) && leq(b[0], b[j]);
  }

  lemma RestKeepsItems<T>(a: seq<T>, b: seq<T>)
    requires multiset(a) == multiset(b) && a != [] && b != [] && a[0] == b[0]
    ensures multiset(a[1..]) == multiset(b[1..])
  {
    assert a == [a[0]] + a[1..] && b == [b[0]] + b[1..];
    assert multiset(a[1..]) == multiset(a) - multiset{a[0]};
    assert multiset(b[1..]) == multiset(b) - multiset{b[0]};
  }

  lemma {:induction false} SortedUnique<T(!new)>(a: seq<T>, b: seq<T>, leq: (T, T) -> bool)
    requires TotalPreorder(leq) && Sorted(a, leq) && Sorted(b, leq) && multiset(a) == multiset(b)
    requires TiesAreEqual(a, leq)
    ensures a == b
  {
    assert |a| == |multiset(a)| == |multiset(b)| == |b|;
    if a != [] {
      FirstIsUnique(a, b, leq);
      RestKeepsItems(a, b);
      SortedUnique(a[1..], b[1..], leq);
      assert a == [a[0]] + a[1..] && b == [b[0]] + b[1..];
    }
  }

  lemma {:induction false} SortIgnoresArrangement<T(!new)>(a: seq<T>, b: seq<T>, leq: (T, T) -> bool)
    requires TotalPreorder(leq) && multiset(a) == multiset(b) && TiesAreEqual(a, leq)
    ensures Sort(a, leq) == Sort(b, leq)
  {
    SortKeepsItems(a, leq);
    SortKeepsItems(b, leq);
    SortSorts(a, leq);
    SortSorts(b, leq);
    forall x | x in Sort(a, leq) ensures x in a {
      SameItems(a, Sort(a, leq), x);
    }
    SortedUnique(Sort(a, leq), Sort(b, leq), leq);
  }

  /** Every arrangement of the items sorts to one list exactly when no two different items tie. */
  lemma {:induction false} SortIgnoresArrangementIff<T(!new)>(xs: seq<T>, leq: (T, T) -> bool)
    requires TotalPreorder(leq)
    ensures TiesAreEqual(xs, leq) <==> forall ys: seq<T> :: multiset(ys) == multiset(xs) ==> Sort(ys, leq) == Sort(xs, leq)
  {
    if TiesAreEqual(xs, leq) {
      forall ys: seq<T> | multiset(ys) == multiset(xs) ensures Sort(ys, leq) == Sort(xs, leq) {
        SortIgnoresArrangement(xs, ys, leq);
      }
    } else {
      var x, y :| x in xs && y in xs && leq(x, y) && leq(y, x) && x != y;
      var i :| 0 <= i < |xs| && xs[i] == x;
      var j :| 0 <= j < |xs| && xs[j] == y;
      var (low, high) := if i < j then (i, j) else (j, i);
      SwappedTieShows(xs, low, high, leq);
      assert Sort(xs[low := xs[high]][high := xs[low]], leq) != Sort(xs, leq);
    }
  }

  lemma SwappedTieShows<T(!new)>(xs: seq<T>, i: nat, j: nat, leq: (T, T) -> bool)
    requires TotalPreorder(leq) && i < j < |xs| && xs[i] != xs[j] && leq(xs[i], xs[j]) && leq(xs[j], xs[i])
    ensures var ys := xs[i := xs[j]][j := xs[i]]; multiset(ys) == multiset(xs) && Sort(ys, leq) != Sort(xs, leq)
  {
    var key := xs[i];
    var ys := xs[i := xs[j]][j := key];
    var tied := (y: T) => leq(y, key) && leq(key, y);
    SortIsStable(xs, key, leq);
    SortIsStable(ys, key, leq);
    assert leq(key, key);
    FilterAt(xs, i, tied);
    FilterAt(ys, i, tied);
    assert xs[..i] == ys[..i];
  }

  lemma {:induction false} FilterAt<T(!new)>(xs: seq<T>, i: nat, keep: T -> bool)
    requires i < |xs| && keep(xs[i])
    ensures |Filter(xs[..i], keep)| < |Filter(xs, keep)| && Filter(xs, keep)[|Filter(xs[..i], keep)|] == xs[i]
  {
    if i > 0 {
      FilterAt(xs[1..], i - 1, keep);
      assert xs[..i][1..] == xs[1..][..i - 1];
    }
  }

  // ----- Rearranging keeps items apart -------------------------------------------------------

  /** No two items at different places are related. */
  ghost predicate Apart<T(!new)>(xs: seq<T>, related: (T, T) -> bool) {
    forall i, j :: 0 <= i < j < |xs| ==> !related(xs[i], xs[j])
  }

  lemma ApartStays<T(!new)>(a: seq<T>, b: seq<T>, related: (T, T) -> bool)
    requires multiset(a) == multiset(b) && Apart(a, related)
    requires forall x: T, y: T :: related(x, x) && (related(x, y) ==> related(y, x))
    ensures Apart(b, related)
  {
    forall i, j | 0 <= i < j < |b| ensures !related(b[i], b[j]) {
      if related(b[i], b[j]) {
        SameItems(a, b, b[i]);
        SameItems(a, b, b[j]);
        var k :| 0 <= k < |a| && a[k] == b[i];
        var m :| 0 <= m < |a| && a[m] == b[j];
        assert k == m;
        Twice(b, i, j);
        OnlyOnce(a, k, related);
        assert false;
      }
    }
  }

  lemma Twice<T>(b: seq<T>, i: nat, j: nat)
    requires i < j < |b| && b[i] == b[j]
    ensures multiset(b)[b[i]] >= 2
  {
    assert b == b[..j] + [b[j]] + b[j + 1..];
    assert b[i] in multiset(b[..j]) by { assert b[i] == b[..j][i]; }
  }

  lemma OnlyOnce<T(!new)>(a: seq<T>, k: nat, related: (T, T) -> bool)
    requires k < |a| && Apart(a, related) && related(a[k], a[k])
    ensures multiset(a)[a[k]] == 1
  {
    assert a == a[..k] + [a[k]] + a[k + 1..];
    forall i | 0 <= i < |a| && i != k ensures a[i] != a[k] {
      if i < k { assert !related(a[i], a[k]); } else { assert !related(a[k], a[i]); }
    }
    assert a[k] !in a[..k] && a[k] !in a[k + 1..];
  }

  // ----- Stability --------------------------------------------------------------------------

  function Filter<T(!new)>(xs: seq<T>, keep: T -> bool): (r: seq<T>)
    ensures forall x :: x in r <==> x in xs && keep(x)
  {
    if xs == [] then []
    else
      assert xs == [xs[0]] + xs[1..];
      (if keep(xs[0]) then [xs[0]] else []) + Filter(xs[1..], keep)
  }

  /** Items that tie with `key` keep their order. */
  lemma {:induction false} SortIsStable<T(!new)>(xs: seq<T>, key: T, leq: (T, T) -> bool)
    requires TotalPreorder(leq)
    ensures Filter(Sort(xs, leq), x => leq(x, key) && leq(key, x)) == Filter(xs, x => leq(x, key) && leq(key, x))
  {
    if xs != [] {
      SortIsStable(xs[1..], key, leq);
      SortSorts(xs[1..], leq);
      InsertIsStable(xs[0], Sort(xs[1..], leq), key, leq);
    }
  }

  lemma {:induction false} InsertIsStable<T(!new)>(x: T, xs: seq<T>, key: T, leq: (T, T) -> bool)
    requires TotalPreorder(leq) && Sorted(xs, leq)
    ensures var tied := (y: T) => leq(y, key) && leq(key, y);
      Filter(Insert(x, xs, leq), tied) == (if tied(x) then [x] else []) + Filter(xs, tied)
  {
    var tied := (y: T) => leq(y, key) && leq(key, y);
    if xs == [] || leq(x, xs[0]) {
      FilterCons(x, xs, tied);
    } else {
      InsertIsStable(x, xs[1..], key, leq);
      FilterCons(xs[0], Insert(x, xs[1..], leq), tied);
      FilterCons(xs[0], xs[1..], tied);
      assert xs == [xs[0]] + xs[1..];
      assert !(tied(x) && tied(xs[0]));
    }
  }

  lemma {:induction false} FilterCons<T(!new)>(x: T, xs: seq<T>, keep: T -> bool)
    ensures Filter([x] + xs, keep) == (if keep(x) then [x] else []) + Filter(xs, keep)
  {
    assert ([x] + xs)[1..] == xs;
  }

  // ----- Mapping a rearranged list ------------------------------------------------------------

  function Mapped<T, U>(xs: seq<T>, f: T -> U): (r: seq<U>)
    ensures |r| == |xs| && forall i :: 0 <= i < |xs| ==> r[i] == f(xs[i])
  {
    if xs == [] then [] else [f(xs[0])] + Mapped(xs[1..], f)
  }

  lemma {:induction false} MappedItems<T, U>(a: seq<T>, b: seq<T>, f: T -> U)
    requires multiset(a) == multiset(b)
    ensures multiset(Mapped(a, f)) == multiset(Mapped(b, f))
    decreases a
  {
    assert |a| == |multiset(a)| == |multiset(b)| == |b|;
    if a != [] {
      SameItems(a, b, a[0]);
      var i :| 0 <= i < |b| && b[i] == a[0];
      WithoutOne(a, b, i);
      MappedItems(a[1..], b[..i] + b[i + 1..], f);
      MappedWithout(b, i, f);
      assert Mapped(a, f) == [f(a[0])] + Mapped(a[1..], f);
    }
  }

  lemma WithoutOne<T>(a: seq<T>, b: seq<T>, i: nat)
    requires a != [] && i < |b| && b[i] == a[0] && multiset(a) == multiset(b)
    ensures multiset(a[1..]) == multiset(b[..i] + b[i + 1..])
  {
    assert a == [a[0]] + a[1..] && b == b[..i] + [b[i]] + b[i + 1..];
    assert multiset(a[1..]) == multiset(a) - multiset{a[0]};
  }

  lemma {:induction false} MappedConcat<T, U>(a: seq<T>, b: seq<T>, f: T -> U)
    ensures Mapped(a + b, f) == Mapped(a, f) + Mapped(b, f)
  {
  }

  lemma {:induction false} MappedWithout<T, U>(b: seq<T>, i: nat, f: T -> U)
    requires i < |b|
    ensures multiset(Mapped(b, f)) == multiset{f(b[i])} + multiset(Mapped(b[..i] + b[i + 1..], f))
  {
    var front, one, back := b[..i], [b[i]], b[i + 1..];
    assert b == (front + one) + back;
    MappedConcat(front + one, back, f);
    MappedConcat(front, one, f);
    MappedConcat(front, back, f);
    assert Mapped(one, f) == [f(b[i])];
  }
}
