/**
 Listing by cursor: one page of a memory object store and of the PostgreSQL job list, and what a
 caller collects who follows the cursors to the end while entries come and go between the pages.
 Keys are compared by `leq`, a total order of strings (UTF-16 code units for the object store, the
 column's collation for job ids).
 */
module Paging {
  import Sorting

  datatype Option<T> = None | Some(value: T)

  type Key = string

  type Order = (Key, Key) -> bool

  ghost predicate TotalOrder(leq: Order) {
    Sorting.TotalPreorder(leq) && forall a: Key, b: Key :: leq(a, b) && leq(b, a) ==> a == b
  }

  predicate Less(a: Key, b: Key, leq: Order) {
    a != b && leq(a, b)
  }

  ghost predicate Increasing(keys: seq<Key>, leq: Order) {
    forall i, j :: 0 <= i < j < |keys| ==> Less(keys[i], keys[j], leq)
  }

  datatype Page = Page(keys: seq<Key>, cursor: Option<Key>)

  function Take(keys: seq<Key>, limit: Option<nat>): seq<Key> {
    if limit.Some? && limit.value < |keys| then keys[..limit.value] else keys
  }

  // ----- The object store: the cursor is the first key not returned ---------------------------------

  /** The place of the first key that satisfies `p`, or the end. */
  function FirstWhere(keys: seq<Key>, p: Key -> bool): (i: nat)
    ensures i <= |keys| && (i < |keys| ==> p(keys[i]))
    ensures forall j :: 0 <= j < i ==> !p(keys[j])
  {
    if keys == [] || p(keys[0]) then 0
    else
      assert keys == [keys[0]] + keys[1..];
      1 + FirstWhere(keys[1..], p)
  }

  function StartIndex(keys: seq<Key>, cursor: Option<Key>, leq: Order): (i: nat)
    ensures i <= |keys|
  {
    if cursor == None then 0
    else if cursor.value in keys then FirstWhere(keys, k => k == cursor.value)
    else FirstWhere(keys, k => Less(cursor.value, k, leq))
  }

  function StoragePage(keys: seq<Key>, cursor: Option<Key>, limit: Option<nat>, leq: Order): Page {
    var available := keys[StartIndex(keys, cursor, leq)..];
    Page(Take(available, limit),
         if limit.Some? && limit.value < |available| then Some(available[limit.value]) else None)
  }

  // ----- The job list: the cursor is the last key returned -------------------------------------------

  function AfterCursor(keys: seq<Key>, cursor: Option<Key>, leq: Order): seq<Key> {
    Sorting.Filter(keys, k => cursor == None || Less(cursor.value, k, leq))
  }

  function JobPage(keys: seq<Key>, cursor: Option<Key>, limit: nat, leq: Order): Page {
    var after := AfterCursor(keys, cursor, leq);
    var rows := Take(after, Some(limit + 1));
    var jobs := Take(rows, Some(limit));
    Page(jobs, if |rows| > limit && jobs != [] then Some(jobs[|jobs| - 1]) else None)
  }

  // ----- What both have in common ----------------------------------------------------------------------

  /** How a cursor continues: from the key itself (object store) or behind it (job list). */
  datatype Kind = FromCursor | BehindCursor

  predicate Ahead(kind: Kind, cursor: Option<Key>, k: Key, leq: Order) {
    cursor == None || (if kind == FromCursor then leq(cursor.value, k) else Less(cursor.value, k, leq))
  }

  function PageOf(kind: Kind, keys: seq<Key>, cursor: Option<Key>, limit: nat, leq: Order): Page {
    if kind == FromCursor then StoragePage(keys, cursor, Some(limit), leq) else JobPage(keys, cursor, limit, leq)
  }

  /** A page is the next keys in order; what is ahead of it is ahead of the new cursor. */
  ghost predicate IsPage(kind: Kind, keys: seq<Key>, cursor: Option<Key>, page: Page, leq: Order) {
    && Increasing(page.keys, leq)
    && (forall k :: k in page.keys ==> k in keys && Ahead(kind, cursor, k, leq))
    && (page.cursor == None ==> forall k :: k in keys && Ahead(kind, cursor, k, leq) ==> k in page.keys)
    && (page.cursor.Some? ==>
          && (forall k :: k in keys && Ahead(kind, cursor, k, leq) ==> k in page.keys || Ahead(kind, page.cursor, k, leq))
          && (forall k, later :: k in page.keys && Ahead(kind, page.cursor, later, leq) ==> Less(k, later, leq))
          && (forall later :: Ahead(kind, page.cursor, later, leq) ==> Ahead(kind, cursor, later, leq)))
  }

  lemma {:induction false} StartIndexIsAhead(keys: seq<Key>, cursor: Option<Key>, leq: Order)
    requires TotalOrder(leq) && Increasing(keys, leq)
    ensures var start := StartIndex(keys, cursor, leq);
      forall i :: 0 <= i < |keys| ==> (start <= i <==> Ahead(FromCursor, cursor, keys[i], leq))
  {
    if cursor.Some? {
      var c, start := cursor.value, StartIndex(keys, cursor, leq);
      forall i | 0 <= i < |keys| ensures start <= i <==> leq(c, keys[i]) {
        assert leq(c, keys[i]) || leq(keys[i], c);
        if c in keys {
          assert start < |keys|;
          if start < i { assert Less(keys[start], keys[i], leq); }
          if i < start { assert Less(keys[i], keys[start], leq); }
        } else {
          if start < i { assert Less(keys[start], keys[i], leq); }
          if i < start { assert !Less(c, keys[i], leq); }
        }
      }
    }
  }

  lemma {:induction false} StoragePageIsPage(keys: seq<Key>, cursor: Option<Key>, limit: nat, leq: Order)
    requires TotalOrder(leq) && Increasing(keys, leq) && limit > 0
    ensures IsPage(FromCursor, keys, cursor, StoragePage(keys, cursor, Some(limit), leq), leq)
  {
    var start := StartIndex(keys, cursor, leq);
    StartIndexIsAhead(keys, cursor, leq);
    if |keys| - start > limit {
      FullStoragePage(keys, cursor, start, limit, leq);
    } else {
      var page := keys[start..];
      assert forall i :: 0 <= i < |page| ==> page[i] == keys[start + i];
      forall k | k in keys && Ahead(FromCursor, cursor, k, leq) ensures k in page {
        var i :| 0 <= i < |keys| && keys[i] == k;
        assert page[i - start] == k;
      }
    }
  }

  lemma {:induction false} FullStoragePage(keys: seq<Key>, cursor: Option<Key>, start: nat, limit: nat, leq: Order)
    requires TotalOrder(leq) && Increasing(keys, leq) && 0 < limit && start + limit < |keys|
    requires forall i :: 0 <= i < |keys| ==> (start <= i <==> Ahead(FromCursor, cursor, keys[i], leq))
    ensures IsPage(FromCursor, keys, cursor, Page(keys[start..][..limit], Some(keys[start + limit])), leq)
  {
    var front, next := keys[start..][..limit], keys[start + limit];
    assert forall i :: 0 <= i < limit ==> front[i] == keys[start + i];
    forall k | k in keys && Ahead(FromCursor, cursor, k, leq) ensures k in front || leq(next, k) {
      var i :| 0 <= i < |keys| && keys[i] == k;
      if i - start < limit {
        assert front[i - start] == k;
      } else {
        assert leq(k, k);
        assert start + limit < i ==> Less(keys[start + limit], keys[i], leq);
      }
    }
    forall k, later | k in front && leq(next, later) ensures Less(k, later, leq) {
      var i :| 0 <= i < limit && front[i] == k;
      assert Less(keys[start + i], keys[start + limit], leq);
      assert leq(k, later);
    }
    forall later | leq(next, later) ensures Ahead(FromCursor, cursor, later, leq) {
      assert Ahead(FromCursor, cursor, next, leq);
    }
  }

  lemma {:induction false} FilterIncreasing(keys: seq<Key>, keep: Key -> bool, leq: Order)
    requires Increasing(keys, leq)
    ensures Increasing(Sorting.Filter(keys, keep), leq)
  {
    if keys != [] {
      var rest := Sorting.Filter(keys[1..], keep);
      FilterIncreasing(keys[1..], keep, leq);
      forall i | 0 <= i < |rest| ensures Less(keys[0], rest[i], leq) {
        assert rest[i] in keys[1..];
        var j :| 0 <= j < |keys| - 1 && keys[1..][j] == rest[i];
        assert keys[j + 1] == rest[i];
      }
    }
  }

  /** The first `limit` of increasing keys, and what is behind the last of them. */
  lemma {:induction false} FrontAndBehind(keys: seq<Key>, limit: nat, leq: Order)
    requires TotalOrder(leq) && Increasing(keys, leq) && 0 < limit < |keys|
    ensures var front, last := keys[..limit], keys[limit - 1];
      && Increasing(front, leq) && last in keys
      && (forall k :: k in keys ==> k in front || Less(last, k, leq))
      && (forall k, later :: k in front && Less(last, later, leq) ==> Less(k, later, leq))
  {
    var front, last := keys[..limit], keys[limit - 1];
    forall k | k in keys ensures k in front || Less(last, k, leq) {
      var i :| 0 <= i < |keys| && keys[i] == k;
      if i < limit { assert front[i] == k; } else { assert Less(keys[limit - 1], keys[i], leq); }
    }
    forall k, later | k in front && Less(last, later, leq) ensures Less(k, later, leq) {
      var i :| 0 <= i < limit && front[i] == k;
      assert k == last || Less(keys[i], keys[limit - 1], leq);
      assert leq(k, later);
    }
  }

  lemma {:induction false} BehindIsAhead(cursor: Option<Key>, last: Key, later: Key, leq: Order)
    requires TotalOrder(leq) && Ahead(BehindCursor, cursor, last, leq) && Less(last, later, leq)
    ensures Ahead(BehindCursor, cursor, later, leq)
  {
    if cursor.Some? {
      var c := cursor.value;
      assert leq(last, c) ==> last == c;
      assert leq(c, last) && leq(last, later);
    }
  }

  /** `after` holds exactly the keys ahead of the cursor. */
  ghost predicate HoldsAhead(keys: seq<Key>, cursor: Option<Key>, after: seq<Key>, leq: Order) {
    Increasing(after, leq) && forall k :: k in after <==> k in keys && Ahead(BehindCursor, cursor, k, leq)
  }

  lemma {:induction false} FullJobPage(keys: seq<Key>, cursor: Option<Key>, after: seq<Key>, limit: nat, leq: Order)
    requires TotalOrder(leq) && HoldsAhead(keys, cursor, after, leq) && 0 < limit < |after|
    ensures IsPage(BehindCursor, keys, cursor, Page(after[..limit], Some(after[limit - 1])), leq)
  {
    var last, front := after[limit - 1], after[..limit];
    FrontAndBehind(after, limit, leq);
    assert last in after;
    forall later | Less(last, later, leq) ensures Ahead(BehindCursor, cursor, later, leq) {
      BehindIsAhead(cursor, last, later, leq);
    }
    forall k | k in front ensures k in after {
      var i :| 0 <= i < limit && front[i] == k;
      assert after[i] == k;
    }
  }

  lemma {:induction false} JobPageIsPage(keys: seq<Key>, cursor: Option<Key>, limit: nat, leq: Order)
    requires TotalOrder(leq) && Increasing(keys, leq) && limit > 0
    ensures IsPage(BehindCursor, keys, cursor, JobPage(keys, cursor, limit, leq), leq)
  {
    var after := AfterCursor(keys, cursor, leq);
    FilterIncreasing(keys, k => cursor == None || Less(cursor.value, k, leq), leq);
    assert HoldsAhead(keys, cursor, after, leq);
    JobPageShape(keys, cursor, limit, leq);
    if |after| > limit {
      FullJobPage(keys, cursor, after, limit, leq);
    }
  }

  lemma {:induction false} JobPageShape(keys: seq<Key>, cursor: Option<Key>, limit: nat, leq: Order)
    requires limit > 0
    ensures var after := AfterCursor(keys, cursor, leq);
      JobPage(keys, cursor, limit, leq)
        == if |after| > limit then Page(after[..limit], Some(after[limit - 1])) else Page(after, None)
  {
    var after := AfterCursor(keys, cursor, leq);
    if |after| > limit + 1 {
      assert after[..limit + 1][..limit] == after[..limit];
    }
  }

  // ----- Following the cursors -------------------------------------------------------------------------

  /** What is collected: page i is taken from `views[i]`, the keys that match at that moment, in order. */
  function Collect(kind: Kind, views: seq<seq<Key>>, cursor: Option<Key>, limit: nat, leq: Order): seq<Key>
    decreases views
  {
    if views == [] then []
    else
      var page := PageOf(kind, views[0], cursor, limit, leq);
      page.keys + (if page.cursor == None then [] else Collect(kind, views[1..], page.cursor, limit, leq))
  }

  /** The views are as many as the pages: the last page, and no earlier one, has no cursor. */
  predicate Ends(kind: Kind, views: seq<seq<Key>>, cursor: Option<Key>, limit: nat, leq: Order)
    decreases views
  {
    views != []
    && var page := PageOf(kind, views[0], cursor, limit, leq);
       if page.cursor == None then |views| == 1 else Ends(kind, views[1..], page.cursor, limit, leq)
  }

  lemma {:induction false} CollectFrom(kind: Kind, views: seq<seq<Key>>, cursor: Option<Key>, limit: nat, leq: Order)
    requires TotalOrder(leq) && limit > 0 && Ends(kind, views, cursor, limit, leq)
    requires forall i :: 0 <= i < |views| ==> Increasing(views[i], leq)
    ensures var all := Collect(kind, views, cursor, limit, leq);
      && Increasing(all, leq)
      && (forall k :: k in all ==> Ahead(kind, cursor, k, leq) && exists i :: 0 <= i < |views| && k in views[i])
      && (forall k :: Ahead(kind, cursor, k, leq) && (forall i :: 0 <= i < |views| ==> k in views[i]) ==> k in all)
    decreases views
  {
    var page, all := PageOf(kind, views[0], cursor, limit, leq), Collect(kind, views, cursor, limit, leq);
    if kind == FromCursor {
      StoragePageIsPage(views[0], cursor, limit, leq);
    } else {
      JobPageIsPage(views[0], cursor, limit, leq);
    }
    if page.cursor == None {
      assert all == page.keys;
    } else {
      var more := views[1..];
      assert forall i :: 0 <= i < |more| ==> more[i] == views[i + 1];
      CollectFrom(kind, more, page.cursor, limit, leq);
      var rest := Collect(kind, more, page.cursor, limit, leq);
      JoinIncreasing(page.keys, rest, leq);
      forall k | k in all ensures Ahead(kind, cursor, k, leq) && exists i :: 0 <= i < |views| && k in views[i] {
        if k in page.keys {
          assert k in views[0];
        } else {
          assert k in rest;
          var i :| 0 <= i < |more| && k in more[i];
          assert k in views[i + 1];
        }
      }
    }
  }

  lemma {:induction false} JoinIncreasing(a: seq<Key>, b: seq<Key>, leq: Order)
    requires Increasing(a, leq) && Increasing(b, leq)
    requires forall x, y :: x in a && y in b ==> Less(x, y, leq)
    ensures Increasing(a + b, leq)
  {
    forall i, j | 0 <= i < j < |a + b| ensures Less((a + b)[i], (a + b)[j], leq) {
      if i < |a| <= j {
        assert a[i] in a && b[j - |a|] in b;
      }
    }
  }

  /**
   Whatever comes and goes between the pages, a caller who follows the cursors to the end gets the
   keys in increasing order, hence none twice; only keys that matched when their page was read;
   and every key that matched throughout.
   */
  lemma {:induction false} PagingIsComplete(kind: Kind, views: seq<seq<Key>>, limit: nat, leq: Order)
    requires TotalOrder(leq) && limit > 0 && Ends(kind, views, None, limit, leq)
    requires forall i :: 0 <= i < |views| ==> Increasing(views[i], leq)
    ensures var all := Collect(kind, views, None, limit, leq);
      && Increasing(all, leq)
      && (forall k :: k in all ==> exists i :: 0 <= i < |views| && k in views[i])
      && (forall k :: (forall i :: 0 <= i < |views| ==> k in views[i]) ==> k in all)
  {
    CollectFrom(kind, views, None, limit, leq);
  }

  /** With nothing changing, the pages are exactly all keys in order. */
  lemma {:induction false} QuietPagingListsAll(kind: Kind, views: seq<seq<Key>>, keys: seq<Key>, limit: nat, leq: Order)
    requires TotalOrder(leq) && limit > 0 && Ends(kind, views, None, limit, leq)
    requires Increasing(keys, leq) && forall i :: 0 <= i < |views| ==> views[i] == keys
    ensures Collect(kind, views, None, limit, leq) == keys
  {
    PagingIsComplete(kind, views, limit, leq);
    var all := Collect(kind, views, None, limit, leq);
    assert views[0] == keys;
    forall k ensures k in all <==> k in keys {
    }
    IncreasingUnique(all, keys, leq);
  }

  lemma {:induction false} IncreasingUnique(a: seq<Key>, b: seq<Key>, leq: Order)
    requires TotalOrder(leq) && Increasing(a, leq) && Increasing(b, leq) && forall k :: k in a <==> k in b
    ensures a == b
  {
    forall k ensures multiset(a)[k] == multiset(b)[k] {
      OnceInIncreasing(a, k, leq);
      OnceInIncreasing(b, k, leq);
    }
    assert multiset(a) == multiset(b);
    Sorting.SortedUnique(a, b, leq);
  }

  lemma {:induction false} OnceInIncreasing(a: seq<Key>, k: Key, leq: Order)
    requires Increasing(a, leq)
    ensures multiset(a)[k] == if k in a then 1 else 0
  {
    if k in a {
      var i :| 0 <= i < |a| && a[i] == k;
      var same := (x: Key, y: Key) => x == y;
      assert Sorting.Apart(a, same) by {
        forall i, j | 0 <= i < j < |a| ensures !same(a[i], a[j]) {
          assert Less(a[i], a[j], leq);
        }
      }
      Sorting.OnlyOnce(a, i, same);
    }
  }

  // ----- Paging ends -----------------------------------------------------------------------------------

  /** A page holds at most `limit` keys, and exactly so many if there is a cursor. */
  lemma {:induction false} PageSize(kind: Kind, keys: seq<Key>, cursor: Option<Key>, limit: nat, leq: Order)
    requires limit > 0
    ensures var page := PageOf(kind, keys, cursor, limit, leq);
      |page.keys| <= limit && (page.cursor.Some? ==> |page.keys| == limit)
  {
    if kind == BehindCursor {
      JobPageShape(keys, cursor, limit, leq);
    }
  }

  ghost function AheadKeys(kind: Kind, keys: seq<Key>, cursor: Option<Key>, leq: Order): set<Key> {
    set k | k in keys && Ahead(kind, cursor, k, leq)
  }

  /** While nothing changes, following the cursors comes to an end. */
  lemma {:induction false} QuietPagingEnds(kind: Kind, keys: seq<Key>, cursor: Option<Key>, limit: nat, leq: Order)
    returns (views: seq<seq<Key>>)
    requires TotalOrder(leq) && Increasing(keys, leq) && limit > 0
    ensures Ends(kind, views, cursor, limit, leq)
    ensures |views| <= |AheadKeys(kind, keys, cursor, leq)| + 1 && forall i :: 0 <= i < |views| ==> views[i] == keys
    decreases |AheadKeys(kind, keys, cursor, leq)|
  {
    var page := PageOf(kind, keys, cursor, limit, leq);
    views := [keys];
    if page.cursor.Some? {
      var ahead, later := AheadKeys(kind, keys, cursor, leq), AheadKeys(kind, keys, page.cursor, leq);
      PageLeavesFewer(kind, keys, cursor, limit, leq);
      var rest := QuietPagingEnds(kind, keys, page.cursor, limit, leq);
      views := [keys] + rest;
      assert views[1..] == rest;
    }
  }

  lemma {:induction false} PageLeavesFewer(kind: Kind, keys: seq<Key>, cursor: Option<Key>, limit: nat, leq: Order)
    requires TotalOrder(leq) && Increasing(keys, leq) && limit > 0
    requires PageOf(kind, keys, cursor, limit, leq).cursor.Some?
    ensures |AheadKeys(kind, keys, PageOf(kind, keys, cursor, limit, leq).cursor, leq)| < |AheadKeys(kind, keys, cursor, leq)|
  {
    var page := PageOf(kind, keys, cursor, limit, leq);
    PageSize(kind, keys, cursor, limit, leq);
    if kind == FromCursor {
      StoragePageIsPage(keys, cursor, limit, leq);
    } else {
      JobPageIsPage(keys, cursor, limit, leq);
    }
    var first := page.keys[0];
    assert first in page.keys;
    assert !Less(first, first, leq);
    var ahead, later := AheadKeys(kind, keys, cursor, leq), AheadKeys(kind, keys, page.cursor, leq);
    assert first in ahead && first !in later;
    assert later <= ahead - {first};
    Fewer(later, ahead - {first});
  }

  lemma {:induction false} Fewer<T>(a: set<T>, b: set<T>)
    requires a <= b
    ensures |a| <= |b|
  {
    assert b == a + (b - a);
  }
}
