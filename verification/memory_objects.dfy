/** The memory object store: a map in insertion order with an upper bound on its size. */
module MemoryObjects {
  import Sorting
  import opened Paging

  /** `matchesPrefix`. */
  predicate MatchesPrefix(key: Key, prefix: Option<Key>) {
    prefix == None || key == prefix.value || prefix.value + "/" <= key
  }

  /** A prefix matches itself and what lies below it, after a slash. */
  lemma {:induction false} MatchesPrefixIff(key: Key, prefix: Key)
    ensures MatchesPrefix(key, None)
    ensures MatchesPrefix(key, Some(prefix)) <==>
      key == prefix || (|key| > |prefix| && key[..|prefix|] == prefix && key[|prefix|] == '/')
  {
    if |key| > |prefix| && key[..|prefix|] == prefix && key[|prefix|] == '/' {
      assert prefix + "/" == key[..|prefix| + 1];
    }
  }

  function Keys<O>(objects: seq<(Key, O)>): (r: seq<Key>)
    ensures |r| == |objects| && forall i :: 0 <= i < |r| ==> r[i] == objects[i].0
  {
    Sorting.Mapped(objects, (p: (Key, O)) => p.0)
  }

  function Without<O>(objects: seq<(Key, O)>, key: Key): (r: seq<(Key, O)>)
    ensures |r| <= |objects|
  {
    if objects == [] then []
    else (if objects[0].0 == key then [] else [objects[0]]) + Without(objects[1..], key)
  }

  function Newest<O>(objects: seq<(Key, O)>, max: Option<nat>): seq<(Key, O)> {
    if max.Some? && |objects| > max.value then objects[|objects| - max.value..] else objects
  }

  /** The matching keys in order. */
  function View<O>(objects: seq<(Key, O)>, prefix: Option<Key>, leq: Order): seq<Key> {
    Sorting.Sort(Sorting.Filter(Keys(objects), k => MatchesPrefix(k, prefix)), leq)
  }

  ghost predicate Distinct<O>(objects: seq<(Key, O)>) {
    forall i, j :: 0 <= i < j < |objects| ==> objects[i].0 != objects[j].0
  }

  lemma {:induction false} WithoutHas<O>(objects: seq<(Key, O)>, key: Key, p: (Key, O))
    ensures p in Without(objects, key) <==> p in objects && p.0 != key
  {
    if objects != [] {
      WithoutHas(objects[1..], key, p);
      assert objects == [objects[0]] + objects[1..];
    }
  }

  lemma {:induction false} WithoutStaysDistinct<O>(objects: seq<(Key, O)>, key: Key)
    requires Distinct(objects)
    ensures Distinct(Without(objects, key))
  {
    if objects != [] {
      var first, rest := objects[0], objects[1..];
      WithoutStaysDistinct(rest, key);
      var kept := Without(rest, key);
      forall i | 0 <= i < |kept| ensures kept[i].0 != first.0 {
        WithoutHas(rest, key, kept[i]);
        var j :| 0 <= j < |rest| && rest[j] == kept[i];
        assert objects[j + 1] == kept[i];
      }
    }
  }

  /** Deleting a key leaves the other entries, in order. */
  lemma {:induction false} WithoutIs<O>(objects: seq<(Key, O)>, key: Key)
    requires Distinct(objects)
    ensures Distinct(Without(objects, key)) && key !in Keys(Without(objects, key))
  {
    var kept := Without(objects, key);
    WithoutStaysDistinct(objects, key);
    forall i | 0 <= i < |kept| ensures Keys(kept)[i] != key {
      WithoutHas(objects, key, kept[i]);
    }
  }

  /** What the store lists is strictly increasing: each matching key once. */
  lemma {:induction false} ViewIncreases<O>(objects: seq<(Key, O)>, prefix: Option<Key>, leq: Order)
    requires TotalOrder(leq) && Distinct(objects)
    ensures Increasing(View(objects, prefix, leq), leq)
    ensures forall k :: k in View(objects, prefix, leq) <==> k in Keys(objects) && MatchesPrefix(k, prefix)
  {
    var matching := Sorting.Filter(Keys(objects), k => MatchesPrefix(k, prefix));
    var view := View(objects, prefix, leq);
    var same := (x: Key, y: Key) => x == y;
    FilterApart(Keys(objects), k => MatchesPrefix(k, prefix));
    Sorting.SortKeepsItems(matching, leq);
    Sorting.SortSorts(matching, leq);
    Sorting.ApartStays(matching, view, same);
    forall i, j | 0 <= i < j < |view| ensures Less(view[i], view[j], leq) {
      assert !same(view[i], view[j]);
    }
    forall k ensures k in view <==> k in matching {
      Sorting.SameItems(view, matching, k);
    }
  }

  lemma {:induction false} FilterApart(keys: seq<Key>, keep: Key -> bool)
    requires forall i, j :: 0 <= i < j < |keys| ==> keys[i] != keys[j]
    ensures Sorting.Apart(Sorting.Filter(keys, keep), (x: Key, y: Key) => x == y)
  {
    if keys != [] {
      FilterApart(keys[1..], keep);
      var rest := Sorting.Filter(keys[1..], keep);
      var same := (x: Key, y: Key) => x == y;
      forall i | 0 <= i < |rest| ensures !same(keys[0], rest[i]) {
        assert rest[i] in keys[1..];
      }
      var all := Sorting.Filter(keys, keep);
      forall i, j | 0 <= i < j < |all| ensures !same(all[i], all[j]) {
        if keep(keys[0]) {
          assert all == [keys[0]] + rest;
          assert i > 0 ==> !same(rest[i - 1], rest[j - 1]);
        } else {
          assert all == rest;
        }
      }
    }
  }

  lemma {:induction false} DistinctSnoc<O>(objects: seq<(Key, O)>, key: Key, blob: O)
    requires Distinct(objects) && key !in Keys(objects)
    ensures Distinct(objects + [(key, blob)])
  {
    forall i | 0 <= i < |objects| ensures objects[i].0 != key {
      assert Keys(objects)[i] in Keys(objects);
    }
  }

  class Store<O> {
    var objects: seq<(Key, O)>
    const max: Option<nat>
    const leq: Order

    constructor (max: Option<nat>, leq: Order)
      ensures objects == [] && this.max == max && this.leq == leq && Valid()
    {
      objects := [];
      this.max, this.leq := max, leq;
    }

    ghost predicate Valid()
      reads this
    {
      Distinct(objects)
    }

    /** `evictOldestObjects`. */
    method Evict()
      requires Valid()
      modifies `objects
      ensures Valid() && objects == Newest(old(objects), max)
    {
      if max.None? {
        return;
      }
      ghost var all, dropped := objects, 0;
      while |objects| > max.value
        invariant dropped <= |all| && objects == all[dropped..]
        invariant dropped > 0 ==> |objects| >= max.value
      {
        objects := objects[1..];
        dropped := dropped + 1;
      }
    }

    /** A key that is written again becomes the newest; the oldest are dropped over the bound. */
    method Put(key: Key, blob: O)
      requires Valid()
      modifies `objects
      ensures Valid()
      ensures objects == Newest(Without(old(objects), key) + [(key, blob)], max)
    {
      WithoutIs(objects, key);
      DistinctSnoc(Without(objects, key), key, blob);
      objects := Without(objects, key) + [(key, blob)];
      Evict();
    }

    method Delete(key: Key) returns (found: bool)
      requires Valid()
      modifies `objects
      ensures Valid() && objects == Without(old(objects), key)
      ensures found <==> key in Keys(old(objects))
    {
      WithoutIs(objects, key);
      found := key in Keys(objects);
      objects := Without(objects, key);
    }

    /** `list`: the next page of the matching keys in order. */
    method List(prefix: Option<Key>, cursor: Option<Key>, limit: Option<nat>) returns (page: Page)
      requires Valid() && TotalOrder(leq)
      ensures page == StoragePage(View(objects, prefix, leq), cursor, limit, leq)
      ensures Increasing(View(objects, prefix, leq), leq)
    {
      ViewIncreases(objects, prefix, leq);
      var keys := View(objects, prefix, leq);
      var start := StartIndex(keys, cursor, leq);
      var available := keys[start..];
      var selected := if limit.Some? && limit.value < |available| then available[..limit.value] else available;
      page := Page(selected, if limit.Some? && limit.value < |available| then Some(available[limit.value]) else None);
    }
  }
}
