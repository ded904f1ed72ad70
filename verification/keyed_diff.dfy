/**
 Differences between two lists of keyed items, as the schema package computes them for tables
 (by schema and name) and for columns (by name): what is new, what is gone, and what is in both
 with another value.
 */
module KeyedDiff {

  datatype Delta<T> = Delta(added: seq<T>, removed: seq<T>, changed: seq<(T, T)>)

  /** A JavaScript Map filled from the list: the last item of a key counts. */
  function Index<T>(items: seq<T>, key: T -> string): (m: map<string, T>)
    ensures forall k :: k in m <==> HasKey(items, key, k)
    ensures forall k :: k in m ==> m[k] in items && key(m[k]) == k
  {
    if items == [] then map[]
    else
      var last := items[|items| - 1];
      Index(items[..|items| - 1], key)[key(last) := last]
  }

  predicate HasKey<T>(items: seq<T>, key: T -> string, k: string) {
    exists i :: 0 <= i < |items| && key(items[i]) == k
  }

  /** The items of `from` whose key is not in `other`. */
  function Only<T>(items: seq<T>, other: map<string, T>, key: T -> string): (r: seq<T>)
  {
    if items == [] then []
    else
      var last := items[|items| - 1];
      Only(items[..|items| - 1], other, key) + (if key(last) in other then [] else [last])
  }

  function Changed<T(==)>(items: seq<T>, other: map<string, T>, key: T -> string): (r: seq<(T, T)>)
  {
    if items == [] then []
    else
      var last := items[|items| - 1];
      Changed(items[..|items| - 1], other, key)
      + (if key(last) in other && other[key(last)] != last then [(last, other[key(last)])] else [])
  }

  function Diff<T(==)>(from: seq<T>, to: seq<T>, key: T -> string): Delta<T> {
    Delta(Only(to, Index(from, key), key), Only(from, Index(to, key), key), Changed(from, Index(to, key), key))
  }

  /** The first loop of `diffColumns` and of `diffSchemaSnapshots`: what only one side has. */
  method ComputeOnly<T(==)>(items: seq<T>, other: map<string, T>, key: T -> string) returns (only: seq<T>)
    ensures only == Only(items, other, key)
  {
    only := [];
    for i := 0 to |items|
      invariant only == Only(items[..i], other, key)
    {
      assert items[..i + 1][..i] == items[..i];
      if key(items[i]) !in other {
        only := only + [items[i]];
      }
    }
    assert items[..|items|] == items;
  }

  /** Their second loop: what is gone, and what has another value now. */
  method ComputeChanges<T(==)>(items: seq<T>, other: map<string, T>, key: T -> string)
    returns (removed: seq<T>, changed: seq<(T, T)>)
    ensures removed == Only(items, other, key) && changed == Changed(items, other, key)
  {
    removed, changed := [], [];
    for i := 0 to |items|
      invariant removed == Only(items[..i], other, key)
      invariant changed == Changed(items[..i], other, key)
    {
      assert items[..i + 1][..i] == items[..i];
      var item := items[i];
      if key(item) !in other {
        removed := removed + [item];
      } else if item != other[key(item)] {
        changed := changed + [(item, other[key(item)])];
      }
    }
    assert items[..|items|] == items;
  }

  method ComputeDiff<T(==)>(from: seq<T>, to: seq<T>, key: T -> string) returns (delta: Delta<T>)
    ensures delta == Diff(from, to, key)
  {
    var fromByKey := ComputeIndex(from, key);
    var toByKey := ComputeIndex(to, key);
    var added := ComputeOnly(to, fromByKey, key);
    var removed, changed := ComputeChanges(from, toByKey, key);
    delta := Delta(added, removed, changed);
  }

  method ComputeIndex<T>(items: seq<T>, key: T -> string) returns (m: map<string, T>)
    ensures m == Index(items, key)
  {
    m := map[];
    for i := 0 to |items|
      invariant m == Index(items[..i], key)
    {
      assert items[..i + 1][..i] == items[..i];
      m := m[key(items[i]) := items[i]];
    }
    assert items[..|items|] == items;
  }

  ghost predicate DistinctKeys<T>(items: seq<T>, key: T -> string) {
    forall i, j :: 0 <= i < j < |items| ==> key(items[i]) != key(items[j])
  }

  lemma {:induction false} IndexFinds<T>(items: seq<T>, key: T -> string, i: nat)
    requires DistinctKeys(items, key) && i < |items|
    ensures Index(items, key)[key(items[i])] == items[i]
    decreases |items|
  {
    if i < |items| - 1 {
      IndexFinds(items[..|items| - 1], key, i);
    }
  }

  lemma {:induction false} OnlyIs<T>(items: seq<T>, other: map<string, T>, key: T -> string, x: T)
    ensures x in Only(items, other, key) <==> x in items && key(x) !in other
  {
    if items != [] {
      var before, last := items[..|items| - 1], items[|items| - 1];
      OnlyIs(before, other, key, x);
      assert items == before + [last];
    }
  }

  lemma {:induction false} ChangedIs<T>(items: seq<T>, other: map<string, T>, key: T -> string, x: T, y: T)
    ensures (x, y) in Changed(items, other, key) <==> x in items && key(x) in other && y == other[key(x)] && x != y
  {
    if items != [] {
      var before, last := items[..|items| - 1], items[|items| - 1];
      ChangedIs(before, other, key, x, y);
      assert items == before + [last];
    }
  }

  // ----- Laws ----------------------------------------------------------------------------------

  /** What is put in: the added items and the new values of the changed ones. */
  function Puts<T>(delta: Delta<T>, key: T -> string): map<string, T> {
    Index(delta.added + NewValues(delta.changed), key)
  }

  /** Taking away what was removed and putting in what was added or changed. */
  function Patch<T>(m: map<string, T>, delta: Delta<T>, key: T -> string): map<string, T> {
    (map k | k in m && !HasKey(delta.removed, key, k) :: m[k]) + Puts(delta, key)
  }

  function NewValues<T>(changed: seq<(T, T)>): (r: seq<T>)
    ensures |r| == |changed| && forall i :: 0 <= i < |r| ==> r[i] == changed[i].1
  {
    if changed == [] then [] else [changed[0].1] + NewValues(changed[1..])
  }

  lemma HasKeyOf<T>(items: seq<T>, key: T -> string, k: string)
    ensures HasKey(items, key, k) <==> exists x :: x in items && key(x) == k
  {
    if HasKey(items, key, k) {
      var i :| 0 <= i < |items| && key(items[i]) == k;
      assert items[i] in items;
    }
  }

  /** The difference rebuilds `to` from `from`. */
  lemma {:induction false} DiffRebuilds<T>(from: seq<T>, to: seq<T>, key: T -> string)
    requires DistinctKeys(to, key)
    ensures Patch(Index(from, key), Diff(from, to, key), key) == Index(to, key)
  {
    var older, goal, delta := Index(from, key), Index(to, key), Diff(from, to, key);
    var patched := Patch(older, delta, key);
    forall k
      ensures k in patched <==> k in goal
      ensures k in patched && k in goal ==> patched[k] == goal[k]
    {
      PutsAreNew(from, to, key, k);
      PutsCover(from, to, key, k);
      RemovedAt(from, goal, key, k);
      PatchAt(older, delta, key, k);
    }
  }

  lemma PatchAt<T>(m: map<string, T>, delta: Delta<T>, key: T -> string, k: string)
    ensures var patched, puts := Patch(m, delta, key), Puts(delta, key);
      && (k in patched <==> k in puts || (k in m && !HasKey(delta.removed, key, k)))
      && (k in patched ==> patched[k] == if k in puts then puts[k] else m[k])
  {
  }

  /** What differs in `to` is put in. */
  lemma {:induction false} PutsCover<T>(from: seq<T>, to: seq<T>, key: T -> string, k: string)
    ensures var older, goal := Index(from, key), Index(to, key);
      k in goal && (k !in older || older[k] != goal[k]) ==> k in Puts(Diff(from, to, key), key)
  {
    var delta, older, goal := Diff(from, to, key), Index(from, key), Index(to, key);
    var puts := delta.added + NewValues(delta.changed);
    HasKeyOf(puts, key, k);
    if k in goal && k !in older {
      OnlyIs(to, older, key, goal[k]);
      assert goal[k] in puts;
    } else if k in goal && older[k] != goal[k] {
      ChangedIs(from, goal, key, older[k], goal[k]);
      NewValueOf(delta.changed, older[k], goal[k]);
      assert goal[k] in puts;
    }
  }

  lemma {:induction false} NewValueOf<T>(changed: seq<(T, T)>, x: T, y: T)
    requires (x, y) in changed
    ensures y in NewValues(changed)
  {
    var i :| 0 <= i < |changed| && changed[i] == (x, y);
    assert NewValues(changed)[i] == y;
  }

  /** Whatever is put in under a key is `to`'s item of that key. */
  lemma {:induction false} PutsAreNew<T>(from: seq<T>, to: seq<T>, key: T -> string, k: string)
    requires DistinctKeys(to, key)
    ensures var puts := Puts(Diff(from, to, key), key);
      k in puts ==> k in Index(to, key) && puts[k] == Index(to, key)[k]
  {
    var delta := Diff(from, to, key);
    var list := delta.added + NewValues(delta.changed);
    var puts := Puts(delta, key);
    if k in puts {
      var y := puts[k];
      var i :| 0 <= i < |list| && list[i] == y;
      if i < |delta.added| {
        OnlyIs(to, Index(from, key), key, y);
        var j :| 0 <= j < |to| && to[j] == y;
        IndexFinds(to, key, j);
      } else {
        var (x, y') := delta.changed[i - |delta.added|];
        ChangedIs(from, Index(to, key), key, x, y');
      }
    }
  }

  lemma {:induction false} RemovedAt<T>(from: seq<T>, goal: map<string, T>, key: T -> string, k: string)
    ensures HasKey(Only(from, goal, key), key, k) <==> HasKey(from, key, k) && k !in goal
  {
    var only := Only(from, goal, key);
    HasKeyOf(only, key, k);
    HasKeyOf(from, key, k);
    if HasKey(only, key, k) {
      var x :| x in only && key(x) == k;
      OnlyIs(from, goal, key, x);
    }
    if HasKey(from, key, k) {
      var x :| x in from && key(x) == k;
      OnlyIs(from, goal, key, x);
    }
  }

  /** Every key is in exactly one of added, removed, changed and equal. */
  lemma {:induction false} KeysArePartitioned<T>(from: seq<T>, to: seq<T>, key: T -> string, k: string)
    requires DistinctKeys(from, key) && (HasKey(from, key, k) || HasKey(to, key, k))
    ensures var delta, older, newer := Diff(from, to, key), Index(from, key), Index(to, key);
      && (HasKey(delta.added, key, k) <==> k !in older)
      && (HasKey(delta.removed, key, k) <==> k !in newer)
      && (HasChange(delta.changed, key, k) <==> k in older && k in newer && older[k] != newer[k])
  {
    var older, newer := Index(from, key), Index(to, key);
    RemovedAt(from, newer, key, k);
    RemovedAt(to, older, key, k);
    ChangedAt(from, to, key, k);
  }

  ghost predicate HasChange<T>(changed: seq<(T, T)>, key: T -> string, k: string) {
    exists i :: 0 <= i < |changed| && key(changed[i].0) == k
  }

  lemma {:induction false} ChangedAt<T>(from: seq<T>, to: seq<T>, key: T -> string, k: string)
    requires DistinctKeys(from, key)
    ensures var changed, older, newer := Diff(from, to, key).changed, Index(from, key), Index(to, key);
      && (HasChange(changed, key, k) <==> k in older && k in newer && older[k] != newer[k])
      && (k in older && k in newer && older[k] != newer[k] ==> (older[k], newer[k]) in changed)
      && (forall i :: 0 <= i < |changed| && key(changed[i].0) == k ==>
            k in older && k in newer && changed[i] == (older[k], newer[k]) && older[k] != newer[k])
  {
    var changed, older, newer := Diff(from, to, key).changed, Index(from, key), Index(to, key);
    forall i | 0 <= i < |changed| && key(changed[i].0) == k
      ensures k in older && k in newer && changed[i] == (older[k], newer[k]) && older[k] != newer[k]
    {
      var (x, y) := changed[i];
      ChangedIs(from, newer, key, x, y);
      var j :| 0 <= j < |from| && from[j] == x;
      IndexFinds(from, key, j);
    }
    if k in older && k in newer && older[k] != newer[k] {
      ChangedIs(from, newer, key, older[k], newer[k]);
      var i :| 0 <= i < |changed| && changed[i] == (older[k], newer[k]);
    }
  }

  /** Swapping the arguments swaps added with removed and turns every change round. */
  lemma SwapSwaps<T>(from: seq<T>, to: seq<T>, key: T -> string, x: T, y: T)
    requires DistinctKeys(from, key) && DistinctKeys(to, key)
    ensures var there, back := Diff(from, to, key), Diff(to, from, key);
      && there.added == back.removed && there.removed == back.added
      && ((x, y) in there.changed <==> (y, x) in back.changed)
  {
    ChangedIs(from, Index(to, key), key, x, y);
    ChangedIs(to, Index(from, key), key, y, x);
    if x in from {
      var i :| 0 <= i < |from| && from[i] == x;
      IndexFinds(from, key, i);
    }
    if y in to {
      var j :| 0 <= j < |to| && to[j] == y;
      IndexFinds(to, key, j);
    }
  }

  /** No difference exactly when both lists hold the same items under the same keys. */
  lemma {:induction false} DiffEmptyIff<T>(from: seq<T>, to: seq<T>, key: T -> string)
    requires DistinctKeys(from, key) && DistinctKeys(to, key)
    ensures Diff(from, to, key) == Delta([], [], []) <==> Index(from, key) == Index(to, key)
  {
    var delta, older, newer := Diff(from, to, key), Index(from, key), Index(to, key);
    if delta == Delta([], [], []) {
      DiffRebuilds(from, to, key);
      assert Puts(delta, key) == map[] by { assert delta.added + NewValues(delta.changed) == []; }
      assert older == newer by {
        forall k ensures (k in older <==> k in newer) && (k in older && k in newer ==> older[k] == newer[k]) {
          PatchAt(older, delta, key, k);
        }
      }
    }
    if older == newer {
      if delta.added != [] {
        OnlyIs(to, older, key, delta.added[0]);
        assert false;
      }
      if delta.removed != [] {
        OnlyIs(from, newer, key, delta.removed[0]);
        assert false;
      }
      if delta.changed != [] {
        var k := key(delta.changed[0].0);
        ChangedAt(from, to, key, k);
        assert false;
      }
    }
  }
}
