/** The stable sort of the standard library, by an integer key. */
module Sorting {
  /** Where a key goes among the first `n` items, after its equals. */
  function Slot<T>(items: seq<T>, key: T -> int, k: int, n: nat): (slot: nat)
    requires n <= |items|
    ensures slot <= n
  {
    if n == 0 || key(items[n - 1]) <= k then n else Slot(items, key, k, n - 1)
  }

  /** The slot splits sorted items into those up to the key and those above it. */
  lemma {:induction false} SlotSplits<T>(items: seq<T>, key: T -> int, k: int, n: nat)
    requires IsSorted(items, key) && n <= |items|
    ensures var slot := Slot(items, key, k, n);
            && (forall i :: 0 <= i < slot ==> key(items[i]) <= k)
            && (forall i :: slot <= i < n ==> k < key(items[i]))
  {
    if n > 0 && key(items[n - 1]) > k {
      SlotSplits(items, key, k, n - 1);
    }
  }

  function Place<T>(items: seq<T>, key: T -> int, item: T): seq<T> {
    var slot := Slot(items, key, key(item), |items|);
    items[..slot] + [item] + items[slot..]
  }

  /** The first `n` items, sorted by key and otherwise in their order. */
  function SortFirst<T>(items: seq<T>, key: T -> int, n: nat): seq<T>
    requires n <= |items|
  {
    if n == 0 then [] else Place(SortFirst(items, key, n - 1), key, items[n - 1])
  }

  function SortBy<T>(items: seq<T>, key: T -> int): seq<T> {
    SortFirst(items, key, |items|)
  }

  ghost predicate IsSorted<T>(items: seq<T>, key: T -> int) {
    forall i, j :: 0 <= i < j < |items| ==> key(items[i]) <= key(items[j])
  }

  /** The items with this key, in their order. */
  function WithKey<T>(items: seq<T>, key: T -> int, k: int): seq<T> {
    if items == [] then []
    else
      var last := items[|items| - 1];
      WithKey(items[..|items| - 1], key, k) + if key(last) == k then [last] else []
  }

  lemma {:induction false} WithKeyConcat<T>(a: seq<T>, b: seq<T>, key: T -> int, k: int)
    ensures WithKey(a + b, key, k) == WithKey(a, key, k) + WithKey(b, key, k)
  {
    if b == [] {
      assert a + b == a;
    } else {
      var n := |b| - 1;
      assert (a + b)[..|a + b| - 1] == a + b[..n];
      WithKeyConcat(a, b[..n], key, k);
    }
  }

  lemma {:induction false} NoneWithKey<T>(items: seq<T>, key: T -> int, k: int)
    requires forall i :: 0 <= i < |items| ==> key(items[i]) != k
    ensures WithKey(items, key, k) == []
  {
    if items != [] {
      NoneWithKey(items[..|items| - 1], key, k);
    }
  }

  lemma PlaceIsSorted<T>(items: seq<T>, key: T -> int, item: T)
    requires IsSorted(items, key)
    ensures IsSorted(Place(items, key, item), key)
  {
    SlotSplits(items, key, key(item), |items|);
  }

  /** An item is placed after its equals. */
  lemma PlaceIsStable<T>(items: seq<T>, key: T -> int, item: T, k: int)
    requires IsSorted(items, key)
    ensures WithKey(Place(items, key, item), key, k) == WithKey(items, key, k) + WithKey([item], key, k)
  {
    var slot := Slot(items, key, key(item), |items|);
    SlotSplits(items, key, key(item), |items|);
    var front, back := items[..slot], items[slot..];
    assert items == front + back;
    WithKeyConcat(front + [item], back, key, k);
    WithKeyConcat(front, [item], key, k);
    WithKeyConcat(front, back, key, k);
    if k == key(item) {
      NoneWithKey(back, key, k);
    } else {
      NoneWithKey([item], key, k);
    }
  }

  lemma {:induction false} SortFirstSorts<T>(items: seq<T>, key: T -> int, n: nat, k: int)
    requires n <= |items|
    ensures IsSorted(SortFirst(items, key, n), key)
    ensures WithKey(SortFirst(items, key, n), key, k) == WithKey(items[..n], key, k)
  {
    if n > 0 {
      SortFirstSorts(items, key, n - 1, k);
      var sorted := SortFirst(items, key, n - 1);
      PlaceIsSorted(sorted, key, items[n - 1]);
      PlaceIsStable(sorted, key, items[n - 1], k);
      WithKeyConcat(items[..n - 1], [items[n - 1]], key, k);
      assert items[..n] == items[..n - 1] + [items[n - 1]];
    }
  }

  /** The result is in key order, and the items with equal keys are the same ones in the same order. */
  lemma SortIsStable<T>(items: seq<T>, key: T -> int, k: int)
    ensures IsSorted(SortBy(items, key), key)
    ensures WithKey(SortBy(items, key), key, k) == WithKey(items, key, k)
  {
    SortFirstSorts(items, key, |items|, k);
    assert items[..|items|] == items;
  }

  /** Items already in order stay as they are. */
  lemma {:induction false} SortFirstOfSorted<T>(items: seq<T>, key: T -> int, n: nat)
    requires IsSorted(items, key) && n <= |items|
    ensures SortFirst(items, key, n) == items[..n]
  {
    if n > 0 {
      SortFirstOfSorted(items, key, n - 1);
      PlaceLast(items[..n - 1], key, items[n - 1]);
      assert items[..n] == items[..n - 1] + [items[n - 1]];
    }
  }

  lemma PlaceLast<T>(items: seq<T>, key: T -> int, item: T)
    requires items == [] || key(items[|items| - 1]) <= key(item)
    ensures Place(items, key, item) == items + [item]
  {
    assert items[..|items|] + [item] + items[|items|..] == items + [item];
  }

  lemma SortOfSorted<T>(items: seq<T>, key: T -> int)
    requires IsSorted(items, key)
    ensures SortBy(items, key) == items
  {
    SortFirstOfSorted(items, key, |items|);
    assert items[..|items|] == items;
  }
}
