/**
 * Python's `dict` with string keys, as the formatting collectors build it:
 * the items in insertion order, each key at most once.  `Get` is `d.get(k)`,
 * `Put` is `d[k] = v`, and `SortedItems` is `sorted(d.items())`.
 */
module Dicts {
  import opened Wrappers
  import opened Lex
  import opened Sorting

  type Dict<V> = seq<(string, V)>

  function KeyOf<V>(item: (string, V)): string { item.0 }

  /** The invariant every dict keeps: no key occurs twice. */
  ghost predicate UniqueKeys<V>(d: Dict<V>) {
    forall i, j :: 0 <= i < j < |d| ==> d[i].0 != d[j].0
  }

  /** `d.get(k)`: the value stored under `k`, if any. */
  function Get<V>(d: Dict<V>, k: string): (r: Option<V>)
    ensures r.None? <==> forall i :: 0 <= i < |d| ==> d[i].0 != k
    ensures r.Some? ==> (k, r.value) in d
  {
    if d == [] then None
    else if d[|d| - 1].0 == k then Some(d[|d| - 1].1)
    else Get(d[..|d| - 1], k)
  }

  /** Overwrites the value of the item whose key is `k`, keeping its place. */
  function Replace<V>(d: Dict<V>, k: string, v: V): (r: Dict<V>)
    ensures |r| == |d| && forall i :: 0 <= i < |d| ==> r[i].0 == d[i].0
    ensures forall k' :: Get(r, k') == if k' == k && Get(d, k).Some? then Some(v) else Get(d, k')
  {
    if d == [] then []
    else if d[|d| - 1].0 == k then
      var r := d[..|d| - 1] + [(k, v)];
      assert r[..|r| - 1] == d[..|d| - 1];
      r
    else
      var r := Replace(d[..|d| - 1], k, v) + [d[|d| - 1]];
      assert r[..|r| - 1] == Replace(d[..|d| - 1], k, v);
      r
  }

  /** `d[k] = v`: a key already present keeps its place, a new key goes last. */
  function Put<V>(d: Dict<V>, k: string, v: V): (r: Dict<V>)
    ensures forall k' :: Get(r, k') == if k' == k then Some(v) else Get(d, k')
    ensures UniqueKeys(d) ==> UniqueKeys(r)
  {
    if Get(d, k).Some? then Replace(d, k, v)
    else
      var r := d + [(k, v)];
      assert r[..|r| - 1] == d;
      r
  }

  /** The concatenation of `f(item)` over the items, in order. */
  function Collect<V, T>(d: Dict<V>, f: ((string, V)) -> seq<T>): seq<T>
  {
    if d == [] then [] else Collect(d[..|d| - 1], f) + f(d[|d| - 1])
  }

  /** `sorted(d.items())`: with unique keys the tuples compare by key alone. */
  function SortedItems<V>(d: Dict<V>): (r: Dict<V>)
    ensures multiset(r) == multiset(d)
  {
    SortBy(d, KeyOf)
  }

  lemma CollectSnoc<V, T>(d: Dict<V>, x: (string, V), f: ((string, V)) -> seq<T>)
    ensures Collect(d + [x], f) == Collect(d, f) + f(x)
  {
    assert (d + [x])[..|d|] == d;
  }

  lemma CollectNext<V, T>(d: Dict<V>, n: nat, f: ((string, V)) -> seq<T>)
    requires n < |d|
    ensures Collect(d[..n + 1], f) == Collect(d[..n], f) + f(d[n])
  {
    assert d[..n + 1] == d[..n] + [d[n]];
    CollectSnoc(d[..n], d[n], f);
  }

  /** With unique keys, an item is in the dict exactly when `get` finds its value. */
  lemma GetIff<V>(d: Dict<V>, k: string, v: V)
    requires UniqueKeys(d)
    ensures (k, v) in d <==> Get(d, k) == Some(v)
  {
    if (k, v) in d {
      var i :| 0 <= i < |d| && d[i] == (k, v);
      var w := Get(d, k).value;
      var j :| 0 <= j < |d| && d[j] == (k, w);
      assert i == j;
    }
  }

  /** Every item of a dict is what `get` finds under its key. */
  lemma GetEvery<V>(d: Dict<V>)
    requires UniqueKeys(d)
    ensures forall i :: 0 <= i < |d| ==> Get(d, d[i].0) == Some(d[i].1)
  {
    forall i | 0 <= i < |d| ensures Get(d, d[i].0) == Some(d[i].1) {
      GetIff(d, d[i].0, d[i].1);
    }
  }

  lemma UniqueKeysDetermine<V>(d: Dict<V>)
    requires UniqueKeys(d)
    ensures KeyDetermines(d, KeyOf)
  {
    forall x, y | x in d && y in d && KeyOf(x) == KeyOf(y) ensures x == y {
      GetIff(d, x.0, x.1);
      GetIff(d, y.0, y.1);
    }
  }

  /** Sorting the items keeps the keys unique, makes them ascend strictly and keeps every lookup. */
  lemma {:induction false} SortedItemsFacts<V>(d: Dict<V>)
    requires UniqueKeys(d)
    ensures UniqueKeys(SortedItems(d))
    ensures StrictlySorted(SortedItems(d), KeyOf)
    ensures forall k :: Get(SortedItems(d), k) == Get(d, k)
  {
    var r := SortedItems(d);
    assert DistinctKeys(d, KeyOf) by {
      forall i, j | 0 <= i < j < |d| ensures KeyOf(d[i]) != KeyOf(d[j]) {
      }
    }
    SortByDistinct(d, KeyOf);
    SortBySorted(d, KeyOf);
    SortedDistinctIsStrict(r, KeyOf);
    forall i, j | 0 <= i < j < |r| ensures r[i].0 != r[j].0 {
      assert KeyOf(r[i]) != KeyOf(r[j]);
    }
    forall k ensures Get(r, k) == Get(d, k) {
      if Get(d, k).Some? {
        GetIff(d, k, Get(d, k).value);
        assert (k, Get(d, k).value) in multiset(r);
        GetIff(r, k, Get(d, k).value);
      } else {
        forall i | 0 <= i < |r| ensures r[i].0 != k {
          assert r[i] in multiset(d);
        }
      }
    }
  }

  lemma {:induction false} UniqueCount<V>(d: Dict<V>)
    requires UniqueKeys(d)
    ensures forall x :: multiset(d)[x] == if x in d then 1 else 0
    decreases |d|
  {
    if d != [] {
      var init, last := d[..|d| - 1], d[|d| - 1];
      assert d == init + [last];
      UniqueCount(init);
      assert last !in init;
    }
  }

  /** Two dicts that answer every lookup alike hold the same items. */
  lemma SameLookupsSameItems<V>(d1: Dict<V>, d2: Dict<V>)
    requires UniqueKeys(d1) && UniqueKeys(d2)
    requires forall k :: Get(d1, k) == Get(d2, k)
    ensures multiset(d1) == multiset(d2)
  {
    UniqueCount(d1);
    UniqueCount(d2);
    forall x ensures multiset(d1)[x] == multiset(d2)[x] {
      GetIff(d1, x.0, x.1);
      GetIff(d2, x.0, x.1);
    }
  }

  /** `sorted(d.items())` depends only on what the dict maps, not on its insertion order. */
  lemma SortedItemsDeterministic<V>(d1: Dict<V>, d2: Dict<V>)
    requires UniqueKeys(d1) && UniqueKeys(d2)
    requires forall k :: Get(d1, k) == Get(d2, k)
    ensures SortedItems(d1) == SortedItems(d2)
  {
    SameLookupsSameItems(d1, d2);
    UniqueKeysDetermine(d1);
    SortByPermutation(d1, d2, KeyOf);
  }

  /**
   * Collecting with a function that yields nothing for every key but `k`
   * gives what it yields for the one item stored under `k`.
   */
  lemma {:induction false} CollectOneKey<V, T>(d: Dict<V>, f: ((string, V)) -> seq<T>, k: string)
    requires UniqueKeys(d)
    requires forall x: (string, V) :: x.0 != k ==> f(x) == []
    ensures Collect(d, f) == if Get(d, k).Some? then f((k, Get(d, k).value)) else []
    decreases |d|
  {
    if d != [] {
      var init, last := d[..|d| - 1], d[|d| - 1];
      CollectOneKey(init, f, k);
      if last.0 == k {
        assert Get(init, k).None?;
      }
    }
  }
}
