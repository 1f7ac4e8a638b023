/**
 * Python's `sorted`: a stable sort that compares elements by a string key
 * under `Lex.Below`.  Strings are sorted by themselves (`Id`); the items of
 * a dict are sorted by their key, which is what tuple comparison amounts to
 * when the keys are unique.
 */
module Sorting {
  import opened Lex

  function Id(s: string): string { s }

  /** No element's key is below the key of an element before it. */
  ghost predicate Sorted<T>(s: seq<T>, key: T -> string) {
    forall i, j :: 0 <= i < j < |s| ==> !Below(key(s[j]), key(s[i]))
  }

  /** Keys strictly ascend. */
  ghost predicate StrictlySorted<T>(s: seq<T>, key: T -> string) {
    forall i, j :: 0 <= i < j < |s| ==> Below(key(s[i]), key(s[j]))
  }

  /** No two positions share a key. */
  ghost predicate DistinctKeys<T>(s: seq<T>, key: T -> string) {
    forall i, j :: 0 <= i < j < |s| ==> key(s[i]) != key(s[j])
  }

  /** Elements with the same key are the same element. */
  ghost predicate KeyDetermines<T>(s: seq<T>, key: T -> string) {
    forall x, y :: x in s && y in s && key(x) == key(y) ==> x == y
  }

  /** Puts `x` in front of the first element whose key is not below that of `x`. */
  function Insert<T>(x: T, s: seq<T>, key: T -> string): (r: seq<T>)
    ensures multiset(r) == multiset(s) + multiset{x}
  {
    if s == [] || !Below(key(s[0]), key(x)) then [x] + s
    else
      assert s == [s[0]] + s[1..];
      [s[0]] + Insert(x, s[1..], key)
  }

  /** `sorted(s, key=key)`: the front element is inserted after the rest is sorted, so ties keep their order. */
  function SortBy<T>(s: seq<T>, key: T -> string): (r: seq<T>)
    ensures multiset(r) == multiset(s)
    ensures |r| == |s|
  {
    if s == [] then []
    else
      assert s == [s[0]] + s[1..];
      Insert(s[0], SortBy(s[1..], key), key)
  }

  lemma {:induction false} InsertSorted<T>(x: T, s: seq<T>, key: T -> string)
    requires Sorted(s, key)
    ensures Sorted(Insert(x, s, key), key)
    decreases |s|
  {
    var r := Insert(x, s, key);
    if s == [] {
    } else if !Below(key(s[0]), key(x)) {
      forall i, j | 0 <= i < j < |r| ensures !Below(key(r[j]), key(r[i])) {
        if i == 0 && j == 1 {
          assert r[j] == s[0];
        } else if i == 0 {
          assert r[j] == s[j - 1];
          NotBelowTransitive(key(x), key(s[0]), key(s[j - 1]));
        }
      }
    } else {
      var t := Insert(x, s[1..], key);
      InsertSorted(x, s[1..], key);
      forall j | 0 <= j < |t| ensures !Below(key(t[j]), key(s[0])) {
        assert t[j] in multiset(t);
        if t[j] == x {
          BelowAsymmetric(key(s[0]), key(x));
        } else {
          assert t[j] in s[1..];
        }
      }
    }
  }

  lemma {:induction false} SortBySorted<T>(s: seq<T>, key: T -> string)
    ensures Sorted(SortBy(s, key), key)
    decreases |s|
  {
    if s != [] {
      SortBySorted(s[1..], key);
      InsertSorted(s[0], SortBy(s[1..], key), key);
    }
  }

  lemma {:induction false} InsertDistinct<T>(x: T, s: seq<T>, key: T -> string)
    requires DistinctKeys(s, key)
    requires forall y :: y in s ==> key(y) != key(x)
    ensures DistinctKeys(Insert(x, s, key), key)
    decreases |s|
  {
    if s != [] && Below(key(s[0]), key(x)) {
      var t := Insert(x, s[1..], key);
      InsertDistinct(x, s[1..], key);
      forall j | 0 <= j < |t| ensures key(t[j]) != key(s[0]) {
        assert t[j] in multiset(t);
      }
    }
  }

  /** Sorting keeps keys that were distinct distinct. */
  lemma {:induction false} SortByDistinct<T>(s: seq<T>, key: T -> string)
    requires DistinctKeys(s, key)
    ensures DistinctKeys(SortBy(s, key), key)
    decreases |s|
  {
    if s != [] {
      var t := SortBy(s[1..], key);
      SortByDistinct(s[1..], key);
      forall y | y in t ensures key(y) != key(s[0]) {
        assert y in multiset(t);
      }
      InsertDistinct(s[0], t, key);
    }
  }

  lemma SortedDistinctIsStrict<T>(s: seq<T>, key: T -> string)
    requires Sorted(s, key) && DistinctKeys(s, key)
    ensures StrictlySorted(s, key)
  {
    forall i, j | 0 <= i < j < |s| ensures Below(key(s[i]), key(s[j])) {
      BelowTotal(key(s[i]), key(s[j]));
    }
  }

  /** A sequence whose neighbours ascend strictly is strictly sorted (and so sorted). */
  lemma {:induction false} ChainIsStrict<T>(s: seq<T>, key: T -> string)
    requires forall i :: 0 <= i < |s| - 1 ==> Below(key(s[i]), key(s[i + 1]))
    ensures StrictlySorted(s, key) && Sorted(s, key)
    decreases |s|
  {
    if |s| > 1 {
      ChainIsStrict(s[1..], key);
      forall i, j | 0 <= i < j < |s| ensures Below(key(s[i]), key(s[j])) && !Below(key(s[j]), key(s[i])) {
        if i > 0 {
          assert s[i] == s[1..][i - 1] && s[j] == s[1..][j - 1];
        } else if j > 1 {
          assert s[1] == s[1..][0] && s[j] == s[1..][j - 1];
          BelowTransitive(key(s[0]), key(s[1]), key(s[j]));
        }
        BelowAsymmetric(key(s[i]), key(s[j]));
      }
    }
  }

  /**
   * Two sorted arrangements of the same elements are the same sequence when
   * a key determines its element: the result of `sorted` is determined by
   * the multiset it is given.
   */
  lemma {:induction false} SortedUnique<T>(r1: seq<T>, r2: seq<T>, key: T -> string)
    requires Sorted(r1, key) && Sorted(r2, key)
    requires multiset(r1) == multiset(r2)
    requires KeyDetermines(r1, key)
    ensures r1 == r2
    decreases |r1|
  {
    assert |r2| == |multiset(r2)| == |multiset(r1)| == |r1|;
    if r1 != [] {
      SortedHeadsAgree(r1, r2, key);
      TailsPermute(r1, r2);
      SortedTail(r1, key);
      SortedTail(r2, key);
      SortedUnique(r1[1..], r2[1..], key);
      assert r1 == [r1[0]] + r1[1..] && r2 == [r2[0]] + r2[1..];
    }
  }

  /** Two sorted arrangements of the same elements start with the same element. */
  lemma SortedHeadsAgree<T>(r1: seq<T>, r2: seq<T>, key: T -> string)
    requires Sorted(r1, key) && Sorted(r2, key)
    requires multiset(r1) == multiset(r2) && |r1| > 0 && |r2| > 0
    requires KeyDetermines(r1, key)
    ensures r1[0] == r2[0]
  {
    var a, b := r1[0], r2[0];
    assert a in multiset(r2) && b in multiset(r1);
    assert !Below(key(a), key(b)) by {
      var j :| 0 <= j < |r2| && r2[j] == a;
      if j == 0 { BelowIrreflexive(key(a)); }
    }
    assert !Below(key(b), key(a)) by {
      var i :| 0 <= i < |r1| && r1[i] == b;
      if i == 0 { BelowIrreflexive(key(a)); }
    }
    BelowTotal(key(a), key(b));
  }

  lemma TailsPermute<T>(r1: seq<T>, r2: seq<T>)
    requires multiset(r1) == multiset(r2) && |r1| > 0 && |r2| > 0 && r1[0] == r2[0]
    ensures multiset(r1[1..]) == multiset(r2[1..])
  {
    assert r1 == [r1[0]] + r1[1..] && r2 == [r2[0]] + r2[1..];
    calc {
      multiset(r1[1..]);
      multiset(r1) - multiset{r1[0]};
      multiset(r2) - multiset{r2[0]};
      multiset(r2[1..]);
    }
  }

  lemma SortedTail<T>(r: seq<T>, key: T -> string)
    requires Sorted(r, key) && |r| > 0
    ensures Sorted(r[1..], key)
    ensures KeyDetermines(r, key) ==> KeyDetermines(r[1..], key)
  {
    forall i, j | 0 <= i < j < |r| - 1 ensures !Below(key(r[1..][j]), key(r[1..][i])) {
      assert r[1..][i] == r[i + 1] && r[1..][j] == r[j + 1];
    }
    forall x | x in r[1..] ensures x in r {
    }
  }

  /** Any sorted arrangement of the input, keys determining elements, is what `SortBy` returns. */
  lemma SortByIs<T>(s: seq<T>, t: seq<T>, key: T -> string)
    requires Sorted(t, key) && multiset(t) == multiset(s) && KeyDetermines(t, key)
    ensures SortBy(s, key) == t
  {
    SortBySorted(s, key);
    SortedUnique(t, SortBy(s, key), key);
  }

  /** Strings in strictly ascending order are what sorting any arrangement of them gives. */
  lemma SortStringsIs(s: seq<string>, t: seq<string>)
    requires forall i :: 0 <= i < |t| - 1 ==> Below(t[i], t[i + 1])
    requires multiset(t) == multiset(s)
    ensures SortBy(s, Id) == t
  {
    ChainIsStrict(t, Id);
    SortByIs(s, t, Id);
  }

  /** `sorted` ignores the order of its input when a key determines its element. */
  lemma SortByPermutation<T>(s1: seq<T>, s2: seq<T>, key: T -> string)
    requires multiset(s1) == multiset(s2) && KeyDetermines(s1, key)
    ensures SortBy(s1, key) == SortBy(s2, key)
  {
    var r1 := SortBy(s1, key);
    forall x | x in r1 ensures x in s1 {
      assert x in multiset(r1);
    }
    SortBySorted(s1, key);
    SortByIs(s2, r1, key);
  }
}
