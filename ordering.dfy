/**
 * Three-way comparers over keys and the in-place sort of a key array with
 * a companion item array, the part of SortBy that the library delegates
 * to `Array.Sort(keys, items[, comparer])`.
 */
module Ordering {

  /** An `IComparer<K>.Compare`: negative, zero or positive for less, equal or greater. */
  type Comparer<!K> = (K, K) -> int

  /**
   * The consistency a comparer must have for a sort to be meaningful:
   * every key compares equal to itself, swapping the arguments flips the
   * sign, and "not greater" is transitive.
   */
  ghost predicate IsConsistent<K(!new)>(cmp: Comparer<K>)
  {
    && (forall x :: cmp(x, x) == 0)
    && (forall x, y :: cmp(x, y) < 0 <==> cmp(y, x) > 0)
    && (forall x, y, z :: NotAfter(cmp, x, y) && NotAfter(cmp, y, z) ==> NotAfter(cmp, x, z))
  }

  /**
   * `x` does not sort after `y`.  Transitivity is stated on this predicate
   * rather than on `cmp` itself, so that it is applied only where a proof
   * names it.
   */
  ghost predicate NotAfter<K>(cmp: Comparer<K>, x: K, y: K)
  {
    cmp(x, y) <= 0
  }

  /** The keys are in non-decreasing order under `cmp`. */
  ghost predicate Sorted<K>(cmp: Comparer<K>, keys: seq<K>)
  {
    forall i, j :: 0 <= i < j < |keys| ==> cmp(keys[i], keys[j]) <= 0
  }

  /** The (key, item) pairs of two parallel sequences. */
  function Zip<K, T>(keys: seq<K>, items: seq<T>): (r: seq<(K, T)>)
    requires |keys| == |items|
    ensures |r| == |keys|
    ensures forall i :: 0 <= i < |r| ==> r[i] == (keys[i], items[i])
  {
    seq(|keys|, i requires 0 <= i < |keys| => (keys[i], items[i]))
  }

  /** The natural ordering of `int`, as `int.CompareTo` gives it. */
  function IntCompare(x: int, y: int): (r: int)
    ensures r < 0 <==> x < y
    ensures r == 0 <==> x == y
    ensures r > 0 <==> x > y
  {
    if x < y then -1 else if x > y then 1 else 0
  }

  lemma IntCompareIsConsistent()
    ensures IsConsistent(IntCompare)
  {
  }

  /** Under the natural ordering of `int`, sorted means non-decreasing. */
  lemma SortedByIntCompare(keys: seq<int>)
    ensures Sorted(IntCompare, keys) <==> forall i, j :: 0 <= i < j < |keys| ==> keys[i] <= keys[j]
  {
  }

  /**
   * Keeping the multiset of (key, item) pairs keeps every item with its
   * own key: if before the sort every key was `key(item)`, it still is.
   */
  lemma PairingPreserved<K, T>(keys: seq<K>, items: seq<T>, keys': seq<K>, items': seq<T>, key: T -> K)
    requires |keys| == |items| && |keys'| == |items'|
    requires multiset(Zip(keys', items')) == multiset(Zip(keys, items))
    requires forall i :: 0 <= i < |keys| ==> keys[i] == key(items[i])
    ensures forall i :: 0 <= i < |keys'| ==> keys'[i] == key(items'[i])
  {
    forall i | 0 <= i < |keys'|
      ensures keys'[i] == key(items'[i])
    {
      var pair := Zip(keys', items')[i];
      assert pair in multiset(Zip(keys', items'));
      assert pair in Zip(keys, items);
      var j :| 0 <= j < |keys| && Zip(keys, items)[j] == pair;
    }
  }

  /** Exchanging two positions of a sequence keeps its multiset. */
  lemma SwapKeepsMultiset<X>(s: seq<X>, i: int, j: int)
    requires 0 <= i < |s| && 0 <= j < |s|
    ensures multiset(s[i := s[j]][j := s[i]]) == multiset(s)
  {
  }

  /** Exchanging the same two positions of both sequences exchanges those two pairs. */
  lemma ZipSwap<K, T>(keys: seq<K>, items: seq<T>, i: int, j: int)
    requires |keys| == |items|
    requires 0 <= i < |keys| && 0 <= j < |keys|
    ensures Zip(keys[i := keys[j]][j := keys[i]], items[i := items[j]][j := items[i]])
         == Zip(keys, items)[i := Zip(keys, items)[j]][j := Zip(keys, items)[i]]
  {
  }

  /** Exchanges positions i and j of both arrays, keeping each key with its item. */
  method SwapPairs<K, T>(keys: array<K>, items: array<T>, i: int, j: int)
    requires keys.Length == items.Length
    requires 0 <= i < keys.Length && 0 <= j < keys.Length
    requires keys != items
    modifies keys, items
    ensures keys[..] == old(keys[..])[i := old(keys[..])[j]][j := old(keys[..])[i]]
    ensures items[..] == old(items[..])[i := old(items[..])[j]][j := old(items[..])[i]]
    ensures multiset(keys[..]) == old(multiset(keys[..]))
    ensures multiset(items[..]) == old(multiset(items[..]))
    ensures multiset(Zip(keys[..], items[..])) == old(multiset(Zip(keys[..], items[..])))
  {
    ghost var ks, xs := keys[..], items[..];
    keys[i], keys[j] := keys[j], keys[i];
    items[i], items[j] := items[j], items[i];
    assert keys[..] == ks[i := ks[j]][j := ks[i]];
    assert items[..] == xs[i := xs[j]][j := xs[i]];
    SwapKeepsMultiset(ks, i, j);
    SwapKeepsMultiset(xs, i, j);
    ZipSwap(ks, xs, i, j);
    SwapKeepsMultiset(Zip(ks, xs), i, j);
  }

  /**
   * The state inside one insertion step: the first i + 1 keys are sorted
   * once position j, the key being moved, is left out, and the moved key
   * is not greater than any key to its right.
   */
  ghost predicate Inserting<K>(cmp: Comparer<K>, keys: seq<K>, j: int, i: int)
    requires 0 <= j <= i < |keys|
  {
    && (forall a, b :: 0 <= a < b <= i && a != j && b != j ==> cmp(keys[a], keys[b]) <= 0)
    && (forall b :: j < b <= i ==> cmp(keys[j], keys[b]) <= 0)
  }

  lemma InsertingStarts<K>(cmp: Comparer<K>, keys: seq<K>, i: int)
    requires 0 <= i < |keys|
    requires Sorted(cmp, keys[..i])
    ensures Inserting(cmp, keys, i, i)
  {
    assert forall a :: 0 <= a < i ==> keys[..i][a] == keys[a];
  }

  /** Exchanging the moved key with a greater left neighbour keeps the insertion state. */
  lemma InsertingSteps<K(!new)>(cmp: Comparer<K>, keys: seq<K>, j: int, i: int)
    requires IsConsistent(cmp)
    requires 0 < j <= i < |keys|
    requires Inserting(cmp, keys, j, i)
    requires cmp(keys[j - 1], keys[j]) > 0
    ensures Inserting(cmp, keys[j - 1 := keys[j]][j := keys[j - 1]], j - 1, i)
  {
  }

  /** Once the moved key has no greater left neighbour, the first i + 1 keys are sorted. */
  lemma InsertingEnds<K(!new)>(cmp: Comparer<K>, keys: seq<K>, j: int, i: int)
    requires IsConsistent(cmp)
    requires 0 <= j <= i < |keys|
    requires Inserting(cmp, keys, j, i)
    requires j > 0 ==> cmp(keys[j - 1], keys[j]) <= 0
    ensures Sorted(cmp, keys[..i + 1])
  {
    forall a, b | 0 <= a < b <= i
      ensures cmp(keys[a], keys[b]) <= 0
    {
      if a == j {
      } else if b == j {
        if a < j - 1 {
          assert NotAfter(cmp, keys[a], keys[j - 1]) && NotAfter(cmp, keys[j - 1], keys[j]);
        }
      }
    }
  }

  /**
   * One step of insertion sort: moves `keys[i]` left past every greater
   * key, so that the first i + 1 keys are sorted when the first i were.
   */
  method InsertPair<K(!new), T>(keys: array<K>, items: array<T>, cmp: Comparer<K>, i: int)
    requires keys.Length == items.Length
    requires 0 <= i < keys.Length
    requires keys != items
    requires IsConsistent(cmp)
    requires Sorted(cmp, keys[..i])
    modifies keys, items
    ensures Sorted(cmp, keys[..i + 1])
    ensures multiset(keys[..]) == old(multiset(keys[..]))
    ensures multiset(items[..]) == old(multiset(items[..]))
    ensures multiset(Zip(keys[..], items[..])) == old(multiset(Zip(keys[..], items[..])))
  {
    var j := i;
    InsertingStarts(cmp, keys[..], i);
    ghost var keys0, items0, pairs0 := multiset(keys[..]), multiset(items[..]), multiset(Zip(keys[..], items[..]));
    while j > 0 && cmp(keys[j - 1], keys[j]) > 0
      invariant 0 <= j <= i
      invariant Inserting(cmp, keys[..], j, i)
      invariant multiset(keys[..]) == keys0
      invariant multiset(items[..]) == items0
      invariant multiset(Zip(keys[..], items[..])) == pairs0
    {
      ghost var ks := keys[..];
      InsertingSteps(cmp, ks, j, i);
      SwapPairs(keys, items, j - 1, j);
      j := j - 1;
    }
    InsertingEnds(cmp, keys[..], j, i);
  }

  /**
   * Sorts `keys` in place under `cmp`, applying every exchange to `items`
   * as well, as `Array.Sort(keys, items, comparer)` does.  Insertion sort
   * by adjacent exchanges.
   */
  method SortPairs<K(!new), T>(keys: array<K>, items: array<T>, cmp: Comparer<K>)
    requires keys.Length == items.Length
    requires keys != items
    requires IsConsistent(cmp)
    modifies keys, items
    ensures Sorted(cmp, keys[..])
    ensures multiset(keys[..]) == old(multiset(keys[..]))
    ensures multiset(items[..]) == old(multiset(items[..]))
    ensures multiset(Zip(keys[..], items[..])) == old(multiset(Zip(keys[..], items[..])))
  {
    var i := 0;
    while i < keys.Length
      invariant 0 <= i <= keys.Length
      invariant Sorted(cmp, keys[..i])
      invariant multiset(keys[..]) == old(multiset(keys[..]))
      invariant multiset(items[..]) == old(multiset(items[..]))
      invariant multiset(Zip(keys[..], items[..])) == old(multiset(Zip(keys[..], items[..])))
    {
      InsertPair(keys, items, cmp, i);
      i := i + 1;
    }
    assert keys[..] == keys[..keys.Length];
  }
}
