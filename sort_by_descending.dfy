/**
 * The `SortByDescending` comparer: an `IComparer<int>` that reverses the
 * natural ordering of integers, so that a sort under it puts larger keys
 * first.  The class has no fields, so its one method is a function here.
 */
module SortByDescending {
  import opened Ordering

  /** 1 when x < y, -1 when x > y, 0 when they are equal. */
  function Compare(x: int, y: int): (r: int)
    ensures r == 1 <==> x < y
    ensures r == -1 <==> x > y
    ensures r == 0 <==> x == y
  {
    if x < y then 1
    else if x > y then -1
    else 0
  }

  /**
   * The laws of a three-way comparison: the result is one of -1, 0 and 1,
   * swapping the arguments negates it, and every integer equals itself.
   */
  lemma CompareLaws(x: int, y: int)
    ensures Compare(x, y) in {-1, 0, 1}
    ensures Compare(x, y) == -Compare(y, x)
    ensures Compare(x, x) == 0
  {
  }

  /** "Not after" under Compare is transitive. */
  lemma CompareTransitive(x: int, y: int, z: int)
    requires Compare(x, y) <= 0 && Compare(y, z) <= 0
    ensures Compare(x, z) <= 0
  {
  }

  /** Compare is the natural ordering of `int` turned around. */
  lemma CompareReversesNatural(x: int, y: int)
    ensures Compare(x, y) == IntCompare(y, x)
  {
  }

  /** Compare is a consistent comparer, so SortBy may be given it. */
  lemma CompareIsConsistent()
    ensures IsConsistent(Compare)
  {
    forall x: int, y: int, z: int | NotAfter(Compare, x, y) && NotAfter(Compare, y, z)
      ensures NotAfter(Compare, x, z)
    {
      CompareTransitive(x, y, z);
    }
  }

  /** Keys sorted under Compare are exactly the non-increasing ones. */
  lemma SortedUnderCompareIsNonIncreasing(keys: seq<int>)
    ensures Sorted(Compare, keys) <==> forall i, j :: 0 <= i < j < |keys| ==> keys[i] >= keys[j]
  {
  }
}
