/**
 * A selection of the library's unit-test cases, with further client
 * scenarios, written as client code that uses only the operators'
 * contracts.  Each method proves that the contracts alone determine the
 * result the scenario expects.
 */
module EnumerableTests {
  import opened Wrappers
  import opened Guards
  import opened Sequences
  import opened Ordering
  import opened Enumerable
  import SortByDescending

  /** A value of static type `object`: a boxed int or a string. */
  datatype Object = Int(i: int) | Str(s: string)

  /** `item is int` followed by the unboxing cast. */
  function AsInt(o: Object): Option<int>
  {
    if o.Int? then Some(o.i) else None
  }

  /** `item is string` followed by the reference cast. */
  function AsString(o: Object): Option<string>
  {
    if o.Str? then Some(o.s) else None
  }

  function Negative(x: int): bool
  {
    x < 0
  }

  function Square(x: int): int
  {
    x * x
  }

  method FilterNegatives()
  {
    var source := [5, -7, 8, -9];
    var it := new FilterIterator(Some(source), Some(Negative));
    var r := it.MoveNext();
    assert Negative(source[1]);
    assert r == Success(true) && it.current == -7;
    r := it.MoveNext();
    assert Negative(source[3]);
    assert r == Success(true) && it.current == -9;
    assert it.pos == 4;
    r := it.MoveNext();
    assert r.Success? && !r.value;
    assert r == Success(false);
  }

  method FilterNullSourceFailsOnFirstPull()
  {
    var it := new FilterIterator<int>(None, Some((x: int) => x > 0));
    assert it.state == Created;
    var r := it.MoveNext();
    assert r == Failure(ArgumentNull(Source));
    r := it.MoveNext();
    assert r == Success(false);
  }

  method FilterNullSourceAndPredicateNamesSource()
  {
    var it := new FilterIterator<int>(None, None);
    var r := it.MoveNext();
    assert r == Failure(ArgumentNull(Source));
  }

  method TransformSquares()
  {
    var it := new TransformIterator(Some([5, 7, -8, 9]), Some(Square));
    var r := it.MoveNext();
    assert r == Success(true) && it.current == 25 && it.pos == 1;
    r := it.MoveNext();
    assert r == Success(true) && it.current == 49 && it.pos == 2;
    r := it.MoveNext();
    assert r == Success(true) && it.current == 64 && it.pos == 3;
    r := it.MoveNext();
    assert r == Success(true) && it.current == 81 && it.pos == 4;
    r := it.MoveNext();
    assert r.Success? && !r.value;
    assert r == Success(false);
  }

  method CastIntAndStringToStringFailsOnFirstPull()
  {
    var it := new CastIterator(Some([Int(12), Str("hi")]), AsString);
    assert AsString(Int(12)) == None;
    assert FirstIncompatible([Int(12), Str("hi")], AsString) == 0;
    assert it.state == Created && it.source.Some? && it.pos == 0;
    var r := it.MoveNext();
    assert r.Failure?;
    assert r == Failure(InvalidCast);
  }

  method CastIntsToIntKeepsThem()
  {
    var xs := [5, 7, -8, 9];
    CastValuesRoundTrip(xs, (y: int) => Int(y), AsInt);
    var source := Transformed(xs, (y: int) => Int(y));
    var it := new CastIterator(Some(source), AsInt);
    var r := it.MoveNext();
    while r.value
      invariant it.Valid() && it.source == Some(source) && it.cast == AsInt
      invariant r.Success? && it.pos <= |source|
      invariant !r.value ==> it.Yielded == xs
      decreases |source| - it.pos, r.value
    {
      r := it.MoveNext();
      assert r.Success? ==> r.value || !r.value;
    }
    assert it.Yielded == xs;
  }

  method ForAllNegatives()
  {
    var negative := Negative;
    var r, tested := ForAll(Some([-5, -7, -8, -9]), Some(negative));
    assert r == Success(true);
    r, tested := ForAll(Some([5, 7, -8, 9]), Some(negative));
    assert !negative(5);
    assert r == Success(false) && tested == [5];
    r, tested := ForAll(Some([]), Some(negative));
    assert r == Success(false);
    r, tested := ForAllCorrected(Some([]), Some(negative));
    assert r == Success(true);
  }

  method ForAllNullPredicateFailsAtTheCall()
  {
    var r, tested := ForAll(Some([1, 2]), None);
    assert r == Failure(ArgumentNull(Predicate)) && tested == [];
  }

  method SortByNullKeyFailsAtTheCall()
  {
    var r := SortBy<int, int>(Some([3, 1]), None, IntCompare);
    assert r == Failure(ArgumentNull(Transformer));
  }

  function Identity(x: int): int
  {
    x
  }

  /**
   * `source.SortBy(x => x, new SortByDescending())`: sorting integers by
   * themselves under the reversed comparer puts them in non-increasing order.
   */
  method SortDescending(source: seq<int>) returns (r: seq<int>)
    ensures multiset(r) == multiset(source)
    ensures forall i, j :: 0 <= i < j < |r| ==> r[i] >= r[j]
  {
    SortByDescending.CompareIsConsistent();
    var result := SortByComparer(Some(source), Some(Identity), Some(SortByDescending.Compare), IntCompare);
    r := result.value;
    SortByDescending.SortedUnderCompareIsNonIncreasing(Transformed(r, Identity));
    TransformedAt(r, Identity);
  }
}
