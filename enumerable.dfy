/**
 * The operators of the library's static `Enumerable` class.
 *
 * Filter, Transform and CastTo are C# iterators: calling them only
 * captures the arguments, and the argument guard runs inside the first
 * `MoveNext`.  Each is modelled as an iterator class whose constructor is
 * the call and whose `MoveNext` pulls one element.  SortBy and ForAll are
 * ordinary methods whose guards run at the call.
 *
 * A source is a finite sequence; `None` stands for a null source or a
 * null callback.
 */
module Enumerable {
  import opened Wrappers
  import opened Guards
  import opened Sequences
  import opened Ordering

  /**
   * Where an iterator is: not yet pulled, holding an element in `current`,
   * past the end, or stopped by an exception.  After an exception every
   * further `MoveNext` returns false, as for any C# iterator.
   */
  datatype IteratorState = Created | Producing | Exhausted | Failed(error: Error)

  // -----------------------------------------------------------------------
  // Filter

  /** The iterator `Filter(source, predicate)` returns. */
  class FilterIterator<T(0)> {
    const source: Option<seq<T>>
    const pred: Option<T -> bool>
    var state: IteratorState
    /** The index of the next source element to examine. */
    var pos: nat
    var current: T
    /** The elements yielded so far. */
    ghost var Yielded: seq<T>

    ghost predicate Valid()
      reads this
    {
      && (state.Created? ==> pos == 0 && Yielded == [])
      && (state.Failed? ==> pos == 0 && Yielded == [] && CheckForFilterExceptions(source, pred) == Fail(state.error))
      && (state.Producing? || state.Exhausted? ==>
            && source.Some? && pred.Some?
            && pos <= |source.value|
            && Yielded == Filtered(source.value[..pos], pred.value))
      && (state.Producing? ==> |Yielded| > 0 && current == Yielded[|Yielded| - 1])
      && (state.Exhausted? ==> pos == |source.value|)
    }

    /** The call `Filter(source, predicate)`: captures the arguments and checks nothing. */
    constructor (source: Option<seq<T>>, pred: Option<T -> bool>)
      ensures Valid()
      ensures this.source == source && this.pred == pred
      ensures state == Created && Yielded == []
    {
      this.source := source;
      this.pred := pred;
      state := Created;
      pos := 0;
      Yielded := [];
    }

    /** `Current`: the element the last successful `MoveNext` yielded. */
    function Current(): (x: T)
      reads this
      requires Valid() && state.Producing?
      ensures x == Yielded[|Yielded| - 1]
      ensures pred.value(x)
    {
      FilteredAllPass(source.value[..pos], pred.value);
      current
    }

    /**
     * Pulls the next source element that satisfies the predicate.  The
     * first pull runs the guard; a null source or predicate fails there
     * and nowhere else.
     */
    method MoveNext() returns (r: Result<bool, Error>)
      requires Valid()
      modifies this
      ensures Valid()
      ensures r != Success(true) ==> Yielded == old(Yielded)
      ensures r.Failure? <==> old(state).Created? && CheckForFilterExceptions(source, pred).Fail?
      ensures r.Failure? ==> r.error == CheckForFilterExceptions(source, pred).error && state == Failed(r.error)
      ensures old(state).Exhausted? || old(state).Failed? ==> r == Success(false) && state == old(state) && Yielded == old(Yielded)
      ensures r == Success(true) <==>
        && (old(state).Created? || old(state).Producing?)
        && CheckForFilterExceptions(source, pred) == Pass
        && exists j :: old(pos) <= j < |source.value| && pred.value(source.value[j])
      ensures r == Success(true) ==>
        && state.Producing? && Yielded == old(Yielded) + [current] && pred.value(current)
        && old(pos) < pos && source.value[pos - 1] == current
        && forall j :: old(pos) <= j < pos - 1 ==> !pred.value(source.value[j])
      ensures state.Producing? || state.Exhausted? ==> Yielded <= Filtered(source.value, pred.value)
      ensures r == Success(false) && !old(state).Failed? ==> state.Exhausted? && Yielded == Filtered(source.value, pred.value)
    {
      if state.Exhausted? || state.Failed? {
        assert state.Exhausted? ==> source.value[..pos] == source.value;
        return Success(false);
      }
      if state.Created? {
        var check := CheckForFilterExceptions(source, pred);
        if check.Fail? {
          state := Failed(check.error);
          return Failure(check.error);
        }
      }
      var more := Advance();
      return Success(more);
    }

    /**
     * The body of the Filter loop once the guard has passed: skips the
     * rejected elements and yields the next accepted one, or runs off the end.
     */
    method Advance() returns (more: bool)
      requires Valid() && (state.Created? || state.Producing?)
      requires CheckForFilterExceptions(source, pred) == Pass
      modifies this
      ensures Valid()
      ensures more <==> exists j :: old(pos) <= j < |source.value| && pred.value(source.value[j])
      ensures more ==>
        && state.Producing? && Yielded == old(Yielded) + [current] && pred.value(current)
        && old(pos) < pos && source.value[pos - 1] == current
        && forall j :: old(pos) <= j < pos - 1 ==> !pred.value(source.value[j])
      ensures !more ==> state.Exhausted? && Yielded == old(Yielded) == Filtered(source.value, pred.value)
      ensures Yielded <= Filtered(source.value, pred.value)
    {
      var s, p := source.value, pred.value;
      assert Yielded == Filtered(s[..pos], p);
      var i := SkipRejected(s, p, pos);
      if i == |s| {
        assert s[..i] == s;
        pos, state := i, Exhausted;
        return false;
      }
      FilteredStep(s, i, p);
      FilteredOfPrefix(s, i + 1, p);
      ghost var ys := Filtered(s[..i + 1], p);
      current, pos, Yielded, state := s[i], i + 1, ys, Producing;
      assert s[pos - 1] == current;
      return true;
    }
  }

  /**
   * The part of the Filter loop between two yields: from index `from`,
   * passes over the elements the predicate rejects and stops at the next
   * one it accepts, or at the end.
   */
  method SkipRejected<T>(s: seq<T>, p: T -> bool, from: nat) returns (i: nat)
    requires from <= |s|
    ensures from <= i <= |s|
    ensures forall j :: from <= j < i ==> !p(s[j])
    ensures i < |s| ==> p(s[i])
    ensures Filtered(s[..i], p) == Filtered(s[..from], p)
  {
    i := from;
    while i < |s| && !p(s[i])
      invariant from <= i <= |s|
      invariant forall j :: from <= j < i ==> !p(s[j])
      invariant Filtered(s[..i], p) == Filtered(s[..from], p)
    {
      assert s[..i + 1] == s[..i] + [s[i]];
      FilteredSnoc(s[..i], s[i], p);
      i := i + 1;
    }
  }

  // -----------------------------------------------------------------------
  // Transform

  /** The iterator `Transform(source, transformer)` returns. */
  class TransformIterator<T, R(0)> {
    const source: Option<seq<T>>
    const transformer: Option<T -> R>
    var state: IteratorState
    /** The index of the next source element to transform. */
    var pos: nat
    var current: R
    /** The values yielded so far. */
    ghost var Yielded: seq<R>

    ghost predicate Valid()
      reads this
    {
      && (state.Created? ==> pos == 0 && Yielded == [])
      && (state.Failed? ==> pos == 0 && Yielded == [] && CheckForExceptions(source, transformer) == Fail(state.error))
      && (state.Producing? || state.Exhausted? ==>
            && source.Some? && transformer.Some?
            && pos <= |source.value|
            && Yielded == Transformed(source.value[..pos], transformer.value))
      && (state.Producing? ==> pos > 0 && current == transformer.value(source.value[pos - 1]))
      && (state.Exhausted? ==> pos == |source.value|)
    }

    /** The call `Transform(source, transformer)`: captures the arguments and checks nothing. */
    constructor (source: Option<seq<T>>, transformer: Option<T -> R>)
      ensures Valid()
      ensures this.source == source && this.transformer == transformer
      ensures state == Created && Yielded == []
    {
      this.source := source;
      this.transformer := transformer;
      state := Created;
      pos := 0;
      Yielded := [];
    }

    /** `Current`: the image of the source element the last successful `MoveNext` consumed. */
    function Current(): (x: R)
      reads this
      requires Valid() && state.Producing?
      ensures |Yielded| == pos && x == Yielded[pos - 1]
      ensures x == transformer.value(source.value[pos - 1])
    {
      TransformedAt(source.value[..pos], transformer.value);
      current
    }

    /**
     * Pulls the image of the next source element.  The first pull runs the
     * guard; a null source or transformer fails there and nowhere else.
     */
    method MoveNext() returns (r: Result<bool, Error>)
      requires Valid()
      modifies this
      ensures Valid()
      ensures r != Success(true) ==> Yielded == old(Yielded)
      ensures r.Failure? <==> old(state).Created? && CheckForExceptions(source, transformer).Fail?
      ensures r.Failure? ==> r.error == CheckForExceptions(source, transformer).error && state == Failed(r.error)
      ensures old(state).Exhausted? || old(state).Failed? ==> r == Success(false) && state == old(state) && Yielded == old(Yielded)
      ensures r == Success(true) <==>
        && (old(state).Created? || old(state).Producing?)
        && CheckForExceptions(source, transformer) == Pass
        && old(pos) < |source.value|
      ensures r == Success(true) ==>
        && state.Producing? && pos == old(pos) + 1
        && Yielded == old(Yielded) + [current]
        && current == transformer.value(source.value[old(pos)])
      ensures r == Success(false) && !old(state).Failed? ==> state.Exhausted? && Yielded == Transformed(source.value, transformer.value)
    {
      if state.Exhausted? || state.Failed? {
        assert state.Exhausted? ==> source.value[..pos] == source.value;
        return Success(false);
      }
      if state.Created? {
        var check := CheckForExceptions(source, transformer);
        if check.Fail? {
          state := Failed(check.error);
          return Failure(check.error);
        }
      }
      var more := Advance();
      return Success(more);
    }

    /**
     * The body of the Transform loop once the guard has passed: yields the
     * image of the next source element, or runs off the end.
     */
    method Advance() returns (more: bool)
      requires Valid() && (state.Created? || state.Producing?)
      requires CheckForExceptions(source, transformer) == Pass
      modifies this
      ensures Valid()
      ensures more <==> old(pos) < |source.value|
      ensures more ==>
        && state.Producing? && pos == old(pos) + 1
        && Yielded == old(Yielded) + [current]
        && current == transformer.value(source.value[old(pos)])
      ensures !more ==> state.Exhausted? && Yielded == old(Yielded) == Transformed(source.value, transformer.value)
    {
      var s, f := source.value, transformer.value;
      if pos == |s| {
        assert s[..pos] == s;
        state := Exhausted;
        return false;
      }
      ghost var from := pos;
      TransformedSnoc(s[..pos], s[pos], f);
      assert s[..pos + 1] == s[..pos] + [s[pos]];
      current, pos, Yielded, state := f(s[pos]), pos + 1, Yielded + [f(s[pos])], Producing;
      assert current == f(s[from]);
      return true;
    }
  }

  // -----------------------------------------------------------------------
  // CastTo

  /**
   * The iterator `CastTo<TResult>(source)` returns.  `cast(x)` is
   * `Some(y)` when `x is TResult` holds, `y` being `(TResult)x`, and
   * `None` when it does not.
   */
  class CastIterator<T, R(0)> {
    const source: Option<seq<T>>
    const cast: T -> Option<R>
    var state: IteratorState
    /** The index of the next source element to convert. */
    var pos: nat
    var current: R
    /** The values yielded so far. */
    ghost var Yielded: seq<R>

    ghost predicate Valid()
      reads this
    {
      && (state.Created? ==> pos == 0 && Yielded == [])
      && (state.Failed? && source.None? ==> pos == 0 && Yielded == [] && state.error == ArgumentNull(Source))
      && (state.Failed? && source.Some? ==>
            && state.error == InvalidCast
            && pos == FirstIncompatible(source.value, cast) < |source.value|
            && Yielded == CastValues(source.value[..pos], cast))
      && (state.Producing? || state.Exhausted? ==>
            && source.Some?
            && pos <= FirstIncompatible(source.value, cast)
            && Yielded == CastValues(source.value[..pos], cast))
      && (state.Producing? ==> pos > 0 && Some(current) == cast(source.value[pos - 1]))
      && (state.Exhausted? ==> pos == |source.value|)
    }

    /** The call `CastTo<TResult>(source)`: captures the source and checks nothing. */
    constructor (source: Option<seq<T>>, cast: T -> Option<R>)
      ensures Valid()
      ensures this.source == source && this.cast == cast
      ensures state == Created && Yielded == []
    {
      this.source := source;
      this.cast := cast;
      state := Created;
      pos := 0;
      Yielded := [];
    }

    /** `Current`: the converted value of the source element the last successful `MoveNext` consumed. */
    function Current(): (x: R)
      reads this
      requires Valid() && state.Producing?
      ensures |Yielded| == pos && x == Yielded[pos - 1]
      ensures Some(x) == cast(source.value[pos - 1])
    {
      CastValuesAt(source.value[..pos], cast);
      current
    }

    /**
     * Pulls the next source element converted to the target type.  The
     * first pull checks the source for null; reaching an element that does
     * not convert raises the cast error at that pull.
     */
    method MoveNext() returns (r: Result<bool, Error>)
      requires Valid()
      modifies this
      ensures Valid()
      ensures r != Success(true) ==> Yielded == old(Yielded)
      ensures old(state).Created? && source.None? ==> r == Failure(ArgumentNull(Source)) && state == Failed(ArgumentNull(Source))
      ensures r.Failure? && r.error != InvalidCast ==> old(state).Created? && source.None?
      ensures r.Failure? <==>
        || (old(state).Created? && source.None?)
        || ((old(state).Created? || old(state).Producing?)
            && source.Some? && old(pos) < |source.value| && cast(source.value[old(pos)]).None?)
      ensures old(state).Exhausted? || old(state).Failed? ==> r == Success(false) && state == old(state) && Yielded == old(Yielded)
      ensures r == Success(true) <==>
        && (old(state).Created? || old(state).Producing?)
        && source.Some? && old(pos) < |source.value|
        && cast(source.value[old(pos)]).Some?
      ensures r == Success(true) ==>
        && state.Producing? && pos == old(pos) + 1
        && Yielded == old(Yielded) + [current]
        && cast(source.value[old(pos)]) == Some(current)
      ensures r == Failure(InvalidCast) ==>
        && state == Failed(InvalidCast) && pos == old(pos)
        && pos == FirstIncompatible(source.value, cast) && cast(source.value[pos]).None?
        && Yielded == CastValues(source.value[..pos], cast)
      ensures r == Success(false) && !old(state).Failed? ==>
        && state.Exhausted? && FirstIncompatible(source.value, cast) == |source.value|
        && Yielded == CastValues(source.value, cast)
    {
      if state.Exhausted? || state.Failed? {
        assert state.Exhausted? ==> source.value[..pos] == source.value;
        return Success(false);
      }
      if state.Created? {
        var check := CheckCastForNull(source);
        if check.Fail? {
          state := Failed(check.error);
          return Failure(check.error);
        }
      }
      r := Advance();
    }

    /**
     * The body of the CastTo loop once the source is known not to be null:
     * converts the next element, fails on one that does not convert, or
     * runs off the end.
     */
    method Advance() returns (r: Result<bool, Error>)
      requires Valid() && (state.Created? || state.Producing?) && source.Some?
      modifies this
      ensures Valid()
      ensures r != Success(true) ==> Yielded == old(Yielded)
      ensures r.Failure? ==> r.error == InvalidCast
      ensures r.Failure? <==> old(pos) < |source.value| && cast(source.value[old(pos)]).None?
      ensures r == Success(true) <==> old(pos) < |source.value| && cast(source.value[old(pos)]).Some?
      ensures r == Success(true) ==>
        && state.Producing? && pos == old(pos) + 1
        && Yielded == old(Yielded) + [current]
        && cast(source.value[old(pos)]) == Some(current)
      ensures r == Failure(InvalidCast) ==>
        && state == Failed(InvalidCast) && pos == old(pos)
        && pos == FirstIncompatible(source.value, cast) && cast(source.value[pos]).None?
        && Yielded == CastValues(source.value[..pos], cast)
      ensures r == Success(false) ==>
        && state.Exhausted? && FirstIncompatible(source.value, cast) == |source.value|
        && Yielded == CastValues(source.value, cast)
    {
      var s := source.value;
      if pos == |s| {
        assert s[..pos] == s;
        state := Exhausted;
        return Success(false);
      }
      ghost var from := pos;
      var converted := cast(s[pos]);
      if converted.None? {
        assert pos == FirstIncompatible(s, cast);
        state := Failed(InvalidCast);
        return Failure(InvalidCast);
      }
      ghost var ys := Yielded + [converted.value];
      assert pos + 1 <= FirstIncompatible(s, cast) && ys == CastValues(s[..pos + 1], cast) by {
        assert s[..pos + 1] == s[..pos] + [s[pos]];
        CastValuesSnoc(s[..pos], s[pos], cast);
      }
      current, pos, Yielded, state := converted.value, pos + 1, ys, Producing;
      assert cast(s[from]) == Some(current);
      return Success(true);
    }
  }

  // -----------------------------------------------------------------------
  // SortBy

  /** The comparer a sort uses: the one given, or the key type's default when none is. */
  function ChosenComparer<K>(comparer: Option<Comparer<K>>, defaultComparer: Comparer<K>): Comparer<K>
  {
    if comparer.Some? then comparer.value else defaultComparer
  }

  /** The first pass of SortBy: the key of every source element, in source order. */
  method CollectKeys<T, K>(s: seq<T>, key: T -> K) returns (keys: seq<K>)
    ensures keys == Transformed(s, key)
  {
    keys := [];
    for i := 0 to |s|
      invariant keys == Transformed(s[..i], key)
    {
      assert s[..i + 1] == s[..i] + [s[i]];
      TransformedSnoc(s[..i], s[i], key);
      keys := keys + [key(s[i])];
    }
    assert s[..|s|] == s;
  }

  /**
   * `SortBy(source, key, comparer)`.  The guard runs at the call.  The keys
   * are collected in one pass, the source is copied into an array, and the
   * two arrays are sorted together; a null comparer selects the key
   * type's default ordering, `defaultComparer`, rather than failing.
   */
  method SortByComparer<T, K(!new)>(source: Option<seq<T>>, key: Option<T -> K>,
                                     comparer: Option<Comparer<K>>, defaultComparer: Comparer<K>)
    returns (r: Result<seq<T>, Error>)
    requires IsConsistent(ChosenComparer(comparer, defaultComparer))
    ensures CheckForExceptions(source, key).Fail? ==> r == Failure(CheckForExceptions(source, key).error)
    ensures CheckForExceptions(source, key) == Pass ==>
      && r.Success?
      && |r.value| == |source.value|
      && multiset(r.value) == multiset(source.value)
      && Sorted(ChosenComparer(comparer, defaultComparer), Transformed(r.value, key.value))
  {
    var check := CheckForExceptions(source, key);
    if check.Fail? {
      return Failure(check.error);
    }
    var s, k := source.value, key.value;
    var keys := CollectKeys(s, k);
    TransformedAt(s, k);
    var arrayKeys := new K[|keys|](j requires 0 <= j < |keys| => keys[j]);
    var arraySource := new T[|s|](j requires 0 <= j < |s| => s[j]);
    assert arrayKeys[..] == keys;
    assert arraySource[..] == s;
    SortPairs(arrayKeys, arraySource, ChosenComparer(comparer, defaultComparer));
    PairingPreserved(keys, s, arrayKeys[..], arraySource[..], k);
    TransformedAt(arraySource[..], k);
    assert Transformed(arraySource[..], k) == arrayKeys[..];
    return Success(arraySource[..]);
  }

  /** `SortBy(source, key)`: checks its arguments, then sorts under the key type's default ordering. */
  method SortBy<T, K(!new)>(source: Option<seq<T>>, key: Option<T -> K>, defaultComparer: Comparer<K>)
    returns (r: Result<seq<T>, Error>)
    requires IsConsistent(defaultComparer)
    ensures CheckForExceptions(source, key).Fail? ==> r == Failure(CheckForExceptions(source, key).error)
    ensures CheckForExceptions(source, key) == Pass ==>
      && r.Success?
      && |r.value| == |source.value|
      && multiset(r.value) == multiset(source.value)
      && Sorted(defaultComparer, Transformed(r.value, key.value))
  {
    var check := CheckForExceptions(source, key);
    if check.Fail? {
      return Failure(check.error);
    }
    r := SortByComparer(source, key, None, defaultComparer);
  }

  // -----------------------------------------------------------------------
  // ForAll

  /**
   * `ForAll(source, predicate)` as written: the guard runs at the call;
   * the loop stops at the first failing element, and the result starts
   * out false, so an empty source gives false.  `tested` lists the
   * elements the predicate was applied to, in order.
   */
  method ForAll<T>(source: Option<seq<T>>, pred: Option<T -> bool>) returns (r: Result<bool, Error>, ghost tested: seq<T>)
    ensures CheckForFilterExceptions(source, pred).Fail? ==> r == Failure(CheckForFilterExceptions(source, pred).error)
    ensures CheckForFilterExceptions(source, pred) == Pass ==> r == Success(ForAllAsWritten(source.value, pred.value))
    ensures CheckForFilterExceptions(source, pred).Fail? ==> tested == []
    ensures CheckForFilterExceptions(source, pred) == Pass ==> tested == Tested(source.value, pred.value)
  {
    tested := [];
    var check := CheckForFilterExceptions(source, pred);
    if check.Fail? {
      return Failure(check.error), tested;
    }
    var s, p := source.value, pred.value;
    var result := false;
    var i := 0;
    while i < |s|
      invariant 0 <= i <= |s|
      invariant tested == s[..i]
      invariant AllPass(s[..i], p)
      invariant result == (i > 0)
    {
      tested := tested + [s[i]];
      if p(s[i]) {
        result := true;
      } else {
        result := false;
        assert FirstFailure(s, p) == i by {
          assert forall j :: 0 <= j < i ==> s[..i][j] == s[j];
        }
        assert s[..i + 1] == s[..i] + [s[i]];
        break;
      }
      assert s[..i + 1] == s[..i] + [s[i]];
      i := i + 1;
    }
    assert i == |s| ==> s[..i] == s;
    return Success(result), tested;
  }

  /**
   * ForAll as its documentation describes it: true when every element
   * passes, including for an empty source.  Same guard and the same
   * short-circuit as ForAll; only the initial result differs.
   */
  method ForAllCorrected<T>(source: Option<seq<T>>, pred: Option<T -> bool>) returns (r: Result<bool, Error>, ghost tested: seq<T>)
    ensures CheckForFilterExceptions(source, pred).Fail? ==> r == Failure(CheckForFilterExceptions(source, pred).error)
    ensures CheckForFilterExceptions(source, pred) == Pass ==> r == Success(AllPass(source.value, pred.value))
    ensures CheckForFilterExceptions(source, pred).Fail? ==> tested == []
    ensures CheckForFilterExceptions(source, pred) == Pass ==> tested == Tested(source.value, pred.value)
  {
    tested := [];
    var check := CheckForFilterExceptions(source, pred);
    if check.Fail? {
      return Failure(check.error), tested;
    }
    var s, p := source.value, pred.value;
    var result := true;
    var i := 0;
    while i < |s|
      invariant 0 <= i <= |s|
      invariant tested == s[..i]
      invariant AllPass(s[..i], p)
      invariant result
    {
      tested := tested + [s[i]];
      if !p(s[i]) {
        result := false;
        assert FirstFailure(s, p) == i by {
          assert forall j :: 0 <= j < i ==> s[..i][j] == s[j];
        }
        assert s[..i + 1] == s[..i] + [s[i]];
        break;
      }
      assert s[..i + 1] == s[..i] + [s[i]];
      i := i + 1;
    }
    assert i == |s| ==> s[..i] == s;
    return Success(result), tested;
  }
}
