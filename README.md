# PseudoEnumerable in Dafny

A model of the operator library `PseudoEnumerable.Enumerable`, a small LINQ
look-alike, and of the `SortByDescending` integer comparer. The operators
come in two groups:

- **Lazy operators.** `Filter`, `Transform` and `CastTo` are C# `yield`
  iterators. Calling one only captures its arguments. The argument guard
  runs inside the first `MoveNext`, so a null source or callback raises
  `ArgumentNullException` on the first pull, never at the call. Each is
  modelled as an iterator class:
  - the constructor stands for the call;
  - `MoveNext` pulls one element;
  - `Current` reads the last element yielded;
  - a ghost field `Yielded` records what has been produced so far.

  `MoveNext` is proved against a reference function in module
  `Sequences`:
  - `Filtered` for Filter;
  - `Transformed` for Transform;
  - `FirstIncompatible` and `CastValues` for CastTo.
- **Eager operators.** `SortBy` and `ForAll` are ordinary methods, so
  their guard runs at the call.
  - `SortBy` runs a loop that collects the keys, copies keys and items
    into two fresh arrays, and sorts both arrays together in place.
  - `ForAll` is the short-circuit loop with a mutable `result`.

Modelling conventions:
- A null reference is `None`.
- An exception is a `Failure` carrying the error kind. The kind is either
  `ArgumentNull(param)`, where `param` names the parameter reported, or
  `InvalidCast`.
- A source is a finite sequence.
- The type test `item is TResult` followed by the cast `(TResult)item` is
  a caller-supplied conversion `cast: T -> Option<R>`.
- `SortBy` takes an `IComparer<TKey>` as a three-way function
  `(K, K) -> int`. The key type's default ordering, `Comparer<TKey>.Default`,
  is passed in as the parameter `defaultComparer`. `Ordering.IntCompare`
  is the natural ordering of `int`.

Modules:
- `wrappers.dfy`: `Option`, `Result`, `Outcome`.
- `guards.dfy`: the three argument guards and the error kinds.
- `sequences.dfy`: the reference functions and their lemmas.
- `ordering.dfy`: comparers, sortedness, and the in-place sort of a key array together with its item array.
- `sort_by_descending.dfy`: the `SortByDescending` comparer.
- `enumerable.dfy`: the five operators.
- `enumerable_tests.dfy`: a selection of the library's NUnit cases and further client scenarios (null-argument timing, a descending sort), written as client code and proved from the contracts alone.

Where the code and the documentation disagree, the model follows the code:
- **ForAll on an empty source.** `ForAll` starts with `result = false`, so
  it returns false on an empty source. Its doc-comment promises true. See
  Findings.
- **Three-argument SortBy with a null comparer.** The doc-comment says this
  overload throws on a null comparer. The code instead falls back to the
  default ordering (`Enumerable.cs:107-110`), and the model does the same.

Nothing in the doc-comments promises a stable sort, and `Array.Sort` is
documented as unstable, so the model promises only sortedness, permutation
and key/item pairing for SortBy.

## Model

| member | source | states |
|---|---|---|
| Guards.CheckForExceptions | PseudoEnumerable/Enumerable.cs:178-190 | Passes exactly when both source and callback are non-null. A null source is reported as `source` even when the callback is also null. A null callback with a non-null source is reported as `transformer`. |
| Guards.CheckCastForNull | PseudoEnumerable/Enumerable.cs:192-198 | Passes exactly when the source is non-null. Otherwise it reports `source`. |
| Guards.CheckForFilterExceptions | PseudoEnumerable/Enumerable.cs:200-211 | Passes exactly when source and predicate are both non-null. The source is checked first, then the predicate. |
| Sequences.Filtered | PseudoEnumerable/Enumerable.cs:26-31 | The Filter output is never longer than its source. |
| Sequences.FilteredMembers | PseudoEnumerable/Enumerable.cs:26-31 | An element is in the Filter output if and only if it occurs in the source and satisfies the predicate. |
| Sequences.FilteredAppend | PseudoEnumerable/Enumerable.cs:26-31 | Filtering a concatenation concatenates the two filtered parts, so kept elements stay in source order. |
| Sequences.FilteredAllPass | PseudoEnumerable/Enumerable.cs:27-29 | Every output element satisfies the predicate. |
| Sequences.FilteredKeepsAll | PseudoEnumerable/Enumerable.cs:26-31 | When every element passes, the output is the whole source. |
| Sequences.FilteredDropsAll | PseudoEnumerable/Enumerable.cs:26-31 | When no element passes, the output is empty. |
| Sequences.FilteredSnoc | PseudoEnumerable/Enumerable.cs:26-31 | One more source element adds itself to the output exactly when it passes. |
| Sequences.FilteredStep | PseudoEnumerable/Enumerable.cs:26-31 | The output of the first i+1 elements extends the output of the first i by element i exactly when it passes. |
| Sequences.FilteredOfPrefix | PseudoEnumerable/Enumerable.cs:26-31 | The output of any prefix of the source is a prefix of the output of the whole source. |
| Sequences.Transformed | PseudoEnumerable/Enumerable.cs:52-55 | The Transform output has exactly the source's length. |
| Sequences.TransformedAt | PseudoEnumerable/Enumerable.cs:52-55 | Element i of the output is `transformer(source[i])`: nothing is dropped or reordered. |
| Sequences.TransformedSnoc | PseudoEnumerable/Enumerable.cs:52-55 | One more source element appends its image. |
| Sequences.FirstIncompatible | PseudoEnumerable/Enumerable.cs:133-136 | The index k where CastTo stops: every element before k converts, and element k, if there is one, does not. |
| Sequences.CastValuesAt | PseudoEnumerable/Enumerable.cs:135-139 | The cast values keep the length of a convertible source, and element i is the conversion of source element i. |
| Sequences.CastValuesSnoc | PseudoEnumerable/Enumerable.cs:135-139 | One more convertible element appends its converted value. |
| Sequences.CastValuesRoundTrip | PseudoEnumerable/Enumerable.cs:133-141 | Compatible input comes back unchanged: casting boxed values to their own type converts every element and yields the original values. |
| Sequences.Tested | PseudoEnumerable/Enumerable.cs:162-173 | The elements ForAll tests form a prefix of the source. The prefix is the whole source when every element passes. Otherwise it ends at the first failing element, and every element before that one passes. |
| Sequences.ForAllAsWrittenDiffersOnlyOnEmpty | PseudoEnumerable/Enumerable.cs:151-152 | The coded result of ForAll differs from "every element passes" exactly on the empty source. |
| Ordering.IntCompare | PseudoEnumerable/Enumerable.cs:107-110 | The default ordering of `int` keys: negative, zero or positive exactly when x is less than, equal to or greater than y. |
| Ordering.IntCompareIsConsistent | PseudoEnumerable/Enumerable.cs:107-110 | The default `int` ordering is a consistent comparer, so SortBy may fall back to it. |
| Ordering.SortedByIntCompare | PseudoEnumerable/Enumerable.cs:107-110 | Under the default `int` ordering, sorted keys are exactly the non-decreasing ones. |
| Ordering.PairingPreserved | PseudoEnumerable/Enumerable.cs:97-116 | If the multiset of (key, item) pairs is unchanged and every key was `key(item)` before the sort, then every key is `key(item)` after it. |
| Ordering.SwapPairs | PseudoEnumerable/Enumerable.cs:109-113 | Exchanges two positions in both arrays. The multisets of keys, items and pairs are unchanged. |
| Ordering.InsertPair | PseudoEnumerable/Enumerable.cs:109-113 | One insertion step: the first i+1 keys become sorted when the first i were. The three multisets are unchanged. |
| Ordering.SortPairs | PseudoEnumerable/Enumerable.cs:109-113 | `Array.Sort(keys, items, comparer)`: the key array ends sorted under the comparer. The multisets of keys, items and (key, item) pairs are unchanged. |
| SortByDescending.Compare | PseudoEnumerable/SortByDescending.cs:11-25 | Returns 1 exactly when x < y, -1 exactly when x > y, and 0 exactly when x == y. |
| SortByDescending.CompareLaws | PseudoEnumerable/SortByDescending.cs:13-24 | The result is in {-1, 0, 1}. Swapping the arguments negates it. Every integer compares equal to itself. |
| SortByDescending.CompareTransitive | PseudoEnumerable/SortByDescending.cs:13-24 | `Compare(x,y) <= 0` and `Compare(y,z) <= 0` together imply `Compare(x,z) <= 0`. |
| SortByDescending.CompareReversesNatural | PseudoEnumerable/SortByDescending.cs:11-25 | `Compare(x, y)` is the natural `int` ordering with the arguments swapped. |
| SortByDescending.CompareIsConsistent | PseudoEnumerable/SortByDescending.cs:11-25 | Compare is a consistent comparer: reflexive, sign-antisymmetric and transitive. |
| SortByDescending.SortedUnderCompareIsNonIncreasing | PseudoEnumerable/SortByDescending.cs:11-25 | A sequence is sorted under Compare if and only if it is non-increasing. |
| Enumerable.FilterIterator.constructor | PseudoEnumerable/Enumerable.cs:21-24 | Calling Filter captures the arguments, raises nothing even for null arguments, and yields nothing yet. |
| Enumerable.FilterIterator.Current | PseudoEnumerable/Enumerable.cs:29 | The current element is the last one yielded, and it satisfies the predicate. |
| Enumerable.FilterIterator.MoveNext | PseudoEnumerable/Enumerable.cs:21-32 | Only the first pull can fail, and it fails with the guard's error. A pull returns true exactly when some element at or after the cursor passes; it then yields the next such element and skips the rejected ones before it. When the run ends, the elements yielded are exactly `Filtered(source)`. Once the iterator has ended or failed, pulls return false and change nothing. |
| Enumerable.FilterIterator.Advance | PseudoEnumerable/Enumerable.cs:26-31 | After the guard: returns true exactly when some remaining element passes, and yields the first such element. Otherwise the run ends with `Filtered(source)` yielded. |
| Enumerable.SkipRejected | PseudoEnumerable/Enumerable.cs:26-28 | Stops at the first accepted element at or after `from`, or at the end. Every element passed over is rejected and adds nothing to the output. |
| Enumerable.TransformIterator.constructor | PseudoEnumerable/Enumerable.cs:47-50 | Calling Transform captures the arguments and raises nothing. |
| Enumerable.TransformIterator.Current | PseudoEnumerable/Enumerable.cs:54 | The current value is `transformer` applied to the source element just consumed, and it is the last value yielded. |
| Enumerable.TransformIterator.MoveNext | PseudoEnumerable/Enumerable.cs:47-56 | Only the first pull can fail, and it fails with the guard's error. A pull returns true exactly when source elements remain, and yields the image of the next one. When the run ends, the values yielded are exactly `Transformed(source)`. |
| Enumerable.TransformIterator.Advance | PseudoEnumerable/Enumerable.cs:52-55 | After the guard: yields the image of the next element when one remains. Otherwise the run ends with `Transformed(source)` yielded. |
| Enumerable.CastIterator.constructor | PseudoEnumerable/Enumerable.cs:129-131 | Calling CastTo captures the source and raises nothing. |
| Enumerable.CastIterator.Current | PseudoEnumerable/Enumerable.cs:139 | The current value is the conversion of the source element just consumed, and it is the last value yielded. |
| Enumerable.CastIterator.MoveNext | PseudoEnumerable/Enumerable.cs:129-142 | A pull fails exactly when it is the first pull on a null source, or when it reaches an element that does not convert. A null source fails on the first pull. A pull returns true exactly when the next element converts. The pull that reaches the first incompatible element raises `InvalidCast`; by then every earlier element has been yielded converted. When every element converts, the run yields `CastValues(source)`. |
| Enumerable.CastIterator.Advance | PseudoEnumerable/Enumerable.cs:133-141 | After the null check: converts and yields the next element, or fails exactly at `FirstIncompatible(source)`, or ends once every element has converted. |
| Enumerable.CollectKeys | PseudoEnumerable/Enumerable.cs:97-101 | The key list is `key` applied to each source element, in source order. |
| Enumerable.SortByComparer | PseudoEnumerable/Enumerable.cs:92-117 | The guard runs at the call, reporting source before key. A null comparer selects the default ordering rather than failing. The result has the source's length and multiset, and its keys are sorted under the chosen comparer. |
| Enumerable.SortBy | PseudoEnumerable/Enumerable.cs:70-76 | The guard runs at the call. The result is a permutation of the source whose keys are sorted under the default ordering. |
| Enumerable.ForAll | PseudoEnumerable/Enumerable.cs:156-176 | The guard runs at the call and no element is tested if it fails. Otherwise the result is true exactly when the source is non-empty and every element passes, so an empty source gives false. The predicate is applied exactly to `Tested(source)`, in order, and to nothing after the first failing element. |
| Enumerable.ForAllCorrected | PseudoEnumerable/Enumerable.cs:151-153 | The documented ForAll: the same guard and the same short-circuit. The result is true exactly when every element passes, the empty source included. |
| EnumerableTests.SortDescending | PseudoEnumerable/SortByDescending.cs:11-25 | `SortBy(x => x, new SortByDescending())` returns a permutation of the source in non-increasing order. |

## Left out

- Enumerable objects and enumerators are merged into one iterator per call. `GetEnumerator`, re-enumeration of the same enumerable (which would run the guard again) and `Dispose` are not modelled.
- Sources are finite sequences. Infinite sources are not modelled. A lazy source that yields different elements on each enumeration is not modelled either, although `SortBy` enumerates its source twice (`Enumerable.cs:98` and `:103`).
- Enumerable.FilterIterator.Current: reading `Current` before the first successful `MoveNext`, or after the run has ended, is excluded by its precondition rather than modelled.
- Enumerable.TransformIterator.Current: as for FilterIterator, `Current` outside a successful pull is not modelled.
- Enumerable.CastIterator.Current: as for FilterIterator, `Current` outside a successful pull is not modelled.
- Exceptions thrown by callbacks (predicate, transformer, key selector or comparer) are not modelled. Callbacks are total functions.
- Exception messages are not modelled; only the error kind and the parameter named are.
- `Comparer<TKey>.Default` is library code. It is a parameter, `defaultComparer`, and `Ordering.IntCompare` is the one for `int`.
- `Array.Sort` is introspective sort in .NET. It is replaced by an insertion sort by adjacent exchanges.
- Enumerable.SortByComparer: it states sortedness, permutation and key/item pairing, but not which order tied keys end up in, because .NET does not specify the tie order of `Array.Sort`.
- Enumerable.SortByComparer: requires the chosen comparer to be consistent (reflexive, sign-antisymmetric, transitive), as `IComparer<T>` demands. With an inconsistent comparer, `Array.Sort` may throw `ArgumentException` ("IComparer.Compare() method returns inconsistent results") or return any order; that behaviour is not modelled.
- Enumerable.SortBy: requires the default ordering to be consistent, for the same reason.
- The iterator classes require element and result types with a default value (`T(0)`, `R(0)`), only so that the field `current` is initialised before the first pull; C#'s `default(T)` exists for every type, so iteration over types without a Dafny default value is not modelled.
- The two-key `SortBy` overload and `CompareByBoolFirstEven` are exercised by the tests, but their source is not part of this model.
- The console program that prints a `ForAll` result is not part of this model.
- The floating-point mapping of the Transform test is given an integer mapper, `Square`, in the restated test case.
- Object identity in `CastTo` is not modelled. Unboxing and reference casts are values.

## Findings

| source | as written | input that shows it | evidently intended | confidence | as-written member | corrected member |
|---|---|---|---|---|---|---|
| PseudoEnumerable/Enumerable.cs:160-175 | `result` starts false and the loop never runs on an empty source, so `ForAll` returns false | `ForAll(new int[0], x => x < 0)` returns false (`Sequences.ForAllAsWrittenDiffersOnlyOnEmpty`, and the restated case `EnumerableTests.ForAllNegatives`) | true for an empty source, as the doc-comment at `Enumerable.cs:151-152` says | high; not executed | Enumerable.ForAll | Enumerable.ForAllCorrected |
