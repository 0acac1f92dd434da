/**
 * Reference definitions of what the lazy operators and the quantifier
 * produce when their whole (finite) source is consumed, with the
 * properties the operators promise about them.  The iterator classes in
 * module Enumerable are proved to yield exactly these values.
 */
module Sequences {
  import opened Wrappers

  // ---------------------------------------------------------------------
  // Filter

  /** The elements of `s` that satisfy `p`, in their original order. */
  function Filtered<T>(s: seq<T>, p: T -> bool): (r: seq<T>)
    ensures |r| <= |s|
  {
    if s == [] then []
    else
      var init := Filtered(s[..|s| - 1], p);
      if p(s[|s| - 1]) then init + [s[|s| - 1]] else init
  }

  /** Consuming one more source element adds it to the output exactly when it passes. */
  lemma FilteredSnoc<T>(s: seq<T>, x: T, p: T -> bool)
    ensures Filtered(s + [x], p) == Filtered(s, p) + (if p(x) then [x] else [])
  {
    assert (s + [x])[..|s|] == s;
  }

  /** Consuming source element i: the output of the first i + 1 elements extends that of the first i. */
  lemma FilteredStep<T>(s: seq<T>, i: int, p: T -> bool)
    requires 0 <= i < |s|
    ensures Filtered(s[..i + 1], p) == Filtered(s[..i], p) + (if p(s[i]) then [s[i]] else [])
  {
    assert s[..i + 1] == s[..i] + [s[i]];
    FilteredSnoc(s[..i], s[i], p);
  }

  /** What has been yielded from a prefix of the source is a prefix of the whole output. */
  lemma FilteredOfPrefix<T>(s: seq<T>, n: int, p: T -> bool)
    requires 0 <= n <= |s|
    ensures Filtered(s[..n], p) <= Filtered(s, p)
  {
    assert s[..n] + s[n..] == s;
    FilteredAppend(s[..n], s[n..], p);
  }

  /** Filtering distributes over concatenation, so the relative order of the kept elements is the source's. */
  lemma {:induction false} FilteredAppend<T>(s: seq<T>, t: seq<T>, p: T -> bool)
    ensures Filtered(s + t, p) == Filtered(s, p) + Filtered(t, p)
    decreases |t|
  {
    if t == [] {
      assert s + t == s;
    } else {
      var t', x := t[..|t| - 1], t[|t| - 1];
      assert t == t' + [x];
      assert s + t == (s + t') + [x];
      FilteredAppend(s, t', p);
      FilteredSnoc(s + t', x, p);
      FilteredSnoc(t', x, p);
    }
  }

  /** An element is kept exactly when it occurs in the source and passes the predicate. */
  lemma {:induction false} FilteredMembers<T>(s: seq<T>, p: T -> bool, x: T)
    ensures x in Filtered(s, p) <==> x in s && p(x)
    decreases |s|
  {
    if s != [] {
      var s', y := s[..|s| - 1], s[|s| - 1];
      assert s == s' + [y];
      FilteredMembers(s', p, x);
    }
  }

  /** Every kept element passes the predicate. */
  lemma FilteredAllPass<T>(s: seq<T>, p: T -> bool)
    ensures forall i :: 0 <= i < |Filtered(s, p)| ==> p(Filtered(s, p)[i])
  {
    forall i | 0 <= i < |Filtered(s, p)|
      ensures p(Filtered(s, p)[i])
    {
      FilteredMembers(s, p, Filtered(s, p)[i]);
    }
  }

  /** Filtering keeps the whole source when every element passes. */
  lemma {:induction false} FilteredKeepsAll<T>(s: seq<T>, p: T -> bool)
    requires forall i :: 0 <= i < |s| ==> p(s[i])
    ensures Filtered(s, p) == s
    decreases |s|
  {
    if s != [] {
      var s' := s[..|s| - 1];
      assert forall i :: 0 <= i < |s'| ==> s'[i] == s[i];
      FilteredKeepsAll(s', p);
      assert s == s' + [s[|s| - 1]];
    }
  }

  /** Filtering keeps nothing when no element passes. */
  lemma {:induction false} FilteredDropsAll<T>(s: seq<T>, p: T -> bool)
    requires forall i :: 0 <= i < |s| ==> !p(s[i])
    ensures Filtered(s, p) == []
    decreases |s|
  {
    if s != [] {
      var s' := s[..|s| - 1];
      assert forall i :: 0 <= i < |s'| ==> s'[i] == s[i];
      FilteredDropsAll(s', p);
    }
  }

  // ---------------------------------------------------------------------
  // Transform

  /** The image of `s` under `f`, element by element. */
  function Transformed<T, R>(s: seq<T>, f: T -> R): (r: seq<R>)
    ensures |r| == |s|
  {
    if s == [] then [] else Transformed(s[..|s| - 1], f) + [f(s[|s| - 1])]
  }

  /** Element i of the image is `f(s[i])`: nothing dropped, nothing reordered. */
  lemma {:induction false} TransformedAt<T, R>(s: seq<T>, f: T -> R)
    ensures forall i :: 0 <= i < |s| ==> Transformed(s, f)[i] == f(s[i])
    decreases |s|
  {
    if s != [] {
      TransformedAt(s[..|s| - 1], f);
    }
  }

  /** Consuming one more source element appends its image. */
  lemma TransformedSnoc<T, R>(s: seq<T>, x: T, f: T -> R)
    ensures Transformed(s + [x], f) == Transformed(s, f) + [f(x)]
  {
    assert (s + [x])[..|s|] == s;
  }

  // ---------------------------------------------------------------------
  // CastTo: `cast(x)` is `Some(y)` when `x is TResult` holds, `y` being `(TResult)x`

  /** Position of the first element that does not convert, or |s| if all do. */
  function FirstIncompatible<T, R>(s: seq<T>, cast: T -> Option<R>): (k: nat)
    ensures k <= |s|
    ensures forall i :: 0 <= i < k ==> cast(s[i]).Some?
    ensures k < |s| ==> cast(s[k]).None?
  {
    if s == [] || cast(s[0]).None? then 0 else 1 + FirstIncompatible(s[1..], cast)
  }

  /** The converted values of a source all of whose elements convert. */
  function CastValues<T, R>(s: seq<T>, cast: T -> Option<R>): (r: seq<R>)
    requires forall i :: 0 <= i < |s| ==> cast(s[i]).Some?
  {
    if s == [] then [] else CastValues(s[..|s| - 1], cast) + [cast(s[|s| - 1]).value]
  }

  /** Converting keeps the length, and element i is the conversion of source element i. */
  lemma {:induction false} CastValuesAt<T, R>(s: seq<T>, cast: T -> Option<R>)
    requires forall i :: 0 <= i < |s| ==> cast(s[i]).Some?
    ensures |CastValues(s, cast)| == |s|
    ensures forall i :: 0 <= i < |s| ==> Some(CastValues(s, cast)[i]) == cast(s[i])
    decreases |s|
  {
    if s != [] {
      CastValuesAt(s[..|s| - 1], cast);
    }
  }

  /** Consuming one more convertible element appends its converted value. */
  lemma CastValuesSnoc<T, R>(s: seq<T>, x: T, cast: T -> Option<R>)
    requires forall i :: 0 <= i < |s| ==> cast(s[i]).Some?
    requires cast(x).Some?
    ensures forall i :: 0 <= i < |s + [x]| ==> cast((s + [x])[i]).Some?
    ensures CastValues(s + [x], cast) == CastValues(s, cast) + [cast(x).value]
  {
    assert (s + [x])[..|s|] == s;
  }

  /**
   * Compatible input comes back unchanged: when the source holds boxed
   * values and the cast unboxes exactly what `box` boxed, the cast yields
   * the original values.
   */
  lemma {:induction false} CastValuesRoundTrip<T, R>(xs: seq<R>, box: R -> T, cast: T -> Option<R>)
    requires forall y :: cast(box(y)) == Some(y)
    ensures FirstIncompatible(Transformed(xs, box), cast) == |xs|
    ensures CastValues(Transformed(xs, box), cast) == xs
    decreases |xs|
  {
    TransformedAt(xs, box);
    var s := Transformed(xs, box);
    if xs != [] {
      var xs' := xs[..|xs| - 1];
      CastValuesRoundTrip(xs', box, cast);
      assert s[..|s| - 1] == Transformed(xs', box);
      assert xs == xs' + [xs[|xs| - 1]];
    }
  }

  // ---------------------------------------------------------------------
  // ForAll

  /** Every element of `s` satisfies `p` (true for the empty sequence). */
  ghost predicate AllPass<T>(s: seq<T>, p: T -> bool)
  {
    forall i :: 0 <= i < |s| ==> p(s[i])
  }

  /** Position of the first element that fails `p`, or |s| if none does. */
  function FirstFailure<T>(s: seq<T>, p: T -> bool): (k: nat)
    ensures k <= |s|
    ensures forall i :: 0 <= i < k ==> p(s[i])
    ensures k < |s| ==> !p(s[k])
  {
    if s == [] || !p(s[0]) then 0 else 1 + FirstFailure(s[1..], p)
  }

  /** The elements a short-circuiting quantifier tests: up to and including the first failing one. */
  function Tested<T>(s: seq<T>, p: T -> bool): (t: seq<T>)
    ensures t <= s
    ensures AllPass(s, p) ==> t == s
    ensures !AllPass(s, p) ==> |t| > 0 && !p(t[|t| - 1]) && AllPass(t[..|t| - 1], p)
  {
    var k := FirstFailure(s, p);
    if k < |s| then s[..k + 1] else s
  }

  /** What the ForAll loop as written computes: the result starts false, so an empty source gives false. */
  ghost predicate ForAllAsWritten<T>(s: seq<T>, p: T -> bool)
  {
    |s| > 0 && AllPass(s, p)
  }

  /** The as-written result differs from "every element passes" on exactly the empty source. */
  lemma ForAllAsWrittenDiffersOnlyOnEmpty<T>(s: seq<T>, p: T -> bool)
    ensures ForAllAsWritten(s, p) != AllPass(s, p) <==> s == []
  {
  }
}
