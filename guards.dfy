/**
 * The argument guards of the operator library and the kinds of exception
 * the operators raise.  Each guard is stateless: it looks at which
 * arguments are null and names the first one it finds, the source always
 * before the callback.
 */
module Guards {
  import opened Wrappers

  /** The parameter an `ArgumentNullException` names. */
  datatype Param = Source | Transformer | Predicate

  /** The exceptions the operators themselves raise. */
  datatype Error = ArgumentNull(param: Param) | InvalidCast

  /**
   * Guard shared by Transform and both SortBy overloads: source first,
   * then the callback (whose parameter is called `transformer` here,
   * whatever the caller's name for it).
   */
  function CheckForExceptions<T1, T2>(source: Option<seq<T1>>, transformer: Option<T1 -> T2>): (r: Outcome<Error>)
    ensures r == Pass <==> source.Some? && transformer.Some?
    ensures source.None? ==> r == Fail(ArgumentNull(Source))
    ensures source.Some? && transformer.None? ==> r == Fail(ArgumentNull(Transformer))
  {
    if source.None? then Fail(ArgumentNull(Source))
    else if transformer.None? then Fail(ArgumentNull(Transformer))
    else Pass
  }

  /** Guard of CastTo: only the source can be null. */
  function CheckCastForNull<T>(source: Option<seq<T>>): (r: Outcome<Error>)
    ensures r == Pass <==> source.Some?
    ensures r != Pass ==> r == Fail(ArgumentNull(Source))
  {
    if source.None? then Fail(ArgumentNull(Source)) else Pass
  }

  /** Guard shared by Filter and ForAll: source first, then the predicate. */
  function CheckForFilterExceptions<T>(source: Option<seq<T>>, pred: Option<T -> bool>): (r: Outcome<Error>)
    ensures r == Pass <==> source.Some? && pred.Some?
    ensures source.None? ==> r == Fail(ArgumentNull(Source))
    ensures source.Some? && pred.None? ==> r == Fail(ArgumentNull(Predicate))
  {
    if source.None? then Fail(ArgumentNull(Source))
    else if pred.None? then Fail(ArgumentNull(Predicate))
    else Pass
  }
}
