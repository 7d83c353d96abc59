/** Optional values, results, and the truthiness tests the recommender applies
    to its optional request parameters. */
module Common {

  /** A value that may be absent (`None` in the recommender's request). */
  datatype Option<+T> = None | Some(value: T)

  /** The outcome of an operation that can fail. */
  datatype Result<+R, +E> = Success(value: R) | Failure(error: E)

  /** A numeric option is truthy when present and non-zero: a budget of `None`
      or of `0` imposes no limit. */
  predicate IsSet(x: Option<real>)
  {
    x.Some? && x.value != 0.0
  }

  /** A text option is truthy when present and non-empty. */
  predicate IsGiven(x: Option<string>)
  {
    x.Some? && |x.value| > 0
  }

  function Min(a: int, b: int): int
  {
    if a <= b then a else b
  }
}
