/** Python's `random.choice`, with the choice left open: only membership
    of the chosen element is modelled, not its distribution. */
module RandomChoice {
  import opened Wrappers
  import opened Exceptions

  /** `random.choice(s)`: some element of `s`, or `IndexError` when `s` is
      empty. */
  method Choice<T>(s: seq<T>) returns (r: Result<T, Error>)
    ensures r.Failure? <==> |s| == 0
    ensures r.Failure? ==> r.error == IndexError
    ensures r.Success? ==> r.value in s
  {
    if |s| == 0 {
      return Failure(IndexError);
    }
    var i :| 0 <= i < |s|;
    return Success(s[i]);
  }
}
