/** Values shared by every stage: optional values, the exceptions the script can
    raise, and Python's sequence indexing. */
module Common {

  datatype Option<+T> = None | Some(value: T)

  /** The Python exceptions the script can raise on its own data. Any of them ends the run. */
  datatype Crash = IndexError | KeyError | ValueError

  datatype Result<+T> = Ok(value: T) | Err(error: Crash)

  /** Python's `s[i]`: a negative index counts from the end; anything else out of
      range is an IndexError (None). */
  function PyIndex<T>(s: seq<T>, i: int): Option<T>
  {
    if 0 <= i < |s| then Some(s[i])
    else if -|s| <= i < 0 then Some(s[|s| + i])
    else None
  }

  /** Number of elements of `s` that satisfy `p`. */
  function CountWhere<T>(s: seq<T>, p: T -> bool): nat
  {
    if s == [] then 0 else CountWhere(s[..|s| - 1], p) + (if p(s[|s| - 1]) then 1 else 0)
  }
}
