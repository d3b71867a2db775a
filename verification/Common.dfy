/** What the whole model shares. */
module Common {

  datatype Option<+T> = None | Some(value: T)

  /** A returned value, or the exception the source raises instead. */
  datatype Result<+T, +E> = Ok(value: T) | Err(error: E)

  function One(b: bool): nat {
    if b then 1 else 0
  }

  ghost predicate Distinct<T>(s: seq<T>) {
    forall i, j :: 0 <= i < j < |s| ==> s[i] != s[j]
  }
}
