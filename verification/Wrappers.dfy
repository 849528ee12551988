/** What the other modules share: options, results, distinctness, Go's int. */
module Wrappers {
  datatype Option<+T> = None | Some(value: T)

  datatype Result<+T, +E> = Ok(value: T) | Err(error: E)

  ghost predicate Distinct<T>(s: seq<T>) {
    forall i, j :: 0 <= i < j < |s| ==> s[i] != s[j]
  }

  /** Go's int on the platforms the program is built for. */
  type GoInt = n: int | -0x8000_0000_0000_0000 <= n < 0x8000_0000_0000_0000
}
