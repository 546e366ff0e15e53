/** What the other modules share. */
module Common {

  datatype Option<+T> = None | Some(value: T) {
    function GetOr(default: T): T {
      match this
      case None => default
      case Some(v) => v
    }
  }

  /** The source's `Result`: a value or the error returned instead. */
  datatype Result<+T, +E> = Ok(value: T) | Err(error: E)

  /** The largest `usize` of a 64-bit target. */
  const USIZE_MAX: nat := 0xFFFF_FFFF_FFFF_FFFF

  /** Concatenation is associative; stated once so that proofs need not search for it. */
  lemma Associative<T>(a: seq<T>, b: seq<T>, c: seq<T>)
    ensures a + (b + c) == (a + b) + c
  {
  }
}
