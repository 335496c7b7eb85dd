/** Failure-carrying results, and the facts about concatenation, used throughout the model. */
module Wrappers {

  datatype Option<+T> = None | Some(value: T)

  datatype Result<+T, +E> = Ok(value: T) | Err(error: E)

  /** Writing `a` and then `b` after `o` leaves the same as writing `a + b`: concatenation does not care how it is grouped. */
  lemma Appended<T>(o: seq<T>, a: seq<T>, b: seq<T>)
    ensures o + a + b == o + (a + b)
  {
  }

  /** A sequence that is not empty is its first element followed by the rest. */
  lemma Uncons<T>(s: seq<T>)
    requires s != []
    ensures [s[0]] + s[1..] == s
  {
  }
}
