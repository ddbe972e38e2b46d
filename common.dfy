/** Shared value types: an optional value, a result with an error, and the
    errors the modelled code reports. */
module Common {

  datatype Option<+T> = None | Some(value: T)

  datatype Result<+T> = Ok(value: T) | Err(error: Error)

  /** A bare success-or-failure outcome, as Go's `error` return (nil or not). */
  datatype Outcome = Pass | Fail(error: Error) {
    /** The Go `error` value: nil (None) on success. */
    function AsError(): Option<Error> {
      if Pass? then None else Some(error)
    }
  }

  /** The errors of the modelled code. Errors produced by SQLite, by a
      caller's function or by another library are opaque `Driver` codes. */
  datatype Error =
    | Driver(code: nat)
    | TransactionAborted
    | AlreadyAborted
    | InvalidJSONValue
    | UnsupportedValue
    | AlreadyExists(pk: string, sk: string)
    | NoMatchingRow

  /** The rows a database cursor yields when it fails after `stop` rows,
      if it does: the first ones, in order. The modelled code never asks the
      cursor for its error, so a failure goes unnoticed. */
  function Delivered<T>(rows: seq<T>, stop: Option<nat>): (r: seq<T>)
    ensures |r| <= |rows| && r == rows[..|r|]
    ensures stop.None? || stop.value >= |rows| ==> r == rows
    ensures stop.Some? && stop.value < |rows| ==> |r| == stop.value
  {
    if stop.Some? && stop.value < |rows| then rows[..stop.value] else rows
  }

  /** Regrouping a concatenation of three sequences. */
  lemma Assoc<T>(a: seq<T>, b: seq<T>, c: seq<T>)
    ensures a + (b + c) == (a + b) + c
  {
  }

  /** The left part of a concatenation is a prefix of it. */
  lemma PrefixOfConcat<T>(a: seq<T>, b: seq<T>, c: seq<T>)
    requires a + b == c
    ensures |a| <= |c| && a == c[..|a|]
  {
    assert c[..|a|] == (a + b)[..|a|];
  }
}
