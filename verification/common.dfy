/** Shared result shapes: an optional value, an HTTP error as the web framework
    reports it (status code plus detail text), and a failure-compatible Result. */
module Common {

  datatype Option<+T> = None | Some(value: T)

  /** An error response: the HTTP status code and the `detail` text of the exception. */
  datatype HttpError = HttpError(status: int, detail: string)

  /** Either a value or the HTTP error that the handler raised. */
  datatype Result<+T> = Ok(value: T) | Err(error: HttpError) {

    predicate IsFailure() {
      Err?
    }

    function PropagateFailure<U>(): Result<U>
      requires Err?
    {
      Err(error)
    }

    function Extract(): T
      requires Ok?
    {
      value
    }
  }

  /** What the server answers when a handler raises something other than an
      HTTP exception (a TypeError, a ValueError, a JSON decoding error). */
  const InternalError: HttpError := HttpError(500, "Internal Server Error")

  /** What the framework answers when a request body fails schema validation. */
  const ValidationError: HttpError := HttpError(422, "Unprocessable Entity")

  /** One byte of binary data. */
  type byte = x: int | 0 <= x < 256

  /** The text `q` occurs in `t` starting at position `k`. */
  predicate OccursAt(t: string, q: string, k: nat) {
    k + |q| <= |t| && t[k..k + |q|] == q
  }

  /** A character with ASCII upper-case letters mapped to lower case; every
      other character is kept. */
  function FoldAscii(c: char): char {
    if 'A' <= c <= 'Z' then (c as int + 32) as char else c
  }

  /** A text with its ASCII letters lower-cased, character by character. */
  function LowerAscii(s: string): (r: string)
    ensures |r| == |s|
    ensures forall i | 0 <= i < |s| :: r[i] == FoldAscii(s[i])
  {
    seq(|s|, i requires 0 <= i < |s| => FoldAscii(s[i]))
  }

  /** Python's truthiness of an optional string: None and "" are both falsy. */
  predicate Truthy(s: Option<string>) {
    s.Some? && |s.value| > 0
  }
}
