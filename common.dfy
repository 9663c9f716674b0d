/**
 * Small value types shared by every part of the crawler model.
 */
module Common {

  /** A value that may be absent (JavaScript's `undefined`). */
  datatype Option<+T> = None | Some(value: T)

  /**
   * How a call of an asynchronous operation ends, as far as its caller can see.
   * - Returned: the promise resolves with `value`;
   * - Threw: the promise rejects (an exception propagates to the caller);
   * - Running: the operation has not returned: a retry loop whose every attempt
   *   fails never ends, and a walk still going after the modelled page budget
   *   is reported this way too.
   */
  datatype Outcome<+T> = Returned(value: T) | Threw | Running

  /** Concatenation is associative (stated once so that long proofs need not rediscover it). */
  lemma Associative<T>(a: seq<T>, b: seq<T>, c: seq<T>)
    ensures (a + b) + c == a + (b + c)
  {
  }
}
