/** The few pieces of JavaScript semantics the board code leans on:
    `undefined`, the two ways a step can throw, reading an array element,
    and drawing array elements with a random index. */
module Js {

  /** A JavaScript value that may be `undefined` (None). */
  datatype Option<+T> = None | Some(value: T)

  /** Why an operation rejected: the HTTP request failed (axios rejects on a
      transport error or a non-2xx status), or a property was read off
      `undefined`. */
  datatype Failure = RequestFailed | TypeError

  /** The value of an awaited promise: resolved with a value, or rejected. */
  datatype Result<+T> = Ok(value: T) | Err(error: Failure)

  /** Completion of an async function that resolves with nothing. */
  datatype Outcome = Pass | Fail(error: Failure)

  /** `s[i]` on a JavaScript array: past the end it reads `undefined`. */
  function Lookup<T>(s: seq<T>, i: nat): (r: Option<T>)
    ensures r.Some? <==> i < |s|
    ensures r.Some? ==> r.value == s[i]
  {
    if i < |s| then Some(s[i]) else None
  }

  /** `Math.floor(Math.random() * n)` can yield `i`: an index below `n`; for
      an empty array the product is 0, so the index is 0. */
  predicate IsDraw(i: nat, n: nat) {
    i < n || (n == 0 && i == 0)
  }

  /** One `pool[Math.floor(Math.random() * n)]` per draw in `picks`, in order. */
  function Sample<T>(pool: seq<T>, picks: seq<nat>): (r: seq<Option<T>>)
    ensures |r| == |picks| && forall k :: 0 <= k < |picks| ==> r[k] == Lookup(pool, picks[k])
  {
    seq(|picks|, k requires 0 <= k < |picks| => Lookup(pool, picks[k]))
  }
}
