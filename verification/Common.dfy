/** Outcomes shared by every component. */
module Common {

  datatype Option<+T> = None | Some(value: T)

  /** The writer's error codes (errors.go), without the message text. */
  datatype Error =
    | InvalidArg
    | LimitExceeded
    | InvariantBroken
    | Io
    | Unsupported
    | AdoptFailed
    | CleanupFailed

  datatype Result<+T> = Ok(value: T) | Err(error: Error)

  type byte = b: int | 0 <= b < 256

  /** Value of key `k`, zero when absent: what reading a missing key of a Go map yields. */
  function Get<K>(m: map<K, nat>, k: K): nat {
    if k in m then m[k] else 0
  }

  lemma SubsetSize<T>(a: set<T>, b: set<T>)
    requires a <= b
    ensures |a| <= |b|
  {
    assert b == a + (b - a);
  }
}

/** Division facts the solver does not find by itself. */
module Arithmetic {

  lemma MultipleBounds(d: int, k: int)
    requires d > 0
    ensures k >= 1 ==> d * k >= d
    ensures k <= -1 ==> d * k <= -d
  {
  }

  /** Quotient and remainder are unique. */
  lemma UniqueMod(x: nat, d: nat, q: int, r: nat)
    requires d > 0 && x == d * q + r && r < d
    ensures x % d == r && x / d == q
  {
    MultipleBounds(d, q - x / d);
    assert d * (q - x / d) == x % d - r;
  }
}
