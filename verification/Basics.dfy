/** What several components share: bytes, optional values, conversions, and facts about products and quotients. */
module Basics {
  const CAMERA_WIDTH := 2592
  const CAMERA_HEIGHT := 1944

  type byte = x: int | 0 <= x < 256

  datatype Option<T> = None | Some(value: T)

  /** Conversion of a double to int. */
  function Truncate(x: real): int { if x >= 0.0 then x.Floor else -((-x).Floor) }

  /** Into the range of a mirror axis. */
  function Clamp(x: real): real { if x > 1.0 then 1.0 else if x < -1.0 then -1.0 else x }

  function Pow2(k: nat): (p: nat) ensures p > 0 { if k == 0 then 1 else 2 * Pow2(k - 1) }

  lemma MulMono(a: int, b: int, c: nat)
    requires a <= b
    ensures a * c <= b * c
  {}

  /** Different multiples of w are at least w apart. */
  lemma {:induction false} Gap(w: nat, low: int, high: int)
    ensures low < high ==> w * high >= w * low + w
    decreases high - low
  {
    if low < high {
      Gap(w, low, high - 1);
      assert w * high == w * (high - 1) + w;
    }
  }

  lemma Quotient(a: int, b: nat, q: int, r: nat)
    requires r < b && a == b * q + r
    ensures a / b == q && a % b == r
  {
    var q', r' := a / b, a % b;
    assert a == b * q' + r';
    Gap(b, q, q');
    Gap(b, q', q);
  }
}
