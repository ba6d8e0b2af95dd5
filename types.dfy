/** Fixed-width integers of the firmware and the small option type used for
    "this key may be absent". */
module Types {

  datatype Option<+T> = None | Some(value: T) {
    /** The value, or `default` when absent (ArduinoJson's `doc[key] | default`). */
    function GetOr(default: T): T {
      match this
      case Some(v) => v
      case None => default
    }
  }

  type uint8 = x: int | 0 <= x < 0x100
  type uint16 = x: int | 0 <= x < 0x1_0000
  type uint32 = x: int | 0 <= x < 0x1_0000_0000
  type uint64 = x: int | 0 <= x < 0x1_0000_0000_0000_0000
  type int32 = x: int | -0x8000_0000 <= x < 0x8000_0000

  /** `x++` on a `uint64`: wraps to 0 past the largest value. */
  function Inc64(x: uint64): (r: uint64)
    ensures x < 0xFFFF_FFFF_FFFF_FFFF ==> r == x + 1
    ensures x == 0xFFFF_FFFF_FFFF_FFFF ==> r == 0
  {
    if x == 0xFFFF_FFFF_FFFF_FFFF then 0 else x + 1
  }

  /** C's `/` on a non-negative divisor: truncates toward zero. */
  function CDiv(a: int, b: int): (q: int)
    requires b > 0
    ensures a >= 0 ==> q * b <= a < q * b + b
    ensures a < 0 ==> q * b - b < a <= q * b
  {
    if a >= 0 then a / b else -((-a) / b)
  }

  /** `(q * d + r) % d == r` for `0 <= r < d`. */
  lemma ModOfMultiplePlus(q: nat, d: nat, r: nat)
    requires 0 <= r < d
    ensures (q * d + r) % d == r
  {
    var x := q * d + r;
    assert x / d * d + x % d == x;
    MulMonotone(x / d + 1, q, d);
    MulMonotone(q + 1, x / d, d);
  }

  /** Multiplying by a non-negative factor keeps order. */
  lemma MulMonotone(a: int, b: int, d: nat)
    ensures a <= b ==> a * d <= b * d
  {
  }

  /** The remainder of a successor: one more, or 0 on reaching `d`. */
  lemma ModSucc(a: nat, d: nat)
    requires 0 < d
    ensures (a + 1) % d == if a % d + 1 < d then a % d + 1 else 0
  {
    var q, r := a / d, a % d;
    assert a == q * d + r;
    if r + 1 < d {
      assert a + 1 == q * d + (r + 1);
      ModOfMultiplePlus(q, d, r + 1);
    } else {
      assert a + 1 == (q + 1) * d + 0;
      ModOfMultiplePlus(q + 1, d, 0);
    }
  }
}
