/**
 * Unsigned 8-bit arithmetic shared by the LED modules: the byte type and the
 * saturating (FastLED qadd8/qsub8) and wrapping (uint8_t +=) operations.
 */
module Bytes {

  /** An unsigned 8-bit value, as held in a uint8_t. */
  type byte = b: int | 0 <= b < 256

  /** Addition as performed by `uint8_t x += y`: modulo 256. */
  function Wrap8(x: int): (r: byte)
    ensures r % 256 == x % 256
    ensures 0 <= x < 256 ==> r == x
  {
    x % 256
  }

  /** Adding to a wrapped value wraps the same as adding first. */
  lemma WrapAdd(x: nat, y: nat)
    ensures Wrap8(Wrap8(x) + y) == Wrap8(x + y)
  {
    assert (x % 256 + y) % 256 == (x + y) % 256;
  }

  /** Values less than 256 apart wrap to different bytes. */
  lemma WrapDistinct(x: nat, d: nat)
    requires 0 < d < 256
    ensures Wrap8(x + d) != Wrap8(x)
  {
    assert x == 256 * (x / 256) + x % 256;
    if x % 256 + d < 256 {
      assert (x + d) % 256 == x % 256 + d;
    } else {
      assert (x + d) % 256 == x % 256 + d - 256;
    }
  }

  /** Saturating add: the sum clamped at 255 (FastLED qadd8). */
  function QAdd8(a: byte, b: byte): (r: byte)
    ensures r == a + b || (r == 255 && a + b > 255)
    ensures a <= r && b <= r
  {
    if a + b > 255 then 255 else a + b
  }

  /** Saturating subtract: the difference clamped at 0 (FastLED qsub8). */
  function QSub8(a: byte, b: byte): (r: byte)
    ensures r == a - b || (r == 0 && a < b)
    ensures r <= a
  {
    if a < b then 0 else a - b
  }

  function Min(a: int, b: int): (r: int)
    ensures r <= a && r <= b && (r == a || r == b)
  {
    if a < b then a else b
  }

  function Max(a: int, b: int): (r: int)
    ensures a <= r && b <= r && (r == a || r == b)
  {
    if a < b then b else a
  }
}
