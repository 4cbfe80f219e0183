/** Bytes as bit vectors and as numbers. */
module Bytes {

  type Byte = bv8

  /** The byte with a given value, built from its binary digits. */
  function ByteOf(n: int): (b: Byte)
    requires 0 <= n < 256
    ensures b as int == n
  {
    if n == 0 then 0
    else
      var half := ByteOf(n / 2);
      TwiceByte(half, n / 2);
      if n % 2 == 1 then (half << 1) | 1 else half << 1
  }

  lemma TwiceByte(h: Byte, n: int)
    requires h as int == n < 128
    ensures (h << 1) as int == 2 * n && ((h << 1) | 1) as int == 2 * n + 1
  {
  }

  lemma SameValueSameByte(x: Byte, y: Byte)
    requires x as int == y as int
    ensures x == y
  {
    assert (x as int) as Byte == x;
  }

  lemma ByteOfValue(b: Byte)
    ensures 0 <= b as int < 256 && ByteOf(b as int) == b
  {
    hide ByteOf;
    SameValueSameByte(ByteOf(b as int), b);
  }
}
