/** Byte strings and the big-endian integers written into them. */
module Octets {
  newtype byte = x: int | 0 <= x < 256

  type Bytes = seq<byte>

  ghost function Power(exponent: nat): (p: nat)
    ensures p > 0
  {
    if exponent == 0 then 1 else 256 * Power(exponent - 1)
  }

  /** The low `width` bytes of `value`, the most significant first; higher ones are cut off, as a Go conversion does. */
  function BigEndian(value: nat, width: nat): (b: Bytes)
    ensures |b| == width
  {
    if width == 0 then [] else BigEndian(value / 256, width - 1) + [(value % 256) as byte]
  }

  function Number(b: Bytes): nat {
    if b == [] then 0 else 256 * Number(b[..|b| - 1]) + b[|b| - 1] as nat
  }

  lemma {:induction false} NumberOfBigEndian(value: nat, width: nat)
    requires value < Power(width)
    ensures Number(BigEndian(value, width)) == value
  {
    if width > 0 {
      var high, low := BigEndian(value / 256, width - 1), (value % 256) as byte;
      assert (high + [low])[..width - 1] == high;
      NumberOfBigEndian(value / 256, width - 1);
    }
  }

  lemma {:induction false} BigEndianOfNumber(b: Bytes)
    ensures Number(b) < Power(|b|)
    ensures BigEndian(Number(b), |b|) == b
  {
    if b != [] {
      BigEndianOfNumber(b[..|b| - 1]);
      assert b == b[..|b| - 1] + [b[|b| - 1]];
    }
  }

  lemma {:induction false} AtLeastOnce(d: nat, m: nat)
    requires d > 0
    ensures d * m >= m
  {
    if d > 1 {
      AtLeastOnce(d - 1, m);
      assert d * m == (d - 1) * m + m;
    }
  }

  lemma Distribute(a: int, b: int, m: int)
    ensures (a - b) * m == a * m - b * m
  {
  }

  lemma OnlyZeroFits(q: int, k: int, m: int)
    requires m > 0 && -m < q * m - k * m < m
    ensures q == k
  {
    if q > k {
      AtLeastOnce(q - k, m);
      Distribute(q, k, m);
    } else if q < k {
      AtLeastOnce(k - q, m);
      Distribute(k, q, m);
    }
  }

  lemma Remainder(value: nat, m: nat, q: nat, r: nat)
    requires m > 0 && value == q * m + r && r < m
    ensures value % m == r
  {
    var k, rest := value / m, value % m;
    assert value == k * m + rest;
    assert q * m - k * m == rest - r;
    OnlyZeroFits(q, k, m);
  }

  lemma SplitModulo(value: nat, m: nat)
    requires m > 0
    ensures (value % (256 * m)) / 256 == (value / 256) % m
    ensures (value % (256 * m)) % 256 == value % 256
  {
    var q, r := value / 256 / m, value / 256 % m;
    var low := value % 256;
    assert value / 256 == q * m + r;
    assert value == 256 * (value / 256) + low;
    assert value == q * (256 * m) + (256 * r + low) by {
      assert 256 * (q * m) == q * (256 * m);
    }
    assert r <= m - 1;
    assert 0 <= 256 * r + low < 256 * m;
    Remainder(value, 256 * m, q, 256 * r + low);
  }

  /** Only the remainder modulo `Power(width)` is written: a wrapped counter is encoded like an unbounded one. */
  lemma {:induction false} BigEndianWraps(value: nat, width: nat)
    ensures BigEndian(value % Power(width), width) == BigEndian(value, width)
  {
    if width > 0 {
      SplitModulo(value, Power(width - 1));
      BigEndianWraps(value / 256, width - 1);
    }
  }
}
