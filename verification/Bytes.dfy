/** Bytes, fixed-width integers and their little-endian layout, as every stream of the server uses them. */
module Bytes {
  type uint8 = x: int | 0 <= x < 0x100
  type uint16 = x: int | 0 <= x < 0x1_0000
  type uint32 = x: int | 0 <= x < 0x1_0000_0000
  type uint64 = x: int | 0 <= x < 0x1_0000_0000_0000_0000

  type int64 = x: int | -0x8000_0000_0000_0000 <= x < 0x8000_0000_0000_0000

  type bytes = seq<uint8>

  /** The number of values that fit in `width` bytes. */
  function Limit(width: nat): (n: nat)
    ensures n > 0
  {
    if width == 0 then 1 else 0x100 * Limit(width - 1)
  }

  lemma Limits()
    ensures Limit(1) == 0x100 && Limit(2) == 0x1_0000 && Limit(4) == 0x1_0000_0000
    ensures Limit(8) == 0x1_0000_0000_0000_0000
  {
  }

  /** The `width` low bytes of `v`, least significant first: what `bit_cast` gives on the target. */
  function Le(v: nat, width: nat): (b: bytes)
    ensures |b| == width
  {
    if width == 0 then [] else [v % 0x100] + Le(v / 0x100, width - 1)
  }

  /** Byte `i` holds the digit of 256 to the power `i`. */
  lemma {:induction false} LeAt(v: nat, width: nat, i: nat)
    requires i < width
    ensures Le(v, width)[i] == v / Limit(i) % 0x100
  {
    if i > 0 {
      LeAt(v / 0x100, width - 1, i - 1);
      DivideTwice(v, Limit(i - 1));
    }
  }

  lemma DivideTwice(v: nat, n: nat)
    requires n > 0
    ensures v / 0x100 / n == v / (0x100 * n)
  {
    var q := v / (0x100 * n);
    var r := v % (0x100 * n);
    assert v == 0x100 * n * q + r;
    assert v / 0x100 == n * q + r / 0x100 by {
      assert v == 0x100 * (n * q) + r;
    }
    assert r / 0x100 < n;
    QuotientIs(n * q + r / 0x100, n, q, r / 0x100);
  }

  lemma QuotientIs(x: nat, n: nat, q: nat, r: nat)
    requires n > 0 && x == n * q + r && r < n
    ensures x / n == q
  {
    var p := x / n;
    assert x == n * p + x % n;
    if p < q {
      OneMoreTimes(n, p, q);
    } else if p > q {
      OneMoreTimes(n, q, p);
    }
  }

  lemma {:induction false} OneMoreTimes(n: nat, a: nat, b: nat)
    requires a < b
    ensures n * a + n <= n * b
  {
    assert n * b == n * (b - 1) + n;
    if a < b - 1 {
      OneMoreTimes(n, a, b - 1);
    }
  }

  function FromLe(b: bytes): (v: nat)
    ensures v < Limit(|b|)
  {
    if b == [] then 0 else b[0] + 0x100 * FromLe(b[1..])
  }

  lemma {:induction false} FromLeLe(v: nat, width: nat)
    requires v < Limit(width)
    ensures FromLe(Le(v, width)) == v
  {
    if width > 0 {
      FromLeLe(v / 0x100, width - 1);
      assert Le(v, width)[1..] == Le(v / 0x100, width - 1);
    }
  }

  /** The unsigned image of a signed value of `width` bytes (two's complement). */
  function ToUnsigned(v: int, width: nat): (u: nat)
    requires 0 <= 2 * v + Limit(width) < 2 * Limit(width)
    ensures u < Limit(width)
  {
    if v < 0 then v + Limit(width) else v
  }

  function ToSigned(u: nat, width: nat): (v: int)
    requires u < Limit(width)
    ensures 0 <= 2 * v + Limit(width) < 2 * Limit(width)
  {
    if 2 * u < Limit(width) then u else u - Limit(width)
  }
}
