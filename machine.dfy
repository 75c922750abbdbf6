/**
 * Fixed-width integer arithmetic of the C/C++ programs: int8_t samples and
 * uint32_t rates, written out explicitly over Dafny's unbounded integers.
 */
module Machine {

  /** A value of C's int8_t. */
  type Int8 = x: int | -128 <= x <= 127

  /** A value of C's uint32_t. */
  type U32 = x: int | 0 <= x < 0x1_0000_0000

  const TWO32: int := 0x1_0000_0000

  /** Conversion of an int to uint32_t: reduction modulo 2^32. */
  function ToU32(x: int): (r: U32)
    ensures (x - r) % TWO32 == 0
    ensures 0 <= x < TWO32 ==> r == x
  {
    x % TWO32
  }

  /** Conversion of an int to int8_t (two's complement wrap, as gcc does). */
  function ToInt8(x: int): (r: Int8)
    ensures (x - r) % 256 == 0
    ensures -128 <= x <= 127 ==> r == x
  {
    (x + 128) % 256 - 128
  }

  /** Conversion of a non-negative real `num / den` to an integer type: truncation toward zero. */
  function Truncate(num: nat, den: nat): nat
    requires den > 0
  {
    num / den
  }

  /** The remainder of `x` by `d` is the `r` of any decomposition `q * d + r` with `0 <= r < d`. */
  lemma ModUnique(x: int, d: int, q: int, r: int)
    requires d > 0 && 0 <= r < d && x == q * d + r
    ensures x % d == r && x / d == q
  {
    var q0, r0 := x / d, x % d;
    assert (q - q0) * d == r0 - r by {
      assert q0 * d + r0 == q * d + r;
      assert (q - q0) * d == q * d - q0 * d;
    }
    if q0 < q {
      assert (q - q0) * d >= d by { MulAtLeastOnce(q - q0, d); }
      assert false;
    } else if q0 > q {
      assert (q0 - q) * d >= d by { MulAtLeastOnce(q0 - q, d); }
      assert false;
    }
  }

  lemma MulAtLeastOnce(a: int, d: int)
    requires a >= 1 && d > 0
    ensures a * d >= d
  {
  }

  /** Reducing first modulo a multiple of `d` does not change the remainder by `d`. */
  lemma ModOfMultipleMod(x: nat, d: nat, n: nat)
    requires d > 0 && n > 0 && n % d == 0
    ensures (x % n) % d == x % d
  {
    var c := n / d;
    assert n == c * d by { ModUnique(n, d, n / d, 0); }
    var q, r := x / n, x % n;
    assert x == q * n + r;
    assert x == (q * c) * d + r by {
      assert q * n == q * (c * d) == (q * c) * d;
    }
    var r1 := r % d;
    assert r == (r / d) * d + r1;
    assert x == (q * c + r / d) * d + r1 by {
      assert (q * c) * d + (r / d) * d == (q * c + r / d) * d;
    }
    ModUnique(x, d, q * c + r / d, r1);
  }

  /** `n` is odd exactly when its predecessor is even. */
  lemma ParityOfPredecessor(n: nat)
    requires n > 0
    ensures (n - 1) % 2 == 0 <==> n % 2 == 1
  {
    var q, r := (n - 1) / 2, (n - 1) % 2;
    if r == 0 {
      ModUnique(n, 2, q, 1);
    } else {
      ModUnique(n, 2, q + 1, 0);
    }
  }
}
