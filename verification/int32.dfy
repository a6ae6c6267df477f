/** Rust's `i32` and `u8` as Dafny subset types, the `/` operator Rust uses on
    `i32` (truncating toward zero), and the big-endian two's-complement byte
    layout that tokio's `read_i32` and `write_i32` use. */
module Int32 {

  type Byte = b: int | 0 <= b < 0x100

  type I32 = x: int | -0x8000_0000 <= x < 0x8000_0000

  predicate IsI32(x: int) {
    -0x8000_0000 <= x < 0x8000_0000
  }

  /** `n / d` as Rust computes it for a positive divisor: the quotient is
      truncated toward zero (Dafny's own `/` is Euclidean and would give -2
      for -5 / 3), so it never lies farther from zero than `n` itself. */
  function DivTrunc(n: int, d: int): (r: int)
    requires d > 0
    ensures 0 <= n ==> 0 <= r <= n
    ensures n < 0 ==> n <= r <= 0
  {
    if 0 <= n then NatDiv(n, d); n / d else NatDiv(-n, d); -((-n) / d)
  }

  /** The remainder `n - r * d` left by DivTrunc has the sign of `n` and is
      smaller than `d` in magnitude: the defining property of truncating
      division (DivTruncUnique shows nothing else has it). */
  lemma DivTruncRemainder(n: int, d: int)
    requires d > 0
    ensures 0 <= n ==> 0 <= n - DivTrunc(n, d) * d < d
    ensures n < 0 ==> -d < n - DivTrunc(n, d) * d <= 0
  {
    if 0 <= n {
      NatDiv(n, d);
    } else {
      NatDiv(-n, d);
    }
  }

  lemma NatDiv(m: nat, d: int)
    requires d > 0
    ensures 0 <= m - (m / d) * d < d
    ensures 0 <= m / d <= m
  {
    var q := m / d;
    assert m == q * d + m % d;
    if q > 0 {
      MulMonotone(1, d, q);
    }
  }

  /** The remainder conditions of DivTruncRemainder determine the quotient:
      any `r` that leaves a remainder of `n`'s sign and smaller than `d` is
      DivTrunc. */
  lemma DivTruncUnique(n: int, d: int, r: int)
    requires d > 0
    requires 0 <= n ==> 0 <= n - r * d < d
    requires n < 0 ==> -d < n - r * d <= 0
    ensures r == DivTrunc(n, d)
  {
    var q := DivTrunc(n, d);
    DivTruncRemainder(n, d);
    if r < q {
      MulMonotone(r + 1, q, d);
      MulSucc(r, d);
    } else if q < r {
      MulMonotone(q + 1, r, d);
      MulSucc(q, d);
    }
  }

  lemma MulSucc(a: int, d: int)
    ensures (a + 1) * d == a * d + d
  {
  }

  lemma MulMonotone(a: int, b: int, d: int)
    requires a <= b && d > 0
    ensures a * d <= b * d
  {
    assert b * d - a * d == (b - a) * d;
  }

  /** A truncated quotient of a value that lies between `d * lo` and `d * hi`
      lies between `lo` and `hi`: the integer mean of values in `[lo, hi]`
      stays in `[lo, hi]`. */
  lemma DivTruncBetween(n: int, d: int, lo: int, hi: int)
    requires d > 0
    requires d * lo <= n <= d * hi
    ensures lo <= DivTrunc(n, d) <= hi
  {
    var r := DivTrunc(n, d);
    DivTruncRemainder(n, d);
    if hi < r {
      MulMonotone(hi + 1, r, d);
      MulSucc(hi, d);
    }
    if r < lo {
      MulMonotone(r + 1, lo, d);
      MulSucc(r, d);
    }
  }

  /** `write_i32`: the four bytes of `x` in two's complement, most
      significant first. */
  function ToBigEndian(x: I32): (b: seq<Byte>)
    ensures |b| == 4
    ensures x < 0 <==> b[0] >= 0x80
  {
    var u := if x < 0 then x + 0x1_0000_0000 else x;
    var u1 := u / 0x100;
    var u2 := u1 / 0x100;
    [u2 / 0x100, u2 % 0x100, u1 % 0x100, u % 0x100]
  }

  /** `read_i32`: four bytes, most significant first, read as a two's
      complement 32-bit integer; the top bit of the first byte is the sign. */
  function FromBigEndian(b: seq<Byte>): (x: I32)
    requires |b| == 4
    ensures x < 0 <==> b[0] >= 0x80
  {
    var u := ((b[0] as int * 0x100 + b[1] as int) * 0x100 + b[2] as int) * 0x100 + b[3] as int;
    if u < 0x8000_0000 then u else u - 0x1_0000_0000
  }

  /** Splitting off the low byte of a number. */
  lemma SplitByte(x: int, high: int, low: int)
    requires 0 <= low < 0x100
    requires x == high * 0x100 + low
    ensures x / 0x100 == high && x % 0x100 == low
  {
  }

  /** Reading back what `write_i32` wrote gives the same integer, for every
      i32 including the extremes. */
  lemma FromToBigEndian(x: I32)
    ensures FromBigEndian(ToBigEndian(x)) == x
  {
    var u := if x < 0 then x + 0x1_0000_0000 else x;
    var u1 := u / 0x100;
    var u2 := u1 / 0x100;
    assert u == u1 * 0x100 + u % 0x100;
    assert u1 == u2 * 0x100 + u1 % 0x100;
    assert u2 == (u2 / 0x100) * 0x100 + u2 % 0x100;
  }

  /** Every four bytes are the encoding of exactly one i32: writing back what
      was read reproduces the bytes. */
  lemma ToFromBigEndian(b: seq<Byte>)
    requires |b| == 4
    ensures ToBigEndian(FromBigEndian(b)) == b
  {
    var u2 := b[0] as int * 0x100 + b[1] as int;
    var u1 := u2 * 0x100 + b[2] as int;
    var u := u1 * 0x100 + b[3] as int;
    SplitByte(u, u1, b[3]);
    SplitByte(u1, u2, b[2]);
    SplitByte(u2, b[0], b[1]);
  }
}
