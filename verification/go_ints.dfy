/** Go's fixed-width integer semantics, stated over Dafny's unbounded integers.

    The generator works on `uint16` widths, `uint64` counters and `int64`
    nanosecond readings. Go wraps on overflow, shifts by a count of 64 or more
    give 0, and `|` is bitwise. This module writes each of those out
    explicitly so that the rest of the model can use plain `int` arithmetic. */
module GoInts {

  const U16_LIMIT: int := 0x1_0000
  const U64_LIMIT: int := 0x1_0000_0000_0000_0000
  const MAX_U64: int := 0xFFFF_FFFF_FFFF_FFFF
  const I64_HALF: int := 0x8000_0000_0000_0000

  type u16 = x: int | 0 <= x < 0x1_0000
  type u64 = x: int | 0 <= x < 0x1_0000_0000_0000_0000
  type i64 = x: int | -0x8000_0000_0000_0000 <= x < 0x8000_0000_0000_0000

  /** 2 to the power n. */
  function Pow2(n: nat): (r: nat)
    ensures r >= 1
  {
    if n == 0 then 1 else 2 * Pow2(n - 1)
  }

  lemma {:induction false} Pow2Add(a: nat, b: nat)
    ensures Pow2(a + b) == Pow2(a) * Pow2(b)
  {
    if a > 0 {
      Pow2Add(a - 1, b);
    }
  }

  lemma {:induction false} Pow2Monotone(a: nat, b: nat)
    requires a <= b
    ensures Pow2(a) <= Pow2(b)
  {
    if a < b {
      Pow2Monotone(a, b - 1);
    }
  }

  lemma Pow2Of16()
    ensures Pow2(8) == 0x100 && Pow2(16) == 0x1_0000
  {
    assert Pow2(4) == 0x10;
    Pow2Add(4, 4);
    Pow2Add(8, 8);
  }

  lemma Pow2Of32()
    ensures Pow2(31) == 0x8000_0000 && Pow2(32) == 0x1_0000_0000
  {
    Pow2Of16();
    Pow2Add(16, 16);
    assert Pow2(32) == 2 * Pow2(31);
  }

  lemma Pow2Of64()
    ensures Pow2(64) == U64_LIMIT
    ensures Pow2(63) == I64_HALF
  {
    Pow2Of32();
    Pow2Add(32, 32);
    assert Pow2(64) == 2 * Pow2(63);
  }

  /** True when x is representable as a Go int64. */
  predicate InI64(x: int) {
    -I64_HALF <= x < I64_HALF
  }

  /** Go's `a + b` on int64: two's-complement wrap-around. */
  function Add64(a: i64, b: i64): (r: i64)
    ensures InI64(a + b) ==> r == a + b
    ensures r == a + b || r == a + b - U64_LIMIT || r == a + b + U64_LIMIT
  {
    var x := a + b;
    if x >= I64_HALF then x - U64_LIMIT else if x < -I64_HALF then x + U64_LIMIT else x
  }

  /** Go's `a - b` on int64: two's-complement wrap-around. */
  function Sub64(a: i64, b: i64): (r: i64)
    ensures InI64(a - b) ==> r == a - b
    ensures r == a - b || r == a - b - U64_LIMIT || r == a - b + U64_LIMIT
  {
    var x := a - b;
    if x >= I64_HALF then x - U64_LIMIT else if x < -I64_HALF then x + U64_LIMIT else x
  }

  /** Go's `x++` on uint64. */
  function IncU64(x: u64): (r: u64)
    ensures r == (x + 1) % U64_LIMIT
  {
    if x == MAX_U64 then 0 else x + 1
  }

  /** Go's `x - 1` on uint64. */
  function DecU64(x: u64): (r: u64)
    ensures r == (x - 1) % U64_LIMIT
  {
    if x == 0 then MAX_U64 else x - 1
  }

  /** Go's conversion `uint64(x)` of an int64: negative values wrap. */
  function U64Of(x: i64): (r: u64)
    ensures r == x % U64_LIMIT
  {
    if x < 0 then x + U64_LIMIT else x
  }

  /** Modular wrap of a uint16 result (Go's `+` on uint16). */
  function WrapU16(x: int): (r: u16)
    ensures 0 <= x < U16_LIMIT ==> r == x
  {
    x % U16_LIMIT
  }

  /** Modular wrap of a uint64 product (Go's `*` on uint64). */
  function WrapU64(x: int): (r: u64)
    ensures 0 <= x < U64_LIMIT ==> r == x
  {
    x % U64_LIMIT
  }

  /** x shifted left by s binary places, without any width limit. */
  function ShiftLeft(x: nat, s: nat): (r: nat)
  {
    if s == 0 then x else 2 * ShiftLeft(x, s - 1)
  }

  /** x shifted right by s binary places (the quotient by 2^s). */
  function ShiftRight(x: nat, s: nat): (r: nat)
  {
    if s == 0 then x else ShiftRight(x / 2, s - 1)
  }

  /** The low s binary digits of x (the remainder modulo 2^s). */
  function LowBits(x: nat, s: nat): (r: nat)
  {
    if s == 0 then 0 else 2 * LowBits(x / 2, s - 1) + x % 2
  }

  lemma {:induction false} ShiftLeftOne(s: nat)
    ensures ShiftLeft(1, s) == Pow2(s)
  {
    if s > 0 {
      ShiftLeftOne(s - 1);
    }
  }

  lemma {:induction false} ShiftLeftIsProduct(x: nat, s: nat)
    ensures ShiftLeft(x, s) == x * Pow2(s)
  {
    if s > 0 {
      ShiftLeftIsProduct(x, s - 1);
    }
  }

  lemma {:induction false} ShiftLeftZero(s: nat)
    ensures ShiftLeft(0, s) == 0
  {
    if s > 0 {
      ShiftLeftZero(s - 1);
    }
  }

  lemma {:induction false} ShiftLeftAdd(x: nat, a: nat, b: nat)
    ensures ShiftLeft(x, a + b) == ShiftLeft(ShiftLeft(x, a), b)
  {
    if b > 0 {
      ShiftLeftAdd(x, a, b - 1);
    }
  }

  lemma {:induction false} ShiftLeftSum(x: nat, y: nat, s: nat)
    ensures ShiftLeft(x + y, s) == ShiftLeft(x, s) + ShiftLeft(y, s)
  {
    if s > 0 {
      ShiftLeftSum(x, y, s - 1);
    }
  }

  /** Shifting keeps a value below the correspondingly shifted bound. */
  lemma {:induction false} ShiftLeftBound(x: nat, m: nat, s: nat)
    requires x < Pow2(m)
    ensures ShiftLeft(x, s) < Pow2(m + s)
  {
    if s > 0 {
      ShiftLeftBound(x, m, s - 1);
    }
  }

  lemma {:induction false} ShiftLeftMonotone(x: nat, y: nat, s: nat)
    requires x <= y
    ensures ShiftLeft(x, s) <= ShiftLeft(y, s)
  {
    if s > 0 {
      ShiftLeftMonotone(x, y, s - 1);
    }
  }

  /** Shifting a value and adding low bits below the shift is undone by
      ShiftRight and LowBits. */
  lemma {:induction false} ShiftRoundTrip(a: nat, b: nat, s: nat)
    requires b < Pow2(s)
    ensures ShiftRight(ShiftLeft(a, s) + b, s) == a
    ensures LowBits(ShiftLeft(a, s) + b, s) == b
  {
    if s > 0 {
      var x := ShiftLeft(a, s) + b;
      assert x / 2 == ShiftLeft(a, s - 1) + b / 2 && x % 2 == b % 2;
      ShiftRoundTrip(a, b / 2, s - 1);
    }
  }

  /** Go's `x << s` on uint64: bits shifted past bit 63 are lost, and a count
      of 64 or more yields 0. */
  function Shl(x: u64, s: nat): (r: u64)
    ensures s < 64 && ShiftLeft(x, s) < U64_LIMIT ==> r == ShiftLeft(x, s)
    ensures s >= 64 ==> r == 0
  {
    if s >= 64 then 0 else ShiftLeft(x, s) % U64_LIMIT
  }

  /** A shift that loses no bits is exact, whatever the count. */
  lemma ShlExact(x: u64, s: nat)
    requires ShiftLeft(x, s) < U64_LIMIT
    ensures Shl(x, s) == ShiftLeft(x, s)
  {
    if s >= 64 {
      if x > 0 {
        ShiftLeftMonotone(1, x, s);
        ShiftLeftOne(s);
        Pow2Monotone(64, s);
        Pow2Of64();
        assert false;
      }
      ShiftLeftZero(s);
    }
  }

  lemma ShlOne(s: nat)
    requires s < 64
    ensures Shl(1, s) == Pow2(s)
  {
    ShiftLeftOne(s);
    Pow2Monotone(s, 63);
    Pow2Of64();
  }

  /** Bitwise OR of two naturals, one binary digit at a time. */
  function BitOr(a: nat, b: nat): (r: nat)
  {
    if a == 0 then b
    else if b == 0 then a
    else 2 * BitOr(a / 2, b / 2) + (if a % 2 == 1 || b % 2 == 1 then 1 else 0)
  }

  /** OR never sets a bit above the operands' width. */
  lemma {:induction false} BitOrBound(a: nat, b: nat, n: nat)
    requires a < Pow2(n) && b < Pow2(n)
    ensures BitOr(a, b) < Pow2(n)
  {
    if a != 0 && b != 0 {
      assert n > 0;
      BitOrBound(a / 2, b / 2, n - 1);
    }
  }

  /** OR with a value that fits below bit k leaves the bits from k upwards
      alone: the high part is carried over unchanged. */
  lemma {:induction false} BitOrSplit(a: nat, b: nat, c: nat, k: nat)
    requires b < Pow2(k) && c < Pow2(k)
    ensures BitOr(ShiftLeft(a, k) + b, c) == ShiftLeft(a, k) + BitOr(b, c)
  {
    var x := ShiftLeft(a, k) + b;
    if k == 0 {
      assert b == 0 && c == 0;
    } else if x == 0 {
      assert ShiftLeft(a, k) == 0;
    } else if c == 0 {
      assert BitOr(b, 0) == b;
    } else {
      assert x / 2 == ShiftLeft(a, k - 1) + b / 2 && x % 2 == b % 2;
      BitOrSplit(a, b / 2, c / 2, k - 1);
      if b == 0 {
        assert BitOr(0, c / 2) == c / 2;
      }
    }
  }

  /** OR of two values whose set bits do not overlap is their sum. */
  lemma DisjointOrIsSum(a: nat, c: nat, k: nat)
    requires c < Pow2(k)
    ensures BitOr(ShiftLeft(a, k), c) == ShiftLeft(a, k) + c
  {
    BitOrSplit(a, 0, c, k);
  }

  /** OR-ing a shifted value with a value below the shift is addition. */
  lemma OrShifted(a: nat, x: u64, c: u64, k: nat)
    requires x == ShiftLeft(a, k) && c < Pow2(k)
    ensures Or(x, c) == x + c
  {
    DisjointOrIsSum(a, c, k);
  }

  lemma {:induction false} BitOrSelf(a: nat)
    ensures BitOr(a, a) == a
  {
    if a != 0 {
      BitOrSelf(a / 2);
    }
  }

  /** Go's `|` on uint64. */
  function Or(a: u64, b: u64): (r: u64)
    ensures a == 0 ==> r == b
    ensures b == 0 ==> r == a
  {
    Pow2Of64();
    BitOrBound(a, b, 64);
    BitOr(a, b)
  }
}
