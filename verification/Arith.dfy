/** Powers of two, shifts and masks on unbounded naturals, and the few product facts the model needs. */
module Arith {

  function Pow2(e: nat): (p: nat)
    ensures p >= 1
  {
    if e == 0 then 1 else 2 * Pow2(e - 1)
  }

  /** x << k */
  function Shl(x: nat, k: nat): nat
    decreases k, x
  {
    if k == 0 then x else 2 * Shl(x, k - 1)
  }

  /** x >> k */
  function Shr(x: nat, k: nat): nat
    decreases k, x
  {
    if k == 0 then x else Shr(x, k - 1) / 2
  }

  /** x & ((1 << k) - 1) */
  function Low(x: nat, k: nat): nat
    decreases k, x
  {
    if k == 0 then 0 else Low(x, k - 1) + Shl(Shr(x, k - 1) % 2, k - 1)
  }

  /** x | y */
  function Or(x: nat, y: nat): nat {
    if x == 0 then y else if y == 0 then x else 2 * Or(x / 2, y / 2) + Max(x % 2, y % 2)
  }

  /** EC_ILOG: the number of bits needed to write `x`, so 0 for 0. */
  function Ilog(x: nat): nat {
    if x == 0 then 0 else 1 + Ilog(x / 2)
  }

  function Min(a: int, b: int): int {
    if a < b then a else b
  }

  function Max(a: int, b: int): int {
    if a < b then b else a
  }

  function Abs(x: int): nat {
    if x < 0 then -x else x
  }

  // ----- Powers

  lemma {:induction false} Pow2Monotone(a: nat, b: nat)
    requires a <= b
    ensures Pow2(a) <= Pow2(b)
    ensures a < b ==> Pow2(a) < Pow2(b)
  {
    if a < b {
      Pow2Monotone(a, b - 1);
    }
  }

  lemma Pow2Bytes()
    ensures Pow2(8) == 0x100 && Pow2(15) == 0x8000 && Pow2(16) == 0x1_0000 && Pow2(23) == 0x80_0000
    ensures Pow2(24) == 0x100_0000 && Pow2(31) == 0x8000_0000 && Pow2(32) == 0x1_0000_0000
  {
    assert Pow2(8) == 0x100;
    assert Pow2(15) == 0x8000;
    assert Pow2(23) == 0x80_0000;
    assert Pow2(31) == 0x8000_0000;
  }

  /** The defining bounds of the bit length. */
  lemma {:induction false} IlogBounds(x: nat)
    requires x > 0
    ensures Ilog(x) >= 1
    ensures Pow2(Ilog(x) - 1) <= x < Pow2(Ilog(x))
  {
    if x > 1 {
      IlogBounds(x / 2);
    }
  }

  /** The bit length is the only number with those bounds. */
  lemma IlogUnique(x: nat, l: nat)
    requires l >= 1 && Pow2(l - 1) <= x < Pow2(l)
    ensures Ilog(x) == l
  {
    IlogBounds(x);
    if Ilog(x) < l {
      Pow2Monotone(Ilog(x), l - 1);
    } else if l < Ilog(x) {
      Pow2Monotone(l, Ilog(x) - 1);
    }
  }

  // ----- Shifts and masks

  lemma {:induction false} ShlSum(x: nat, y: nat, k: nat)
    ensures Shl(x + y, k) == Shl(x, k) + Shl(y, k)
  {
    if k > 0 {
      ShlSum(x, y, k - 1);
    }
  }

  lemma {:induction false} ShlShl(x: nat, a: nat, b: nat)
    ensures Shl(Shl(x, a), b) == Shl(x, a + b)
  {
    if b > 0 {
      ShlShl(x, a, b - 1);
    }
  }

  lemma {:induction false} ShlZero(k: nat)
    ensures Shl(0, k) == 0
  {
    if k > 0 {
      ShlZero(k - 1);
    }
  }

  lemma {:induction false} ShlOne(k: nat)
    ensures Shl(1, k) == Pow2(k)
  {
    if k > 0 {
      ShlOne(k - 1);
    }
  }

  lemma {:induction false} ShlPow2(j: nat, k: nat)
    ensures Shl(Pow2(j), k) == Pow2(j + k)
  {
    ShlOne(j);
    ShlShl(1, j, k);
    ShlOne(j + k);
  }

  lemma {:induction false} ShlMonotone(x: nat, y: nat, k: nat)
    requires x <= y
    ensures Shl(x, k) <= Shl(y, k)
    ensures x < y ==> Shl(x, k) + Pow2(k) <= Shl(y, k)
  {
    if x < y {
      ShlSum(x, 1, k);
      ShlOne(k);
      ShlSum(x + 1, y - x - 1, k);
    }
  }

  lemma ShlByte(x: nat)
    ensures Shl(x, 8) == x * 0x100
  {
    assert Shl(x, 0) == x;
    assert Shl(x, 2) == 4 * x;
    assert Shl(x, 4) == 0x10 * x;
    assert Shl(x, 6) == 0x40 * x;
  }

  lemma ShlTop(x: nat)
    ensures Shl(x, 31) == x * 0x8000_0000
  {
    var y := Shl(x, 24);
    ShlByte(x);
    ShlByte(Shl(x, 8));
    ShlByte(Shl(x, 16));
    ShlShl(x, 8, 8);
    ShlShl(x, 16, 8);
    assert Shl(x, 25) == 2 * y;
    assert Shl(x, 27) == 8 * y;
    assert Shl(x, 29) == 32 * y;
  }

  lemma {:induction false} ShlInjective(x: nat, y: nat, k: nat)
    requires Shl(x, k) == Shl(y, k)
    ensures x == y
  {
    if k > 0 {
      ShlInjective(x, y, k - 1);
    }
  }

  /** A number is its low k bits and, shifted up, the rest. */
  lemma {:induction false} Split(x: nat, k: nat)
    ensures x == Low(x, k) + Shl(Shr(x, k), k) && Low(x, k) < Pow2(k)
  {
    if k > 0 {
      Split(x, k - 1);
      var h := Shr(x, k - 1);
      ShlSum(h % 2, h / 2 * 2, k - 1);
      ShlSum(h / 2, h / 2, k - 1);
      ShlMonotone(h % 2, 1, k - 1);
      ShlOne(k - 1);
    }
  }

  /** ... and no other way. */
  lemma Join(r: nat, v: nat, k: nat, x: nat)
    requires r < Pow2(k) && x == r + Shl(v, k)
    ensures Low(x, k) == r && Shr(x, k) == v
  {
    Split(x, k);
    if v < Shr(x, k) {
      ShlMonotone(v, Shr(x, k), k);
    } else if Shr(x, k) < v {
      ShlMonotone(Shr(x, k), v, k);
    }
  }

  lemma {:induction false} ShrShr(x: nat, a: nat, b: nat)
    ensures Shr(Shr(x, a), b) == Shr(x, a + b)
  {
    if b > 0 {
      ShrShr(x, a, b - 1);
    }
  }

  /** The low a+b bits are the low a bits and the b bits above them. */
  lemma {:induction false} LowSplit(x: nat, a: nat, b: nat)
    ensures Low(x, a + b) == Low(x, a) + Shl(Low(Shr(x, a), b), a)
  {
    if b > 0 {
      LowSplit(x, a, b - 1);
      ShrShr(x, a, b - 1);
      var bit := Shr(x, a + b - 1) % 2;
      ShlShl(bit, b - 1, a);
      ShlSum(Low(Shr(x, a), b - 1), Shl(bit, b - 1), a);
      assert b - 1 + a == a + b - 1;
    } else {
      ShlZero(a);
    }
  }

  /** Numbers shifted above k bits do not reach below them. */
  lemma PlusShifted(x: nat, v: nat, k: nat, y: nat)
    requires y == x + Shl(v, k)
    ensures Low(y, k) == Low(x, k) && Shr(y, k) == Shr(x, k) + v
  {
    Split(x, k);
    ShlSum(Shr(x, k), v, k);
    Join(Low(x, k), Shr(x, k) + v, k, y);
  }

  lemma PlusFar(x: nat, v: nat, k: nat, up: nat, y: nat)
    requires k <= up && y == x + Shl(v, up)
    ensures Low(y, k) == Low(x, k)
  {
    ShlShl(v, up - k, k);
    PlusShifted(x, Shl(v, up - k), k, y);
  }

  lemma LowSmall(x: nat, k: nat)
    requires x < Pow2(k)
    ensures Low(x, k) == x && Shr(x, k) == 0
  {
    ShlZero(k);
    Join(x, 0, k, x);
  }

  lemma LowLow(x: nat, a: nat, b: nat)
    requires a <= b
    ensures Low(Low(x, b), a) == Low(x, a)
  {
    LowSplit(x, a, b - a);
    Split(x, a);
    Join(Low(x, a), Low(Shr(x, a), b - a), a, Low(x, b));
  }

  lemma ShlFits(r: nat, v: nat, a: nat, b: nat)
    requires r < Pow2(a) && v < Pow2(b)
    ensures r + Shl(v, a) < Pow2(a + b)
  {
    ShlMonotone(v, Pow2(b), a);
    ShlPow2(b, a);
    assert b + a == a + b;
  }

  lemma {:induction false} ShrHalf(x: nat, k: nat)
    ensures Shr(x, k + 1) == Shr(x / 2, k)
  {
    if k > 0 {
      ShrHalf(x, k - 1);
    }
  }

  lemma {:induction false} ShrMonotone(x: nat, y: nat, k: nat)
    requires x <= y
    ensures Shr(x, k) <= Shr(y, k)
  {
    if k > 0 {
      ShrMonotone(x, y, k - 1);
    }
  }

  /** The lowest bit, and the bits above it. */
  lemma LowHalf(x: nat, k: nat)
    requires k > 0
    ensures Low(x, k) == x % 2 + 2 * Low(x / 2, k - 1)
  {
    LowSplit(x, 1, k - 1);
    assert Shr(x, 1) == Shr(x, 0) / 2 == x / 2;
    assert Low(x, 1) == Low(x, 0) + Shl(Shr(x, 0) % 2, 0) == x % 2;
    assert Shl(Low(x / 2, k - 1), 1) == 2 * Shl(Low(x / 2, k - 1), 0);
  }

  lemma {:induction false} OrFits(x: nat, y: nat, k: nat)
    requires x < Pow2(k) && y < Pow2(k)
    ensures Or(x, y) < Pow2(k)
  {
    if x != 0 && y != 0 {
      OrFits(x / 2, y / 2, k - 1);
    }
  }

  /** Bits put below a number whose low k bits are clear simply add up. */
  lemma {:induction false} OrDisjoint(x: nat, y: nat, k: nat)
    requires Low(x, k) == 0 && y < Pow2(k)
    ensures Or(x, y) == x + y
  {
    if x != 0 && y != 0 {
      LowHalf(x, k);
      OrDisjoint(x / 2, y / 2, k - 1);
    }
  }

  // ----- Products and quotients

  lemma MulMonotone(d: nat, a: int, b: int)
    requires a <= b
    ensures d * a <= d * b
  {
  }

  lemma Distribute(a: int, b: int, c: int)
    ensures a * (b + c) == a * b + a * c
  {
  }

  /** A quotient and a remainder in range are the quotient and the remainder. */
  lemma DivModUnique(x: int, d: int, q: int, r: int)
    requires 0 <= r < d && x == d * q + r
    ensures x / d == q && x % d == r
  {
    var e := x / d - q;
    assert x == d * (x / d) + x % d;
    assert d * (x / d) == d * q + d * e by {
      assert x / d == q + e;
    }
    if e > 0 {
      MulMonotone(d, 1, e);
    } else if e < 0 {
      MulMonotone(d, e, -1);
    }
  }

  /** A flooring bound: a multiple of d lies below x exactly when its factor lies below x / d. */
  lemma DivBounds(x: nat, d: nat, q: nat)
    requires d > 0
    ensures q * d <= x <==> q <= x / d
    ensures x < q * d <==> x / d < q
  {
    assert x == d * (x / d) + x % d;
    if q <= x / d {
      MulMonotone(d, q, x / d);
    } else {
      MulMonotone(d, x / d + 1, q);
      assert d * (x / d + 1) == d * (x / d) + d;
    }
  }

  lemma {:induction false} ShlProduct(x: nat, k: nat)
    ensures Shl(x, k) == x * Pow2(k)
  {
    if k > 0 {
      ShlProduct(x, k - 1);
    }
  }

  lemma ShrQuotient(x: nat, k: nat)
    ensures Shr(x, k) == x / Pow2(k)
  {
    Split(x, k);
    ShlProduct(Shr(x, k), k);
    QuotientOf(x, Pow2(k), Shr(x, k), Low(x, k), Shl(Shr(x, k), k));
  }

  lemma QuotientOf(x: nat, p: nat, q: nat, r: nat, s: nat)
    requires s == q * p && x == s + r && r < p
    ensures q == x / p
  {
    DivModUnique(x, p, q, r);
  }
}
