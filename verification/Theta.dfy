/**
 The split angle of compute_theta in bands.c (RFC 6716, section 4.3.4.4): how finely it is quantised, and its three
 distributions; and the integer square root of mathops.c, by which the triangular one is inverted.
 */
module Theta {
  import opened Arith
  import opened RangeSpec
  import opened RangeEncoder
  import opened RangeDecoder

  // ----- isqrt32

  lemma Square(a: int, b: int)
    ensures (a + b) * (a + b) == a * a + (2 * a + b) * b
  {
  }

  lemma SquareMonotone(a: nat, b: nat)
    requires a <= b
    ensures a * a <= b * b
  {
    MulMonotone(a, a, b);
    MulMonotone(b, a, b);
  }

  lemma Pow2Square(k: nat)
    ensures Pow2(k) * Pow2(k) == Pow2(k + k)
  {
    ShlProduct(Pow2(k), k);
    ShlPow2(k, k);
  }

  /** The first trial digit is above half the root. */
  lemma FirstDigit(v: nat, s: nat)
    requires v > 0 && s == (Ilog(v) - 1) / 2
    ensures v < Pow2(s + 1) * Pow2(s + 1)
  {
    IlogBounds(v);
    Pow2Square(s + 1);
    Pow2Monotone(Ilog(v), s + 1 + (s + 1));
  }

  /** The root lies between g and g + unit. */
  predicate Brackets(v: int, g: nat, unit: nat) {
    g * g <= v < (g + unit) * (g + unit)
  }

  /** The digits so far, in units of the next, leave room for it in 16 bits. */
  ghost predicate Aligned(g: nat, unit: nat) {
    exists m: nat, k: nat :: g == m * unit && k * unit == 0x1_0000
  }

  lemma AlignedNext(g: nat, b: nat)
    requires Aligned(g, 2 * b)
    ensures Aligned(g, b) && Aligned(g + b, b)
  {
    var m: nat, k: nat :| g == m * (2 * b) && k * (2 * b) == 0x1_0000;
    assert g == 2 * m * b && g + b == (2 * m + 1) * b && 2 * k * b == 0x1_0000;
  }

  /** No product in isqrt32 exceeds 32 bits. */
  lemma NoOverflow(v: nat, g: nat, b: nat)
    requires Aligned(g, 2 * b) && g * g <= v < 0x1_0000_0000
    ensures 2 * g + b < 0x1_0000_0000 && (2 * g + b) * b < 0x1_0000_0000
  {
    var m: nat, k: nat :| g == m * (2 * b) && k * (2 * b) == 0x1_0000;
    if g >= 0x1_0000 {
      SquareMonotone(0x1_0000, g);
    }
    if m >= k {
      MulMonotone(2 * b, k, m);
    }
    MulMonotone(2 * b, m + 1, k);
    assert (m + 1) * (2 * b) == g + 2 * b;
    Square(g, b);
    SquareMonotone(g + b, 0x1_0000);
    SmallSquare(g, b);
  }

  lemma SmallSquare(g: nat, b: nat)
    requires g + 2 * b <= 0x1_0000 && (2 * g + b) * b == (g + b) * (g + b) - g * g
    ensures (2 * g + b) * b < 0x1_0000_0000
  {
    if b > 0 {
      SquareMonotone(g + b, 0xFFFF);
    }
  }

  /** A digit b belongs to the root exactly when what it adds to the square still fits. */
  method Digit(v: nat, g: nat, b: nat, bshift: nat, val: int) returns (g': nat, val': int)
    requires Brackets(v, g, 2 * b) && val == v - g * g && b == Pow2(bshift)
    requires Aligned(g, 2 * b) && v < 0x1_0000_0000
    ensures Brackets(v, g', b) && val' == v - g' * g' && Aligned(g', b)
  {
    var t := Shl(2 * g + b, bshift);
    ShlProduct(2 * g + b, bshift);
    NoOverflow(v, g, b);
    AlignedNext(g, b);
    Square(g, b);
    assert g + b + b == g + 2 * b;
    g', val' := g, val;
    if t <= val {
      g' := g + b;
      val' := val - t;
    }
  }

  lemma StartsAligned(l: nat, s: nat, v: nat)
    requires 0 < v < 0x1_0000_0000 && l == Ilog(v) && s == (l - 1) / 2
    ensures Aligned(0, Pow2(s + 1))
  {
    IlogBounds(v);
    Pow2Bytes();
    if l > 32 {
      Pow2Monotone(32, l - 1);
    }
    ShlProduct(Pow2(16 - (s + 1)), s + 1);
    ShlPow2(16 - (s + 1), s + 1);
    assert 0 == 0 * Pow2(s + 1) && Pow2(16 - (s + 1)) * Pow2(s + 1) == 0x1_0000;
  }

  /** isqrt32: the exact floor of the square root. */
  method Isqrt32(v: nat) returns (g: nat)
    requires 0 < v < 0x1_0000_0000
    ensures g * g <= v < (g + 1) * (g + 1)
  {
    IlogBounds(v);
    FirstDigit(v, (Ilog(v) - 1) / 2);
    var val: int := v;
    var bshift: int := (Ilog(v) - 1) / 2;
    var b := Pow2(bshift);
    g := 0;
    assert Pow2(bshift + 1) == 2 * b;
    StartsAligned(Ilog(v), bshift, v);
    // A do-while in the source; its first test holds here.
    while bshift >= 0
      invariant bshift >= -1 && Brackets(v, g, Pow2(bshift + 1)) && val == v - g * g
      invariant Aligned(g, Pow2(bshift + 1))
      invariant bshift >= 0 ==> b == Pow2(bshift)
    {
      assert Pow2(bshift + 1) == 2 * b;
      g, val := Digit(v, g, b, bshift, val);
      b := b / 2;
      bshift := bshift - 1;
    }
  }

  /** Any floor of a square root of 8 m + 1 tells which triangular number lies at or below m. */
  lemma TriangularRoot(m: nat, i: nat, g: nat)
    requires i * (i + 1) <= 2 * m < (i + 1) * (i + 2)
    requires g * g <= 8 * m + 1 < (g + 1) * (g + 1)
    ensures 2 * i + 1 <= g <= 2 * i + 2
  {
    assert (2 * i + 1) * (2 * i + 1) == 4 * (i * (i + 1)) + 1;
    assert (2 * i + 3) * (2 * i + 3) == 4 * ((i + 1) * (i + 2)) + 1;
    if g < 2 * i + 1 {
      SquareMonotone(g + 1, 2 * i + 1);
    } else if g > 2 * i + 2 {
      SquareMonotone(2 * i + 3, g);
    }
  }

  // ----- The resolution

  const EXP2_TABLE8: seq<nat> := [16384, 17866, 19483, 21247, 23170, 25267, 27554, 30048]

  /** celt_sudiv: C's division, towards zero. */
  function Sudiv(n: int, d: nat): int
    requires d > 0
  {
    if n >= 0 then n / d else -(-n / d)
  }

  /** The even number of steps for qb eighths of a bit. */
  function Steps(qb: nat): nat
    requires 4 <= qb <= 64
  {
    (Shr(EXP2_TABLE8[qb % 8], 14 - qb / 8) + 1) / 2 * 2
  }

  /** compute_qn: one value, or an even number of steps up to 256. */
  function ComputeQn(n: nat, b: int, offset: int, pulseCap: int, stereo: bool): (qn: nat)
    requires n >= 2
    ensures qn == 1 || (qn % 2 == 0 && 2 <= qn <= 256)
  {
    var n2 := if stereo && n == 2 then 2 * n - 2 else 2 * n - 1;
    var qb := Min(64, Min(b - pulseCap - 32, Sudiv(b + n2 * offset, n2)));
    if qb < 4 then 1
    else
      StepsBound(qb);
      Steps(qb)
  }

  lemma StepsBound(qb: nat)
    requires 4 <= qb <= 64
    ensures 1 <= Shr(EXP2_TABLE8[qb % 8], 14 - qb / 8) <= 256
  {
    var e, k := EXP2_TABLE8[qb % 8], 14 - qb / 8;
    assert 16384 <= e < 32768 && (qb == 64 ==> e == 16384);
    ShrQuotient(e, k);
    PowerTable();
    Pow2Monotone(6, k);
    Pow2Monotone(k, 14);
    if k > 6 {
      Pow2Monotone(7, k);
    }
    QuotientBounds(e, Pow2(k));
  }

  lemma PowerTable()
    ensures Pow2(6) == 64 && Pow2(7) == 128 && Pow2(14) == 16384
  {
  }

  lemma QuotientBounds(e: nat, p: nat)
    requires 16384 <= e < 32768 && 64 <= p <= 16384
    ensures 1 <= e / p && (p >= 128 ==> e / p <= 255) && (e == 16384 ==> e / p <= 256)
  {
    DivBounds(e, p, 1);
    QuotientBelow(e, p, 256);
    QuotientBelow(e, p, 257);
  }

  lemma QuotientBelow(e: nat, p: nat, q: nat)
    requires p > 0
    ensures e < q * p ==> e / p < q
  {
    DivBounds(e, p, q);
  }

  /** The degrees of freedom that share a split's bits. */
  function Degrees(n: nat, stereo: bool): int {
    2 * n - if stereo && n == 2 then 2 else 1
  }

  /** q is the quotient of n by d, rounded towards zero. */
  predicate Truncated(n: int, d: int, q: int) {
    if n >= 0 then q * d <= n < (q + 1) * d else (q - 1) * d < n <= q * d
  }

  lemma SudivTruncates(n: int, d: nat, q: int)
    requires d > 0 && Truncated(n, d, q)
    ensures Sudiv(n, d) == q
  {
    if n >= 0 {
      DivModUnique(n, d, q, n - q * d);
    } else {
      assert (-q) * d == -(q * d) && (q - 1) * d == q * d - d;
      DivModUnique(-n, d, -q, q * d - n);
    }
  }

  lemma SudivMonotone(m: int, n: int, d: nat)
    requires d > 0 && m <= n
    ensures Sudiv(m, d) <= Sudiv(n, d)
  {
    SudivSign(m, d);
    SudivSign(n, d);
    if m >= 0 {
      DivMonotone(m, n, d);
    } else if n < 0 {
      DivMonotone(-n, -m, d);
    }
  }

  lemma SudivSign(n: int, d: int)
    requires d > 0
    ensures if n >= 0 then Sudiv(n, d) == n / d >= 0 else Sudiv(n, d) == -((-n) / d) <= 0
  {
    QuotientSign(n, d);
    QuotientSign(-n, d);
  }

  lemma QuotientSign(n: int, d: int)
    requires d > 0
    ensures n >= 0 ==> n / d >= 0
  {
  }

  lemma DivMonotone(m: int, n: int, d: int)
    requires d > 0 && 0 <= m <= n
    ensures m / d <= n / d
  {
    DivBounds(m, d, n / d + 1);
    DivBounds(n, d, n / d + 1);
  }

  /** x to the eighth */
  function Eighth(x: nat): nat {
    var x2 := x * x;
    var x4 := x2 * x2;
    x4 * x4
  }

  lemma EighthMonotone(x: nat, y: nat)
    requires x <= y
    ensures Eighth(x) <= Eighth(y)
  {
    SquareMonotone(x, y);
    SquareMonotone(x * x, y * y);
    SquareMonotone(x * x * (x * x), y * y * (y * y));
  }

  /** Within one of 2^(qb/8). */
  predicate Near(qn: nat, power: nat) {
    qn >= 1 && Eighth(qn - 1) <= power < Eighth(qn + 1)
  }

  lemma EighthProduct(x: nat, y: nat)
    ensures Eighth(x * y) == Eighth(x) * Eighth(y)
  {
    SquareProduct(x, y, x * y);
    SquareProduct(x * x, y * y, x * y * (x * y));
    SquareProduct(x * x * (x * x), y * y * (y * y), x * y * (x * y) * (x * y * (x * y)));
  }

  lemma SquareProduct(x: nat, y: nat, z: nat)
    requires z == x * y
    ensures z * z == x * x * (y * y)
  {
    calc {
      z * z;
      x * y * (x * y);
      x * (y * (x * y));
      { assert y * (x * y) == x * (y * y); }
      x * (x * (y * y));
      x * x * (y * y);
    }
  }

  lemma EighthPow2(k: nat)
    ensures Eighth(Pow2(k)) == Pow2(8 * k)
  {
    Pow2Square(k);
    Pow2Square(2 * k);
    Pow2Square(4 * k);
  }

  /** The table holds the whole parts of 2^(14 + j/8). */
  lemma TableIs(j: nat, power: nat)
    requires j < 8 && power == Pow2(112 + j)
    ensures Eighth(EXP2_TABLE8[j]) <= power < Eighth(EXP2_TABLE8[j] + 1)
  {
    TablePower(j);
  }

  lemma {:induction false} TablePower(j: nat)
    requires j < 8
    ensures Pow2(112 + j) == [1, 2, 4, 8, 16, 32, 64, 128][j] * 0x1_0000_0000_0000_0000_0000_0000_0000
  {
    if j > 0 {
      TablePower(j - 1);
      assert Pow2(112 + j) == 2 * Pow2(112 + j - 1);
    } else {
      FirstPower(14, 112 + j);
    }
  }

  lemma FirstPower(h: nat, k: nat)
    requires h == 14 && k == 8 * h
    ensures Pow2(k) == 0x1_0000_0000_0000_0000_0000_0000_0000
  {
    PowerTable();
    EighthPow2(h);
  }

  /** A shift takes the whole part of 2^(14 + j/8) to the whole part of 2^(k + j/8). */
  lemma ShiftedRoot(t: nat, s: nat, x: nat, power: nat)
    requires x == Shr(t, s) && Eighth(t) <= power * Pow2(8 * s) < Eighth(t + 1)
    ensures Eighth(x) <= power < Eighth(x + 1)
  {
    var p := Pow2(s);
    ShrQuotient(t, s);
    DivBounds(t, p, x);
    DivBounds(t, p, x + 1);
    EighthMonotone(x * p, t);
    EighthMonotone(t + 1, (x + 1) * p);
    EighthProduct(x, p);
    EighthProduct(x + 1, p);
    EighthPow2(s);
    CancelPower(Eighth(x), power, Eighth(x + 1), Pow2(8 * s));
  }

  lemma CancelPower(a: nat, b: nat, c: nat, p: nat)
    requires a * p <= b * p < c * p
    ensures a <= b < c
  {
  }

  lemma RootNear(qb: nat, x: nat, power: nat)
    requires 4 <= qb <= 64 && x == Shr(EXP2_TABLE8[qb % 8], 14 - qb / 8)
    requires power == Pow2(qb)
    ensures Eighth(x) <= power < Eighth(x + 1)
  {
    var j, s := qb % 8, 14 - qb / 8;
    TableIs(j, Pow2(112 + j));
    PowerSplits(qb, 8 * s, 112 + j);
    ShiftedRoot(EXP2_TABLE8[j], s, x, power);
  }

  lemma PowerSplits(a: nat, b: nat, sum: nat)
    requires sum == a + b
    ensures Pow2(sum) == Pow2(a) * Pow2(b)
  {
    ShlProduct(Pow2(a), b);
    ShlPow2(a, b);
  }

  lemma StepsNear(qb: nat, qn: nat, power: nat)
    requires 4 <= qb <= 64 && qn == Steps(qb) && power == Pow2(qb)
    ensures qn % 2 == 0 && Near(qn, power)
  {
    var x := Shr(EXP2_TABLE8[qb % 8], 14 - qb / 8);
    RootNear(qb, x, power);
    RoundedUp(qb, x, qn);
    NearEven(x, qn, power);
  }

  lemma RoundedUp(qb: nat, x: nat, qn: nat)
    requires 4 <= qb <= 64 && x == Shr(EXP2_TABLE8[qb % 8], 14 - qb / 8) && qn == Steps(qb)
    ensures qn % 2 == 0 && 1 <= x <= qn <= x + 1
  {
    StepsBound(qb);
  }

  lemma NearEven(x: nat, qn: nat, power: nat)
    requires 1 <= x <= qn <= x + 1 && Eighth(x) <= power < Eighth(x + 1)
    ensures Near(qn, power)
  {
    EighthMonotone(qn - 1, x);
    EighthMonotone(x + 1, qn + 1);
  }

  /**
   An angle is resolved into the even number of steps within one of 2^(qb/8), where qb is its share of the bits: at most
   64 eighths, and leaving 32 eighths and a pulse. Below half a bit it is not coded.
   */
  lemma NearestResolution(n: nat, b: int, offset: int, pulseCap: int, stereo: bool, q: int, qb: int)
    requires n >= 2 && Truncated(b + Degrees(n, stereo) * offset, Degrees(n, stereo), q)
    requires qb == Min(64, Min(b - pulseCap - 32, q))
    ensures var qn := ComputeQn(n, b, offset, pulseCap, stereo);
      if qb < 4 then qn == 1 else qn % 2 == 0 && Near(qn, Pow2(qb))
  {
    var d := Degrees(n, stereo);
    SudivTruncates(b + d * offset, d, q);
    StepsFrom(n, b, offset, pulseCap, stereo, d, b + d * offset, qb);
    if qb >= 4 {
      StepsNear(qb, Steps(qb), Pow2(qb));
    }
  }

  lemma StepsFrom(n: nat, b: int, offset: int, pulseCap: int, stereo: bool, d: int, x: int, qb: int)
    requires n >= 2 && d == Degrees(n, stereo) && x == b + d * offset
    requires qb == Min(64, Min(b - pulseCap - 32, Sudiv(x, d)))
    ensures ComputeQn(n, b, offset, pulseCap, stereo) == if qb < 4 then 1 else Steps(qb)
  {
  }

  /** More bits never resolve an angle less finely. */
  lemma MoreBits(n: nat, b: int, b': int, offset: int, pulseCap: int, stereo: bool)
    requires n >= 2 && b <= b'
    ensures ComputeQn(n, b, offset, pulseCap, stereo) <= ComputeQn(n, b', offset, pulseCap, stereo)
  {
    var d := Degrees(n, stereo);
    var x, x' := b + d * offset, b' + d * offset;
    SudivMonotone(x, x', d);
    var qb, qb' := Min(64, Min(b - pulseCap - 32, Sudiv(x, d))), Min(64, Min(b' - pulseCap - 32, Sudiv(x', d)));
    StepsFrom(n, b, offset, pulseCap, stereo, d, x, qb);
    StepsFrom(n, b', offset, pulseCap, stereo, d, x', qb');
    if 4 <= qb {
      StepsMonotone(qb, qb', Steps(qb), Steps(qb'));
    } else if 4 <= qb' {
      StepsBound(qb');
    }
  }

  lemma StepsMonotone(qb: nat, qb': nat, m: nat, n: nat)
    requires 4 <= qb <= qb' <= 64 && m == Steps(qb) && n == Steps(qb')
    ensures m <= n
  {
    var p, q := Pow2(qb), Pow2(qb');
    StepsNear(qb, m, p);
    StepsNear(qb', n, q);
    Pow2Monotone(qb, qb');
    EvenMonotone(m, n, p, q);
  }

  lemma EvenMonotone(m: nat, n: nat, p: nat, q: nat)
    requires m % 2 == 0 && n % 2 == 0 && Near(m, p) && Near(n, q) && p <= q
    ensures m <= n
  {
    if m > n {
      EighthMonotone(n + 1, m - 1);
    }
  }

  // ----- The distributions

  /** The frequencies of one value. */
  datatype Interval = Interval(fl: int, fh: int)

  /** i (i + 1) / 2 */
  function Triangle(i: nat): (t: nat)
    ensures 2 * t == i * (i + 1)
  {
    if i == 0 then 0 else
      assert i * (i + 1) == (i - 1) * i + 2 * i;
      Triangle(i - 1) + i
  }

  lemma TriangleIs(i: nat)
    ensures i * (i + 1) / 2 == Triangle(i)
  {
  }

  lemma {:induction false} TriangleMonotone(i: nat, j: nat)
    requires i <= j
    ensures Triangle(i) <= Triangle(j)
  {
    if i < j {
      TriangleMonotone(i, j - 1);
    }
  }

  /** The square of h + 1 is two triangles. */
  lemma SquareIsTriangles(h: nat)
    ensures (h + 1) * (h + 1) == Triangle(h) + Triangle(h + 1)
  {
    assert 2 * ((h + 1) * (h + 1)) == h * (h + 1) + (h + 1) * (h + 2);
  }

  predicate ValidQn(qn: nat) {
    qn % 2 == 0 && 2 <= qn <= 256
  }

  /** The triangular distribution of mid and side within a channel. */
  function TriangularFt(qn: nat): nat {
    (qn / 2 + 1) * (qn / 2 + 1)
  }

  function Triangular(qn: nat, i: nat): Interval
    requires ValidQn(qn) && i <= qn
  {
    var fs := if i <= qn / 2 then i + 1 else qn + 1 - i;
    var fl := if i <= qn / 2 then i * (i + 1) / 2
              else TriangularFt(qn) - (qn + 1 - i) * (qn + 2 - i) / 2;
    Interval(fl, fl + fs)
  }

  /** The step distribution of stereo: three up to the middle, and one above. */
  function StepFt(qn: nat): nat {
    3 * (qn / 2 + 1) + qn / 2
  }

  function Stepped(qn: nat, x: nat): Interval
    requires ValidQn(qn) && x <= qn
  {
    var x0 := qn / 2;
    Interval(if x <= x0 then 3 * x else (x - 1 - x0) + (x0 + 1) * 3,
             if x <= x0 then 3 * (x + 1) else (x - x0) + (x0 + 1) * 3)
  }

  /** Where the interval of i begins, and that of i - 1 ends. */
  function Boundary(qn: nat, i: nat): int
    requires ValidQn(qn) && i <= qn + 1
  {
    if i <= qn / 2 then Triangle(i) else TriangularFt(qn) - Triangle(qn + 1 - i)
  }

  lemma TriangularBounds(qn: nat, i: nat)
    requires ValidQn(qn) && i <= qn
    ensures Triangular(qn, i) == Interval(Boundary(qn, i), Boundary(qn, i + 1))
  {
    SquareIsTriangles(qn / 2);
    TriangleIs(i);
    if i > qn / 2 {
      TriangleIs(qn + 1 - i);
      assert Triangle(qn + 1 - i) == Triangle(qn - i) + (qn + 1 - i);
    }
  }

  lemma BoundaryGrows(qn: nat, i: nat)
    requires ValidQn(qn) && i <= qn
    ensures 0 <= Boundary(qn, i) < Boundary(qn, i + 1) <= TriangularFt(qn)
  {
    var h := qn / 2;
    SquareIsTriangles(h);
    if i <= h {
      TriangleMonotone(i + 1, h + 1);
    } else {
      TriangleMonotone(qn + 1 - i, h);
      assert Triangle(qn + 1 - i) == Triangle(qn - i) + (qn + 1 - i);
    }
  }

  /** The intervals are adjacent, not empty, and cover the whole range. */
  lemma TriangularPartition(qn: nat, i: nat)
    requires ValidQn(qn) && i <= qn
    ensures 0 <= Triangular(qn, i).fl < Triangular(qn, i).fh <= TriangularFt(qn) <= CODE_BOT
    ensures if i < qn then Triangular(qn, i).fh == Triangular(qn, i + 1).fl
      else Triangular(qn, i).fh == TriangularFt(qn)
    ensures i == 0 ==> Triangular(qn, i).fl == 0
    ensures Triangular(qn, i).fh - Triangular(qn, i).fl == Min(i, qn - i) + 1
  {
    TriangularBounds(qn, i);
    BoundaryGrows(qn, i);
    if i < qn {
      TriangularBounds(qn, i + 1);
    }
    SquareMonotone(qn / 2 + 1, 129);
  }

  /** The decoder's choice of a value, by the root that isqrt32 returns for the chosen half. */
  predicate LowerHalf(qn: nat, fm: nat) {
    fm < qn / 2 * (qn / 2 + 1) / 2
  }

  function Radicand(qn: nat, fm: nat): int {
    if LowerHalf(qn, fm) then 8 * fm + 1 else 8 * (TriangularFt(qn) - fm - 1) + 1
  }

  function FromRoot(qn: nat, fm: nat, root: nat): int {
    if LowerHalf(qn, fm) then (root - 1) / 2 else (2 * (qn + 1) - root) / 2
  }

  /** The closed form recovers the value from any frequency of its interval. */
  lemma TriangularRoundTrip(qn: nat, fm: nat, i: nat, root: nat)
    requires ValidQn(qn) && i <= qn && Triangular(qn, i).fl <= fm < Triangular(qn, i).fh
    requires root * root <= Radicand(qn, fm) < (root + 1) * (root + 1)
    ensures FromRoot(qn, fm, root) == i
  {
    var h := qn / 2;
    TriangularBounds(qn, i);
    BoundaryGrows(qn, i);
    TriangleIs(h);
    if LowerHalf(qn, fm) {
      if i >= h {
        BoundaryFrom(qn, h, i);
      }
      TriangularRoot(fm, i, root);
    } else {
      if i < h {
        TriangleMonotone(i + 1, h);
      }
      UpperRoot(qn, fm, i, root);
    }
  }

  lemma {:induction false} BoundaryFrom(qn: nat, i: nat, j: nat)
    requires ValidQn(qn) && i <= j <= qn + 1
    ensures Boundary(qn, i) <= Boundary(qn, j)
    decreases j
  {
    if i < j {
      BoundaryFrom(qn, i, j - 1);
      BoundaryGrows(qn, j - 1);
    }
  }

  lemma UpperRoot(qn: nat, fm: nat, i: nat, root: nat)
    requires ValidQn(qn) && qn / 2 <= i <= qn && Boundary(qn, i) <= fm < Boundary(qn, i + 1)
    requires var m := TriangularFt(qn) - fm - 1; root * root <= 8 * m + 1 < (root + 1) * (root + 1)
    ensures (2 * (qn + 1) - root) / 2 == i
  {
    var h, k := qn / 2, qn + 1 - i;
    SquareIsTriangles(h);
    assert Triangle(k) == Triangle(k - 1) + k;
    TriangularRoot(TriangularFt(qn) - fm - 1, k - 1, root);
  }

  lemma SteppedPartition(qn: nat, x: nat)
    requires ValidQn(qn) && x <= qn
    ensures 0 <= Stepped(qn, x).fl < Stepped(qn, x).fh <= StepFt(qn) <= CODE_BOT
    ensures if x < qn then Stepped(qn, x).fh == Stepped(qn, x + 1).fl else Stepped(qn, x).fh == StepFt(qn)
    ensures x == 0 ==> Stepped(qn, x).fl == 0
    ensures Stepped(qn, x).fh - Stepped(qn, x).fl == if x <= qn / 2 then 3 else 1
  {
  }

  /** The decoder's closed form for the step distribution. */
  function StepAt(qn: nat, fs: nat): int
    requires ValidQn(qn)
  {
    var x0 := qn / 2;
    if fs < (x0 + 1) * 3 then fs / 3 else x0 + 1 + (fs - (x0 + 1) * 3)
  }

  /** ... recovers the value from any frequency of its interval. */
  lemma StepRoundTrip(qn: nat, fs: nat, x: nat)
    requires ValidQn(qn) && x <= qn && fs < StepFt(qn)
    ensures 0 <= StepAt(qn, fs) <= qn
    ensures StepAt(qn, fs) == x <==> Stepped(qn, x).fl <= fs < Stepped(qn, x).fh
  {
  }

  /** Every frequency lies in the interval of some value. */
  lemma {:induction false} TriangularCovers(qn: nat, fm: nat, top: nat) returns (i: nat)
    requires ValidQn(qn) && top <= qn && fm < Boundary(qn, top + 1)
    ensures i <= qn && Triangular(qn, i).fl <= fm < Triangular(qn, i).fh
    decreases top
  {
    TriangularBounds(qn, top);
    if Boundary(qn, top) <= fm {
      i := top;
    } else {
      i := TriangularCovers(qn, fm, top - 1);
    }
  }

  // ----- Coding the angle

  /** Which distribution codes the angle. */
  datatype Shape = StepShape | UniformShape | TriangularShape

  function ShapeOf(stereo: bool, n: nat, b0: nat): Shape {
    if stereo && n > 2 then StepShape else if b0 > 1 || stereo then UniformShape else TriangularShape
  }

  /** What is coded for an angle. */
  function ThetaOps(i: nat, qn: nat, shape: Shape): seq<Op>
    requires ValidQn(qn) && i <= qn
  {
    match shape
    case StepShape => SteppedPartition(qn, i); [SymOp(Stepped(qn, i).fl, Stepped(qn, i).fh, StepFt(qn))]
    case UniformShape => UintOps(i, qn + 1)
    case TriangularShape =>
      TriangularPartition(qn, i); [SymOp(Triangular(qn, i).fl, Triangular(qn, i).fh, TriangularFt(qn))]
  }

  /** The entropy coding of the angle in compute_theta, encoder's side. */
  method EncodeTheta(enc: Encoder, itheta: nat, qn: nat, stereo: bool, n: nat, b0: nat)
    requires enc.Valid() && ValidQn(qn) && itheta <= qn
    modifies enc, enc.buf
    ensures enc.Valid() && enc.storage == old(enc.storage)
    ensures enc.trace == old(enc.trace) + ThetaOps(itheta, qn, ShapeOf(stereo, n, b0))
  {
    if stereo && n > 2 {
      SteppedPartition(qn, itheta);
      var v := Stepped(qn, itheta);
      enc.Encode(v.fl, v.fh, StepFt(qn));
    } else if b0 > 1 || stereo {
      enc.Uint(itheta, qn + 1);
    } else {
      TriangularPartition(qn, itheta);
      var v := Triangular(qn, itheta);
      enc.Encode(v.fl, v.fh, TriangularFt(qn));
    }
  }

  /** The decoder's side of the step distribution; want is the value coded. */
  method DecodeStepped(dec: Decoder, qn: nat, ghost want: nat) returns (x: nat)
    requires dec.Valid() && ValidQn(qn) && want <= qn
    modifies dec
    ensures dec.Valid() && dec.error == old(dec.error) && x <= qn
    ensures old(dec.trace) + ThetaOps(want, qn, StepShape) <= dec.script ==>
      x == want && dec.trace == old(dec.trace) + ThetaOps(want, qn, StepShape)
  {
    SteppedPartition(qn, want);
    var fs := dec.Decode(StepFt(qn));
    StepRoundTrip(qn, fs, want);
    x := StepAt(qn, fs);
    StepRoundTrip(qn, fs, x);
    SteppedPartition(qn, x);
    dec.Update(Stepped(qn, x).fl, Stepped(qn, x).fh, StepFt(qn));
  }

  /** The value at a frequency of the triangular distribution. */
  method TriangularValue(qn: nat, fm: nat) returns (itheta: nat)
    requires ValidQn(qn) && fm < TriangularFt(qn)
    ensures itheta <= qn && Triangular(qn, itheta).fl <= fm < Triangular(qn, itheta).fh
  {
    BoundaryGrows(qn, qn);
    ghost var i := TriangularCovers(qn, fm, qn);
    SquareMonotone(qn / 2 + 1, 129);
    var root;
    if fm < qn / 2 * (qn / 2 + 1) / 2 {
      root := Isqrt32(8 * fm + 1);
      TriangularRoundTrip(qn, fm, i, root);
      itheta := (root - 1) / 2;
    } else {
      root := Isqrt32(8 * (TriangularFt(qn) - fm - 1) + 1);
      TriangularRoundTrip(qn, fm, i, root);
      itheta := (2 * (qn + 1) - root) / 2;
    }
  }

  /** The decoder's side of the triangular distribution; want is the value coded. */
  method DecodeTriangular(dec: Decoder, qn: nat, ghost want: nat) returns (itheta: nat)
    requires dec.Valid() && ValidQn(qn) && want <= qn
    modifies dec
    ensures dec.Valid() && dec.error == old(dec.error) && itheta <= qn
    ensures old(dec.trace) + ThetaOps(want, qn, TriangularShape) <= dec.script ==>
      itheta == want && dec.trace == old(dec.trace) + ThetaOps(want, qn, TriangularShape)
  {
    TriangularPartition(qn, want);
    var fm := dec.Decode(TriangularFt(qn));
    itheta := TriangularValue(qn, fm);
    TriangularPartition(qn, itheta);
    TriangularDisjoint(qn, fm, itheta, want);
    dec.Update(Triangular(qn, itheta).fl, Triangular(qn, itheta).fh, TriangularFt(qn));
  }

  /** A frequency lies in one interval only. */
  lemma TriangularDisjoint(qn: nat, fm: nat, i: nat, j: nat)
    requires ValidQn(qn) && i <= qn && j <= qn && Triangular(qn, i).fl <= fm < Triangular(qn, i).fh
    ensures Triangular(qn, j).fl <= fm < Triangular(qn, j).fh ==> i == j
  {
    TriangularBounds(qn, i);
    TriangularBounds(qn, j);
    if i < j {
      BoundaryFrom(qn, i + 1, j);
    } else if j < i {
      BoundaryFrom(qn, j + 1, i);
    }
  }

  /** The entropy coding of the angle in compute_theta, decoder's side; want is the angle coded. */
  method DecodeTheta(dec: Decoder, qn: nat, stereo: bool, n: nat, b0: nat, ghost want: nat) returns (itheta: nat)
    requires dec.Valid() && ValidQn(qn) && want <= qn
    modifies dec
    ensures dec.Valid() && itheta <= qn
    ensures var ops := ThetaOps(want, qn, ShapeOf(stereo, n, b0));
      old(dec.trace) + ops <= dec.script ==>
        itheta == want && dec.trace == old(dec.trace) + ops && dec.error == old(dec.error)
  {
    if stereo && n > 2 {
      itheta := DecodeStepped(dec, qn, want);
    } else if b0 > 1 || stereo {
      itheta := dec.Uint(qn + 1, want);
    } else {
      itheta := DecodeTriangular(dec, qn, want);
    }
  }
}
