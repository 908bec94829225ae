/**
 ec_tell_frac of entcode.c: bits used in eighths. The library takes the fraction of the logarithm of the range from a
 table of thresholds; this is proved to be what the squaring loop it replaces computes.
 */
module FracTelling {
  import opened Arith

  /** The table of thresholds. */
  function Correction(b: nat): nat {
    if b < 4 then if b == 0 then 35733 else if b == 1 then 38967 else if b == 2 then 42495 else 46340
    else if b == 4 then 50535 else if b == 5 then 55109 else if b == 6 then 60097 else 65535
  }

  /** The top 16 bits of the range. */
  function Top16(rng: nat): (r: nat)
    requires rng >= 32768
    ensures 32768 <= r < 65536
  {
    TopBits(rng, 16);
    Shr(rng, Ilog(rng) - 16)
  }

  lemma {:induction false} TopBits(x: nat, k: nat)
    requires k == 16 && x >= 32768
    ensures Ilog(x) >= k && 32768 <= Shr(x, Ilog(x) - k) < 65536
  {
    if x < 65536 {
      Pow2Bytes();
      IlogUnique(x, k);
    } else {
      TopBits(x / 2, k);
      ShrHalf(x, Ilog(x) - k - 1);
    }
  }

  /** Eighths of the logarithm of a 16-bit number, by the table. */
  function Eighths(r: nat): (b: nat)
    requires 32768 <= r < 65536
    ensures b <= 8
  {
    var b := r / 4096 - 8;
    b + if r > Correction(b) then 1 else 0
  }

  /** ec_tell_frac */
  function FracTell(nbitsTotal: int, rng: nat): int
    requires rng >= 32768
  {
    8 * nbitsTotal - (8 * Ilog(rng) + Eighths(Top16(rng)))
  }

  /** The squaring loop, n rounds of it: the next n binary digits of the logarithm. */
  function Digits(r: nat, n: nat): (v: nat)
    requires 32768 <= r < 65536
    ensures v < Pow2(n)
    decreases n
  {
    if n == 0 then 0
    else
      SquareRange(r);
      var s := r * r / 32768;
      if s >= 65536 then Pow2(n - 1) + Digits(s / 2, n - 1) else Digits(s, n - 1)
  }

  lemma SquareRange(r: nat)
    requires 32768 <= r < 65536
    ensures 32768 <= r * r / 32768 < 131072
  {
    MulMonotone(r, 32768, r);
    MulMonotone(r, r, 65535);
  }

  /** The loop is monotone, so it is settled by its values at the thresholds. */
  lemma {:induction false} DigitsMonotone(r: nat, q: nat, n: nat)
    requires 32768 <= r <= q < 65536
    ensures Digits(r, n) <= Digits(q, n)
    decreases n
  {
    if n > 0 {
      SquareRange(r);
      SquareRange(q);
      MulMonotone(r, r, q);
      MulMonotone(q, r, q);
      var s, t := r * r / 32768, q * q / 32768;
      if t < 65536 {
        DigitsMonotone(s, t, n - 1);
      } else if s >= 65536 {
        DigitsMonotone(s / 2, t / 2, n - 1);
      }
    }
  }

  /** Between two points where the loop gives the same digits it gives them throughout. */
  lemma Between(r: nat, lo: nat, hi: nat, n: nat)
    requires 32768 <= lo <= r <= hi < 65536 && Digits(lo, n) == Digits(hi, n)
    ensures Digits(r, n) == Digits(lo, n)
  {
    DigitsMonotone(lo, r, n);
    DigitsMonotone(r, hi, n);
  }

  /** One point of the loop, by its three squares. */
  lemma Evaluate(r: nat, s: nat, t: nat, n: nat)
    requires n == 3 && 32768 <= r < 65536
    requires s == Root(r) && t == Root(s)
    ensures Digits(r, n) == 4 * Digit(r) + 2 * Digit(s) + Digit(t)
  {
    assert Digits(r, n) == Pow2(n - 1) * Digit(r) + Digits(s, n - 1);
    assert Digits(s, n - 1) == Pow2(n - 2) * Digit(s) + Digits(t, n - 2);
  }

  function Digit(r: nat): nat {
    if r * r / 32768 >= 65536 then 1 else 0
  }

  function Root(r: nat): (s: nat)
    requires 32768 <= r < 65536
    ensures 32768 <= s < 65536
  {
    SquareRange(r);
    if r * r / 32768 >= 65536 then r * r / 65536 else r * r / 32768
  }

  /** The thresholds are where the loop's value steps up. */
  lemma Thresholds(b: nat, n: nat)
    requires n == 3 && b < 7
    ensures Digits(Correction(b), n) == b && Digits(Correction(b) + 1, n) == b + 1
  {
    match b {
      case 0 => Evaluate(35733, 38966, 46336, n); Evaluate(35734, 38968, 46341, n);
      case 1 => Evaluate(38967, 46338, 65527, n); Evaluate(38968, 46341, 32768, n);
      case 2 => Evaluate(42495, 55109, 46340, n); Evaluate(42496, 55112, 46346, n);
      case 3 => Evaluate(46340, 65533, 65530, n); Evaluate(46341, 32768, 32768, n);
      case 4 => Evaluate(50535, 38967, 46338, n); Evaluate(50536, 38969, 46343, n);
      case 5 => Evaluate(55109, 46340, 65533, n); Evaluate(55110, 46342, 32769, n);
      case 6 => Evaluate(60097, 55109, 46340, n); Evaluate(60098, 55111, 46344, n);
    }
  }

  lemma Ends(n: nat)
    requires n == 3
    ensures Digits(32768, n) == 0 && Digits(65535, n) == 7
  {
    Evaluate(32768, 32768, 32768, n);
    Evaluate(65535, 65534, 65532, n);
  }

  /** The table's value counts the thresholds passed. */
  lemma EighthsCount(r: nat, b: nat)
    requires 32768 <= r < 65536 && b == r / 4096 - 8
    ensures var v := Eighths(r); v <= 7 && r <= Correction(v) && (v > 0 ==> Correction(v - 1) < r)
  {
    assert b <= 7 && 4096 * (b + 8) <= r < 4096 * (b + 9);
    match b {
      case 0 =>
      case 1 =>
      case 2 =>
      case 3 =>
      case 4 =>
      case 5 =>
      case 6 =>
      case 7 =>
    }
  }

  /** The table gives what the loop computes. */
  lemma EighthsAreDigits(r: nat, n: nat)
    requires 32768 <= r < 65536 && n == 3
    ensures Eighths(r) == Digits(r, n)
  {
    Ends(n);
    EighthsCount(r, r / 4096 - 8);
    var v := Eighths(r);
    var lo := if v > 0 then Correction(v - 1) + 1 else 32768;
    if v > 0 {
      Thresholds(v - 1, n);
    }
    if v < 7 {
      Thresholds(v, n);
    }
    Between(r, lo, Correction(v), n);
  }

  /** ec_tell_frac agrees with the squaring loop for every range. */
  lemma FracTellIsLoop(nbitsTotal: int, rng: nat, n: nat)
    requires rng >= 32768 && n == 3
    ensures FracTell(nbitsTotal, rng) == 8 * nbitsTotal - (8 * Ilog(rng) + Digits(Top16(rng), n))
  {
    EighthsAreDigits(Top16(rng), n);
  }
}
