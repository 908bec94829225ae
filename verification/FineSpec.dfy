/**
 Fine energy (quant_bands.c; RFC 6716, section 4.3.2.2): raw bits that split a band's coarse step into 2^n parts, and
 the bits left over at the end of the frame, which split once more. What they do not represent stays in `error`.
 */
module FineSpec {
  import opened Arith
  import opened RangeSpec
  import opened CoarseSpec

  /** The one of p parts of a step, from -1/2 to 1/2, that an error lies in. */
  function PartOf(e: real, p: nat): (q: nat)
    requires p > 0
    ensures q < p
  {
    Max(0, Min(((e + 0.5) * p as real).Floor, p - 1))
  }

  function Part(e: real, n: nat): nat {
    PartOf(e, Pow2(n))
  }

  /** (1 << (14 - n)) * (1 / 16384) */
  function Fraction(n: nat): real
    requires n <= 14
  {
    Pow2(14 - n) as real * (1.0 / 16384.0)
  }

  /** The middle of part q, in steps of u. */
  function MiddleOf(q: nat, u: real): real {
    (q as real + 0.5) * u - 0.5
  }

  function Middle(q: nat, n: nat): real
    requires n <= 14
  {
    MiddleOf(q, Fraction(n))
  }

  /** The last bit: which half of what is left. */
  function HalfOf(e: real): (q: nat)
    ensures q < 2
  {
    if e < 0.0 then 0 else 1
  }

  function HalfMiddleOf(q: nat, u: real): real {
    (q as real - 0.5) * u
  }

  function HalfMiddle(q: nat, n: nat): real
    requires n < 14
  {
    HalfMiddleOf(q, Fraction(n + 1))
  }

  /** 2^-n */
  function Unit(n: nat): real {
    1.0 / Pow2(n) as real
  }

  lemma {:induction false} Complement(n: nat, m: nat)
    requires n <= m
    ensures Pow2(m - n) * Pow2(n) == Pow2(m)
    decreases n
  {
    if n > 0 {
      Complement(n - 1, m);
      assert Pow2(m - (n - 1)) == 2 * Pow2(m - n);
    }
  }

  lemma Quotient(r: real, p: real, s: real)
    requires p >= 1.0 && r * p == s && s > 0.0
    ensures r * (1.0 / s) == 1.0 / p
  {
    assert r == s / p;
    assert r * (1.0 / s) == r / s;
  }

  lemma Pow2Is16384(m: nat)
    requires m == 14
    ensures Pow2(m) == 16384
  {
    Pow2Bytes();
    assert Pow2(m + 1) == 2 * Pow2(m);
  }

  lemma FractionIs(n: nat, m: nat)
    requires n <= m && m == 14
    ensures Fraction(n) == Unit(n)
  {
    Complement(n, m);
    Pow2Is16384(m);
    Quotient(Pow2(m - n) as real, Pow2(n) as real, 16384.0);
  }

  lemma UnitNext(n: nat)
    ensures Unit(n + 1) == Unit(n) / 2.0
  {
    Halve(Pow2(n) as real, Pow2(n + 1) as real);
  }

  lemma Halve(p: real, p2: real)
    requires p >= 1.0 && p2 == 2.0 * p
    ensures 1.0 / p2 == (1.0 / p) / 2.0
  {
  }

  lemma UnitInverse(n: nat)
    ensures Unit(n) > 0.0 && Pow2(n) as real * Unit(n) == 1.0
  {
    Inverse(Pow2(n) as real);
  }

  lemma Inverse(p: real)
    requires p >= 1.0
    ensures 1.0 / p > 0.0 && p * (1.0 / p) == 1.0
  {
  }

  /** A part's middle is at most half a part from any error in it. */
  lemma PartError(e: real, n: nat, v: real)
    requires -0.5 <= e <= 0.5 && n <= 14 && v == Unit(n + 1)
    ensures -v <= e - Middle(Part(e, n), n) <= v
  {
    UnitNext(n);
    PartErrorAt(e, n, Unit(n), v);
  }

  lemma PartErrorAt(e: real, n: nat, u: real, v: real)
    requires -0.5 <= e <= 0.5 && n <= 14 && u == Unit(n) && v == u / 2.0
    ensures -v <= e - Middle(Part(e, n), n) <= v
  {
    MiddlePart(e, n);
    PartErrorUnit(e, n, Pow2(n), u);
  }

  lemma MiddlePart(e: real, n: nat)
    requires n <= 14
    ensures Middle(Part(e, n), n) == MiddleOf(PartOf(e, Pow2(n)), Unit(n))
  {
    FractionIs(n, 14);
  }

  lemma PartErrorUnit(e: real, n: nat, p: nat, u: real)
    requires -0.5 <= e <= 0.5 && p == Pow2(n) && u == Unit(n)
    ensures -(u / 2.0) <= e - MiddleOf(PartOf(e, p), u) <= u / 2.0
  {
    UnitInverse(n);
    PartErrorOf(e, p, u);
  }

  lemma PartErrorOf(e: real, p: nat, u: real)
    requires -0.5 <= e <= 0.5 && p >= 1 && p as real * u == 1.0 && u > 0.0
    ensures -(u / 2.0) <= e - MiddleOf(PartOf(e, p), u) <= u / 2.0
  {
    var q := PartOf(e, p);
    PartNear(e + 0.5, p as real, q as real, ((e + 0.5) * p as real).Floor as real);
    Scaling(e + 0.5, p as real, q as real, u);
  }

  lemma PartNear(y: real, p: real, q: real, f: real)
    requires 0.0 <= y <= 1.0 && p >= 1.0 && f <= y * p < f + 1.0
    requires q == if p - 1.0 < f then p - 1.0 else if f < 0.0 then 0.0 else f
    ensures -0.5 <= y * p - q - 0.5 <= 0.5
  {
    assert y * p <= p;
    assert y * p >= 0.0;
  }

  lemma Scaling(y: real, p: real, q: real, u: real)
    requires p * u == 1.0 && u > 0.0 && -0.5 <= y * p - q - 0.5 <= 0.5
    ensures -(u / 2.0) <= y - (q + 0.5) * u <= u / 2.0
  {
    var d := y * p - q - 0.5;
    assert (y * p) * u == y * (p * u);
    assert d * u == y - (q + 0.5) * u;
    assert d * u <= 0.5 * u && -0.5 * u <= d * u;
  }

  /** The last bit halves the error. */
  lemma HalfError(e: real, n: nat)
    requires n < 14 && -Unit(n + 1) <= e <= Unit(n + 1)
    ensures -Unit(n + 2) <= e - HalfMiddle(HalfOf(e), n) <= Unit(n + 2)
  {
    UnitNext(n + 1);
    FractionIs(n + 1, 14);
    HalfErrorOf(e, Unit(n + 1));
  }

  lemma HalfErrorOf(e: real, u: real)
    requires -u <= e <= u
    ensures -(u / 2.0) <= e - HalfMiddleOf(HalfOf(e), u) <= u / 2.0
  {
  }

  // ----- The two passes

  /** The energies, what they do not represent, and what was coded. */
  datatype Tuning = Tuning(levels: seq<real>, error: seq<real>, ops: seq<Op>)

  /** The bands and channels, how many fine bits every band has, and which bands come first for the last bits. */
  datatype Frame = Frame(start: nat, end: nat, nb: nat, channels: nat, fine: seq<nat>, priority: seq<int>)

  predicate ValidFrame(f: Frame) {
    && f.start <= f.end <= f.nb && 1 <= f.channels <= 2 && f.end <= |f.fine| && f.end <= |f.priority|
    && forall i :: f.start <= i < f.end ==> f.fine[i] <= 14
  }

  predicate Fits(f: Frame, s: Tuning) {
    ValidFrame(f) && |s.levels| == |s.error| >= Slot(f.nb, f.channels - 1, f.nb)
  }

  predicate InFrame(f: Frame, i: nat, c: nat) {
    ValidFrame(f) && f.start <= i < f.end && c < f.channels
  }

  /** The value coded for an error in a pass, its bits, and what it stands for. */
  function Symbol(last: bool, e: real, n: nat): (q: nat)
    ensures q < Pow2(if last then 1 else n)
  {
    if last then HalfOf(e) else Part(e, n)
  }

  function Offset(last: bool, q: nat, n: nat): real
    requires n <= 14 && (last ==> n < 14)
  {
    if last then HalfMiddle(q, n) else Middle(q, n)
  }

  function TuneOp(last: bool, e: real, n: nat): Op {
    Op.Bits(Symbol(last, e, n), if last then 1 else n)
  }

  function Tune(last: bool, n: nat, k: nat, s: Tuning): (t: Tuning)
    requires k < |s.levels| == |s.error| && n <= 14 && (last ==> n < 14)
    ensures |t.levels| == |t.error| == |s.levels|
  {
    var offset := Offset(last, Symbol(last, s.error[k], n), n);
    Tuning(s.levels[k := s.levels[k] + offset], s.error[k := s.error[k] - offset],
           s.ops + [TuneOp(last, s.error[k], n)])
  }

  /** A band's first c channels. */
  function Band(last: bool, f: Frame, i: nat, c: nat, s: Tuning): (t: Tuning)
    requires Fits(f, s) && f.start <= i < f.end && c <= f.channels && (last ==> f.fine[i] < 14)
    ensures Fits(f, t) && |t.levels| == |s.levels|
  {
    if c == 0 then s else Tune(last, f.fine[i], Slot(i, c - 1, f.nb), Band(last, f, i, c - 1, s))
  }

  /** quant_fine_energy, for the bands below i. */
  function FineTo(f: Frame, i: nat, s: Tuning): (t: Tuning)
    requires Fits(f, s) && f.start <= i <= f.end
    ensures Fits(f, t) && |t.levels| == |s.levels|
  {
    if i == f.start then s
    else if f.fine[i - 1] == 0 then FineTo(f, i - 1, s)
    else Band(false, f, i - 1, f.channels, FineTo(f, i - 1, s))
  }

  const MAX_FINE_BITS := 8

  /** The bits left for the last pass. */
  datatype Rest = Rest(left: int, s: Tuning)

  /** A band that gets a last bit per channel, once its turn comes. */
  predicate Eligible(f: Frame, priority: int, i: nat)
    requires ValidFrame(f) && i < f.end
  {
    f.fine[i] < MAX_FINE_BITS && f.priority[i] == priority
  }

  /** One round of quant_energy_finalise, for the bands below i. */
  function LastTo(f: Frame, priority: int, i: nat, r: Rest): (t: Rest)
    requires Fits(f, r.s) && f.start <= i <= f.end
    ensures Fits(f, t.s) && |t.s.levels| == |r.s.levels|
  {
    if i == f.start then r
    else
      var b := LastTo(f, priority, i - 1, r);
      if b.left >= f.channels && Eligible(f, priority, i - 1) then
        Rest(b.left - f.channels, Band(true, f, i - 1, f.channels, b.s))
      else b
  }

  /** quant_energy_finalise */
  function Finalised(f: Frame, r: Rest): (t: Rest)
    requires Fits(f, r.s)
    ensures Fits(f, t.s) && |t.s.levels| == |r.s.levels|
  {
    LastTo(f, 1, f.end, LastTo(f, 0, f.end, r))
  }

  // ----- What the passes keep

  /** Energy and error together are unchanged. */
  ghost predicate SameSum(s: Tuning, t: Tuning) {
    && |s.levels| == |s.error| == |t.levels| == |t.error|
    && forall k :: 0 <= k < |s.levels| ==> s.levels[k] + s.error[k] == t.levels[k] + t.error[k]
  }

  lemma TuneSum(last: bool, n: nat, k: nat, s: Tuning)
    requires k < |s.levels| == |s.error| && n <= 14 && (last ==> n < 14)
    ensures SameSum(s, Tune(last, n, k, s))
  {
  }

  lemma {:induction false} BandSum(last: bool, f: Frame, i: nat, c: nat, s: Tuning)
    requires Fits(f, s) && f.start <= i < f.end && c <= f.channels && (last ==> f.fine[i] < 14)
    ensures SameSum(s, Band(last, f, i, c, s))
  {
    if c > 0 {
      BandSum(last, f, i, c - 1, s);
      TuneSum(last, f.fine[i], Slot(i, c - 1, f.nb), Band(last, f, i, c - 1, s));
    }
  }

  lemma {:induction false} FineSum(f: Frame, i: nat, s: Tuning)
    requires Fits(f, s) && f.start <= i <= f.end
    ensures SameSum(s, FineTo(f, i, s))
  {
    if i > f.start {
      FineSum(f, i - 1, s);
      if f.fine[i - 1] > 0 {
        BandSum(false, f, i - 1, f.channels, FineTo(f, i - 1, s));
      }
    }
  }

  lemma {:induction false} LastSum(f: Frame, priority: int, i: nat, r: Rest)
    requires Fits(f, r.s) && f.start <= i <= f.end
    ensures SameSum(r.s, LastTo(f, priority, i, r).s)
  {
    if i > f.start {
      LastSum(f, priority, i - 1, r);
      var b := LastTo(f, priority, i - 1, r);
      if b.left >= f.channels && Eligible(f, priority, i - 1) {
        BandSum(true, f, i - 1, f.channels, b.s);
      }
    }
  }

  /** A band's pass takes its own channels' errors down to what their parts miss, and leaves all others alone. */
  lemma {:induction false} BandErrors(last: bool, f: Frame, i: nat, c: nat, s: Tuning, j: nat, d: nat)
    requires Fits(f, s) && f.start <= i < f.end && c <= f.channels && (last ==> f.fine[i] < 14) && InFrame(f, j, d)
    ensures var k, n := Slot(j, d, f.nb), f.fine[i];
      Band(last, f, i, c, s).error[k] ==
      if j == i && d < c then s.error[k] - Offset(last, Symbol(last, s.error[k], n), n) else s.error[k]
  {
    if c > 0 {
      BandErrors(last, f, i, c - 1, s, j, d);
    }
  }

  /** The error that the fine bits leave. */
  function Fined(e: real, n: nat): real
    requires n <= 14
  {
    if n == 0 then e else e - Middle(Part(e, n), n)
  }

  lemma {:induction false} FineErrors(f: Frame, i: nat, s: Tuning, j: nat, d: nat)
    requires Fits(f, s) && f.start <= i <= f.end && InFrame(f, j, d)
    ensures var k := Slot(j, d, f.nb);
      FineTo(f, i, s).error[k] == if j < i then Fined(s.error[k], f.fine[j]) else s.error[k]
  {
    if i > f.start {
      FineErrors(f, i - 1, s, j, d);
      if f.fine[i - 1] > 0 {
        BandErrors(false, f, i - 1, f.channels, FineTo(f, i - 1, s), j, d);
      }
    }
  }

  /** From half a step, n fine bits bring the error of a band down to 2^-(n + 1). */
  lemma FineBound(f: Frame, s: Tuning, j: nat, d: nat)
    requires Fits(f, s) && InFrame(f, j, d) && -0.5 <= s.error[Slot(j, d, f.nb)] <= 0.5
    ensures -Unit(f.fine[j] + 1) <= FineTo(f, f.end, s).error[Slot(j, d, f.nb)] <= Unit(f.fine[j] + 1)
  {
    FineErrors(f, f.end, s, j, d);
    var e, n := s.error[Slot(j, d, f.nb)], f.fine[j];
    if n > 0 {
      PartError(e, n, Unit(n + 1));
    } else {
      UnitHalf(n);
    }
  }

  lemma UnitHalf(n: nat)
    requires n == 0
    ensures Unit(n + 1) == 0.5
  {
    UnitNext(n);
  }

  /** A band whose turn comes while there is a bit for each of its channels. */
  predicate Served(f: Frame, priority: int, i: nat, r: Rest)
    requires Fits(f, r.s) && f.start <= i < f.end
  {
    LastTo(f, priority, i, r).left >= f.channels && Eligible(f, priority, i)
  }

  lemma {:induction false} LastErrors(f: Frame, priority: int, i: nat, r: Rest, j: nat, d: nat)
    requires Fits(f, r.s) && f.start <= i <= f.end && InFrame(f, j, d)
    ensures var k, n := Slot(j, d, f.nb), f.fine[j];
      LastTo(f, priority, i, r).s.error[k] ==
      if j < i && Served(f, priority, j, r) then r.s.error[k] - HalfMiddle(HalfOf(r.s.error[k]), n) else r.s.error[k]
  {
    if i > f.start {
      LastErrors(f, priority, i - 1, r, j, d);
      if Served(f, priority, i - 1, r) {
        BandErrors(true, f, i - 1, f.channels, LastTo(f, priority, i - 1, r).s, j, d);
      }
    }
  }

  /** The last pass halves the error of the bands it serves, each in one of its two rounds, and leaves the others'. */
  lemma LastBound(f: Frame, r: Rest, j: nat, d: nat)
    requires Fits(f, r.s) && InFrame(f, j, d)
    requires var n := f.fine[j]; -Unit(n + 1) <= r.s.error[Slot(j, d, f.nb)] <= Unit(n + 1)
    ensures var n, e := f.fine[j], Finalised(f, r).s.error[Slot(j, d, f.nb)];
      if Served(f, 0, j, r) || Served(f, 1, j, LastTo(f, 0, f.end, r)) then -Unit(n + 2) <= e <= Unit(n + 2)
      else e == r.s.error[Slot(j, d, f.nb)]
  {
    LastErrors(f, 0, f.end, r, j, d);
    LastErrors(f, 1, f.end, LastTo(f, 0, f.end, r), j, d);
    if Served(f, 0, j, r) || Served(f, 1, j, LastTo(f, 0, f.end, r)) {
      HalfError(r.s.error[Slot(j, d, f.nb)], f.fine[j]);
    }
  }

  /** After the coarse pass, where the band's wish was granted: fine energies are within 2^-(n + 1) of the originals. */
  lemma FineAccuracy(p: Call, f: Frame, s: Tuning, j: nat, d: nat)
    requires InRange(p, j, d) && Steady(p, j, d) && Granted(p, j, d)
    requires Fits(f, s) && InFrame(f, j, d) && f.nb == p.nb
    requires s.levels == At(p, p.end, 0).levels && s.error == At(p, p.end, 0).error
    ensures var k, n := Slot(j, d, p.nb), f.fine[j];
      -Unit(n + 1) <= p.bands[k] - FineTo(f, f.end, s).levels[k] <= Unit(n + 1)
  {
    Accounted(p, j, d);
    HalfStep(p, j, d);
    FineBound(f, s, j, d);
    FineSum(f, f.end, s);
    assert s.levels[Slot(j, d, p.nb)] + s.error[Slot(j, d, p.nb)] == p.bands[Slot(j, d, p.nb)];
  }

  // ----- What the passes cost

  /** The raw bits of a list of operations. */
  function RawBits(ops: seq<Op>): nat {
    if ops == [] then 0
    else RawBits(ops[..|ops| - 1]) + if ops[|ops| - 1].Bits? then ops[|ops| - 1].nbits else 0
  }

  lemma {:induction false} BandBits(last: bool, f: Frame, i: nat, c: nat, s: Tuning)
    requires Fits(f, s) && f.start <= i < f.end && c <= f.channels && last && f.fine[i] < 14
    ensures RawBits(Band(last, f, i, c, s).ops) == RawBits(s.ops) + c
  {
    if c > 0 {
      BandBits(last, f, i, c - 1, s);
      var b, k := Band(last, f, i, c - 1, s), Slot(i, c - 1, f.nb);
      var ops := b.ops + [TuneOp(last, b.error[k], f.fine[i])];
      assert ops[..|ops| - 1] == b.ops;
    }
  }

  /** The last pass never spends a bit that is not left, and spends all it takes. */
  lemma {:induction false} LastBits(f: Frame, priority: int, i: nat, r: Rest)
    requires Fits(f, r.s) && f.start <= i <= f.end && r.left >= 0
    ensures var t := LastTo(f, priority, i, r);
      t.left >= 0 && RawBits(t.s.ops) + t.left == RawBits(r.s.ops) + r.left
  {
    if i > f.start {
      LastBits(f, priority, i - 1, r);
      if Served(f, priority, i - 1, r) {
        BandBits(true, f, i - 1, f.channels, LastTo(f, priority, i - 1, r).s);
      }
    }
  }

  // ----- Every pass goes on with what was coded

  lemma {:induction false} BandGrows(last: bool, f: Frame, i: nat, c: nat, d: nat, s: Tuning)
    requires Fits(f, s) && f.start <= i < f.end && c <= d <= f.channels && (last ==> f.fine[i] < 14)
    ensures Band(last, f, i, c, s).ops <= Band(last, f, i, d, s).ops
    decreases d
  {
    if c < d {
      BandGrows(last, f, i, c, d - 1, s);
    }
  }

  lemma {:induction false} FineGrows(f: Frame, i: nat, j: nat, s: Tuning)
    requires Fits(f, s) && f.start <= i <= j <= f.end
    ensures FineTo(f, i, s).ops <= FineTo(f, j, s).ops
    decreases j
  {
    if i < j {
      FineGrows(f, i, j - 1, s);
      if f.fine[j - 1] > 0 {
        BandGrows(false, f, j - 1, 0, f.channels, FineTo(f, j - 1, s));
      }
    }
  }

  lemma {:induction false} LastGrows(f: Frame, priority: int, i: nat, j: nat, r: Rest)
    requires Fits(f, r.s) && f.start <= i <= j <= f.end
    ensures LastTo(f, priority, i, r).s.ops <= LastTo(f, priority, j, r).s.ops
    decreases j
  {
    if i < j {
      LastGrows(f, priority, i, j - 1, r);
      if Served(f, priority, j - 1, r) {
        BandGrows(true, f, j - 1, 0, f.channels, LastTo(f, priority, j - 1, r).s);
      }
    }
  }
}
