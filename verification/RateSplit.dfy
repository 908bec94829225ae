/**
 The end of allocation in rate.c: what is left is spread over the coded bands, and every band is split into pulses
 and fine energy bits; what a band cannot use is carried into the next as its balance.
 */
module RateSplit {
  import opened Arith
  import opened RangeSpec
  import opened RateSpec
  import opened RateSkip

  const MAX_FINE_BITS := 8
  const FINE_OFFSET := 21

  // ----- Spreading what is left

  /** A band's even share, and the rest one eighth per coefficient from the lowest band up. */
  function Extra(f: Frame, left: nat, coded: nat, j: nat): (x: int)
    requires ValidFrame(f) && f.start <= j < coded <= f.end
  {
    Share(f, left, coded) * Width(f, j) + Max(0, Min(Rest(f, left, coded) - Below(f, j), Width(f, j)))
  }

  function Spread(f: Frame, bits: seq<int>, left: nat, coded: nat): (s: seq<int>)
    requires ValidFrame(f) && f.start < coded <= f.end && |bits| == f.end
    ensures |s| == f.end
  {
    seq(f.end, j requires 0 <= j < f.end =>
      if f.start <= j < coded then bits[j] + Extra(f, left, coded, j) else bits[j])
  }

  /** The shares of the bands below j. */
  lemma {:induction false} SpreadSum(f: Frame, bits: seq<int>, left: nat, coded: nat, j: nat)
    requires ValidFrame(f) && f.start <= j <= coded <= f.end && f.start < coded && |bits| == f.end
    ensures Sum(Spread(f, bits, left, coded), f.start, j) == Sum(bits, f.start, j)
              + Share(f, left, coded) * Below(f, j) + Max(0, Min(Rest(f, left, coded), Below(f, j)))
    decreases j
  {
    if j > f.start {
      SpreadSum(f, bits, left, coded, j - 1);
      var t := Spread(f, bits, left, coded);
      SumLast(bits, f.start, j);
      SumLast(t, f.start, j);
      Distribute(Share(f, left, coded), Below(f, j - 1), Width(f, j - 1));
      assert Below(f, j) == Below(f, j - 1) + Width(f, j - 1);
    }
  }

  /** Everything left is spread, and no band loses by it. */
  lemma SpreadAll(f: Frame, bits: seq<int>, left: nat, coded: nat)
    requires ValidFrame(f) && f.start < coded <= f.end && |bits| == f.end
    requires forall j :: 0 <= j < f.end ==> bits[j] >= 0
    ensures Sum(Spread(f, bits, left, coded), f.start, coded) == Sum(bits, f.start, coded) + left
    ensures forall j :: 0 <= j < f.end ==> Spread(f, bits, left, coded)[j] >= 0
  {
    SpreadSum(f, bits, left, coded, coded);
    RestBounds(left, Below(f, coded));
    forall j: nat | f.start <= j < coded ensures Extra(f, left, coded, j) >= 0 {
      MulMonotone(Width(f, j), 0, Share(f, left, coded));
    }
  }

  lemma RestBounds(left: nat, all: nat)
    requires all > 0
    ensures 0 <= left / all && 0 <= left - all * (left / all) < all
  {
    assert left == all * (left / all) + left % all;
  }

  // ----- Splitting one band

  datatype Band = Band(pulses: int, ebits: int, priority: bool, balance: int)

  /** Stereo bands that are neither dual nor intensity coded have a degree of freedom more. */
  function Freedom(f: Frame, j: nat, intensity: int, dual: bool): (den: int)
    requires ValidFrame(f) && j < f.end
    ensures den >= 1
  {
    var n := Width(f, j) * Pow2(f.lm);
    MulMonotone(Width(f, j), 1, Pow2(f.lm));
    f.channels * n + if f.channels == 2 && n > 2 && !dual && j < intensity then 1 else 0
  }

  /** The correction to the fine bits for the band's size, in eighths over all its degrees of freedom. */
  function FineOffset(f: Frame, j: nat, den: int, bits: int): int
    requires ValidFrame(f) && j < f.end
  {
    var nc := den * (f.mode.logN[j] + 8 * f.lm);
    var base := nc / 2 - den * FINE_OFFSET + if Width(f, j) * Pow2(f.lm) == 2 then den * 8 / 4 else 0;
    if bits + base < den * 2 * 8 then base + nc / 4
    else if bits + base < den * 3 * 8 then base + nc / 8
    else base
  }

  /** How many fine bits a band with this many eighths gets. */
  function FineBits(channels: nat, bits: nat, offset: int, den: int): (e: int)
    requires den >= 1 && 1 <= channels <= 2
    ensures 0 <= e <= MAX_FINE_BITS && 8 * channels * e <= bits
  {
    QuotientFits(Max(0, bits + offset + den * 4), den);
    var fair := Max(0, bits + offset + den * 4) / den / 8;
    var safe := if channels * fair > bits / 8 then bits / channels / 8 else fair;
    Min(safe, MAX_FINE_BITS)
  }

  lemma QuotientFits(x: nat, d: int)
    requires d >= 1
    ensures x / d >= 0
  {
  }

  /** What a band does with more than it can use: more fine bits first, and the rest is passed on. */
  function PassOn(channels: nat, pulses: int, ebits: int, priority: bool, excess: int, balance: int): (b: Band)
    requires 1 <= channels <= 2 && 0 <= excess && 0 <= ebits <= MAX_FINE_BITS
    ensures b.pulses == pulses && ebits <= b.ebits <= MAX_FINE_BITS && 0 <= b.balance
    ensures excess + 8 * channels * ebits == 8 * channels * b.ebits + b.balance
  {
    if excess > 0 then
      Distribute(8 * channels, ebits, Min(excess / (8 * channels), MAX_FINE_BITS - ebits));
      var extra := Min(excess / (8 * channels), MAX_FINE_BITS - ebits);
      Band(pulses, ebits + extra, extra * channels * 8 >= excess - balance, excess - extra * channels * 8)
    else Band(pulses, ebits, priority, 0)
  }

  /** A band of more than one coefficient. */
  function SplitWide(f: Frame, j: nat, bit: nat, balance: nat, den: int): (b: Band)
    requires ValidFrame(f) && j < f.end && den >= 1
    ensures bit == b.pulses + 8 * f.channels * b.ebits + b.balance
    ensures b.pulses >= 0 && 0 <= b.ebits <= MAX_FINE_BITS && b.balance >= 0 && b.pulses <= f.cap[j]
  {
    var excess := Max(bit - f.cap[j], 0);
    var offset := FineOffset(f, j, den, bit - excess);
    var e := FineBits(f.channels, bit - excess, offset, den);
    PassOn(f.channels, bit - excess - 8 * f.channels * e, e, e * (den * 8) >= bit - excess + offset, excess, balance)
  }

  /** A coded band: its share and the balance so far become pulses, fine bits and a new balance. */
  function SplitBand(f: Frame, j: nat, bits: nat, balance: nat, intensity: int, dual: bool): (b: Band)
    requires ValidFrame(f) && j < f.end
    ensures bits + balance == b.pulses + 8 * f.channels * b.ebits + b.balance
    ensures b.pulses >= 0 && 0 <= b.ebits <= MAX_FINE_BITS && b.balance >= 0
    ensures b.pulses <= Max(f.cap[j], 8 * f.channels)
  {
    if Width(f, j) * Pow2(f.lm) > 1 then SplitWide(f, j, bits + balance, balance, Freedom(f, j, intensity, dual))
    else
      var excess := Max(0, bits + balance - 8 * f.channels);
      PassOn(f.channels, bits + balance - excess, 0, true, excess, balance)
  }

  /** A skipped band has a fine energy bit per channel or nothing. */
  function SkippedBand(f: Frame, bits: int): (b: Band)
    requires ValidFrame(f)
    ensures bits == 0 || bits == 8 * f.channels ==> b.pulses + 8 * f.channels * b.ebits == bits && 0 <= b.ebits <= 1
  {
    var e := bits / f.channels / 8;
    Band(0, e, e < 1, 0)
  }

  // ----- All bands

  datatype Stereo = Stereo(intensity: int, dual: bool)

  /** What is carried into band j. */
  function Carry(f: Frame, bits: seq<int>, st: Stereo, j: nat): (b: nat)
    requires ValidFrame(f) && |bits| == f.end && f.start <= j <= f.end
    requires forall k :: 0 <= k < f.end ==> bits[k] >= 0
  {
    if j == f.start then 0
    else SplitBand(f, j - 1, bits[j - 1], Carry(f, bits, st, j - 1), st.intensity, st.dual).balance
  }

  /** What becomes of band j, of which so many are coded. */
  function BandAt(f: Frame, bits: seq<int>, coded: nat, st: Stereo, j: nat): Band
    requires ValidFrame(f) && |bits| == f.end && f.start <= j < f.end
    requires forall k :: 0 <= k < f.end ==> bits[k] >= 0
  {
    if j < coded then SplitBand(f, j, bits[j], Carry(f, bits, st, j), st.intensity, st.dual)
    else SkippedBand(f, bits[j])
  }

  /** What bands from start up to j use. */
  function Used(f: Frame, bits: seq<int>, coded: nat, st: Stereo, j: nat): int
    requires ValidFrame(f) && |bits| == f.end && f.start <= j <= f.end
    requires forall k :: 0 <= k < f.end ==> bits[k] >= 0
  {
    if j == f.start then 0
    else
      var b := BandAt(f, bits, coded, st, j - 1);
      Used(f, bits, coded, st, j - 1) + b.pulses + 8 * f.channels * b.ebits
  }

  lemma {:induction false} CodedBandsUse(f: Frame, bits: seq<int>, coded: nat, st: Stereo, j: nat)
    requires ValidFrame(f) && |bits| == f.end && f.start <= j <= coded <= f.end
    requires forall k :: 0 <= k < f.end ==> bits[k] >= 0
    ensures Used(f, bits, coded, st, j) + Carry(f, bits, st, j) == Sum(bits, f.start, j)
    decreases j
  {
    if j > f.start {
      CodedBandsUse(f, bits, coded, st, j - 1);
      SumLast(bits, f.start, j);
    }
  }

  lemma {:induction false} AllBandsUse(f: Frame, bits: seq<int>, coded: nat, st: Stereo, j: nat)
    requires ValidFrame(f) && |bits| == f.end && f.start <= coded <= j <= f.end
    requires forall k :: 0 <= k < f.end ==> bits[k] >= 0
    requires forall k :: coded <= k < f.end ==> bits[k] == 0 || bits[k] == 8 * f.channels
    ensures Used(f, bits, coded, st, j) + Carry(f, bits, st, coded) == Sum(bits, f.start, j)
    decreases j
  {
    if j == coded {
      CodedBandsUse(f, bits, coded, st, j);
    } else {
      AllBandsUse(f, bits, coded, st, j - 1);
      SumLast(bits, f.start, j);
    }
  }

  // ----- The whole allocation

  /** What a call of the allocator comes to, given the decisions coded in the stream. */
  datatype Outcome = Outcome(run: Run, stereo: Stereo, dualRsv: int, bits: seq<int>)

  /** The end of a call: the stereo parameters, and the rest spread. */
  function Finish(f: Frame, r: Reserve, run: Run, intensity: int, dual: bool): (o: Outcome)
    requires ValidSkip(f, run.last) && r.dual >= 0
    ensures |o.bits| == f.end && o.run == run
  {
    var s := run.last;
    var i := if s.intensity > 0 then Min(intensity, s.coded) else 0;
    var held := if i <= f.start then 0 else r.dual;
    Outcome(run, Stereo(i, held > 0 && dual), held, Spread(f, s.bits, s.total + (r.dual - held) - s.spent, s.coded))
  }

  function OutcomeOf(f: Frame, total: int, keep: Skip -> bool, intensity: int, dual: bool): (o: Outcome)
    requires ValidFrame(f)
    ensures |o.bits| == f.end && ValidSkip(f, o.run.last)
  {
    var r := Reserved(f, total);
    InitialValid(f, total);
    SkipRunKeeps(f, Initial(f, r), r.skip, keep);
    Finish(f, r, SkipRun(f, Initial(f, r), r.skip, keep), intensity, dual)
  }

  /** What is coded for the intensity band, and for the dual stereo flag. */
  function IntensityOps(f: Frame, coded: nat, rsv: int, i: int): seq<Op>
    requires f.start < coded && (rsv > 0 ==> f.start <= i <= coded)
  {
    if rsv > 0 then UintOps(i - f.start, coded + 1 - f.start) else []
  }

  function DualOps(held: int, dual: bool): seq<Op> {
    if held > 0 then [BitOp(dual, 1)] else []
  }

  ghost predicate Codable(f: Frame, o: Outcome) {
    && f.start < o.run.last.coded
    && (o.run.last.intensity > 0 ==> f.start <= o.stereo.intensity <= o.run.last.coded)
  }

  ghost function StereoOps(f: Frame, o: Outcome): seq<Op>
    requires Codable(f, o)
  {
    IntensityOps(f, o.run.last.coded, o.run.last.intensity, o.stereo.intensity) + DualOps(o.dualRsv, o.stereo.dual)
  }

  /** What is coded in the stream: the skip flags, the intensity band and the dual stereo flag. */
  ghost function OutcomeOps(f: Frame, o: Outcome): seq<Op>
    requires Codable(f, o)
  {
    o.run.flags + StereoOps(f, o)
  }

  /** The bits of each band before they are split: none is negative, and a skipped band has its fine energy bits. */
  ghost predicate ValidBits(f: Frame, bits: seq<int>, coded: nat) {
    && |bits| == f.end && (forall j :: 0 <= j < f.end ==> bits[j] >= 0)
    && (forall j :: coded <= j < f.end ==> bits[j] == 0 || bits[j] == 8 * f.channels)
  }

  lemma FinishKeeps(f: Frame, r: Reserve, run: Run, intensity: int, dual: bool)
    requires ValidSkip(f, run.last) && r.dual >= 0
    ensures var o := Finish(f, r, run, intensity, dual);
      ValidBits(f, o.bits, run.last.coded)
      && Sum(o.bits, f.start, f.end) + run.last.intensity + o.dualRsv == Held(f, run.last) + r.dual
  {
    var s, o := run.last, Finish(f, r, run, intensity, dual);
    SpreadAll(f, s.bits, s.total + (r.dual - o.dualRsv) - s.spent, s.coded);
    SumSplit(s.bits, f.start, s.coded, f.end);
    SumSplit(o.bits, f.start, s.coded, f.end);
    SumFrame(s.bits, o.bits, s.coded, f.end);
  }

  lemma OutcomeBits(f: Frame, total: int, keep: Skip -> bool, intensity: int, dual: bool)
    requires ValidFrame(f)
    ensures var o := OutcomeOf(f, total, keep, intensity, dual);
      ValidBits(f, o.bits, o.run.last.coded)
      && Sum(o.bits, f.start, f.end) + 8 * |o.run.flags| + o.run.last.intensity + o.dualRsv == Max(total, 0)
  {
    var r := Reserved(f, total);
    InitialValid(f, total);
    SkipRunKeeps(f, Initial(f, r), r.skip, keep);
    FinishKeeps(f, r, SkipRun(f, Initial(f, r), r.skip, keep), intensity, dual);
  }

  /**
   Exact conservation: every eighth of a bit of a nonnegative budget is in the pulses or the fine energy of a band,
   in the final balance, in a skip flag, or still reserved for the intensity band or the dual stereo flag; this for
   any decisions. No entry is negative, fine energy is at most eight bits in a coded band, and the first band is
   always coded.
   */
  lemma Conservation(f: Frame, total: int, keep: Skip -> bool, intensity: int, dual: bool)
    requires ValidFrame(f)
    ensures var o := OutcomeOf(f, total, keep, intensity, dual);
      && f.start < o.run.last.coded <= f.end && ValidBits(f, o.bits, o.run.last.coded)
      && Max(total, 0) == Used(f, o.bits, o.run.last.coded, o.stereo, f.end)
                          + Carry(f, o.bits, o.stereo, o.run.last.coded)
                          + 8 * |o.run.flags| + o.run.last.intensity + o.dualRsv
  {
    OutcomeBits(f, total, keep, intensity, dual);
    var o := OutcomeOf(f, total, keep, intensity, dual);
    AllBandsUse(f, o.bits, o.run.last.coded, o.stereo, f.end);
  }

  lemma EntriesInRange(f: Frame, bits: seq<int>, coded: nat, st: Stereo, j: nat)
    requires ValidFrame(f) && ValidBits(f, bits, coded) && f.start <= j < f.end
    ensures var b := BandAt(f, bits, coded, st, j);
      0 <= b.pulses <= Max(f.cap[j], 8 * f.channels) && 0 <= b.ebits <= MAX_FINE_BITS
      && (j >= coded ==> b.pulses == 0 && b.ebits <= 1)
  {
  }
}
