/**
 What the allocation of rate.c amounts to for a band: how the bits left over are shared among the coefficients, how
 many of its bits become fine energy, and which bands are given up.
 */
module RateShare {
  import opened Arith
  import opened RateSpec
  import opened RateSkip
  import opened RateSplit

  // ----- The bits left over

  /** Coefficients lo to hi - 1 of `all`: everyone gets the whole part of their even share, and the first one more. */
  function Shares(left: nat, all: nat, lo: nat, hi: nat): nat
    requires all > 0 && lo <= hi
    decreases hi
  {
    if lo == hi then 0
    else Shares(left, all, lo, hi - 1) + left / all + if hi - 1 < left % all then 1 else 0
  }

  lemma {:induction false} SharesAre(left: nat, all: nat, lo: nat, hi: nat)
    requires all > 0 && lo <= hi
    ensures Shares(left, all, lo, hi) == left / all * (hi - lo) + Max(0, Min(left % all - lo, hi - lo))
    decreases hi
  {
    if lo < hi {
      SharesAre(left, all, lo, hi - 1);
      Distribute(left / all, hi - 1 - lo, 1);
    }
  }

  /** What a coded band is given of the bits left over is what its coefficients are. */
  lemma ExtraIsShares(f: Frame, left: nat, coded: nat, j: nat)
    requires ValidFrame(f) && f.start <= j < coded <= f.end
    ensures Extra(f, left, coded, j) == Shares(left, Below(f, coded), Below(f, j), Below(f, j + 1))
  {
    ExtraIs(f, left, coded, j, Below(f, coded), Below(f, j));
    SharesAre(left, Below(f, coded), Below(f, j), Below(f, j + 1));
  }

  lemma ExtraIs(f: Frame, left: nat, coded: nat, j: nat, all: int, below: int)
    requires ValidFrame(f) && f.start <= j < coded <= f.end && all == Below(f, coded) && below == Below(f, j)
    ensures Extra(f, left, coded, j) == left / all * Width(f, j) + Max(0, Min(left % all - below, Width(f, j)))
    ensures Below(f, j + 1) == below + Width(f, j)
  {
    assert Rest(f, left, coded) == left % all;
  }

  /** The skip decision weighs just what the top band would end up with if no more bands were skipped. */
  lemma WeighedIsSpread(f: Frame, s: Skip)
    requires ValidFrame(f) && f.start < s.coded <= f.end && |s.bits| == f.end && s.spent <= s.total
    ensures BandBits(f, s) == Spread(f, s.bits, s.total - s.spent, s.coded)[s.coded - 1]
  {
    var left := s.total - s.spent;
    assert Rest(f, left, s.coded) == left % Below(f, s.coded);
  }

  // ----- Fine energy bits

  /** A band gets its fair share of fine bits, rounded to the nearest, but at most eight, and no more than it has. */
  lemma FineBitsGreatest(channels: nat, bits: nat, offset: int, den: int, e: nat)
    requires den >= 1 && 1 <= channels <= 2
    ensures e <= FineBits(channels, bits, offset, den) <==>
            e <= 8 && 8 * den * e <= Max(0, bits + offset + 4 * den) && 8 * channels * e <= bits
  {
    FairGreatest(Max(0, bits + offset + den * 4), den, e);
    var fair := Max(0, bits + offset + den * 4) / den / 8;
    if channels == 1 {
      assert channels * fair == fair;
    } else {
      assert channels * fair == 2 * fair;
    }
  }

  lemma FairGreatest(x: nat, den: int, e: nat)
    requires den >= 1
    ensures e <= x / den / 8 <==> 8 * den * e <= x
    ensures x / den / 8 >= 0
  {
    DivBounds(x, den, 8 * e);
    assert 8 * e * den == 8 * den * e;
  }

  /** The bits of a band that its cap does not limit; for the last pass it comes first if its share was rounded down. */
  lemma WideBand(f: Frame, j: nat, bit: nat, balance: nat, den: int, e: nat)
    requires ValidFrame(f) && j < f.end && den >= 1 && bit <= f.cap[j]
    requires var share := bit + FineOffset(f, j, den, bit);
      && (e <= 8 && 8 * den * e <= Max(0, share + 4 * den) && 8 * f.channels * e <= bit)
      && (e < 8 && 8 * f.channels * (e + 1) <= bit ==> share + 4 * den < 8 * den * (e + 1))
    ensures SplitWide(f, j, bit, balance, den) ==
            Band(bit - 8 * f.channels * e, e, 8 * den * e >= bit + FineOffset(f, j, den, bit), 0)
  {
    var offset := FineOffset(f, j, den, bit);
    FineBitsGreatest(f.channels, bit, offset, den, e);
    FineBitsGreatest(f.channels, bit, offset, den, e + 1);
    UnlimitedBand(f, j, bit, balance, den, offset, e);
  }

  lemma UnlimitedBand(f: Frame, j: nat, bit: nat, balance: nat, den: int, offset: int, e: nat)
    requires ValidFrame(f) && j < f.end && den >= 1 && bit <= f.cap[j]
    requires offset == FineOffset(f, j, den, bit) && e == FineBits(f.channels, bit, offset, den)
    ensures SplitWide(f, j, bit, balance, den) == Band(bit - 8 * f.channels * e, e, 8 * den * e >= bit + offset, 0)
  {
    var excess := Max(bit - f.cap[j], 0);
    assert excess == 0 && bit - excess == bit;
    Reorder(e, den);
    var b := SplitWide(f, j, bit, balance, den);
    assert b == PassOn(f.channels, bit - 8 * f.channels * e, e, e * (den * 8) >= bit + offset, excess, balance);
  }

  lemma Reorder(e: int, den: int)
    ensures e * (den * 8) == 8 * den * e
  {
  }

  /** The fewer bits a band has, the more its fine bits are favoured. */
  lemma OffsetFalls(f: Frame, j: nat, den: int, bits: int, bits': int)
    requires ValidFrame(f) && j < f.end && den >= 1 && bits <= bits'
    ensures FineOffset(f, j, den, bits) >= FineOffset(f, j, den, bits')
  {
    MulMonotone(den, 0, f.mode.logN[j] + 8 * f.lm);
    Portions(den * (f.mode.logN[j] + 8 * f.lm));
  }

  lemma Portions(nc: nat)
    ensures 0 <= nc / 8 <= nc / 4
  {
  }

  /** The fair share of fine bits is half the logarithm of the band's size, less 21 eighths; two samples get more. */
  function Curve(f: Frame, j: nat, den: int): int
    requires ValidFrame(f) && j < f.end
  {
    den * (f.mode.logN[j] + 8 * f.lm) / 2 - 21 * den + if Width(f, j) * Pow2(f.lm) == 2 then 2 * den else 0
  }

  /** The first two fine bits, the third, and all others. */
  predicate Within(x: int, den: int, part: nat) {
    if part == 0 then x < 16 * den else if part == 1 then 16 * den <= x < 24 * den else x >= 24 * den
  }

  /** For a frame twice as long the curve rises by half a bit, and the first fine bits are favoured by a half more. */
  lemma LongerFrame(f: Frame, g: Frame, j: nat, den: int, bits: int, part: nat)
    requires ValidFrame(f) && ValidFrame(g) && g == f.(lm := f.lm + 1) && j < f.end && den >= 1 && Width(f, j) > 2
    requires Within(bits + Curve(f, j, den), den, part) && Within(bits + Curve(g, j, den), den, part)
    ensures Curve(g, j, den) == Curve(f, j, den) + 4 * den
    ensures FineOffset(g, j, den, bits) ==
            FineOffset(f, j, den, bits) + 4 * den + if part == 0 then 2 * den else if part == 1 then den else 0
  {
    WideSamples(Width(f, j), f.lm);
    WideSamples(Width(f, j), g.lm);
    var nc := den * (f.mode.logN[j] + 8 * f.lm);
    Distribute(den, f.mode.logN[j] + 8 * f.lm, 8);
    OffsetIs(f, j, den, bits, nc, part);
    OffsetIs(g, j, den, bits, nc + 8 * den, part);
  }

  lemma WideSamples(width: nat, lm: nat)
    requires width > 2
    ensures width * Pow2(lm) > 2
  {
    MulMonotone(width, 1, Pow2(lm));
  }

  lemma OffsetIs(f: Frame, j: nat, den: int, bits: int, nc: int, part: nat)
    requires ValidFrame(f) && j < f.end && den >= 1 && nc == den * (f.mode.logN[j] + 8 * f.lm)
    requires Within(bits + Curve(f, j, den), den, part)
    ensures FineOffset(f, j, den, bits) ==
            Curve(f, j, den) + if part == 0 then nc / 4 else if part == 1 then nc / 8 else 0
  {
  }

  // ----- Bands that cannot use all they have

  /** A band over its cap gets more fine bits; it comes first in the last pass if they do not take all of its own. */
  lemma CappedBand(f: Frame, j: nat, bit: nat, balance: nat, den: int, e: nat)
    requires ValidFrame(f) && j < f.end && den >= 1 && bit > f.cap[j]
    requires e == FineBits(f.channels, f.cap[j], FineOffset(f, j, den, f.cap[j]), den)
    ensures var b, c := SplitWide(f, j, bit, balance, den), 8 * f.channels;
      && b.pulses == f.cap[j] - c * e && b.ebits == Min(8, e + (bit - f.cap[j]) / c)
      && (b.priority <==> c * (b.ebits - e) >= bit - balance - f.cap[j])
  {
    var excess, extra := bit - f.cap[j], Min((bit - f.cap[j]) / (8 * f.channels), 8 - e);
    assert Max(bit - f.cap[j], 0) == excess && bit - excess == f.cap[j];
    Channels(f.channels, extra);
    assert SplitWide(f, j, bit, balance, den) ==
      PassOn(f.channels, f.cap[j] - 8 * f.channels * e, e, e * (den * 8) >= f.cap[j] + FineOffset(f, j, den, f.cap[j]),
             excess, balance);
  }

  lemma Channels(channels: nat, extra: int)
    requires 1 <= channels <= 2
    ensures extra * channels * 8 == 8 * channels * extra
  {
  }

  /** A single sample takes a sign bit per channel; all else that it has becomes fine bits. */
  lemma SingleBand(f: Frame, j: nat, bits: nat, balance: nat, intensity: int, dual: bool)
    requires ValidFrame(f) && j < f.end && Width(f, j) * Pow2(f.lm) == 1
    ensures var b, c := SplitBand(f, j, bits, balance, intensity, dual), 8 * f.channels;
      && b.pulses == Min(bits + balance, c) && b.ebits == Min(8, Max(0, bits + balance - c) / c)
      && (b.priority <==> c * b.ebits >= bits - c)
  {
    var excess := Max(0, bits + balance - 8 * f.channels);
    Channels(f.channels, Min(excess / (8 * f.channels), 8));
  }

  /** A skipped band comes first in the last pass if it has a fine bit already. */
  lemma SkippedFirst(f: Frame, bits: seq<int>, coded: nat, st: Stereo, j: nat)
    requires ValidFrame(f) && ValidBits(f, bits, coded) && f.start <= j < f.end && coded <= j
    ensures BandAt(f, bits, coded, st, j) == if bits[j] == 0 then Band(0, 0, true, 0) else Band(0, 1, false, 0)
  {
  }

  // ----- Stereo

  /** A split angle between mid and side, coded below the intensity band unless dual, is a degree of freedom more. */
  lemma AngleIsFreedom(f: Frame, j: nat, intensity: int)
    requires ValidFrame(f) && j < f.end
    ensures Freedom(f, j, intensity, true) == f.channels * (Width(f, j) * Pow2(f.lm))
    ensures Freedom(f, j, intensity, false) == Freedom(f, j, intensity, true)
            + if f.channels == 2 && Width(f, j) * Pow2(f.lm) > 2 && intensity > j then 1 else 0
  {
  }

  /** The stereo parameters chosen are kept as far as bands are coded, and bits are reserved for them. */
  lemma StereoKept(f: Frame, total: int, keep: Skip -> bool, intensity: int, dual: bool)
    requires ValidFrame(f)
    ensures var o, r := OutcomeOf(f, total, keep, intensity, dual), Reserved(f, total);
      && o.stereo.intensity == (if o.run.last.intensity == 0 then 0
                                else if intensity <= o.run.last.coded then intensity else o.run.last.coded)
      && (if o.stereo.intensity <= f.start then o.dualRsv == 0 && !o.stereo.dual
          else o.dualRsv == r.dual && o.stereo.dual == (dual && r.dual == 8))
  {
    var r := Reserved(f, total);
    InitialValid(f, total);
    SkipRunKeeps(f, Initial(f, r), r.skip, keep);
  }

  // ----- The threshold

  /** A band reaches its threshold with a bit per channel and 3/16 bit per sample. */
  lemma ThresholdReached(f: Frame, j: nat, level: int)
    requires ValidFrame(f) && j < f.end
    ensures level >= Thresh(f, j) <==>
            level >= 8 * f.channels && 2 * level + 1 >= 3 * (Width(f, j) * Pow2(f.lm))
  {
    SixteenthsOf(Width(f, j) * Pow2(f.lm), 3 * Width(f, j) * Pow2(f.lm));
  }

  lemma SixteenthsOf(n: int, n3: int)
    requires n3 == 3 * n
    ensures n3 * 8 / 16 == n3 / 2 && 2 * (n3 / 2) <= n3 <= 2 * (n3 / 2) + 1
  {
  }

  // ----- The skip flags

  /** No band above `Keep` is boosted, and it is boosted itself unless it is the first. */
  lemma {:induction false} KeepIsLastBoosted(f: Frame, i: nat)
    requires ValidFrame(f) && f.start <= i <= f.end
    ensures var k := SkipStart(f, i); k == f.start || f.offsets[k] > 0
    ensures forall j :: SkipStart(f, i) < j < i ==> f.offsets[j] == 0
    decreases i
  {
    if i > f.start {
      KeepIsLastBoosted(f, i - 1);
    }
  }

  /**
   A flag is coded for a band that would end up with its threshold, and with a fine bit per channel beside the flag;
   skipped, it keeps a fine bit per channel if it would have had one.
   */
  lemma SkippedBandGets(f: Frame, s: Skip)
    requires ValidSkip(f, s) && s.coded - 1 > Keep(f)
    ensures var j, c := s.coded - 1, 8 * f.channels;
      var share := Spread(f, s.bits, s.total - s.spent, s.coded)[j];
      && (Flagged(f, s) <==> share >= Thresh(f, j) && share >= c + 8)
      && SkipBand(f, s).bits == s.bits[j := if share - (if Flagged(f, s) then 8 else 0) >= c then c else 0]
  {
    WeighedIsSpread(f, s);
  }

  /** The top band that is left ends up with its threshold, and a fine bit per channel beside the flag. */
  predicate TopReached(f: Frame, t: Skip)
    requires ValidFrame(f) && f.start < t.coded <= f.end && |t.bits| == f.end && t.spent <= t.total
  {
    Spread(f, t.bits, t.total - t.spent, t.coded)[t.coded - 1] >= Max(Thresh(f, t.coded - 1), 8 * f.channels + 8)
  }

  /** So it does however the loop ends, unless with the last band that may not be skipped. */
  lemma {:induction false} KeptBandReached(f: Frame, s: Skip, skipRsv: nat, keep: Skip -> bool)
    requires ValidSkip(f, s)
    ensures var t := SkipRun(f, s, skipRsv, keep).last;
      t.spent <= t.total && (t.coded - 1 > Keep(f) ==> TopReached(f, t))
    decreases s.coded
  {
    if s.coded - 1 > Keep(f) {
      if Flagged(f, s) && keep(s) {
        WeighedIsSpread(f, s);
      } else {
        SkipBandKeeps(f, s);
        KeptBandReached(f, SkipBand(f, s), skipRsv, keep);
        SkipRunNext(f, s, SkipBand(f, s), skipRsv, keep);
      }
    }
  }
}
