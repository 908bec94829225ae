/**
 The skip loop of rate.c: bands are given up from the top, each by a coded flag where the band could have been
 afforded. The encoder may decide as it likes; the decoder learns its decisions from the flags.
 */
module RateSkip {
  import opened Arith
  import opened RangeSpec
  import opened RateSpec

  /** The loop's state: `coded` bands are left, `spent` is psum, `intensity` the reservation still held. */
  datatype Skip = Skip(coded: nat, bits: seq<int>, spent: int, total: int, intensity: int)

  /** The last band that was boosted, or the first: it and those below are never skipped. */
  function SkipStart(f: Frame, j: nat): (k: nat)
    requires ValidFrame(f) && f.start <= j <= f.end
    ensures f.start <= k < f.end && (k == f.start || k < j)
  {
    if j == f.start then f.start else if f.offsets[j - 1] > 0 then j - 1 else SkipStart(f, j - 1)
  }

  function Keep(f: Frame): nat
    requires ValidFrame(f)
  {
    SkipStart(f, f.end)
  }

  ghost predicate ValidSkip(f: Frame, s: Skip) {
    && ValidFrame(f) && Keep(f) < s.coded <= f.end && |s.bits| == f.end
    && s.spent <= s.total && (s.intensity == 0 || s.intensity == LOG2_FRAC_TABLE[s.coded - f.start])
    && (s.intensity > 0 ==> f.channels == 2)
    && (forall j :: 0 <= j < f.end ==> s.bits[j] >= 0)
    && (forall j :: s.coded <= j < f.end ==> s.bits[j] == 0 || s.bits[j] == 8 * f.channels)
  }

  /** An even share of what is left for every coefficient, and what is then left of it. */
  function Share(f: Frame, left: int, coded: nat): int
    requires ValidFrame(f) && f.start < coded <= f.end
  {
    left / Below(f, coded)
  }

  function Rest(f: Frame, left: int, coded: nat): int
    requires ValidFrame(f) && f.start < coded <= f.end
  {
    left - Below(f, coded) * Share(f, left, coded)
  }

  /** What the top band would get if no more bands were skipped. */
  function BandBits(f: Frame, s: Skip): int
    requires ValidFrame(f) && f.start < s.coded <= f.end && |s.bits| == f.end
  {
    var j, left := s.coded - 1, s.total - s.spent;
    s.bits[j] + Share(f, left, s.coded) * Width(f, j) + Max(Rest(f, left, s.coded) - Below(f, j), 0)
  }

  /** Only then is a flag coded for it; otherwise it is skipped without one. */
  predicate Flagged(f: Frame, s: Skip)
    requires ValidFrame(f) && f.start < s.coded <= f.end && |s.bits| == f.end
  {
    BandBits(f, s) >= Max(Thresh(f, s.coded - 1), 8 * f.channels + 8)
  }

  /** The top band is skipped: what it was granted is taken back, but for a fine energy bit if there is one. */
  function SkipBand(f: Frame, s: Skip): Skip
    requires ValidFrame(f) && f.start < s.coded - 1 && s.coded <= f.end && |s.bits| == f.end
  {
    var j := s.coded - 1;
    var flag := if Flagged(f, s) then 8 else 0;
    var rsv := if s.intensity > 0 then LOG2_FRAC_TABLE[j - f.start] else s.intensity;
    var fine := if BandBits(f, s) - flag >= 8 * f.channels then 8 * f.channels else 0;
    Skip(j, s.bits[j := fine], s.spent + flag - s.bits[j] - s.intensity + rsv + fine, s.total, rsv)
  }

  /** The share of the top band is no more than what is left. */
  lemma BandBitsBounds(f: Frame, s: Skip)
    requires ValidSkip(f, s)
    ensures s.bits[s.coded - 1] <= BandBits(f, s) <= s.bits[s.coded - 1] + s.total - s.spent
  {
    var j, left := s.coded - 1, s.total - s.spent;
    BandsGrow(f.mode, f.start, j);
    TopShare(left, Below(f, s.coded), Width(f, j));
  }

  lemma TopShare(left: nat, all: nat, top: nat)
    requires 0 < top <= all
    ensures 0 <= left / all * top && left / all * top + Max(left - all * (left / all) - (all - top), 0) <= left
  {
    var share, rest := left / all, left % all;
    assert left == all * share + rest;
    MulMonotone(share, top, all);
    MulMonotone(share, 0, top);
  }

  /** What is left, granted, reserved for intensity, and spent on a flag, before and after a band is skipped. */
  function Held(f: Frame, s: Skip): int
    requires ValidFrame(f) && |s.bits| == f.end
  {
    s.total - s.spent + Sum(s.bits, f.start, f.end) + s.intensity
  }

  /** Skipping conserves bits and never overdraws. */
  lemma SkipBandKeeps(f: Frame, s: Skip)
    requires ValidSkip(f, s) && s.coded - 1 > Keep(f)
    ensures ValidSkip(f, SkipBand(f, s))
    ensures Held(f, s) == Held(f, SkipBand(f, s)) + if Flagged(f, s) then 8 else 0
  {
    var j, t := s.coded - 1, SkipBand(f, s);
    BandBitsBounds(f, s);
    Log2FracGrows(s.coded - f.start);
    Log2FracGrows(j - f.start);
    SumUpdate(s.bits, j, t.bits[j], f.start, f.end);
  }

  /** A run of the loop: its last state and the flags it coded. */
  datatype Run = Run(last: Skip, flags: seq<Op>)

  /** The loop, for any way of deciding which flagged bands to keep; skipRsv goes back if no flag ends it. */
  function SkipRun(f: Frame, s: Skip, skipRsv: int, keep: Skip -> bool): (r: Run)
    requires ValidFrame(f) && Keep(f) < s.coded <= f.end && |s.bits| == f.end
    ensures Keep(f) < r.last.coded <= s.coded && |r.last.bits| == f.end
    decreases s.coded
  {
    if s.coded - 1 <= Keep(f) then Run(s.(total := s.total + skipRsv), [])
    else if !Flagged(f, s) then SkipRun(f, SkipBand(f, s), skipRsv, keep)
    else if keep(s) then Run(s, [BitOp(true, 1)])
    else
      var r := SkipRun(f, SkipBand(f, s), skipRsv, keep);
      Run(r.last, [BitOp(false, 1)] + r.flags)
  }

  /** With no bit reserved for the last flag there are too few bits to code any. */
  lemma TooFewToFlag(f: Frame, s: Skip)
    requires ValidSkip(f, s) && Held(f, s) < 8
    ensures !Flagged(f, s)
  {
    BandBitsBounds(f, s);
    SumHolds(s.bits, s.coded - 1, f.start, f.end);
    Log2FracGrows(s.coded - f.start);
  }

  lemma SkipRunNext(f: Frame, s: Skip, t: Skip, skipRsv: int, keep: Skip -> bool)
    requires ValidFrame(f) && Keep(f) + 1 < s.coded <= f.end && |s.bits| == f.end && t == SkipBand(f, s)
    requires !(Flagged(f, s) && keep(s))
    ensures var r, q := SkipRun(f, s, skipRsv, keep), SkipRun(f, t, skipRsv, keep);
      r.last == q.last && |r.flags| == |q.flags| + if Flagged(f, s) then 1 else 0
  {
  }

  /**
   The skip loop never overdraws, and accounts for every bit: with what was reserved for its last flag, it started
   with what is now left, granted and reserved, and eight eighths for each flag.
   */
  lemma {:induction false} SkipRunKeeps(f: Frame, s: Skip, skipRsv: int, keep: Skip -> bool)
    requires ValidSkip(f, s) && (skipRsv == 8 || (skipRsv == 0 && Held(f, s) < 8))
    ensures var r := SkipRun(f, s, skipRsv, keep);
      ValidSkip(f, r.last) && Held(f, s) + skipRsv == Held(f, r.last) + 8 * |r.flags|
    decreases s.coded
  {
    if s.coded - 1 > Keep(f) && !(Flagged(f, s) && keep(s)) {
      var t := SkipBand(f, s);
      if skipRsv == 0 {
        TooFewToFlag(f, s);
      }
      SkipBandKeeps(f, s);
      SkipRunKeeps(f, t, skipRsv, keep);
      SkipRunNext(f, s, t, skipRsv, keep);
    } else {
      SkipRunHere(f, s, skipRsv, keep);
    }
  }

  /** The loop ends here. */
  lemma SkipRunHere(f: Frame, s: Skip, skipRsv: int, keep: Skip -> bool)
    requires ValidSkip(f, s) && (skipRsv == 8 || (skipRsv == 0 && Held(f, s) < 8))
    requires s.coded - 1 <= Keep(f) || (Flagged(f, s) && keep(s))
    ensures var r := SkipRun(f, s, skipRsv, keep);
      ValidSkip(f, r.last) && Held(f, s) + skipRsv == Held(f, r.last) + 8 * |r.flags|
  {
    if s.coded - 1 > Keep(f) && skipRsv == 0 {
      TooFewToFlag(f, s);
    }
  }

  /** The state the loop starts in. */
  function Initial(f: Frame, r: Reserve): (s: Skip)
    requires ValidFrame(f)
    ensures |s.bits| == f.end == s.coded
  {
    var bits := GrantedAll(f, Level(f, r.total));
    Skip(f.end, bits, Sum(bits, f.start, f.end), r.total, r.intensity)
  }

  lemma InitialValid(f: Frame, total: int)
    requires ValidFrame(f)
    ensures var r := Reserved(f, total);
      ValidSkip(f, Initial(f, r)) && Held(f, Initial(f, r)) == r.total + r.intensity
  {
    var r := Reserved(f, total);
    LevelAffordable(f, r.total);
    GrantsWithinDemand(f, Level(f, r.total));
  }
}
