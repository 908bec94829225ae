/** interp_bits2pulses and clt_compute_allocation of rate.c, for the encoder and for the decoder. */
module Rate {
  import opened Arith
  import opened RangeSpec
  import opened RangeEncoder
  import opened RangeDecoder
  import opened RateSpec
  import opened RateSkip
  import opened RateSplit

  /** The entries of the allocated bands. */
  ghost predicate Agree(f: Frame, s: seq<int>, l: seq<int>) {
    |s| >= f.end && |l| >= f.end && forall j :: f.start <= j < f.end ==> s[j] == l[j]
  }

  /** The thresholds and the tilt of every band. */
  ghost predicate Tables(f: Frame, thresh: seq<int>, tilt: seq<int>)
    requires ValidFrame(f)
  {
    |thresh| == |tilt| == |f.mode.logN|
    && forall j :: f.start <= j < f.end ==> thresh[j] == Thresh(f, j) && tilt[j] == TrimOffset(f, j)
  }

  method MakeTables(f: Frame) returns (thresh: seq<int>, tilt: seq<int>)
    requires ValidFrame(f)
    ensures Tables(f, thresh, tilt)
  {
    var a, b := new int[|f.mode.logN|], new int[|f.mode.logN|];
    for j := f.start to f.end
      invariant forall k :: f.start <= k < j ==> a[k] == Thresh(f, k) && b[k] == TrimOffset(f, k)
    {
      a[j] := Thresh(f, j);
      b[j] := TrimOffset(f, j);
    }
    thresh, tilt := a[..], b[..];
  }

  /** One trial of the coarse search. */
  method RowDemand(f: Frame, row: nat, thresh: seq<int>, tilt: seq<int>) returns (psum: int)
    requires ValidFrame(f) && row < |f.mode.allocVectors| && Tables(f, thresh, tilt)
    ensures psum == Demand(f, RowLevels(f, row))
  {
    ghost var l := RowLevels(f, row);
    ghost var wanted := WantedAll(f, l);
    var done := false;
    psum := 0;
    var j := f.end;
    while j > f.start
      invariant f.start <= j <= f.end
      invariant psum == Sum(wanted, j, f.end) && done == Reached(f, l, j)
    {
      j := j - 1;
      var bitsj: int := Grade(f.channels * Width(f, j), f.mode.allocVectors[row][j], Pow2(f.lm));
      if bitsj > 0 {
        bitsj := Max(0, bitsj + tilt[j]);
      }
      bitsj := bitsj + f.offsets[j];
      assert bitsj == l[j];
      if bitsj >= thresh[j] || done {
        done := true;
        psum := psum + Min(bitsj, f.cap[j]);
      } else if bitsj >= 8 * f.channels {
        psum := psum + 8 * f.channels;
      }
      assert wanted[j] == Wanted(f, l, j);
    }
  }

  lemma OverAt(f: Frame, total: int, row: nat, over: seq<bool>)
    requires ValidFrame(f) && over == OverRows(f, total) && row < |over|
    ensures over[row] == (Demand(f, RowLevels(f, row)) > total)
  {
  }

  /** Whether a row asks for too much. */
  method TryRow(f: Frame, total: int, thresh: seq<int>, tilt: seq<int>, row: nat, ghost over: seq<bool>)
    returns (tooMuch: bool)
    requires ValidFrame(f) && Tables(f, thresh, tilt) && over == OverRows(f, total) && row < |over|
    ensures tooMuch == over[row]
  {
    var psum := RowDemand(f, row, thresh, tilt);
    OverAt(f, total, row, over);
    tooMuch := psum > total;
  }

  /** One half of the rows is left. */
  method Halve(lo: nat, hi: int, tooMuch: bool, ghost over: seq<bool>) returns (lo': nat, hi': int)
    requires 1 <= lo <= hi < |over| && tooMuch == over[Middle(lo, hi)]
    ensures 1 <= lo' <= hi' + 1 <= hi + 1 && hi' - lo' < hi - lo
    ensures Bisect(over, lo', hi') == Bisect(over, lo, hi)
  {
    lo', hi' := lo, hi;
    if tooMuch {
      hi' := Middle(lo, hi) - 1;
    } else {
      lo' := Middle(lo, hi) + 1;
    }
  }

  /** The coarse search. */
  method SearchRows(f: Frame, total: int, thresh: seq<int>, tilt: seq<int>) returns (lo: nat)
    requires ValidFrame(f) && Tables(f, thresh, tilt)
    ensures lo == FindRow(f, total) < |f.mode.allocVectors|
  {
    lo := 1;
    var hi: int := |f.mode.allocVectors| - 1;
    ghost var over := OverRows(f, total);
    ghost var r := FindRow(f, total);
    // A do-while in the source; there is always a row to try.
    while lo <= hi
      invariant 1 <= lo <= hi + 1 <= |over| && Bisect(over, lo, hi) == r
      decreases hi + 1 - lo
    {
      var tooMuch := TryRow(f, total, thresh, tilt, Middle(lo, hi), over);
      lo, hi := Halve(lo, hi, tooMuch, over);
    }
    lo := lo - 1;
  }

  method LevelPair(f: Frame, row: nat, j: nat, tilt: int) returns (bits1j: int, bits2j: int)
    requires ValidFrame(f) && row < |f.mode.allocVectors| && j < f.end && tilt == TrimOffset(f, j)
    ensures bits1j == LowLevels(f, row)[j] && bits2j == Steps(f, row)[j]
  {
    var n := f.channels * Width(f, j);
    bits1j := Grade(n, f.mode.allocVectors[row][j], Pow2(f.lm));
    bits2j := f.cap[j];
    if row + 1 < |f.mode.allocVectors| {
      bits2j := Grade(n, f.mode.allocVectors[row + 1][j], Pow2(f.lm));
    }
    if bits1j > 0 {
      bits1j := Max(0, bits1j + tilt);
    }
    if bits2j > 0 {
      bits2j := Max(0, bits2j + tilt);
    }
    if row > 0 {
      bits1j := bits1j + f.offsets[j];
    }
    bits2j := bits2j + f.offsets[j];
    bits2j := Max(0, bits2j - bits1j);
  }

  /** The two levels to interpolate between, and the last boosted band. */
  method LevelEntry(f: Frame, row: nat, j: nat, tilt: int, bits1: array<int>, bits2: array<int>,
                    skipStart: nat, ghost low: int, ghost step: int) returns (skipStart': nat)
    requires ValidFrame(f) && row < |f.mode.allocVectors| && f.start <= j < f.end && skipStart == SkipStart(f, j)
    requires tilt == TrimOffset(f, j) && bits1 != bits2
    requires j < bits1.Length && j < bits2.Length && low == LowLevels(f, row)[j] && step == Steps(f, row)[j]
    modifies bits1, bits2
    ensures bits1[..] == old(bits1[..])[j := low] && bits2[..] == old(bits2[..])[j := step]
    ensures skipStart' == SkipStart(f, j + 1)
  {
    bits1[j], bits2[j] := LevelPair(f, row, j, tilt);
    skipStart' := if f.offsets[j] > 0 then j else skipStart;
  }

  method MakeLevels(f: Frame, row: nat, tilt: seq<int>) returns (bits1: seq<int>, bits2: seq<int>, skipStart: nat)
    requires ValidFrame(f) && row < |f.mode.allocVectors| && |tilt| == |f.mode.logN|
    requires forall j :: f.start <= j < f.end ==> tilt[j] == TrimOffset(f, j)
    ensures Agree(f, bits1, LowLevels(f, row)) && Agree(f, bits2, Steps(f, row)) && skipStart == Keep(f)
  {
    bits1, bits2, skipStart := LevelsLoop(f, row, tilt, LowLevels(f, row), Steps(f, row));
  }

  method LevelsLoop(f: Frame, row: nat, tilt: seq<int>, ghost low: Levels, ghost steps: Levels)
    returns (bits1: seq<int>, bits2: seq<int>, skipStart: nat)
    requires ValidFrame(f) && row < |f.mode.allocVectors| && |tilt| == |f.mode.logN| && |low| == |steps| == f.end
    requires forall j :: f.start <= j < f.end ==> tilt[j] == TrimOffset(f, j)
    requires forall j {:trigger TrimOffset(f, j)} ::
      f.start <= j < f.end ==> low[j] == LowLevels(f, row)[j] && steps[j] == Steps(f, row)[j]
    ensures Agree(f, bits1, low) && Agree(f, bits2, steps) && skipStart == Keep(f)
  {
    var a, b := new int[|f.mode.logN|], new int[|f.mode.logN|];
    skipStart := f.start;
    for j := f.start to f.end
      invariant forall k :: f.start <= k < j ==> a[k] == low[k] && b[k] == steps[k]
      invariant skipStart == SkipStart(f, j)
    {
      skipStart := LevelEntry(f, row, j, tilt[j], a, b, skipStart, low[j], steps[j]);
    }
    bits1, bits2 := a[..], b[..];
  }

  /** One trial of the fine search. */
  method StepDemand(f: Frame, ghost low: Levels, ghost steps: Levels, bits1: seq<int>, bits2: seq<int>,
                    thresh: seq<int>, mid: nat)
    returns (psum: int)
    requires ValidFrame(f) && ValidLevels(f, low) && ValidLevels(f, steps)
    requires Agree(f, bits1, low) && Agree(f, bits2, steps)
    requires |thresh| == |f.mode.logN| && forall j :: f.start <= j < f.end ==> thresh[j] == Thresh(f, j)
    ensures psum == Demand(f, Between(f, low, steps, mid))
  {
    ghost var l := Between(f, low, steps, mid);
    ghost var wanted := WantedAll(f, l);
    var done := false;
    psum := 0;
    var j := f.end;
    while j > f.start
      invariant f.start <= j <= f.end
      invariant psum == Sum(wanted, j, f.end) && done == Reached(f, l, j)
    {
      j := j - 1;
      var tmp := bits1[j] + mid * bits2[j] / 64;
      assert tmp == l[j];
      if tmp >= thresh[j] || done {
        done := true;
        psum := psum + Min(tmp, f.cap[j]);
      } else if tmp >= 8 * f.channels {
        psum := psum + 8 * f.channels;
      }
      assert wanted[j] == Wanted(f, l, j);
    }
  }

  /** The fine search. */
  method SearchSteps(f: Frame, total: int, ghost low: Levels, ghost steps: Levels, bits1: seq<int>, bits2: seq<int>,
                     thresh: seq<int>) returns (lo: nat)
    requires ValidFrame(f) && ValidLevels(f, low) && ValidLevels(f, steps)
    requires Agree(f, bits1, low) && Agree(f, bits2, steps)
    requires |thresh| == |f.mode.logN| && forall j :: f.start <= j < f.end ==> thresh[j] == Thresh(f, j)
    ensures lo == FindStep(f, total, low, steps, 0, 64, 6)
  {
    lo := 0;
    var hi := 64;
    ghost var r := FindStep(f, total, low, steps, lo, hi, 6);
    for i := 0 to 6
      invariant lo <= hi && FindStep(f, total, low, steps, lo, hi, 6 - i) == r
    {
      var mid := (lo + hi) / 2;
      FindStepStep(f, total, low, steps, lo, hi, 6 - i);
      var psum := StepDemand(f, low, steps, bits1, bits2, thresh, mid);
      if psum > total {
        hi := mid;
      } else {
        lo := mid;
      }
    }
  }

  lemma FindStepStep(f: Frame, total: int, low: Levels, steps: Levels, lo: nat, hi: nat, n: nat)
    requires ValidFrame(f) && ValidLevels(f, low) && ValidLevels(f, steps)
    ensures n == 0 ==> FindStep(f, total, low, steps, lo, hi, n) == lo
    ensures n > 0 ==> var mid := (lo + hi) / 2;
      FindStep(f, total, low, steps, lo, hi, n) ==
        if Demand(f, Between(f, low, steps, mid)) > total then FindStep(f, total, low, steps, lo, mid, n - 1)
        else FindStep(f, total, low, steps, mid, hi, n - 1)
  {
  }

  /** The bands get what the level found grants them. */
  method GrantBands(f: Frame, ghost low: Levels, ghost steps: Levels, bits1: seq<int>, bits2: seq<int>,
                    thresh: seq<int>, lo: nat, bits: array<int>) returns (psum: int)
    requires ValidFrame(f) && ValidLevels(f, low) && ValidLevels(f, steps) && bits.Length >= f.end
    requires Agree(f, bits1, low) && Agree(f, bits2, steps)
    requires |thresh| == |f.mode.logN| && forall j :: f.start <= j < f.end ==> thresh[j] == Thresh(f, j)
    modifies bits
    ensures var granted := GrantedAll(f, Between(f, low, steps, lo));
      Agree(f, bits[..], granted) && psum == Sum(granted, f.start, f.end)
  {
    ghost var l := Between(f, low, steps, lo);
    ghost var granted := GrantedAll(f, l);
    var done := false;
    psum := 0;
    var j := f.end;
    while j > f.start
      invariant f.start <= j <= f.end
      invariant psum == Sum(granted, j, f.end) && done == Reached(f, l, j)
      invariant forall k :: j <= k < f.end ==> bits[k] == granted[k]
    {
      j := j - 1;
      var tmp := bits1[j] + lo * bits2[j] / 64;
      assert tmp == l[j];
      if tmp < thresh[j] && !done {
        tmp := if tmp >= 8 * f.channels then 8 * f.channels else 0;
      } else {
        done := true;
      }
      tmp := Min(tmp, f.cap[j]);
      bits[j] := tmp;
      psum := psum + tmp;
      assert granted[j] == Granted(f, l, j);
    }
  }

  /** The state of the skip loop. */
  ghost predicate Holds(f: Frame, s: Skip, bits: seq<int>, coded: nat, psum: int, total: int, rsv: int) {
    coded == s.coded && psum == s.spent && total == s.total && rsv == s.intensity && Agree(f, bits, s.bits)
  }

  /** The level found is granted. */
  method Interpolate(f: Frame, total: int, row: nat, tilt: seq<int>, thresh: seq<int>, bits: array<int>)
    returns (psum: int, skipStart: nat)
    requires ValidFrame(f) && bits.Length >= f.end && Tables(f, thresh, tilt) && row < |f.mode.allocVectors|
    modifies bits
    ensures var low, steps := LowLevels(f, row), Steps(f, row);
      var granted := GrantedAll(f, Between(f, low, steps, FindStep(f, total, low, steps, 0, 64, 6)));
      Agree(f, bits[..], granted) && psum == Sum(granted, f.start, f.end)
    ensures skipStart == Keep(f)
  {
    ghost var low, steps := LowLevels(f, row), Steps(f, row);
    var bits1, bits2;
    bits1, bits2, skipStart := MakeLevels(f, row, tilt);
    var lo := SearchSteps(f, total, low, steps, bits1, bits2, thresh);
    psum := GrantBands(f, low, steps, bits1, bits2, thresh, lo, bits);
  }

  lemma InitialHolds(f: Frame, r: Reserve, row: nat, bits: seq<int>, psum: int)
    requires ValidFrame(f) && row == FindRow(f, r.total)
    requires var low, steps := LowLevels(f, row), Steps(f, row);
      var granted := GrantedAll(f, Between(f, low, steps, FindStep(f, r.total, low, steps, 0, 64, 6)));
      Agree(f, bits, granted) && psum == Sum(granted, f.start, f.end)
    ensures Holds(f, Initial(f, r), bits, f.end, psum, r.total, r.intensity)
  {
    assert Level(f, r.total) == Between(f, LowLevels(f, row), Steps(f, row),
                                        FindStep(f, r.total, LowLevels(f, row), Steps(f, row), 0, 64, 6));
  }

  /** Everything before the skip loop. */
  method Prepare(f: Frame, r: Reserve, bits: array<int>) returns (psum: int, skipStart: nat, thresh: seq<int>)
    requires ValidFrame(f) && bits.Length >= f.end
    modifies bits
    ensures Holds(f, Initial(f, r), bits[..], f.end, psum, r.total, r.intensity) && skipStart == Keep(f)
    ensures |thresh| == |f.mode.logN| && forall j :: f.start <= j < f.end ==> thresh[j] == Thresh(f, j)
  {
    var tilt;
    thresh, tilt := MakeTables(f);
    var row := SearchRows(f, r.total, thresh, tilt);
    psum, skipStart := Interpolate(f, r.total, row, tilt, thresh, bits);
    InitialHolds(f, r, row, bits[..], psum);
  }

  /** What the top band would get. */
  method Weigh(f: Frame, coded: nat, bitsj: int, left: int, ghost s: Skip) returns (bandBits: int)
    requires ValidSkip(f, s) && coded == s.coded && bitsj == s.bits[coded - 1] && left == s.total - s.spent
    ensures bandBits == BandBits(f, s)
  {
    var j := coded - 1;
    var percoeff := left / Below(f, coded);
    var rest := left - Below(f, coded) * percoeff;
    var rem := Max(rest - Below(f, j), 0);
    bandBits := bitsj + percoeff * Width(f, j) + rem;
  }

  /** The top band is skipped; flag is what its skip flag cost. */
  method GiveUp(f: Frame, bits: array<int>, coded: nat, psum: int, rsv: int, bandBits: int, flag: int, ghost s: Skip)
    returns (psum': int, rsv': int)
    requires ValidFrame(f) && f.start < s.coded - 1 < f.end && |s.bits| == f.end <= bits.Length
    requires Holds(f, s, bits[..], coded, psum, s.total, rsv)
    requires bandBits == BandBits(f, s) && flag == if Flagged(f, s) then 8 else 0
    modifies bits
    ensures Holds(f, SkipBand(f, s), bits[..], coded - 1, psum', s.total, rsv')
  {
    var j := coded - 1;
    psum', rsv' := psum + flag, rsv;
    psum' := psum' - (bits[j] + rsv');
    if rsv' > 0 {
      rsv' := LOG2_FRAC_TABLE[j - f.start];
    }
    psum' := psum' + rsv';
    if bandBits - flag >= 8 * f.channels {
      psum' := psum' + 8 * f.channels;
      bits[j] := 8 * f.channels;
    } else {
      bits[j] := 0;
    }
  }

  /** The encoder's decision to keep a band it could flag as skipped. */
  function Choice(f: Frame, prev: int, bandwidth: int): Skip -> bool
    requires ValidFrame(f)
  {
    (s: Skip) =>
      f.start < s.coded <= f.end && |s.bits| == f.end
      && (s.coded <= f.start + 2 || (BandBits(f, s) > Depth(f, s.coded, prev) && s.coded - 1 <= bandwidth))
  }

  function Depth(f: Frame, coded: nat, prev: int): int
    requires ValidFrame(f) && f.start < coded <= f.end
  {
    (if coded <= 17 then 0 else if coded - 1 < prev then 7 else 9) * Width(f, coded - 1) * Pow2(f.lm) * 8 / 16
  }

  /** A band coded in the last frame is kept at least as easily as one that was not. */
  lemma Hysteresis(f: Frame, prev: int, prev': int, bandwidth: int, s: Skip)
    requires ValidFrame(f) && prev <= prev' && Choice(f, prev, bandwidth)(s)
    ensures Choice(f, prev', bandwidth)(s)
  {
    if s.coded > 17 {
      MulMonotone(Width(f, s.coded - 1), 7, 9);
      MulMonotone(Pow2(f.lm), 7 * Width(f, s.coded - 1), 9 * Width(f, s.coded - 1));
    }
  }

  /** One round of the loop that keeps nothing. */
  lemma SkipRunStep(f: Frame, s: Skip, skipRsv: int, keep: Skip -> bool)
    requires ValidSkip(f, s) && s.coded - 1 > Keep(f) && !(Flagged(f, s) && keep(s))
    ensures ValidSkip(f, SkipBand(f, s))
    ensures var r, t := SkipRun(f, s, skipRsv, keep), SkipRun(f, SkipBand(f, s), skipRsv, keep);
      r.last == t.last && r.flags == (if Flagged(f, s) then [BitOp(false, 1)] else []) + t.flags
  {
    SkipBandKeeps(f, s);
  }

  /** The flag for the top band, if it has one: whether to stop at it, and what the flag cost. */
  method DecideEncode(enc: Encoder, f: Frame, threshj: int, coded: nat, bandBits: int, prev: int, bandwidth: int,
                      ghost s: Skip) returns (stop: bool, flag: int)
    requires enc.Valid() && ValidFrame(f) && f.start < coded == s.coded <= f.end && |s.bits| == f.end
    requires threshj == Thresh(f, coded - 1) && bandBits == BandBits(f, s)
    modifies enc, enc.buf
    ensures enc.Valid() && enc.storage == old(enc.storage)
    ensures stop == (Flagged(f, s) && Choice(f, prev, bandwidth)(s)) && flag == if Flagged(f, s) then 8 else 0
    ensures enc.trace == old(enc.trace) + if Flagged(f, s) then [BitOp(stop, 1)] else []
  {
    stop, flag := false, 0;
    if bandBits >= Max(threshj, 8 * f.channels + 8) {
      flag := 8;
      stop := coded <= f.start + 2 || (bandBits > Depth(f, coded, prev) && coded - 1 <= bandwidth);
      enc.BitLogp(stop, 1);
    }
  }

  lemma SkipRunStop(f: Frame, s: Skip, skipRsv: int, keep: Skip -> bool)
    requires ValidSkip(f, s) && s.coded - 1 > Keep(f) && Flagged(f, s) && keep(s)
    ensures SkipRun(f, s, skipRsv, keep) == Run(s, [BitOp(true, 1)])
  {
  }

  lemma SkipRunEnd(f: Frame, s: Skip, skipRsv: int, keep: Skip -> bool)
    requires ValidSkip(f, s) && s.coded - 1 <= Keep(f)
    ensures SkipRun(f, s, skipRsv, keep) == Run(s.(total := s.total + skipRsv), [])
  {
  }

  /** One round of the skip loop of the encoder. */
  method SkipRoundEncode(enc: Encoder, f: Frame, threshj: int, coded: nat, psum: int, total: int, rsv: int,
                         bits: array<int>, prev: int, bandwidth: int, ghost s: Skip)
    returns (stop: bool, psum': int, rsv': int)
    requires enc.Valid() && ValidSkip(f, s) && Keep(f) < coded - 1 && bits.Length >= f.end
    requires Holds(f, s, bits[..], coded, psum, total, rsv) && threshj == Thresh(f, coded - 1)
    modifies enc, enc.buf, bits
    ensures enc.Valid() && enc.storage == old(enc.storage)
    ensures stop == (Flagged(f, s) && Choice(f, prev, bandwidth)(s))
    ensures enc.trace == old(enc.trace) + if Flagged(f, s) then [BitOp(stop, 1)] else []
    ensures if stop then Holds(f, s, bits[..], coded, psum', total, rsv')
            else Holds(f, SkipBand(f, s), bits[..], coded - 1, psum', total, rsv')
  {
    var bandBits := Weigh(f, coded, bits[coded - 1], total - psum, s);
    var flag;
    stop, flag := DecideEncode(enc, f, threshj, coded, bandBits, prev, bandwidth, s);
    psum', rsv' := psum, rsv;
    if !stop {
      psum', rsv' := GiveUp(f, bits, coded, psum, rsv, bandBits, flag, s);
    }
  }

  /** The skip loop of the encoder. */
  method SkipEncode(enc: Encoder, f: Frame, thresh: seq<int>, skipStart: nat, r: Reserve, psum0: int,
                    bits: array<int>, prev: int, bandwidth: int, ghost s0: Skip)
    returns (coded: nat, psum: int, total: int, rsv: int)
    requires enc.Valid() && ValidSkip(f, s0) && skipStart == Keep(f) && bits.Length >= f.end
    requires Holds(f, s0, bits[..], f.end, psum0, r.total, r.intensity)
    requires |thresh| == |f.mode.logN| && forall j :: f.start <= j < f.end ==> thresh[j] == Thresh(f, j)
    modifies enc, enc.buf, bits
    ensures enc.Valid() && enc.storage == old(enc.storage)
    ensures var run := SkipRun(f, s0, r.skip, Choice(f, prev, bandwidth));
      Holds(f, run.last, bits[..], coded, psum, total, rsv) && enc.trace == old(enc.trace) + run.flags
  {
    coded, psum, total, rsv := f.end, psum0, r.total, r.intensity;
    ghost var s, keep, trace := s0, Choice(f, prev, bandwidth), enc.trace;
    ghost var run := SkipRun(f, s0, r.skip, keep);
    while coded - 1 > skipStart
      invariant enc.Valid() && enc.storage == old(enc.storage) && ValidSkip(f, s)
      invariant Holds(f, s, bits[..], coded, psum, total, rsv)
      invariant Coming(enc.trace, SkipRun(f, s, r.skip, keep), trace, run)
    {
      var stop;
      ghost var before := enc.trace;
      stop, psum, rsv := SkipRoundEncode(enc, f, thresh[coded - 1], coded, psum, total, rsv, bits, prev, bandwidth, s);
      if stop {
        SkipRunStop(f, s, r.skip, keep);
        return;
      }
      SkipRunStep(f, s, r.skip, keep);
      StillComing(before, enc.trace, SkipRun(f, s, r.skip, keep), SkipRun(f, SkipBand(f, s), r.skip, keep), trace, run,
                  if Flagged(f, s) then [BitOp(false, 1)] else []);
      coded := coded - 1;
      s := SkipBand(f, s);
    }
    SkipRunEnd(f, s, r.skip, keep);
    total := total + r.skip;
  }

  /** What was coded so far and what the rest of the run codes make up the whole run. */
  ghost predicate Coming(now: seq<Op>, rest: Run, before: seq<Op>, whole: Run) {
    rest.last == whole.last && now + rest.flags == before + whole.flags
  }

  lemma StillComing(now: seq<Op>, then': seq<Op>, rest: Run, rest': Run, before: seq<Op>, whole: Run, flag: seq<Op>)
    requires Coming(now, rest, before, whole) && then' == now + flag
    requires rest.last == rest'.last && rest.flags == flag + rest'.flags
    ensures Coming(then', rest', before, whole)
  {
    Regroup(now, flag, rest'.flags);
  }

  // ----- The skip loop of the decoder

  /** The decisions read from any data: to stop at one band, or at none. */
  function StopAt(c: nat): Skip -> bool {
    (s: Skip) => s.coded == c
  }

  /** Whatever band the data stops at, the rest of the run ends like the whole run. */
  ghost predicate AnyStop(f: Frame, s: Skip, s0: Skip, skipRsv: int)
    requires ValidSkip(f, s) && ValidSkip(f, s0)
  {
    forall c: nat :: c <= s.coded ==>
      SkipRun(f, s, skipRsv, StopAt(c)).last == SkipRun(f, s0, skipRsv, StopAt(c)).last
  }

  lemma AnyStopStep(f: Frame, s: Skip, s0: Skip, skipRsv: int)
    requires ValidSkip(f, s) && ValidSkip(f, s0) && AnyStop(f, s, s0, skipRsv) && s.coded - 1 > Keep(f)
    ensures ValidSkip(f, SkipBand(f, s)) && AnyStop(f, SkipBand(f, s), s0, skipRsv)
  {
    SkipBandKeeps(f, s);
    forall c: nat | c <= s.coded - 1
      ensures SkipRun(f, SkipBand(f, s), skipRsv, StopAt(c)).last == SkipRun(f, s0, skipRsv, StopAt(c)).last
    {
      SkipRunStep(f, s, skipRsv, StopAt(c));
    }
  }

  /** The flag for the top band, if it has one; sync says that it was coded next, for the decisions keep. */
  method DecideDecode(dec: Decoder, f: Frame, threshj: int, coded: nat, bandBits: int, ghost s: Skip,
                      ghost keep: Skip -> bool, ghost sync: bool) returns (stop: bool, flag: int)
    requires dec.Valid() && ValidFrame(f) && f.start < coded == s.coded <= f.end && |s.bits| == f.end
    requires threshj == Thresh(f, coded - 1) && bandBits == BandBits(f, s)
    requires sync && Flagged(f, s) ==> dec.Next(BitOp(keep(s), 1))
    modifies dec
    ensures dec.Valid() && dec.error == old(dec.error)
    ensures (stop ==> Flagged(f, s)) && flag == if Flagged(f, s) then 8 else 0
    ensures sync ==> stop == (Flagged(f, s) && keep(s))
    ensures dec.trace == old(dec.trace) + if Flagged(f, s) then [BitOp(stop, 1)] else []
  {
    stop, flag := false, 0;
    if bandBits >= Max(threshj, 8 * f.channels + 8) {
      flag := 8;
      stop := dec.BitLogp(1);
    }
  }

  /** One round of the skip loop of the decoder. */
  method SkipRoundDecode(dec: Decoder, f: Frame, threshj: int, coded: nat, psum: int, total: int, rsv: int,
                         bits: array<int>, ghost s: Skip, ghost keep: Skip -> bool, ghost sync: bool)
    returns (stop: bool, psum': int, rsv': int)
    requires dec.Valid() && ValidSkip(f, s) && Keep(f) < coded - 1 && bits.Length >= f.end
    requires Holds(f, s, bits[..], coded, psum, total, rsv) && threshj == Thresh(f, coded - 1)
    requires sync && Flagged(f, s) ==> dec.Next(BitOp(keep(s), 1))
    modifies dec, bits
    ensures dec.Valid() && dec.error == old(dec.error)
    ensures (stop ==> Flagged(f, s)) && (sync ==> stop == (Flagged(f, s) && keep(s)))
    ensures dec.trace == old(dec.trace) + if Flagged(f, s) then [BitOp(stop, 1)] else []
    ensures if stop then Holds(f, s, bits[..], coded, psum', total, rsv')
            else Holds(f, SkipBand(f, s), bits[..], coded - 1, psum', total, rsv')
  {
    var bandBits := Weigh(f, coded, bits[coded - 1], total - psum, s);
    var flag;
    stop, flag := DecideDecode(dec, f, threshj, coded, bandBits, s, keep, sync);
    psum', rsv' := psum, rsv;
    if !stop {
      psum', rsv' := GiveUp(f, bits, coded, psum, rsv, bandBits, flag, s);
    }
  }

  /** What is coming next when the rest of a run is still to be read. */
  lemma ComingNext(f: Frame, s: Skip, skipRsv: int, keep: Skip -> bool, now: seq<Op>, before: seq<Op>, whole: Run,
                   script: seq<Op>)
    requires ValidSkip(f, s) && s.coded - 1 > Keep(f) && Flagged(f, s)
    requires Coming(now, SkipRun(f, s, skipRsv, keep), before, whole) && before + whole.flags <= script
    ensures now + [BitOp(keep(s), 1)] <= script
  {
    var rest := SkipRun(f, s, skipRsv, keep).flags;
    if keep(s) {
      SkipRunStop(f, s, skipRsv, keep);
    } else {
      SkipRunStep(f, s, skipRsv, keep);
    }
    assert rest[0] == BitOp(keep(s), 1) && |rest| >= 1;
    assert now + rest == now + [rest[0]] + rest[1..];
  }

  /** The skip loop of the decoder; keep are the decisions the encoder took, at is where the data stops. */
  method SkipDecode(dec: Decoder, f: Frame, thresh: seq<int>, skipStart: nat, r: Reserve, psum0: int,
                    bits: array<int>, ghost s0: Skip, ghost keep: Skip -> bool)
    returns (coded: nat, psum: int, total: int, rsv: int, ghost at: nat)
    requires dec.Valid() && ValidSkip(f, s0) && skipStart == Keep(f) && bits.Length >= f.end
    requires Holds(f, s0, bits[..], f.end, psum0, r.total, r.intensity)
    requires |thresh| == |f.mode.logN| && forall j :: f.start <= j < f.end ==> thresh[j] == Thresh(f, j)
    modifies dec, bits
    ensures dec.Valid() && dec.error == old(dec.error)
    ensures Holds(f, SkipRun(f, s0, r.skip, StopAt(at)).last, bits[..], coded, psum, total, rsv)
    ensures var run := SkipRun(f, s0, r.skip, keep);
      old(dec.trace) + run.flags <= dec.script ==>
        SkipRun(f, s0, r.skip, StopAt(at)).last == run.last && dec.trace == old(dec.trace) + run.flags
  {
    coded, psum, total, rsv, at := f.end, psum0, r.total, r.intensity, 0;
    ghost var s, trace, run := s0, dec.trace, SkipRun(f, s0, r.skip, keep);
    ghost var sync := trace + run.flags <= dec.script;
    while coded - 1 > skipStart
      invariant dec.Valid() && dec.error == old(dec.error) && ValidSkip(f, s)
      invariant Holds(f, s, bits[..], coded, psum, total, rsv) && AnyStop(f, s, s0, r.skip)
      invariant sync ==> Coming(dec.trace, SkipRun(f, s, r.skip, keep), trace, run)
    {
      var stop;
      ghost var before := dec.trace;
      if sync && Flagged(f, s) {
        ComingNext(f, s, r.skip, keep, before, trace, run, dec.script);
      }
      stop, psum, rsv := SkipRoundDecode(dec, f, thresh[coded - 1], coded, psum, total, rsv, bits, s, keep, sync);
      if stop {
        at := coded;
        SkipRunStop(f, s, r.skip, StopAt(at));
        if sync {
          SkipRunStop(f, s, r.skip, keep);
        }
        return;
      }
      if sync {
        SkipRunStep(f, s, r.skip, keep);
        StillComing(before, dec.trace, SkipRun(f, s, r.skip, keep), SkipRun(f, SkipBand(f, s), r.skip, keep), trace,
                    run, if Flagged(f, s) then [BitOp(false, 1)] else []);
      }
      AnyStopStep(f, s, s0, r.skip);
      coded := coded - 1;
      s := SkipBand(f, s);
    }
    SkipRunEnd(f, s, r.skip, keep);
    SkipRunEnd(f, s, r.skip, StopAt(at));
    total := total + r.skip;
  }

  // ----- The end of allocation, the same for both

  /** An even share for every coded band. */
  method SpreadShares(f: Frame, bits: array<int>, percoeff: int, coded: nat, ghost b: seq<int>)
    requires ValidFrame(f) && f.start < coded <= f.end <= bits.Length && |b| == f.end && Agree(f, bits[..], b)
    modifies bits
    ensures forall k :: f.start <= k < coded ==> bits[k] == b[k] + percoeff * Width(f, k)
    ensures forall k :: coded <= k < f.end ==> bits[k] == b[k]
  {
    for j := f.start to coded
      invariant forall k :: f.start <= k < j ==> bits[k] == b[k] + percoeff * Width(f, k)
      invariant forall k :: j <= k < f.end ==> bits[k] == b[k]
    {
      bits[j] := bits[j] + percoeff * Width(f, j);
    }
  }

  /** The rest, from the lowest band up. */
  method SpreadRemainder(f: Frame, bits: array<int>, rest: nat, coded: nat, ghost b: seq<int>)
    requires ValidFrame(f) && f.start < coded <= f.end <= bits.Length && |b| == f.end && Agree(f, bits[..], b)
    modifies bits
    ensures forall k :: f.start <= k < coded ==>
      bits[k] == b[k] + Max(0, Min(rest - Below(f, k), Width(f, k)))
    ensures forall k :: coded <= k < f.end ==> bits[k] == b[k]
  {
    var left: int := rest;
    for j := f.start to coded
      invariant left == Max(0, rest - Below(f, j))
      invariant forall k :: f.start <= k < j ==> bits[k] == b[k] + Max(0, Min(rest - Below(f, k), Width(f, k)))
      invariant forall k :: j <= k < f.end ==> bits[k] == b[k]
    {
      var tmp := Min(left, Width(f, j));
      assert Below(f, j + 1) == Below(f, j) + Width(f, j);
      bits[j] := bits[j] + tmp;
      left := left - tmp;
    }
  }

  /** What is left goes to the coded bands. */
  method SpreadRest(f: Frame, bits: array<int>, left: nat, coded: nat, ghost b: seq<int>)
    requires ValidFrame(f) && f.start < coded <= f.end <= bits.Length && |b| == f.end && Agree(f, bits[..], b)
    modifies bits
    ensures Agree(f, bits[..], Spread(f, b, left, coded))
  {
    var percoeff := left / Below(f, coded);
    var rest := left - Below(f, coded) * percoeff;
    RestBounds(left, Below(f, coded));
    SpreadShares(f, bits, percoeff, coded, b);
    SpreadRemainder(f, bits, rest, coded, bits[..f.end]);
  }

  /** A band of more than one coefficient: its pulses and fine energy bits before the excess. */
  method SplitFine(f: Frame, j: nat, bits: nat, st: Stereo) returns (pulses: int, ebits: int, priority: bool)
    requires ValidFrame(f) && j < f.end
    ensures var den := Freedom(f, j, st.intensity, st.dual);
      var offset := FineOffset(f, j, den, bits);
      ebits == FineBits(f.channels, bits, offset, den) && priority == (ebits * (den * 8) >= bits + offset)
    ensures pulses == bits - 8 * f.channels * ebits
  {
    var den := Freedom(f, j, st.intensity, st.dual);
    var offset := FineOffset(f, j, den, bits);
    ebits := Max(0, bits + offset + den * 4);
    ebits := ebits / den / 8;
    if f.channels * ebits > bits / 8 {
      ebits := bits / f.channels / 8;
    }
    ebits := Min(ebits, MAX_FINE_BITS);
    priority := ebits * (den * 8) >= bits + offset;
    pulses := bits - 8 * f.channels * ebits;
  }

  /** The excess of a band becomes more fine energy bits, or the next balance. */
  method PassExcess(f: Frame, pulses: int, ebits: int, priority: bool, excess: nat, balance: int) returns (b: Band)
    requires ValidFrame(f) && 0 <= ebits <= MAX_FINE_BITS
    ensures b == PassOn(f.channels, pulses, ebits, priority, excess, balance)
  {
    b := Band(pulses, ebits, priority, excess);
    if excess > 0 {
      var extraFine := Min(excess / (8 * f.channels), MAX_FINE_BITS - ebits);
      var extraBits := extraFine * f.channels * 8;
      b := Band(pulses, ebits + extraFine, extraBits >= excess - balance, excess - extraBits);
    }
  }

  method SplitWideOne(f: Frame, j: nat, bit: nat, balance: int, st: Stereo) returns (b: Band)
    requires ValidFrame(f) && j < f.end && balance >= 0
    ensures b == SplitWide(f, j, bit, balance, Freedom(f, j, st.intensity, st.dual))
  {
    var excess := Max(bit - f.cap[j], 0);
    var pulses, ebits, priority := SplitFine(f, j, bit - excess, st);
    b := PassExcess(f, pulses, ebits, priority, excess, balance);
  }

  method SplitNarrowOne(f: Frame, bit: nat, balance: int) returns (b: Band)
    requires ValidFrame(f) && balance >= 0
    ensures var excess := Max(0, bit - 8 * f.channels);
      b == PassOn(f.channels, bit - excess, 0, true, excess, balance)
  {
    var excess := Max(0, bit - 8 * f.channels);
    b := PassExcess(f, bit - excess, 0, true, excess, balance);
  }

  /** A coded band: from its bits and the balance to pulses, fine energy bits and the next balance. */
  method SplitOne(f: Frame, j: nat, bitsj: nat, balance: nat, st: Stereo) returns (b: Band)
    requires ValidFrame(f) && j < f.end
    ensures b == SplitBand(f, j, bitsj, balance, st.intensity, st.dual)
  {
    var bit := bitsj + balance;
    if Width(f, j) * Pow2(f.lm) > 1 {
      b := SplitWideOne(f, j, bit, balance, st);
    } else {
      b := SplitNarrowOne(f, bit, balance);
    }
  }

  /** The arrays hold what becomes of the bands from start up to j. */
  ghost predicate Written(f: Frame, bits: seq<int>, coded: nat, st: Stereo, j: nat,
                          pulses: seq<int>, ebits: seq<int>, priority: seq<bool>)
    requires ValidFrame(f) && ValidBits(f, bits, coded) && j <= f.end
  {
    |pulses| >= f.end && |ebits| >= f.end && |priority| >= f.end
    && forall k :: f.start <= k < j ==> var b := BandAt(f, bits, coded, st, k);
      pulses[k] == b.pulses && ebits[k] == b.ebits && priority[k] == b.priority
  }

  /** What becomes of every band. */
  ghost function Goal(f: Frame, bits: seq<int>, coded: nat, st: Stereo): (g: seq<Band>)
    requires ValidFrame(f) && ValidBits(f, bits, coded) && f.start < f.end
    ensures |g| == f.end && forall k :: f.start <= k < f.end ==> g[k] == BandAt(f, bits, coded, st, k)
  {
    seq(f.end, k requires 0 <= k < f.end => BandAt(f, bits, coded, st, Max(k, f.start)))
  }

  /** The arrays hold what becomes of the bands up to j, and the bits of the others. */
  ghost predicate Done(f: Frame, g: seq<Band>, bits: seq<int>, j: nat,
                       pulses: seq<int>, ebits: seq<int>, priority: seq<bool>) {
    && j <= f.end == |g| == |bits| && |pulses| >= f.end && |ebits| >= f.end && |priority| >= f.end
    && (forall k :: f.start <= k < j ==>
         pulses[k] == g[k].pulses && ebits[k] == g[k].ebits && priority[k] == g[k].priority)
    && (forall k :: j <= k < f.end ==> pulses[k] == bits[k])
  }

  /** What the bands before j have carried over. */
  ghost function Carried(f: Frame, g: seq<Band>, j: nat): int
    requires f.start <= j <= |g|
  {
    if j == f.start then 0 else g[j - 1].balance
  }

  lemma CarriedIs(f: Frame, bits: seq<int>, coded: nat, st: Stereo, j: nat)
    requires ValidFrame(f) && f.start < coded <= f.end && ValidBits(f, bits, coded) && f.start <= j <= coded
    ensures Carried(f, Goal(f, bits, coded, st), j) == Carry(f, bits, st, j)
  {
  }

  /** Every coded band is split with what was carried over to it. */
  ghost predicate Chained(f: Frame, bits: seq<int>, coded: nat, st: Stereo, g: seq<Band>) {
    && ValidFrame(f) && coded <= f.end == |g| == |bits|
    && (forall k :: f.start <= k < coded ==> Link(f, bits, st, g, k))
  }

  ghost predicate Link(f: Frame, bits: seq<int>, st: Stereo, g: seq<Band>, k: nat)
    requires ValidFrame(f) && f.start <= k < f.end == |g| == |bits|
  {
    && bits[k] >= 0 && Carried(f, g, k) >= 0
    && g[k] == SplitBand(f, k, bits[k], Carried(f, g, k), st.intensity, st.dual)
  }

  lemma GoalChained(f: Frame, bits: seq<int>, coded: nat, st: Stereo)
    requires ValidFrame(f) && f.start < coded <= f.end && ValidBits(f, bits, coded)
    ensures Chained(f, bits, coded, st, Goal(f, bits, coded, st))
    ensures Carried(f, Goal(f, bits, coded, st), coded) == Carry(f, bits, st, coded)
  {
    var g := Goal(f, bits, coded, st);
    forall k | f.start <= k < coded ensures Link(f, bits, st, g, k) {
      CarriedIs(f, bits, coded, st, k);
    }
    CarriedIs(f, bits, coded, st, coded);
  }

  /** One coded band. */
  method SplitEntry(f: Frame, bits: array<int>, ebits: array<int>, priority: array<bool>, j: nat, balance: nat,
                    st: Stereo, ghost t: seq<int>, ghost g: seq<Band>) returns (balance': int)
    requires ValidFrame(f) && f.start <= j < f.end && bits != ebits
    requires Done(f, g, t, j, bits[..], ebits[..], priority[..]) && Link(f, t, st, g, j)
    requires balance == Carried(f, g, j)
    modifies bits, ebits, priority
    ensures Done(f, g, t, j + 1, bits[..], ebits[..], priority[..]) && balance' == Carried(f, g, j + 1)
  {
    var b := SplitOne(f, j, bits[j], balance, st);
    bits[j], ebits[j], priority[j], balance' := b.pulses, b.ebits, b.priority, b.balance;
  }

  /** The loop over the coded bands; the bits array becomes the pulses. */
  method SplitCoded(f: Frame, bits: array<int>, ebits: array<int>, priority: array<bool>, coded: nat, st: Stereo,
                    ghost t: seq<int>, ghost g: seq<Band>) returns (balance: int)
    requires f.start < coded <= f.end && Chained(f, t, coded, st, g) && bits != ebits
    requires Done(f, g, t, f.start, bits[..], ebits[..], priority[..])
    modifies bits, ebits, priority
    ensures Done(f, g, t, coded, bits[..], ebits[..], priority[..]) && balance == Carried(f, g, coded)
  {
    balance := 0;
    for j := f.start to coded
      invariant Done(f, g, t, j, bits[..], ebits[..], priority[..]) && balance == Carried(f, g, j)
    {
      assert Link(f, t, st, g, j);
      balance := SplitEntry(f, bits, ebits, priority, j, balance, st, t, g);
    }
  }

  /** One skipped band. */
  method SkipEntry(f: Frame, bits: array<int>, ebits: array<int>, priority: array<bool>, j: nat,
                   ghost t: seq<int>, ghost g: seq<Band>)
    requires ValidFrame(f) && f.start <= j < f.end && bits != ebits
    requires Done(f, g, t, j, bits[..], ebits[..], priority[..]) && t[j] >= 0 && g[j] == SkippedBand(f, t[j])
    modifies bits, ebits, priority
    ensures Done(f, g, t, j + 1, bits[..], ebits[..], priority[..])
  {
    ebits[j] := bits[j] / f.channels / 8;
    bits[j] := 0;
    priority[j] := ebits[j] < 1;
  }

  /** The loop over the skipped bands. */
  method SplitSkipped(f: Frame, bits: array<int>, ebits: array<int>, priority: array<bool>, coded: nat, st: Stereo,
                      ghost t: seq<int>, ghost g: seq<Band>)
    requires ValidFrame(f) && f.start < coded <= f.end && ValidBits(f, t, coded) && bits != ebits
    requires Done(f, g, t, coded, bits[..], ebits[..], priority[..]) && g == Goal(f, t, coded, st)
    modifies bits, ebits, priority
    ensures Done(f, g, t, f.end, bits[..], ebits[..], priority[..])
  {
    for j := coded to f.end
      invariant Done(f, g, t, j, bits[..], ebits[..], priority[..])
    {
      SkipEntry(f, bits, ebits, priority, j, t, g);
    }
  }

  /** Everything after the stereo parameters. */
  method Complete(f: Frame, bits: array<int>, ebits: array<int>, priority: array<bool>, coded: nat, left: nat,
                  st: Stereo, ghost b: seq<int>, ghost t: seq<int>) returns (balance: int)
    requires ValidFrame(f) && f.start < coded <= f.end && |b| == f.end && Agree(f, bits[..], b)
    requires t == Spread(f, b, left, coded) && ValidBits(f, t, coded) && bits != ebits
    requires bits.Length >= f.end && ebits.Length >= f.end && priority.Length >= f.end
    modifies bits, ebits, priority
    ensures Written(f, t, coded, st, f.end, bits[..], ebits[..], priority[..]) && balance == Carry(f, t, st, coded)
  {
    ghost var g := Goal(f, t, coded, st);
    SpreadRest(f, bits, left, coded, b);
    GoalChained(f, t, coded, st);
    balance := SplitCoded(f, bits, ebits, priority, coded, st, t, g);
    SplitSkipped(f, bits, ebits, priority, coded, st, t, g);
  }

  method IntensityEncode(enc: Encoder, f: Frame, coded: nat, rsv: int, intensity: int) returns (i: int)
    requires enc.Valid() && ValidFrame(f) && f.start < coded <= f.end && (rsv > 0 ==> f.start <= intensity)
    modifies enc, enc.buf
    ensures enc.Valid() && enc.storage == old(enc.storage) && i == if rsv > 0 then Min(intensity, coded) else 0
    ensures enc.trace == old(enc.trace) + IntensityOps(f, coded, rsv, i)
  {
    i := 0;
    if rsv > 0 {
      i := Min(intensity, coded);
      enc.Uint(i - f.start, coded + 1 - f.start);
    }
  }

  method DualEncode(enc: Encoder, held: int, dual: bool) returns (d: bool)
    requires enc.Valid()
    modifies enc, enc.buf
    ensures enc.Valid() && enc.storage == old(enc.storage) && d == (held > 0 && dual)
    ensures enc.trace == old(enc.trace) + DualOps(held, d)
  {
    d := false;
    if held > 0 {
      enc.BitLogp(dual, 1);
      d := dual;
    }
  }

  /** want is the band the encoder coded. */
  method IntensityDecode(dec: Decoder, f: Frame, coded: nat, rsv: int, ghost want: int) returns (i: int)
    requires dec.Valid() && ValidFrame(f) && f.start < coded <= f.end && (rsv > 0 ==> f.start <= want <= coded)
    modifies dec
    ensures dec.Valid() && if rsv > 0 then f.start <= i <= coded else i == 0
    ensures old(dec.trace) + IntensityOps(f, coded, rsv, want) <= dec.script ==>
      (rsv > 0 ==> i == want) && dec.trace == old(dec.trace) + IntensityOps(f, coded, rsv, want)
      && dec.error == old(dec.error)
  {
    i := 0;
    if rsv > 0 {
      i := dec.Uint(coded + 1 - f.start, want - f.start);
      i := f.start + i;
    }
  }

  /** want is the flag the encoder coded. */
  method DualDecode(dec: Decoder, held: int, ghost want: bool) returns (d: bool)
    requires dec.Valid()
    modifies dec
    ensures dec.Valid() && (held <= 0 ==> !d) && dec.error == old(dec.error)
    ensures old(dec.trace) + DualOps(held, want) <= dec.script ==>
      d == (held > 0 && want) && dec.trace == old(dec.trace) + DualOps(held, want)
  {
    d := false;
    if held > 0 {
      d := dec.BitLogp(1);
    }
  }

  // ----- The allocator

  /** What a call of the allocator gives out. */
  ghost predicate Allocated(f: Frame, o: Outcome, coded: nat, stereo: Stereo, balance: int,
                            pulses: seq<int>, ebits: seq<int>, priority: seq<bool>) {
    && ValidFrame(f) && f.start < coded <= f.end && ValidBits(f, o.bits, coded)
    && coded == o.run.last.coded && stereo == o.stereo && balance == Carry(f, o.bits, o.stereo, coded)
    && Written(f, o.bits, coded, o.stereo, f.end, pulses, ebits, priority)
  }

  /** The stereo parameters of a call, coded. */
  method StereoEncode(enc: Encoder, f: Frame, r: Reserve, coded: nat, rsv: int, intensity: int, dual: bool,
                      ghost run: Run)
    returns (stereo: Stereo, held: int)
    requires enc.Valid() && ValidSkip(f, run.last) && r.dual >= 0 && (f.channels == 2 ==> intensity >= f.start)
    requires coded == run.last.coded && rsv == run.last.intensity
    modifies enc, enc.buf
    ensures enc.Valid() && enc.storage == old(enc.storage)
    ensures var o := Finish(f, r, run, intensity, dual);
      stereo == o.stereo && held == o.dualRsv && enc.trace == old(enc.trace) + StereoOps(f, o)
  {
    ghost var trace := enc.trace;
    var i := IntensityEncode(enc, f, coded, rsv, intensity);
    held := if i <= f.start then 0 else r.dual;
    var d := DualEncode(enc, held, dual);
    Regroup(trace, IntensityOps(f, coded, rsv, i), DualOps(held, d));
    stereo := Stereo(i, d);
  }

  /** The rest of a call; what was held for a dual stereo flag that is not coded goes back to the total. */
  method FinishCall(f: Frame, r: Reserve, coded: nat, psum: int, total: int, rsv: int, stereo: Stereo, held: int,
                    bits: array<int>, ebits: array<int>, priority: array<bool>, ghost run: Run, ghost o: Outcome,
                    ghost intensity: int, ghost dual: bool) returns (balance: int)
    requires ValidSkip(f, run.last) && r.dual >= 0 && Holds(f, run.last, bits[..], coded, psum, total, rsv)
    requires o == Finish(f, r, run, intensity, dual) && stereo == o.stereo && held == o.dualRsv
    requires bits != ebits && bits.Length >= f.end && ebits.Length >= f.end && priority.Length >= f.end
    modifies bits, ebits, priority
    ensures Allocated(f, o, coded, stereo, balance, bits[..], ebits[..], priority[..])
  {
    FinishBits(f, r, run, bits[..], coded, psum, total, rsv, o, intensity, dual);
    balance := Complete(f, bits, ebits, priority, coded, total + (r.dual - held) - psum, stereo, run.last.bits, o.bits);
  }

  lemma FinishBits(f: Frame, r: Reserve, run: Run, bits: seq<int>, coded: nat, psum: int, total: int, rsv: int,
                   o: Outcome, intensity: int, dual: bool)
    requires ValidSkip(f, run.last) && r.dual >= 0 && Holds(f, run.last, bits, coded, psum, total, rsv)
    requires o == Finish(f, r, run, intensity, dual)
    ensures f.start < coded <= f.end && coded == o.run.last.coded && |run.last.bits| == f.end
    ensures Agree(f, bits, run.last.bits) && ValidBits(f, o.bits, coded)
    ensures total + (r.dual - o.dualRsv) - psum >= 0
    ensures o.bits == Spread(f, run.last.bits, total + (r.dual - o.dualRsv) - psum, coded)
  {
    FinishKeeps(f, r, run, intensity, dual);
  }

  /** The encoder's call up to the end of the skip loop. */
  method StartEncode(enc: Encoder, f: Frame, r: Reserve, prev: int, bandwidth: int, bits: array<int>, ghost run: Run)
    returns (coded: nat, psum: int, total: int, rsv: int)
    requires enc.Valid() && ValidFrame(f) && ValidSkip(f, Initial(f, r)) && bits.Length >= f.end
    requires run == SkipRun(f, Initial(f, r), r.skip, Choice(f, prev, bandwidth))
    modifies enc, enc.buf, bits
    ensures enc.Valid() && enc.storage == old(enc.storage) && enc.trace == old(enc.trace) + run.flags
    ensures Holds(f, run.last, bits[..], coded, psum, total, rsv)
  {
    var skipStart, thresh;
    psum, skipStart, thresh := Prepare(f, r, bits);
    coded, psum, total, rsv := SkipEncode(enc, f, thresh, skipStart, r, psum, bits, prev, bandwidth, Initial(f, r));
  }

  /** ... and from there on. */
  method FinishEncode(enc: Encoder, f: Frame, r: Reserve, coded: nat, psum: int, total: int, rsv: int, intensity: int,
                      dual: bool, bits: array<int>, ebits: array<int>, priority: array<bool>,
                      ghost run: Run, ghost o: Outcome) returns (stereo: Stereo, balance: int)
    requires enc.Valid() && ValidSkip(f, run.last) && r.dual >= 0 && (f.channels == 2 ==> intensity >= f.start)
    requires Holds(f, run.last, bits[..], coded, psum, total, rsv) && o == Finish(f, r, run, intensity, dual)
    requires Codable(f, o)
    requires bits != ebits && bits.Length >= f.end && ebits.Length >= f.end && priority.Length >= f.end
    modifies enc, enc.buf, bits, ebits, priority
    ensures enc.Valid() && enc.storage == old(enc.storage) && enc.trace == old(enc.trace) + StereoOps(f, o)
    ensures Allocated(f, o, coded, stereo, balance, bits[..], ebits[..], priority[..])
  {
    var held;
    stereo, held := StereoEncode(enc, f, r, coded, rsv, intensity, dual, run);
    balance := FinishCall(f, r, coded, psum, total, rsv, stereo, held, bits, ebits, priority, run, o, intensity, dual);
  }

  /** clt_compute_allocation with encode = 1; the pulses array is also what the source calls bits. */
  method EncodeAllocation(enc: Encoder, f: Frame, total: int, intensity: int, dual: bool, prev: int, bandwidth: int,
                          pulses: array<int>, ebits: array<int>, priority: array<bool>)
    returns (coded: nat, stereo: Stereo, balance: int)
    requires enc.Valid() && ValidFrame(f) && (f.channels == 2 ==> intensity >= f.start)
    requires pulses != ebits && pulses.Length >= f.end && ebits.Length >= f.end && priority.Length >= f.end
    modifies enc, enc.buf, pulses, ebits, priority
    ensures enc.Valid() && enc.storage == old(enc.storage)
    ensures var o := OutcomeOf(f, total, Choice(f, prev, bandwidth), intensity, dual);
      Allocated(f, o, coded, stereo, balance, pulses[..], ebits[..], priority[..])
      && enc.trace == old(enc.trace) + OutcomeOps(f, o)
  {
    var r := Reserved(f, total);
    ghost var run := OutcomeRun(f, total, r, Choice(f, prev, bandwidth), intensity, dual);
    ghost var o := Finish(f, r, run, intensity, dual);
    Regroup(enc.trace, o.run.flags, StereoOps(f, o));
    var psum, left, rsv;
    coded, psum, left, rsv := StartEncode(enc, f, r, prev, bandwidth, pulses, run);
    stereo, balance := FinishEncode(enc, f, r, coded, psum, left, rsv, intensity, dual, pulses, ebits, priority, run,
                                    o);
  }

  /** The run of the skip loop behind an outcome. */
  lemma OutcomeRun(f: Frame, total: int, r: Reserve, keep: Skip -> bool, intensity: int, dual: bool) returns (run: Run)
    requires ValidFrame(f) && r == Reserved(f, total)
    ensures ValidSkip(f, Initial(f, r)) && ValidSkip(f, run.last) && run == SkipRun(f, Initial(f, r), r.skip, keep)
    ensures OutcomeOf(f, total, keep, intensity, dual) == Finish(f, r, run, intensity, dual)
  {
    InitialValid(f, total);
    SkipRunKeeps(f, Initial(f, r), r.skip, keep);
    run := SkipRun(f, Initial(f, r), r.skip, keep);
  }

  /** The encoder's call came out of the skip loop in the state of this run. */
  ghost predicate SameRun(f: Frame, r: Reserve, run: Run, want: Outcome)
    requires ValidSkip(f, run.last) && r.dual >= 0
  {
    want.run.last == run.last && want == Finish(f, r, want.run, want.stereo.intensity, want.stereo.dual)
  }

  /** The stereo parameters of a call, from the stream; want is the encoder's call. */
  method StereoDecode(dec: Decoder, f: Frame, r: Reserve, coded: nat, rsv: int, ghost run: Run, ghost want: Outcome)
    returns (stereo: Stereo, held: int)
    requires dec.Valid() && ValidSkip(f, run.last) && r.dual >= 0 && Codable(f, want)
    requires coded == run.last.coded && rsv == run.last.intensity
    modifies dec
    ensures dec.Valid()
    ensures var o := Finish(f, r, run, stereo.intensity, stereo.dual); stereo == o.stereo && held == o.dualRsv
    ensures SameRun(f, r, run, want) && old(dec.trace) + StereoOps(f, want) <= dec.script ==>
      stereo == want.stereo && dec.trace == old(dec.trace) + StereoOps(f, want) && dec.error == old(dec.error)
  {
    ghost var first := IntensityOps(f, want.run.last.coded, want.run.last.intensity, want.stereo.intensity);
    ghost var second := DualOps(want.dualRsv, want.stereo.dual);
    Regroup(dec.trace, first, second);
    PrefixOfScript(dec.trace + first, second, dec.script);
    var i := IntensityDecode(dec, f, coded, rsv,
                             if want.run.last == run.last then want.stereo.intensity else f.start);
    held := if i <= f.start then 0 else r.dual;
    var d := DualDecode(dec, held, want.stereo.dual);
    stereo := Stereo(i, d);
  }

  lemma PrefixOfScript(a: seq<Op>, b: seq<Op>, script: seq<Op>)
    ensures a + b <= script ==> a <= script
  {
    if a + b <= script {
      assert a == (a + b)[..|a|];
    }
  }

  /** The stereo parameters in effect lead to the same end as those asked for. */
  lemma FinishAgain(f: Frame, r: Reserve, run: Run, intensity: int, dual: bool)
    requires ValidSkip(f, run.last) && r.dual >= 0
    ensures SameRun(f, r, run, Finish(f, r, run, intensity, dual))
  {
  }

  lemma SameEnd(f: Frame, r: Reserve, run: Run, want: Outcome, coded: nat, stereo: Stereo, balance: int,
                pulses: seq<int>, ebits: seq<int>, priority: seq<bool>)
    requires ValidSkip(f, run.last) && r.dual >= 0 && SameRun(f, r, run, want) && stereo == want.stereo
    requires Allocated(f, Finish(f, r, run, stereo.intensity, stereo.dual), coded, stereo, balance,
                       pulses, ebits, priority)
    ensures Allocated(f, want, coded, stereo, balance, pulses, ebits, priority)
  {
    assert want.bits == Finish(f, r, run, stereo.intensity, stereo.dual).bits;
  }

  /** The decoder's call up to the end of the skip loop; at is where the data stops it. */
  method StartDecode(dec: Decoder, f: Frame, r: Reserve, bits: array<int>, ghost keep: Skip -> bool)
    returns (coded: nat, psum: int, total: int, rsv: int, ghost at: nat)
    requires dec.Valid() && ValidFrame(f) && ValidSkip(f, Initial(f, r)) && bits.Length >= f.end
    modifies dec, bits
    ensures dec.Valid() && dec.error == old(dec.error)
    ensures var run := SkipRun(f, Initial(f, r), r.skip, StopAt(at));
      Holds(f, run.last, bits[..], coded, psum, total, rsv)
    ensures var run := SkipRun(f, Initial(f, r), r.skip, keep);
      old(dec.trace) + run.flags <= dec.script ==>
        SkipRun(f, Initial(f, r), r.skip, StopAt(at)).last == run.last && dec.trace == old(dec.trace) + run.flags
  {
    var skipStart, thresh;
    psum, skipStart, thresh := Prepare(f, r, bits);
    coded, psum, total, rsv, at := SkipDecode(dec, f, thresh, skipStart, r, psum, bits, Initial(f, r), keep);
  }

  /** ... and from there on. */
  method FinishDecode(dec: Decoder, f: Frame, r: Reserve, coded: nat, psum: int, total: int, rsv: int,
                      bits: array<int>, ebits: array<int>, priority: array<bool>, ghost run: Run, ghost want: Outcome)
    returns (stereo: Stereo, balance: int)
    requires dec.Valid() && ValidSkip(f, run.last) && r.dual >= 0 && Codable(f, want)
    requires Holds(f, run.last, bits[..], coded, psum, total, rsv)
    requires bits != ebits && bits.Length >= f.end && ebits.Length >= f.end && priority.Length >= f.end
    modifies dec, bits, ebits, priority
    ensures dec.Valid()
    ensures Allocated(f, Finish(f, r, run, stereo.intensity, stereo.dual), coded, stereo, balance,
                      bits[..], ebits[..], priority[..])
    ensures SameRun(f, r, run, want) && old(dec.trace) + StereoOps(f, want) <= dec.script ==>
      && Allocated(f, want, coded, stereo, balance, bits[..], ebits[..], priority[..])
      && dec.trace == old(dec.trace) + StereoOps(f, want) && dec.error == old(dec.error)
  {
    var held;
    stereo, held := StereoDecode(dec, f, r, coded, rsv, run, want);
    balance := FinishCall(f, r, coded, psum, total, rsv, stereo, held, bits, ebits, priority, run,
                          Finish(f, r, run, stereo.intensity, stereo.dual), stereo.intensity, stereo.dual);
    if SameRun(f, r, run, want) && stereo == want.stereo {
      SameEnd(f, r, run, want, coded, stereo, balance, bits[..], ebits[..], priority[..]);
    }
  }

  /**
   clt_compute_allocation with encode = 0. On any data the outcome is that of some decisions, so it conserves bits;
   on what the encoder coded it is the encoder's, whatever the encoder decided.
   */
  method DecodeAllocation(dec: Decoder, f: Frame, total: int, pulses: array<int>, ebits: array<int>,
                          priority: array<bool>, ghost keep: Skip -> bool, ghost intensity: int, ghost dual: bool)
    returns (coded: nat, stereo: Stereo, balance: int, ghost at: nat)
    requires dec.Valid() && ValidFrame(f) && (f.channels == 2 ==> intensity >= f.start)
    requires pulses != ebits && pulses.Length >= f.end && ebits.Length >= f.end && priority.Length >= f.end
    modifies dec, pulses, ebits, priority
    ensures dec.Valid()
    ensures var o := OutcomeOf(f, total, StopAt(at), stereo.intensity, stereo.dual);
      Allocated(f, o, coded, stereo, balance, pulses[..], ebits[..], priority[..])
    ensures var o := OutcomeOf(f, total, keep, intensity, dual);
      old(dec.trace) + OutcomeOps(f, o) <= dec.script ==>
        && Allocated(f, o, coded, stereo, balance, pulses[..], ebits[..], priority[..])
        && dec.trace == old(dec.trace) + OutcomeOps(f, o) && dec.error == old(dec.error)
  {
    var r := Reserved(f, total);
    ghost var run := OutcomeRun(f, total, r, keep, intensity, dual);
    ghost var want := Finish(f, r, run, intensity, dual);
    Regroup(dec.trace, run.flags, StereoOps(f, want));
    PrefixOfScript(dec.trace + run.flags, StereoOps(f, want), dec.script);
    FinishAgain(f, r, run, intensity, dual);
    var psum, left, rsv;
    coded, psum, left, rsv, at := StartDecode(dec, f, r, pulses, keep);
    ghost var run' := OutcomeRun(f, total, r, StopAt(at), 0, false);
    stereo, balance := FinishDecode(dec, f, r, coded, psum, left, rsv, pulses, ebits, priority, run', want);
  }
}
