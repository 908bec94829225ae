/**
 The bit allocation of rate.c (RFC 6716, section 4.3.3) as functions: what each band is granted, which bands are
 skipped, and how the rest is split into pulses and fine energy bits. Amounts are in eighths of a bit.
 */
module RateSpec {
  import opened Arith

  /** The part of a CELTMode that allocation reads; row i of allocVectors is quality level i. */
  datatype Mode = Mode(eBands: seq<nat>, logN: seq<nat>, allocVectors: seq<seq<nat>>)

  predicate ValidMode(m: Mode) {
    && |m.eBands| == |m.logN| + 1 && |m.allocVectors| >= 2
    && (forall i :: 0 <= i < |m.allocVectors| ==> |m.allocVectors[i]| == |m.logN|)
    && (forall j :: 0 <= j < |m.logN| ==> m.eBands[j] < m.eBands[j + 1] && m.allocVectors[0][j] == 0)
  }

  /** What the allocation of one frame is asked for. */
  datatype Frame = Frame(mode: Mode, start: nat, end: nat, channels: nat, lm: nat,
                         offsets: seq<nat>, cap: seq<nat>, trim: int)

  predicate ValidFrame(f: Frame) {
    && ValidMode(f.mode) && f.start < f.end <= |f.mode.logN| && 1 <= f.channels <= 2 && f.lm <= 3
    && f.end - f.start < |LOG2_FRAC_TABLE| && |f.offsets| == |f.cap| == |f.mode.logN|
  }

  const LOG2_FRAC_TABLE: seq<nat> :=
    [0, 8, 13, 16, 19, 21, 23, 24, 26, 27, 28, 29, 30, 31, 32, 32, 33, 34, 34, 35, 36, 36, 37, 37]

  lemma Log2FracGrows(n: nat)
    requires 0 < n < |LOG2_FRAC_TABLE|
    ensures LOG2_FRAC_TABLE[n - 1] <= LOG2_FRAC_TABLE[n] && LOG2_FRAC_TABLE[n] >= 8
  {
  }

  /** Choosing among twice as many costs a bit more. */
  lemma TwiceAsMany(n: nat)
    requires 2 * n + 1 < |LOG2_FRAC_TABLE|
    ensures LOG2_FRAC_TABLE[2 * n + 1] == LOG2_FRAC_TABLE[n] + 8
  {
  }

  // ----- Sums over bands

  function Sum(s: seq<int>, lo: nat, hi: nat): int
    requires hi <= |s|
    decreases hi - lo
  {
    if lo >= hi then 0 else s[lo] + Sum(s, lo + 1, hi)
  }

  lemma {:induction false} SumLast(s: seq<int>, lo: nat, hi: nat)
    requires lo < hi <= |s|
    ensures Sum(s, lo, hi) == Sum(s, lo, hi - 1) + s[hi - 1]
    decreases hi - lo
  {
    if lo + 1 < hi {
      SumLast(s, lo + 1, hi);
    }
  }

  lemma {:induction false} SumFrame(s: seq<int>, t: seq<int>, lo: nat, hi: nat)
    requires hi <= |s| && hi <= |t| && forall j :: lo <= j < hi ==> s[j] == t[j]
    ensures Sum(s, lo, hi) == Sum(t, lo, hi)
    decreases hi - lo
  {
    if lo < hi {
      SumFrame(s, t, lo + 1, hi);
    }
  }

  lemma {:induction false} SumSplit(s: seq<int>, lo: nat, mid: nat, hi: nat)
    requires lo <= mid <= hi <= |s|
    ensures Sum(s, lo, hi) == Sum(s, lo, mid) + Sum(s, mid, hi)
    decreases mid - lo
  {
    if lo < mid {
      SumSplit(s, lo + 1, mid, hi);
    }
  }

  lemma {:induction false} SumUpdate(s: seq<int>, k: nat, v: int, lo: nat, hi: nat)
    requires lo <= k < hi <= |s|
    ensures Sum(s[k := v], lo, hi) == Sum(s, lo, hi) - s[k] + v
    decreases hi - lo
  {
    if lo < k {
      SumUpdate(s, k, v, lo + 1, hi);
    } else {
      SumFrame(s, s[k := v], lo + 1, hi);
    }
  }

  lemma {:induction false} SumAtMost(s: seq<int>, t: seq<int>, lo: nat, hi: nat)
    requires hi <= |s| && hi <= |t| && forall j :: lo <= j < hi ==> s[j] <= t[j]
    ensures Sum(s, lo, hi) <= Sum(t, lo, hi)
    decreases hi - lo
  {
    if lo < hi {
      SumAtMost(s, t, lo + 1, hi);
    }
  }

  lemma {:induction false} SumHolds(s: seq<int>, k: nat, lo: nat, hi: nat)
    requires lo <= k < hi <= |s| && forall j :: lo <= j < hi ==> s[j] >= 0
    ensures 0 <= s[k] <= Sum(s, lo, hi)
    decreases hi - lo
  {
    if lo < k {
      SumHolds(s, k, lo + 1, hi);
    } else if lo + 1 < hi {
      SumHolds(s, lo + 1, lo + 1, hi);
    }
  }

  // ----- Reservations

  datatype Reserve = Reserve(total: int, skip: int, intensity: int, dual: int)

  /** What is set aside for the end-of-skipping flag, the intensity band and the dual stereo flag. */
  function Reserved(f: Frame, total: int): (r: Reserve)
    requires ValidFrame(f)
    ensures r.total + r.skip + r.intensity + r.dual == Max(total, 0) && r.total >= 0 && r.dual >= 0
    ensures r.skip == 8 || (r.skip == 0 && total < 8 && r.intensity == 0 && r.dual == 0)
    ensures r.intensity == 0 || (f.channels == 2 && r.intensity == LOG2_FRAC_TABLE[f.end - f.start])
  {
    Log2FracGrows(f.end - f.start);
    var left := Max(total, 0);
    var skip := if left >= 8 then 8 else 0;
    var left := left - skip;
    var want := LOG2_FRAC_TABLE[f.end - f.start];
    if f.channels != 2 || want > left then Reserve(left, skip, 0, 0)
    else
      var left := left - want;
      var dual := if left >= 8 then 8 else 0;
      Reserve(left - dual, skip, want, dual)
  }

  /** Nothing is left unreserved that there are bits for, and a dual stereo flag needs an intensity band. */
  lemma ReservedIs(f: Frame, total: int)
    requires ValidFrame(f)
    ensures var r, want := Reserved(f, total), LOG2_FRAC_TABLE[f.end - f.start];
      && r.total + r.skip + r.intensity + r.dual == Max(total, 0) && (r.skip == 8 || (r.skip == 0 && total < 8))
      && (if f.channels == 2 && r.total + r.intensity + r.dual >= want then r.intensity == want else r.intensity == 0)
      && (r.dual == 8 || (r.dual == 0 && (r.intensity == 0 || r.total < 8)))
      && (r.intensity == 0 ==> r.dual == 0)
  {
    Log2FracGrows(f.end - f.start);
  }

  // ----- Levels: what every band would get at some quality

  function Width(f: Frame, j: nat): nat
    requires ValidFrame(f) && j < f.end
  {
    f.mode.eBands[j + 1] - f.mode.eBands[j]
  }

  /** The coefficients below band j of those allocated. */
  function Below(f: Frame, j: nat): (w: int)
    requires ValidFrame(f) && f.start <= j <= f.end
    ensures w >= 0 && (f.start < j ==> w > 0)
  {
    BandsGrow(f.mode, f.start, j);
    f.mode.eBands[j] - f.mode.eBands[f.start]
  }

  lemma {:induction false} BandsGrow(m: Mode, i: nat, j: nat)
    requires ValidMode(m) && i <= j <= |m.logN|
    ensures m.eBands[i] <= m.eBands[j] && (i < j ==> m.eBands[i] < m.eBands[j])
    decreases j - i
  {
    if i < j {
      BandsGrow(m, i + 1, j);
    }
  }

  /** Below this a band gets no pulses. */
  function Thresh(f: Frame, j: nat): (t: int)
    requires ValidFrame(f) && j < f.end
    ensures t >= 8 * f.channels
  {
    Max(8 * f.channels, 3 * Width(f, j) * Pow2(f.lm) * 8 / 16)
  }

  /** The tilt of the allocation curve; single coefficients get less. */
  function TrimOffset(f: Frame, j: nat): int
    requires ValidFrame(f) && j < f.end
  {
    var tilt := f.channels * Width(f, j) * (f.trim - 5 - f.lm) * (f.end - j - 1) * Pow2(f.lm + 3) / 64;
    if Width(f, j) * Pow2(f.lm) == 1 then tilt - 8 * f.channels else tilt
  }

  function VectorBits(f: Frame, row: nat, j: nat): (b: int)
    requires ValidFrame(f) && row < |f.mode.allocVectors| && j < f.end
    ensures b >= 0 && (row == 0 ==> b == 0)
  {
    var bits := Grade(f.channels * Width(f, j), f.mode.allocVectors[row][j], Pow2(f.lm));
    if bits > 0 then Max(0, bits + TrimOffset(f, j)) else bits
  }

  function Grade(n: nat, v: nat, scale: nat): (b: nat)
    ensures v == 0 ==> b == 0
  {
    MulMonotone(n, 0, v);
    MulMonotone(n * v, 0, scale);
    n * v * scale / 4
  }

  type Levels = seq<int>

  predicate ValidLevels(f: Frame, l: Levels) {
    |l| == f.end && forall j :: 0 <= j < f.end ==> l[j] >= 0
  }

  /** The levels the coarse search tries. */
  function RowLevels(f: Frame, row: nat): (l: Levels)
    requires ValidFrame(f) && row < |f.mode.allocVectors|
    ensures ValidLevels(f, l)
  {
    seq(f.end, j requires 0 <= j < f.end => VectorBits(f, row, j) + f.offsets[j])
  }

  /** The lower of the two levels interpolated between: row 0 goes without the boosts. */
  function LowLevels(f: Frame, row: nat): (l: Levels)
    requires ValidFrame(f) && row < |f.mode.allocVectors|
    ensures ValidLevels(f, l)
  {
    seq(f.end, j requires 0 <= j < f.end => VectorBits(f, row, j) + if row > 0 then f.offsets[j] else 0)
  }

  /** ... and how far the upper one is above it. */
  function Steps(f: Frame, row: nat): (l: Levels)
    requires ValidFrame(f) && row < |f.mode.allocVectors|
    ensures ValidLevels(f, l)
  {
    seq(f.end, j requires 0 <= j < f.end =>
      Max(0, f.offsets[j] + (if row + 1 < |f.mode.allocVectors| then VectorBits(f, row + 1, j) else Upper(f, j))
             - LowLevels(f, row)[j]))
  }

  /** Above the last row the cap stands in; it is tilted like a row. */
  function Upper(f: Frame, j: nat): int
    requires ValidFrame(f) && j < f.end
  {
    if f.cap[j] > 0 then Max(0, f.cap[j] + TrimOffset(f, j)) else 0
  }

  function Between(f: Frame, low: Levels, steps: Levels, q: nat): (l: Levels)
    requires ValidFrame(f) && ValidLevels(f, low) && ValidLevels(f, steps)
    ensures ValidLevels(f, l)
  {
    seq(f.end, j requires 0 <= j < f.end => At(low[j], steps[j], q))
  }

  function At(low: int, step: int, q: nat): (l: int)
    requires low >= 0 && step >= 0
    ensures l >= low && (q == 0 ==> l == low)
  {
    MulMonotone(step, 0, q);
    low + q * step / 64
  }

  // ----- Demand: what a level costs

  /** A band from j on reaches its threshold: band j is coded. */
  predicate Reached(f: Frame, l: Levels, j: nat)
    requires ValidFrame(f) && ValidLevels(f, l) && j <= f.end
    decreases f.end - j
  {
    j < f.end && (l[j] >= Thresh(f, j) || Reached(f, l, j + 1))
  }

  /** What the search counts for a band: its level up to its cap, or a fine energy bit per channel. */
  function Wanted(f: Frame, l: Levels, j: nat): int
    requires ValidFrame(f) && ValidLevels(f, l) && j < f.end
  {
    if Reached(f, l, j) then Min(l[j], f.cap[j]) else if l[j] >= 8 * f.channels then 8 * f.channels else 0
  }

  /** What it then gets. */
  function Granted(f: Frame, l: Levels, j: nat): (g: int)
    requires ValidFrame(f) && ValidLevels(f, l) && j < f.end
    ensures 0 <= g <= Wanted(f, l, j)
  {
    Min(f.cap[j], if Reached(f, l, j) then l[j] else if l[j] >= 8 * f.channels then 8 * f.channels else 0)
  }

  function WantedAll(f: Frame, l: Levels): seq<int>
    requires ValidFrame(f) && ValidLevels(f, l)
  {
    seq(f.end, j requires 0 <= j < f.end => Wanted(f, l, j))
  }

  function Demand(f: Frame, l: Levels): int
    requires ValidFrame(f) && ValidLevels(f, l)
  {
    Sum(WantedAll(f, l), f.start, f.end)
  }

  function GrantedAll(f: Frame, l: Levels): seq<int>
    requires ValidFrame(f) && ValidLevels(f, l)
  {
    seq(f.end, j requires 0 <= j < f.end => Granted(f, l, j))
  }

  lemma GrantsWithinDemand(f: Frame, l: Levels)
    requires ValidFrame(f) && ValidLevels(f, l)
    ensures Sum(GrantedAll(f, l), f.start, f.end) <= Demand(f, l)
  {
    SumAtMost(GrantedAll(f, l), WantedAll(f, l), f.start, f.end);
  }

  /** Where every cap leaves room for a fine energy bit per channel, what is counted is what is granted. */
  lemma GrantsAreDemand(f: Frame, l: Levels)
    requires ValidFrame(f) && ValidLevels(f, l) && forall j :: 0 <= j < f.end ==> f.cap[j] >= 8 * f.channels
    ensures Sum(GrantedAll(f, l), f.start, f.end) == Demand(f, l)
  {
    SumFrame(GrantedAll(f, l), WantedAll(f, l), f.start, f.end);
  }

  /** Where the coarse search ends: the row to start from. */
  function Middle(lo: nat, hi: int): (m: nat)
    requires lo <= hi
    ensures lo <= m <= hi
  {
    (lo + hi) / 2
  }

  /** A row asks for more than there is. */
  predicate Exceeds(f: Frame, total: int, row: nat)
    requires ValidFrame(f) && row < |f.mode.allocVectors|
  {
    Demand(f, RowLevels(f, row)) > total
  }

  /** The rows that exceed the total. */
  function OverRows(f: Frame, total: int): (over: seq<bool>)
    requires ValidFrame(f)
    ensures |over| == |f.mode.allocVectors| && forall row: nat :: row < |over| ==> over[row] == Exceeds(f, total, row)
  {
    seq(|f.mode.allocVectors|, row requires 0 <= row < |f.mode.allocVectors| => Exceeds(f, total, row))
  }

  /** The bisection of the rows from lo to hi. */
  function Bisect(over: seq<bool>, lo: nat, hi: int): (r: nat)
    requires 1 <= lo <= hi + 1 <= |over|
    ensures lo - 1 <= r <= hi
    ensures r == lo - 1 || !over[r]
    decreases hi + 1 - lo
  {
    if lo > hi then lo - 1
    else if over[Middle(lo, hi)] then Bisect(over, lo, Middle(lo, hi) - 1)
    else Bisect(over, Middle(lo, hi) + 1, hi)
  }

  function FindRow(f: Frame, total: int): (r: nat)
    requires ValidFrame(f)
    ensures r < |f.mode.allocVectors|
  {
    Bisect(OverRows(f, total), 1, |f.mode.allocVectors| - 1)
  }

  /** The row found is affordable, and the next one, if there is one, is not. */
  lemma RowAtEdge(f: Frame, total: int)
    requires ValidFrame(f)
    ensures var r := FindRow(f, total);
      (r == 0 || !Exceeds(f, total, r)) && (r + 1 == |f.mode.allocVectors| || Exceeds(f, total, r + 1))
  {
    BisectEdge(OverRows(f, total), 1, |f.mode.allocVectors| - 1);
  }

  lemma {:induction false} BisectEdge(over: seq<bool>, lo: nat, hi: int)
    requires 1 <= lo <= hi + 1 <= |over| && (hi + 1 == |over| || over[hi + 1])
    ensures var r := Bisect(over, lo, hi); r + 1 == |over| || over[r + 1]
    decreases hi + 1 - lo
  {
    if lo <= hi {
      if over[Middle(lo, hi)] {
        BisectEdge(over, lo, Middle(lo, hi) - 1);
      } else {
        BisectEdge(over, Middle(lo, hi) + 1, hi);
      }
    }
  }

  /** Where the fine search ends, after so many halvings of lo..hi. */
  function FindStep(f: Frame, total: int, low: Levels, steps: Levels, lo: nat, hi: nat, n: nat): nat
    requires ValidFrame(f) && ValidLevels(f, low) && ValidLevels(f, steps)
    decreases n, lo, hi, total
  {
    if n == 0 then lo
    else
      var mid := (lo + hi) / 2;
      if Demand(f, Between(f, low, steps, mid)) > total then FindStep(f, total, low, steps, lo, mid, n - 1)
      else FindStep(f, total, low, steps, mid, hi, n - 1)
  }

  lemma {:induction false} StepAffordable(f: Frame, total: int, low: Levels, steps: Levels, lo: nat, hi: nat, n: nat)
    requires ValidFrame(f) && ValidLevels(f, low) && ValidLevels(f, steps)
    requires Demand(f, Between(f, low, steps, lo)) <= total
    ensures Demand(f, Between(f, low, steps, FindStep(f, total, low, steps, lo, hi, n))) <= total
    decreases n
  {
    if n > 0 {
      var mid := (lo + hi) / 2;
      if Demand(f, Between(f, low, steps, mid)) > total {
        StepAffordable(f, total, low, steps, lo, mid, n - 1);
      } else {
        StepAffordable(f, total, low, steps, mid, hi, n - 1);
      }
    }
  }

  /** The level the two searches settle on. */
  function Level(f: Frame, total: int): (l: Levels)
    requires ValidFrame(f)
    ensures ValidLevels(f, l)
  {
    var row := FindRow(f, total);
    var low, steps := LowLevels(f, row), Steps(f, row);
    Between(f, low, steps, FindStep(f, total, low, steps, 0, 64, 6))
  }

  lemma NothingWanted(f: Frame, l: Levels, j: nat)
    requires ValidFrame(f) && ValidLevels(f, l) && j <= f.end && forall k :: 0 <= k < f.end ==> l[k] == 0
    ensures !Reached(f, l, j) && Sum(WantedAll(f, l), j, f.end) == 0
    decreases f.end - j
  {
    if j < f.end {
      NothingWanted(f, l, j + 1);
    }
  }

  lemma LowAffordable(f: Frame, total: int, row: nat)
    requires ValidFrame(f) && total >= 0 && row < |f.mode.allocVectors|
    requires row == 0 || Demand(f, RowLevels(f, row)) <= total
    ensures Demand(f, LowLevels(f, row)) <= total
  {
    if row == 0 {
      NothingWanted(f, LowLevels(f, row), f.start);
    } else {
      assert LowLevels(f, row) == RowLevels(f, row);
    }
  }

  lemma BetweenStart(f: Frame, low: Levels, steps: Levels)
    requires ValidFrame(f) && ValidLevels(f, low) && ValidLevels(f, steps)
    ensures Between(f, low, steps, 0) == low
  {
  }

  /** The level settled on is affordable: the budget is never negative when the skip loop starts. */
  lemma LevelAffordable(f: Frame, total: int)
    requires ValidFrame(f) && total >= 0
    ensures Demand(f, Level(f, total)) <= total
  {
    var row := FindRow(f, total);
    assert row == 0 || !Exceeds(f, total, row);
    LowAffordable(f, total, row);
    BetweenStart(f, LowLevels(f, row), Steps(f, row));
    StepAffordable(f, total, LowLevels(f, row), Steps(f, row), 0, 64, 6);
  }

  lemma {:induction false} ReachedGrows(f: Frame, l: Levels, m: Levels, j: nat)
    requires ValidFrame(f) && ValidLevels(f, l) && ValidLevels(f, m) && j <= f.end
    requires forall k :: 0 <= k < f.end ==> l[k] <= m[k]
    ensures Reached(f, l, j) ==> Reached(f, m, j)
    decreases f.end - j
  {
    if j < f.end {
      ReachedGrows(f, l, m, j + 1);
    }
  }

  /** Where every cap leaves room for a fine energy bit per channel, higher levels cost no less. */
  lemma DemandGrows(f: Frame, l: Levels, m: Levels)
    requires ValidFrame(f) && ValidLevels(f, l) && ValidLevels(f, m)
    requires forall k :: 0 <= k < f.end ==> l[k] <= m[k] && f.cap[k] >= 8 * f.channels
    ensures Demand(f, l) <= Demand(f, m)
  {
    var a, b := WantedAll(f, l), WantedAll(f, m);
    forall j: nat | f.start <= j < f.end ensures a[j] <= b[j] {
      ReachedGrows(f, l, m, j);
      ReachedAbove(f, m, j);
    }
    SumAtMost(a, b, f.start, f.end);
  }

  /** A band that is not coded stays below its threshold. */
  lemma ReachedAbove(f: Frame, l: Levels, j: nat)
    requires ValidFrame(f) && ValidLevels(f, l) && j < f.end
    ensures !Reached(f, l, j) ==> l[j] < Thresh(f, j)
  {
  }

  lemma BetweenGrows(f: Frame, low: Levels, steps: Levels, p: nat, q: nat)
    requires ValidFrame(f) && ValidLevels(f, low) && ValidLevels(f, steps) && p <= q
    requires forall k :: 0 <= k < f.end ==> f.cap[k] >= 8 * f.channels
    ensures Demand(f, Between(f, low, steps, p)) <= Demand(f, Between(f, low, steps, q))
  {
    var a, b := Between(f, low, steps, p), Between(f, low, steps, q);
    forall k: nat | k < f.end ensures a[k] <= b[k] {
      MulMonotone(steps[k], p, q);
    }
    DemandGrows(f, a, b);
  }

  /** The fine search finds the highest affordable one of its 64 steps. */
  lemma {:induction false} StepHighest(f: Frame, total: int, low: Levels, steps: Levels, lo: nat, hi: nat, n: nat,
                                       q: nat)
    requires ValidFrame(f) && ValidLevels(f, low) && ValidLevels(f, steps) && hi - lo == Pow2(n)
    requires forall k :: 0 <= k < f.end ==> f.cap[k] >= 8 * f.channels
    requires lo <= q < hi && Demand(f, Between(f, low, steps, q)) <= total
    ensures q <= FindStep(f, total, low, steps, lo, hi, n)
    decreases n
  {
    if n > 0 {
      var mid := (lo + hi) / 2;
      assert Pow2(n) == 2 * Pow2(n - 1);
      if Demand(f, Between(f, low, steps, mid)) > total {
        if q >= mid {
          BetweenGrows(f, low, steps, mid, q);
        }
        StepHighest(f, total, low, steps, lo, mid, n - 1, q);
      } else if q >= mid {
        StepHighest(f, total, low, steps, mid, hi, n - 1, q);
      } else {
        FindStepFrom(f, total, low, steps, mid, hi, n - 1);
      }
    }
  }

  lemma {:induction false} FindStepFrom(f: Frame, total: int, low: Levels, steps: Levels, lo: nat, hi: nat, n: nat)
    requires ValidFrame(f) && ValidLevels(f, low) && ValidLevels(f, steps) && lo <= hi
    ensures lo <= FindStep(f, total, low, steps, lo, hi, n)
    decreases n
  {
    if n > 0 {
      var mid := (lo + hi) / 2;
      if Demand(f, Between(f, low, steps, mid)) > total {
        FindStepFrom(f, total, low, steps, lo, mid, n - 1);
      } else {
        FindStepFrom(f, total, low, steps, mid, hi, n - 1);
      }
    }
  }
}
