/**
 The energies of a coarse pass in closed form: a part of last frame's, a part of all values coded for the bands below,
 and the band's own value; on the encoder's side with the values it goes on with, on the decoder's with those it hears.
 */
module CoarseClosed {
  import opened Arith
  import opened RangeSpec
  import opened CoarseSpec

  /** The sum of a sequence from lo up to hi. */
  function Total(v: seq<int>, lo: nat, hi: nat): int
    requires hi <= |v|
  {
    if hi <= lo then 0 else Total(v, lo, hi - 1) + v[hi - 1]
  }

  /** The values of a channel, as the encoder goes on with them. */
  ghost function Sent(p: Call, d: nat): (v: seq<int>)
    requires ValidCall(p) && d < p.channels
    ensures |v| == p.end
    ensures forall i: nat {:trigger At(p, i, d)} :: p.start <= i < p.end ==> v[i] == Choice(p, i, d, At(p, i, d))
  {
    seq(p.end, i requires 0 <= i < p.end => if i < p.start then 0 else Choice(p, i, d, At(p, i, d)))
  }

  /** ... and as the decoder hears them. */
  ghost function Heeded(p: Call, d: nat): (v: seq<int>)
    requires ValidCall(p) && d < p.channels
    ensures |v| == p.end
    ensures forall i: nat {:trigger At(p, i, d)} :: p.start <= i < p.end ==> v[i] == Reception(p, i, d, At(p, i, d))
  {
    seq(p.end, i requires 0 <= i < p.end => if i < p.start then 0 else Reception(p, i, d, At(p, i, d)))
  }

  /** All of a sum but its part beta. */
  function Kept(beta: real, sum: int): real {
    (1.0 - beta) * sum as real
  }

  lemma KeptNext(beta: real, sum: int, q: int)
    ensures NextPrev(Kept(beta, sum), q, beta) == Kept(beta, sum + q)
  {
    assert (1.0 - beta) * (sum + q) as real == (1.0 - beta) * sum as real + (1.0 - beta) * q as real;
  }

  /** How many bands of channel d have been gone through at channel c of band i. */
  function Passed(i: nat, c: nat, d: nat): nat {
    if d < c then i + 1 else i
  }

  predicate OnTheWay(p: Call, i: nat, c: nat) {
    ValidCall(p) && p.start <= i <= p.end && c <= p.channels && (i == p.end ==> c == 0)
  }

  /** The predictor of channel d before and after a value at channel c of band i. */
  lemma PrevNext(beta: real, v: seq<int>, lo: nat, i: nat, c: nat, d: nat, q: int, prev: real, next: real)
    requires lo <= i < |v| && prev == Kept(beta, Total(v, lo, Passed(i, c, d)))
    requires if d == c then q == v[i] && next == NextPrev(prev, q, beta) else next == prev
    ensures next == Kept(beta, Total(v, lo, Passed(i, c + 1, d)))
  {
    if d == c {
      KeptNext(beta, Total(v, lo, i), q);
    }
  }

  lemma StepPrev(p: Call, i: nat, c: nat, s: State, d: nat)
    requires InRange(p, i, c) && ValidState(p, s) && d < p.channels
    ensures Step(p, i, c, s).prev[d] == if d == c then NextPrev(s.prev[d], Choice(p, i, c, s), p.beta) else s.prev[d]
  {
  }

  lemma FollowPrev(p: Call, i: nat, c: nat, q: int, h: Heard, d: nat)
    requires InRange(p, i, c) && |h.levels| == |p.levels| && |h.prev| == 2 && d < p.channels
    ensures Follow(p, i, c, q, h).prev[d] == if d == c then NextPrev(h.prev[d], q, p.beta) else h.prev[d]
  {
  }

  /** The predictor of a channel is the sum so far, less its part beta. */
  ghost predicate Predicts(p: Call, v: seq<int>, prev: real, i: nat, c: nat, d: nat)
    requires |v| == p.end && Passed(i, c, d) <= p.end
  {
    prev == Kept(p.beta, Total(v, p.start, Passed(i, c, d)))
  }

  lemma {:induction false} PredictorIs(p: Call, i: nat, c: nat, d: nat, v: seq<int>, s: State)
    requires OnTheWay(p, i, c) && d < p.channels && v == Sent(p, d) && s == At(p, i, c)
    ensures Predicts(p, v, s.prev[d], i, c, d)
    decreases i, c
  {
    if c > 0 {
      var t := At(p, i, c - 1);
      PredictorIs(p, i, c - 1, d, v, t);
      AtNext(p, i, c - 1);
      StepPrev(p, i, c - 1, t, d);
      PrevNext(p.beta, v, p.start, i, c - 1, d, Choice(p, i, c - 1, t), t.prev[d], s.prev[d]);
    } else if i > p.start {
      AtNextBand(p, i - 1);
      PredictorIs(p, i - 1, p.channels, d, v, s);
    } else {
      NothingYet(p, v, s, d);
    }
  }

  lemma NothingYet(p: Call, v: seq<int>, s: State, d: nat)
    requires ValidCall(p) && |v| == p.end && d < p.channels && s == At(p, p.start, 0)
    ensures Predicts(p, v, s.prev[d], p.start, 0, d)
    ensures Predicts(p, v, HeardAt(p, p.start, 0).prev[d], p.start, 0, d)
  {
    assert Kept(p.beta, 0) == 0.0;
  }

  lemma {:induction false} HeardPredictorIs(p: Call, i: nat, c: nat, d: nat, v: seq<int>, h: Heard)
    requires OnTheWay(p, i, c) && d < p.channels && v == Heeded(p, d) && h == HeardAt(p, i, c)
    ensures Predicts(p, v, h.prev[d], i, c, d)
    decreases i, c
  {
    if c > 0 {
      var g, q := HeardAt(p, i, c - 1), Reception(p, i, c - 1, At(p, i, c - 1));
      HeardPredictorIs(p, i, c - 1, d, v, g);
      AtNext(p, i, c - 1);
      FollowPrev(p, i, c - 1, q, g, d);
      PrevNext(p.beta, v, p.start, i, c - 1, d, q, g.prev[d], h.prev[d]);
    } else if i > p.start {
      AtNextBand(p, i - 1);
      HeardPredictorIs(p, i - 1, p.channels, d, v, h);
    } else {
      NothingYet(p, v, At(p, p.start, 0), d);
    }
  }

  /** A band of a channel is as it was until its turn comes. */
  lemma {:induction false} Untouched(p: Call, i: nat, c: nat, j: nat, d: nat)
    requires OnTheWay(p, i, c) && InRange(p, j, d) && !Before(j, d, i, c)
    ensures At(p, i, c).levels[Slot(j, d, p.nb)] == p.levels[Slot(j, d, p.nb)]
    ensures HeardAt(p, i, c).levels[Slot(j, d, p.nb)] == p.levels[Slot(j, d, p.nb)]
    decreases i, c
  {
    if c > 0 {
      Untouched(p, i, c - 1, j, d);
      AtNext(p, i, c - 1);
      StepWrites(p, i, c - 1, At(p, i, c - 1), Slot(j, d, p.nb));
      FollowWrites(p, i, c - 1, Reception(p, i, c - 1, At(p, i, c - 1)), HeardAt(p, i, c - 1), Slot(j, d, p.nb));
    } else if i > p.start {
      Untouched(p, i - 1, p.channels, j, d);
      AtNextBand(p, i - 1);
    }
  }

  /** The decoder, too, writes every band of a channel once. */
  lemma {:induction false} HeardOnce(p: Call, j: nat, d: nat, i: nat, c: nat)
    requires InRange(p, j, d) && OnTheWay(p, i, c) && Before(j, d, i, c)
    ensures HeardAt(p, i, c).levels[Slot(j, d, p.nb)] == HeardAt(p, j, d + 1).levels[Slot(j, d, p.nb)]
    decreases i, c
  {
    if c == 0 {
      HeardOnce(p, j, d, i - 1, p.channels);
      AtNextBand(p, i - 1);
    } else if i > j || d < c - 1 {
      HeardOnce(p, j, d, i, c - 1);
      AtNext(p, i, c - 1);
      FollowWrites(p, i, c - 1, Reception(p, i, c - 1, At(p, i, c - 1)), HeardAt(p, i, c - 1), Slot(j, d, p.nb));
    }
  }

  /** What the last frame leaves of a band, given the coefficient; energies below -9 count as -9. */
  function Inherited(coef: real, was: real): real {
    coef * if was < -9.0 then -9.0 else was
  }

  /** An energy from what is inherited, the values of the bands below, and its own. */
  function Energy(coef: real, beta: real, was: real, v: seq<int>, lo: nat, i: nat): real
    requires i < |v|
  {
    Inherited(coef, was) + (1.0 - beta) * Total(v, lo, i) as real + v[i] as real
  }

  lemma LevelIs(was: real, coef: real, beta: real, v: seq<int>, lo: nat, i: nat, q: int, prev: real)
    requires i < |v| && q == v[i] && prev == Kept(beta, Total(v, lo, i))
    ensures LevelFor(was, prev, coef, q) == Energy(coef, beta, was, v, lo, i)
  {
  }

  lemma StepLevel(p: Call, i: nat, c: nat, s: State)
    requires InRange(p, i, c) && ValidState(p, s)
    ensures var k := Slot(i, c, p.nb);
      Step(p, i, c, s).levels[k] == LevelFor(s.levels[k], s.prev[c], p.coef, Choice(p, i, c, s))
  {
  }

  lemma FollowLevel(p: Call, i: nat, c: nat, q: int, h: Heard)
    requires InRange(p, i, c) && |h.levels| == |p.levels| && |h.prev| == 2
    ensures var k := Slot(i, c, p.nb); Follow(p, i, c, q, h).levels[k] == LevelFor(h.levels[k], h.prev[c], p.coef, q)
  {
  }

  /** The encoder's energies after a frame. */
  lemma EnergyIs(p: Call, j: nat, d: nat)
    requires InRange(p, j, d)
    ensures var k := Slot(j, d, p.nb);
      At(p, p.end, 0).levels[k] == Energy(p.coef, p.beta, p.levels[k], Sent(p, d), p.start, j)
  {
    var s, v := At(p, j, d), Sent(p, d);
    WrittenOnce(p, j, d, p.end, 0);
    Untouched(p, j, d, j, d);
    PredictorIs(p, j, d, d, v, s);
    AtNext(p, j, d);
    StepLevel(p, j, d, s);
    LevelIs(p.levels[Slot(j, d, p.nb)], p.coef, p.beta, v, p.start, j, Choice(p, j, d, s), s.prev[d]);
  }

  /** The decoder's, of the values it hears. */
  lemma HeardEnergyIs(p: Call, j: nat, d: nat)
    requires InRange(p, j, d)
    ensures var k := Slot(j, d, p.nb);
      HeardAt(p, p.end, 0).levels[k] == Energy(p.coef, p.beta, p.levels[k], Heeded(p, d), p.start, j)
  {
    var h, v, q := HeardAt(p, j, d), Heeded(p, d), Reception(p, j, d, At(p, j, d));
    HeardOnce(p, j, d, p.end, 0);
    Untouched(p, j, d, j, d);
    HeardPredictorIs(p, j, d, d, v, h);
    AtNext(p, j, d);
    FollowLevel(p, j, d, q, h);
    LevelIs(p.levels[Slot(j, d, p.nb)], p.coef, p.beta, v, p.start, j, q, h.prev[d]);
  }

  // ----- The value asked for

  /** A band that falls too fast is wished to fall to about the bound, unless that would raise it. */
  lemma FallLimited(x: real, was: real, prev: real, coef: real, maxDecay: real)
    ensures var bound := MaxReal(-28.0, was) - maxDecay;
      var w := Wanted(x, was, prev, coef, maxDecay);
      var level := LevelFor(was, prev, coef, w);
      if x >= bound || x - Predicted(was, prev, coef) >= -0.5 then x - 0.5 < level <= x + 0.5
      else x - 0.5 < level <= bound + 0.5 && (w == 0 || bound - 1.5 < level)
  {
  }

  /**
   What may be asked for at band i with so much room for its value and those to come, in a channel for low frequencies
   only or not: the first band is free, and three bits are put by for every value.
   */
  predicate Allowed(p: Call, i: nat, room: int, r: int)
    requires i <= p.end
  {
    var values := p.channels * (p.end - i);
    && (i != p.start && room < 3 * values + 24 ==> r <= 1) && (i != p.start && room < 3 * values + 16 ==> r >= -1)
    && (p.lfe && i >= 2 ==> r <= 0)
  }

  /** Of all that may be asked for, what is nearest to the wish is. */
  lemma NearestAllowed(p: Call, i: nat, c: nat, s: State, r: int)
    requires InRange(p, i, c) && ValidState(p, s) && Allowed(p, i, p.budget - Tell(s.code), r)
    ensures var wish, asked := Wish(p, i, c, s), Asked(p, i, c, s);
      Allowed(p, i, p.budget - Tell(s.code), asked) && Abs(asked - wish) <= Abs(r - wish)
  {
    ThreeEach(p.channels, p.end - i);
    NearestLimit(Wish(p, i, c, s), r, i == p.start, Room(p, s) - Reserve(p.channels, p.end - i), p.lfe && i >= 2);
  }

  lemma ThreeEach(channels: nat, left: nat)
    ensures Reserve(channels, left) == 3 * (channels * left)
  {
  }

  lemma NearestLimit(q: int, r: int, first: bool, bitsLeft: int, low: bool)
    requires (!first && bitsLeft < 24 ==> r <= 1) && (!first && bitsLeft < 16 ==> r >= -1) && (low ==> r <= 0)
    ensures var a := Limited(q, first, bitsLeft, low);
      && (!first && bitsLeft < 24 ==> a <= 1) && (!first && bitsLeft < 16 ==> a >= -1) && (low ==> a <= 0)
      && Abs(a - q) <= Abs(r - q)
  {
  }

  // ----- With and without the last frame

  /** An intra frame makes up for anything lost before: its energies are those for any old energies, on either side. */
  lemma IntraForgets(p: Call, lm: nat, j: nat, d: nat, was: real)
    requires InRange(p, j, d) && lm <= 3 && p.coef == Coef(lm, true)
    ensures var k := Slot(j, d, p.nb);
      && At(p, p.end, 0).levels[k] == Energy(p.coef, p.beta, was, Sent(p, d), p.start, j)
      && HeardAt(p, p.end, 0).levels[k] == Energy(p.coef, p.beta, was, Heeded(p, d), p.start, j)
  {
    EnergyIs(p, j, d);
    HeardEnergyIs(p, j, d);
    SameEnergy(p.coef, p.beta, p.levels[Slot(j, d, p.nb)], was, Sent(p, d), p.start, j);
    SameEnergy(p.coef, p.beta, p.levels[Slot(j, d, p.nb)], was, Heeded(p, d), p.start, j);
  }

  lemma SameEnergy(coef: real, beta: real, was: real, other: real, v: seq<int>, lo: nat, i: nat)
    requires coef == 0.0 && i < |v|
    ensures Energy(coef, beta, was, v, lo, i) == Energy(coef, beta, other, v, lo, i)
  {
  }

  /** The longer the frames, the less is predicted, from the last frame and from the bands below. */
  lemma LongerPredictsLess(lm: nat)
    requires lm < 3
    ensures 0.5 <= Coef(lm + 1, false) < Coef(lm, false) < 1.0
    ensures BETA_INTRA < Beta(lm + 1, false) < Beta(lm, false) < 1.0 && Beta(lm, true) == BETA_INTRA
  {
  }

  /** Without prediction from the last frame a value is taken to be farther from zero, in every band. */
  lemma InterIsNearer(lm: nat, i: nat)
    requires lm <= 3
    ensures Fs0(RowOf(lm, true), i) < Fs0(RowOf(lm, false), i)
    ensures DecayOf(RowOf(lm, true), i) > DecayOf(RowOf(lm, false), i)
  {
    InterBand(lm, Min(i, 20));
  }

  lemma InterBand(lm: nat, i: nat)
    requires lm <= 3 && i <= 20
    ensures RowOf(lm, true)[i].0 < RowOf(lm, false)[i].0 && RowOf(lm, true)[i].1 > RowOf(lm, false)[i].1
  {
  }

  /** The tables are in units of 1/256: of all frequencies for a probability, of one for a decay. */
  lemma ModelUnits(row: Row, i: nat)
    requires i <= 20
    ensures 256 * Fs0(row, i) == 32768 * row[i].0 && 256 * DecayOf(row, i) == 16384 * row[i].1
  {
  }
}
