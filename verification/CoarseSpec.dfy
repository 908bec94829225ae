/**
 Coarse energy (quant_bands.c; RFC 6716, section 4.3.2.1): what quant_coarse_energy codes, and what
 unquant_coarse_energy makes of it. Energies are real numbers; the recurrence is that of the floating-point
 build, without its rounding.
 */
module CoarseSpec {
  import opened Arith
  import opened RangeSpec
  import opened Flags
  import opened Laplace
  import opened LaplaceTail

  // ----- The probability model

  /** A probability of zero and a decay, in units of 1/256. */
  type Pair = p: (nat, nat) | 0 < p.0 <= 255 && p.1 <= 179 witness (1, 0)

  /** One pair for each of the first 20 bands, and one for all the others. */
  type Row = r: seq<Pair> | |r| == 21 witness seq<Pair>(21, _ => (1, 0))

  // By frame size in samples, for inter and for intra frames.
  const INTER_120: Row := [
    (72, 127), (65, 129), (66, 128), (65, 128), (64, 128), (62, 128), (64, 128), (64, 128), (92, 78), (92, 79),
    (92, 78), (90, 79), (116, 41), (115, 40), (114, 40), (132, 26), (132, 26), (145, 17), (161, 12), (176, 10),
    (177, 11)]
  const INTRA_120: Row := [
    (24, 179), (48, 138), (54, 135), (54, 132), (53, 134), (56, 133), (55, 132), (55, 132), (61, 114), (70, 96),
    (74, 88), (75, 88), (87, 74), (89, 66), (91, 67), (100, 59), (108, 50), (120, 40), (122, 37), (97, 43),
    (78, 50)]
  const INTER_240: Row := [
    (83, 78), (84, 81), (88, 75), (86, 74), (87, 71), (90, 73), (93, 74), (93, 74), (109, 40), (114, 36),
    (117, 34), (117, 34), (143, 17), (145, 18), (146, 19), (162, 12), (165, 10), (178, 7), (189, 6), (190, 8),
    (177, 9)]
  const INTRA_240: Row := [
    (23, 178), (54, 115), (63, 102), (66, 98), (69, 99), (74, 89), (71, 91), (73, 91), (78, 89), (86, 80),
    (92, 66), (93, 64), (102, 59), (103, 60), (104, 60), (117, 52), (123, 44), (138, 35), (133, 31), (97, 38),
    (77, 45)]
  const INTER_480: Row := [
    (61, 90), (93, 60), (105, 42), (107, 41), (110, 45), (116, 38), (113, 38), (112, 38), (124, 26), (132, 27),
    (136, 19), (140, 20), (155, 14), (159, 16), (158, 18), (170, 13), (177, 10), (187, 8), (192, 6), (175, 9),
    (159, 10)]
  const INTRA_480: Row := [
    (21, 178), (59, 110), (71, 86), (75, 85), (84, 83), (91, 66), (88, 73), (87, 72), (92, 75), (98, 72),
    (105, 58), (107, 54), (115, 52), (114, 55), (112, 56), (129, 51), (132, 40), (150, 33), (140, 29), (98, 35),
    (77, 42)]
  const INTER_960: Row := [
    (42, 121), (96, 66), (108, 43), (111, 40), (117, 44), (123, 32), (120, 36), (119, 33), (127, 33), (134, 34),
    (139, 21), (147, 23), (152, 20), (158, 25), (154, 26), (166, 21), (173, 16), (184, 13), (184, 10), (150, 13),
    (139, 15)]
  const INTRA_960: Row := [
    (22, 178), (63, 114), (74, 82), (84, 83), (92, 82), (103, 62), (96, 72), (96, 67), (101, 73), (107, 72),
    (113, 55), (118, 52), (125, 52), (118, 52), (117, 55), (135, 49), (137, 39), (157, 32), (145, 29), (97, 33),
    (77, 40)]

  /** e_prob_model[lm][intra] */
  function RowOf(lm: nat, intra: bool): Row
    requires lm <= 3
  {
    if lm == 0 then if intra then INTRA_120 else INTER_120
    else if lm == 1 then if intra then INTRA_240 else INTER_240
    else if lm == 2 then if intra then INTRA_480 else INTER_480
    else if intra then INTRA_960 else INTER_960
  }

  function Fs0(row: Row, i: nat): nat {
    row[Min(i, 20)].0 * 128
  }

  function DecayOf(row: Row, i: nat): (d: nat)
    ensures TailFits(Fs0(row, i), d)
  {
    TailAlwaysFits(Fs0(row, i), row[Min(i, 20)].1 * 64);
    row[Min(i, 20)].1 * 64
  }

  // ----- One value, with `room` bits left

  const SMALL_ENERGY_ICDF: seq<nat> := [2, 1, 0]

  function Zigzag(q: int): (k: nat)
    requires -1 <= q <= 1
    ensures k <= 2 && Unzigzag(k) == q
  {
    if q < 0 then -2 * q - 1 else 2 * q
  }

  function Unzigzag(k: nat): int {
    if k % 2 == 1 then -(k / 2) - 1 else k / 2
  }

  /** The value the encoder goes on with. */
  function Chosen(room: int, q: int, fs0: nat, decay: nat): int
    requires TailFits(fs0, decay)
  {
    if room >= 15 then Encoded(q, fs0, decay).value
    else if room >= 2 then Max(-1, Min(q, 1))
    else if room >= 1 then Min(0, q)
    else -1
  }

  function ChosenOps(room: int, q: int, fs0: nat, decay: nat): (ops: seq<Op>)
    requires TailFits(fs0, decay)
    ensures ValidOps(ops)
  {
    if room >= 15 then LaplaceOps(q, fs0, decay)
    else if room >= 2 then [IcdfOp(Zigzag(Max(-1, Min(q, 1))), SMALL_ENERGY_ICDF, 2)]
    else if room >= 1 then
      BitRoutinesAgree(q < 0, 1);
      [BitOp(q < 0, 1)]
    else []
  }

  /** The value the decoder goes on with: of a single bit it can only make 0 or -1. */
  function Received(room: int, q: int, fs0: nat, decay: nat): int
    requires TailFits(fs0, decay)
  {
    if room == 1 then if q < 0 then -1 else 0 else Chosen(room, q, fs0, decay)
  }

  lemma ReceivedChosen(room: int, q: int, fs0: nat, decay: nat)
    requires TailFits(fs0, decay)
    ensures Received(room, q, fs0, decay) == Chosen(room, q, fs0, decay) <==> !(room == 1 && q < -1)
  {
  }

  // ----- The recurrence

  const BETA_INTRA := 4915.0 / 32768.0
  const PRED_COEF: seq<real> := [29440.0 / 32768.0, 26112.0 / 32768.0, 21248.0 / 32768.0, 16384.0 / 32768.0]
  const BETA_COEF: seq<real> := [30147.0 / 32768.0, 22282.0 / 32768.0, 12124.0 / 32768.0, 6554.0 / 32768.0]

  function Coef(lm: nat, intra: bool): real
    requires lm <= 3
  {
    if intra then 0.0 else PRED_COEF[lm]
  }

  function Beta(lm: nat, intra: bool): real
    requires lm <= 3
  {
    if intra then BETA_INTRA else BETA_COEF[lm]
  }

  function MaxReal(x: real, y: real): real {
    if x >= y then x else y
  }

  /** Energy is predicted from the last frame, but from no less than -9, and from the bands below. */
  function Predicted(was: real, prev: real, coef: real): real {
    coef * MaxReal(-9.0, was) + prev
  }

  /** The nearest step to what the prediction misses, unless that lets the energy fall too fast. */
  function Wanted(x: real, was: real, prev: real, coef: real, maxDecay: real): int {
    var q := (0.5 + (x - Predicted(was, prev, coef))).Floor;
    var bound := MaxReal(-28.0, was) - maxDecay;
    if q < 0 && x < bound then Min(0, q + (bound - x).Floor) else q
  }

  /** Less is asked for when bits run short, and no increase above band 1 of a low-frequency channel. */
  function Limited(q: int, first: bool, bitsLeft: int, low: bool): int {
    var q1 := if !first && bitsLeft < 24 then Min(1, q) else q;
    var q2 := if !first && bitsLeft < 16 then Max(-1, q1) else q1;
    if low then Min(q2, 0) else q2
  }

  /** The energy that a value stands for. */
  function LevelFor(was: real, prev: real, coef: real, q: int): real {
    Predicted(was, prev, coef) + q as real
  }

  function NextPrev(prev: real, q: int, beta: real): real {
    prev + q as real - beta * q as real
  }

  /** The place of a channel's band in an array of `nb` bands per channel: i + c * nb, for two channels at most. */
  function Slot(i: nat, c: nat, nb: nat): nat {
    if c == 0 then i else i + nb
  }

  /** A call: the coder it starts from, the bands and channels, the prediction, and the encoder's arrays. */
  datatype Call = Call(code: Code, budget: int, start: nat, end: nat, nb: nat, channels: nat, row: Row, intra: bool,
                       coef: real, beta: real, maxDecay: real, lfe: bool,
                       bands: seq<real>, levels: seq<real>, error: seq<real>)

  /** The call that starts from a coder. */
  function CallAt(ops: seq<Op>, budget: int, start: nat, end: nat, nb: nat, channels: nat, lm: nat, intra: bool,
                  maxDecay: real, lfe: bool, bands: seq<real>, levels: seq<real>, error: seq<real>): Call
    requires ValidOps(ops) && lm <= 3
  {
    Call(After(ops), budget, start, end, nb, channels, RowOf(lm, intra), intra, Coef(lm, intra), Beta(lm, intra),
         maxDecay, lfe, bands, levels, error)
  }

  predicate ValidCall(p: Call) {
    && ValidCode(p.code) && p.start <= p.end <= p.nb && 1 <= p.channels <= 2
    && |p.bands| >= Slot(p.nb, p.channels - 1, p.nb) && |p.levels| >= Slot(p.nb, p.channels - 1, p.nb)
    && |p.error| == |p.levels|
    && (p.intra ==> FlagFits(p))
  }

  predicate FlagFits(p: Call)
    requires ValidCode(p.code)
  {
    Tell(p.code) + 3 <= p.budget
  }

  /** The encoder on the way: its coder, what it coded, the arrays, and how much it gave up for want of bits. */
  datatype State = State(code: Code, ops: seq<Op>, levels: seq<real>, prev: seq<real>, error: seq<real>, badness: nat)

  predicate ValidState(p: Call, s: State) {
    ValidCode(s.code) && |s.levels| == |p.levels| && |s.error| == |p.error| && |s.prev| == 2
  }

  function Begin(p: Call): (s: State)
    requires ValidCall(p)
    ensures ValidState(p, s)
  {
    State(if FlagFits(p) then PutBit(p.code, p.intra, 3) else p.code, if FlagFits(p) then [BitOp(p.intra, 3)] else [],
          p.levels, [0.0, 0.0], p.error, 0)
  }

  predicate InRange(p: Call, i: nat, c: nat) {
    ValidCall(p) && p.start <= i < p.end && c < p.channels
  }

  function Room(p: Call, s: State): int
    requires ValidState(p, s)
  {
    p.budget - Tell(s.code)
  }

  /** What the encoder would like to code for a band of a channel. */
  function Wish(p: Call, i: nat, c: nat, s: State): int
    requires InRange(p, i, c) && ValidState(p, s)
  {
    var k := Slot(i, c, p.nb);
    Wanted(p.bands[k], s.levels[k], s.prev[c], p.coef, p.maxDecay)
  }

  /** Three bits for every value of the bands left. */
  function Reserve(channels: nat, left: nat): nat {
    MulMonotone(3 * channels, 0, left);
    3 * channels * left
  }

  /** ... and what it asks for. */
  function Asked(p: Call, i: nat, c: nat, s: State): int
    requires InRange(p, i, c) && ValidState(p, s)
  {
    Limited(Wish(p, i, c, s), i == p.start, Room(p, s) - Reserve(p.channels, p.end - i), p.lfe && i >= 2)
  }

  function Choice(p: Call, i: nat, c: nat, s: State): int
    requires InRange(p, i, c) && ValidState(p, s)
  {
    Chosen(Room(p, s), Asked(p, i, c, s), Fs0(p.row, i), DecayOf(p.row, i))
  }

  function StepOps(p: Call, i: nat, c: nat, s: State): (ops: seq<Op>)
    requires InRange(p, i, c) && ValidState(p, s)
    ensures ValidOps(ops)
  {
    ChosenOps(Room(p, s), Asked(p, i, c, s), Fs0(p.row, i), DecayOf(p.row, i))
  }

  /** The state after a value. */
  function Moved(p: Call, i: nat, c: nat, q: int, lost: nat, ops: seq<Op>, s: State): (t: State)
    requires InRange(p, i, c) && ValidState(p, s) && ValidOps(ops)
    ensures ValidState(p, t)
  {
    var k := Slot(i, c, p.nb);
    var level := LevelFor(s.levels[k], s.prev[c], p.coef, q);
    State(PutAll(s.code, ops), s.ops + ops, s.levels[k := level], s.prev[c := NextPrev(s.prev[c], q, p.beta)],
          s.error[k := p.bands[k] - level], s.badness + lost)
  }

  function Step(p: Call, i: nat, c: nat, s: State): (t: State)
    requires InRange(p, i, c) && ValidState(p, s)
    ensures ValidState(p, t)
  {
    var q := Choice(p, i, c, s);
    Moved(p, i, c, q, Abs(Wish(p, i, c, s) - q), StepOps(p, i, c, s), s)
  }

  /** A step changes what belongs to its own band and channel. */
  lemma StepWrites(p: Call, i: nat, c: nat, s: State, k: nat)
    requires InRange(p, i, c) && ValidState(p, s) && k < |s.levels| && k != Slot(i, c, p.nb)
    ensures Step(p, i, c, s).levels[k] == s.levels[k] && Step(p, i, c, s).error[k] == s.error[k]
  {
  }

  lemma FollowWrites(p: Call, i: nat, c: nat, q: int, h: Heard, k: nat)
    requires InRange(p, i, c) && |h.levels| == |p.levels| && |h.prev| == 2
    requires k < |h.levels| && k != Slot(i, c, p.nb)
    ensures Follow(p, i, c, q, h).levels[k] == h.levels[k]
  {
  }

  /** Given the same value, the sides make the same of it; given different ones, they part. */
  lemma FollowsStep(p: Call, i: nat, c: nat, q: int, s: State, h: Heard)
    requires InRange(p, i, c) && ValidState(p, s) && h == Heard(s.levels, s.prev)
    ensures var t, g, k := Step(p, i, c, s), Follow(p, i, c, q, h), Slot(i, c, p.nb);
      if q == Choice(p, i, c, s) then g == Heard(t.levels, t.prev) else g.levels[k] != t.levels[k]
  {
  }

  /** The encoder at channel c of band i. */
  function At(p: Call, i: nat, c: nat): (s: State)
    requires ValidCall(p) && p.start <= i <= p.end && c <= p.channels && (i == p.end ==> c == 0)
    ensures ValidState(p, s)
    decreases i, c
  {
    if c > 0 then Step(p, i, c - 1, At(p, i, c - 1))
    else if i == p.start then Begin(p)
    else At(p, i - 1, p.channels)
  }

  lemma AtNext(p: Call, i: nat, c: nat)
    requires InRange(p, i, c)
    ensures At(p, i, c + 1) == Step(p, i, c, At(p, i, c))
    ensures HeardAt(p, i, c + 1) == Follow(p, i, c, Reception(p, i, c, At(p, i, c)), HeardAt(p, i, c))
  {
  }

  lemma AtNextBand(p: Call, i: nat)
    requires ValidCall(p) && p.start <= i < p.end
    ensures At(p, i + 1, 0) == At(p, i, p.channels) && HeardAt(p, i + 1, 0) == HeardAt(p, i, p.channels)
  {
  }

  /** Everything the call codes. */
  function Ops(p: Call): seq<Op>
    requires ValidCall(p)
  {
    At(p, p.end, 0).ops
  }

  lemma {:induction false} OpsGrow(p: Call, i: nat, c: nat)
    requires ValidCall(p) && p.start <= i <= p.end && c <= p.channels && (i == p.end ==> c == 0)
    ensures At(p, i, c).ops <= Ops(p)
    decreases p.end - i, p.channels - c
  {
    if i < p.end && c < p.channels {
      OpsGrow(p, i, c + 1);
      AtNext(p, i, c);
    } else if i < p.end {
      OpsGrow(p, i + 1, 0);
      AtNextBand(p, i);
    }
  }

  // ----- The decoder

  /** What the decoder keeps. */
  datatype Heard = Heard(levels: seq<real>, prev: seq<real>)

  function Reception(p: Call, i: nat, c: nat, s: State): int
    requires InRange(p, i, c) && ValidState(p, s)
  {
    Received(Room(p, s), Asked(p, i, c, s), Fs0(p.row, i), DecayOf(p.row, i))
  }

  function Follow(p: Call, i: nat, c: nat, q: int, h: Heard): (g: Heard)
    requires InRange(p, i, c) && |h.levels| == |p.levels| && |h.prev| == 2
    ensures |g.levels| == |p.levels| && |g.prev| == 2
  {
    var k := Slot(i, c, p.nb);
    Heard(h.levels[k := LevelFor(h.levels[k], h.prev[c], p.coef, q)],
          h.prev[c := NextPrev(h.prev[c], q, p.beta)])
  }

  /** The decoder at channel c of band i. */
  function HeardAt(p: Call, i: nat, c: nat): (h: Heard)
    requires ValidCall(p) && p.start <= i <= p.end && c <= p.channels && (i == p.end ==> c == 0)
    ensures |h.levels| == |p.levels| && |h.prev| == 2
    decreases i, c
  {
    if c > 0 then Follow(p, i, c - 1, Reception(p, i, c - 1, At(p, i, c - 1)), HeardAt(p, i, c - 1))
    else if i == p.start then Heard(p.levels, [0.0, 0.0])
    else HeardAt(p, i - 1, p.channels)
  }

  // ----- What both sides agree on

  /** One bit is left, for a drop by more than one step. */
  predicate Lost(p: Call, i: nat, c: nat)
    requires InRange(p, i, c)
  {
    Room(p, At(p, i, c)) == 1 && Asked(p, i, c, At(p, i, c)) < -1
  }

  /** (j, d) comes before (i, c). */
  predicate Before(j: nat, d: nat, i: nat, c: nat) {
    j < i || (j == i && d < c)
  }

  ghost predicate NoneLost(p: Call, i: nat, c: nat)
    requires ValidCall(p)
  {
    forall j, d :: InRange(p, j, d) && Before(j, d, i, c) ==> !Lost(p, j, d)
  }

  ghost predicate Sized(p: Call, s: State, h: Heard) {
    ValidCall(p) && ValidState(p, s) && |h.levels| == |p.levels| && |h.prev| == 2
  }

  /** The two sides have different energies for a band of a channel they have been through. */
  ghost predicate Differ(p: Call, i: nat, c: nat, s: State, h: Heard, j: nat, d: nat)
    requires Sized(p, s, h)
  {
    InRange(p, j, d) && Before(j, d, i, c) && h.levels[Slot(j, d, p.nb)] != s.levels[Slot(j, d, p.nb)]
  }

  /** As long as nothing is lost both sides have the same; what is lost is never made up for. */
  ghost predicate Agreed(p: Call, i: nat, c: nat, s: State, h: Heard) {
    && Sized(p, s, h)
    && if NoneLost(p, i, c) then h == Heard(s.levels, s.prev) else exists j, d :: Differ(p, i, c, s, h, j, d)
  }

  lemma {:induction false} Agreement(p: Call, i: nat, c: nat)
    requires ValidCall(p) && p.start <= i <= p.end && c <= p.channels && (i == p.end ==> c == 0)
    ensures Agreed(p, i, c, At(p, i, c), HeardAt(p, i, c))
    decreases i, c
  {
    if c > 0 {
      var s, h := At(p, i, c - 1), HeardAt(p, i, c - 1);
      Agreement(p, i, c - 1);
      AtNext(p, i, c - 1);
      AgreementStep(p, i, c - 1, s, h);
    } else if i > p.start {
      Agreement(p, i - 1, p.channels);
      AtNextBand(p, i - 1);
      AgreementBand(p, i, At(p, i, 0), HeardAt(p, i, 0));
    } else {
      assert NoneLost(p, p.start, 0);
    }
  }

  lemma AgreementBand(p: Call, i: nat, s: State, h: Heard)
    requires ValidCall(p) && p.start < i <= p.end && Agreed(p, i - 1, p.channels, s, h)
    ensures Agreed(p, i, 0, s, h)
  {
    if NoneLost(p, i - 1, p.channels) {
      assert NoneLost(p, i, 0);
    } else {
      var j, d :| Differ(p, i - 1, p.channels, s, h, j, d);
      assert Differ(p, i, 0, s, h, j, d);
    }
  }

  lemma AgreementStep(p: Call, i: nat, c: nat, s: State, h: Heard)
    requires InRange(p, i, c) && s == At(p, i, c) && Agreed(p, i, c, s, h)
    ensures Agreed(p, i, c + 1, Step(p, i, c, s), Follow(p, i, c, Reception(p, i, c, s), h))
  {
    if NoneLost(p, i, c) {
      Together(p, i, c, s, h);
    } else {
      Apart(p, i, c, s, h, Step(p, i, c, s), Reception(p, i, c, s));
    }
  }

  /** Sides that agreed agree after a value that is not lost. */
  lemma Together(p: Call, i: nat, c: nat, s: State, h: Heard)
    requires InRange(p, i, c) && s == At(p, i, c) && Agreed(p, i, c, s, h) && NoneLost(p, i, c)
    ensures Agreed(p, i, c + 1, Step(p, i, c, s), Follow(p, i, c, Reception(p, i, c, s), h))
  {
    ReceivedChosen(Room(p, s), Asked(p, i, c, s), Fs0(p.row, i), DecayOf(p.row, i));
    FollowsStep(p, i, c, Reception(p, i, c, s), s, h);
    Parting(p, i, c, Step(p, i, c, s), Follow(p, i, c, Reception(p, i, c, s), h));
  }

  lemma Parting(p: Call, i: nat, c: nat, t: State, g: Heard)
    requires InRange(p, i, c) && NoneLost(p, i, c) && Sized(p, t, g)
    requires if Lost(p, i, c) then g.levels[Slot(i, c, p.nb)] != t.levels[Slot(i, c, p.nb)]
             else g == Heard(t.levels, t.prev)
    ensures Agreed(p, i, c + 1, t, g)
  {
    if Lost(p, i, c) {
      assert Differ(p, i, c + 1, t, g, i, c);
    } else {
      assert NoneLost(p, i, c + 1);
    }
  }

  /** Sides that differ go on to differ. */
  lemma Apart(p: Call, i: nat, c: nat, s: State, h: Heard, t: State, q: int)
    requires InRange(p, i, c) && Agreed(p, i, c, s, h) && !NoneLost(p, i, c) && t == Step(p, i, c, s)
    ensures Agreed(p, i, c + 1, t, Follow(p, i, c, q, h))
  {
    var j, d :| Differ(p, i, c, s, h, j, d);
    StepWrites(p, i, c, s, Slot(j, d, p.nb));
    FollowWrites(p, i, c, q, h, Slot(j, d, p.nb));
    assert Differ(p, i, c + 1, t, Follow(p, i, c, q, h), j, d);
  }

  lemma LimitedAbove(q: int, bitsLeft: int, low: bool)
    requires bitsLeft < 16
    ensures Limited(q, false, bitsLeft, low) >= -1
  {
  }

  /** No more than one step down is asked for when bits are short, but in the first band. */
  lemma LostAtStart(p: Call, i: nat, c: nat)
    requires InRange(p, i, c) && Lost(p, i, c)
    ensures i == p.start
  {
    var s := At(p, i, c);
    LimitedAbove(Wish(p, i, c, s), Room(p, s) - Reserve(p.channels, p.end - i), p.lfe && i >= 2);
  }

  /**
   After a frame the decoder has the encoder's energies if and only if no channel's first band had just one bit left for
   a drop by more than one step; then it has its predictor as well.
   */
  lemma EnergiesAgree(p: Call)
    requires ValidCall(p)
    ensures HeardAt(p, p.end, 0).levels == At(p, p.end, 0).levels <==>
      forall c: nat :: InRange(p, p.start, c) ==> !Lost(p, p.start, c)
    ensures HeardAt(p, p.end, 0).levels == At(p, p.end, 0).levels ==> HeardAt(p, p.end, 0).prev == At(p, p.end, 0).prev
  {
    Agreement(p, p.end, 0);
    forall j, d | InRange(p, j, d) && Lost(p, j, d) ensures j == p.start {
      LostAtStart(p, j, d);
    }
  }

  // ----- What the encoder keeps

  /** What a state has of a band of a channel is what a later one has. */
  ghost predicate Kept(p: Call, j: nat, d: nat, s: State, t: State) {
    && InRange(p, j, d) && ValidState(p, s) && ValidState(p, t) && s.badness <= t.badness
    && s.levels[Slot(j, d, p.nb)] == t.levels[Slot(j, d, p.nb)]
    && s.error[Slot(j, d, p.nb)] == t.error[Slot(j, d, p.nb)]
  }

  /** Every band of a channel is written once. */
  lemma {:induction false} WrittenOnce(p: Call, j: nat, d: nat, i: nat, c: nat)
    requires InRange(p, j, d) && i <= p.end && c <= p.channels && (i == p.end ==> c == 0) && Before(j, d, i, c)
    ensures Kept(p, j, d, At(p, j, d + 1), At(p, i, c))
    decreases i, c
  {
    if c == 0 {
      WrittenOnce(p, j, d, i - 1, p.channels);
      AtNextBand(p, i - 1);
    } else if i > j || d < c - 1 {
      WrittenOnce(p, j, d, i, c - 1);
      AtNext(p, i, c - 1);
      KeptNext(p, j, d, At(p, j, d + 1), i, c - 1, At(p, i, c - 1));
    }
  }

  lemma KeptNext(p: Call, j: nat, d: nat, s: State, i: nat, c: nat, t: State)
    requires InRange(p, i, c) && Kept(p, j, d, s, t) && (i != j || c != d)
    ensures Kept(p, j, d, s, Step(p, i, c, t))
  {
    StepWrites(p, i, c, t, Slot(j, d, p.nb));
  }

  /** What is not in a coded energy is in its error. */
  lemma Accounted(p: Call, j: nat, d: nat)
    requires InRange(p, j, d)
    ensures var s, k := At(p, p.end, 0), Slot(j, d, p.nb); s.levels[k] + s.error[k] == p.bands[k]
  {
    WrittenOnce(p, j, d, p.end, 0);
  }

  /** A band whose energy need not be kept from falling too fast. */
  predicate Steady(p: Call, j: nat, d: nat)
    requires InRange(p, j, d)
  {
    var s, k := At(p, j, d), Slot(j, d, p.nb);
    p.bands[k] >= MaxReal(-28.0, s.levels[k]) - p.maxDecay
  }

  /** The value wished for is coded. */
  predicate Granted(p: Call, j: nat, d: nat)
    requires InRange(p, j, d)
  {
    Choice(p, j, d, At(p, j, d)) == Wish(p, j, d, At(p, j, d))
  }

  /** A band whose wish was granted has an error of half a step at most. */
  lemma HalfStep(p: Call, j: nat, d: nat)
    requires InRange(p, j, d) && Steady(p, j, d) && Granted(p, j, d)
    ensures -0.5 <= At(p, p.end, 0).error[Slot(j, d, p.nb)] < 0.5
  {
    WrittenOnce(p, j, d, p.end, 0);
  }

  /** Badness counts what is given up: without any, every wish was granted. */
  lemma NothingGivenUp(p: Call, j: nat, d: nat)
    requires InRange(p, j, d) && At(p, p.end, 0).badness == 0
    ensures Granted(p, j, d)
  {
    WrittenOnce(p, j, d, p.end, 0);
  }

  // ----- The budget

  /** A value costs no more than the bits that are left, if any. */
  lemma ChoiceCosts(code: Code, room: int, q: int, fs0: nat, decay: nat)
    requires ValidCode(code) && TailFits(fs0, decay)
    ensures Tell(PutAll(code, ChosenOps(room, q, fs0, decay))) <= Tell(code) + Max(room, 0)
  {
    var ops := ChosenOps(room, q, fs0, decay);
    if room >= 1 {
      assert PutAll(code, ops) == Put(code, ops[0]) by {
        assert ops[1..] == [];
      }
      CutCosts(code, ops[0], if room >= 15 then 15 else if room >= 2 then 2 else 1);
    }
  }

  predicate Affordable(p: Call, s: State) {
    ValidState(p, s) && Tell(s.code) <= p.budget
  }

  lemma StepTells(p: Call, i: nat, c: nat, s: State)
    requires InRange(p, i, c) && Affordable(p, s)
    ensures Affordable(p, Step(p, i, c, s))
  {
    ChoiceCosts(s.code, Room(p, s), Asked(p, i, c, s), Fs0(p.row, i), DecayOf(p.row, i));
  }

  lemma BeginTells(p: Call)
    requires ValidCall(p) && Tell(p.code) <= p.budget
    ensures Affordable(p, Begin(p))
  {
    BitCosts(p.code, p.intra, 3);
  }

  /** Coding energies never exceeds the budget. */
  lemma {:induction false} BudgetKept(p: Call, i: nat, c: nat)
    requires ValidCall(p) && p.start <= i <= p.end && c <= p.channels && (i == p.end ==> c == 0)
    requires Tell(p.code) <= p.budget
    ensures Affordable(p, At(p, i, c))
    decreases i, c
  {
    if c > 0 {
      BudgetKept(p, i, c - 1);
      StepTells(p, i, c - 1, At(p, i, c - 1));
    } else if i > p.start {
      BudgetKept(p, i - 1, p.channels);
    } else {
      BeginTells(p);
    }
  }

  /** One band, in a frame of two bytes of which all but one bit are used, that falls by five steps. */
  function FallingCall(lm: nat): (p: Call)
    requires lm <= 3
    ensures ValidCall(p)
  {
    BitRoutinesAgree(true, 14);
    CallAt([BitOp(true, 14)], 16, 0, 1, 1, 1, lm, false, 16.0, false, [-5.0], [0.0], [0.0])
  }

  lemma FallingTells(lm: nat, logp: nat, p: Call)
    requires lm <= 3 && logp == 14 && p == FallingCall(lm)
    ensures Tell(p.code) == 15
  {
    AfterBit([], true, logp);
    assert [] + [BitOp(true, logp)] == [BitOp(true, logp)];
    BitCosts(INIT, true, logp);
    InitTells(INIT);
  }

  lemma InitTells(c: Code)
    requires c == INIT
    ensures Tell(c) == 1
  {
    RangeBits(c.rng);
    Pow2Bytes();
    IlogUnique(c.rng, 32);
  }

  /** The encoder takes the fall to be coded; the decoder makes it a fall by one step. */
  lemma FallLost(lm: nat)
    requires lm <= 3
    ensures var p := FallingCall(lm);
      p.levels == [0.0] && At(p, p.end, 0).levels == [-5.0] && HeardAt(p, p.end, 0).levels == [-1.0]
  {
    var p := FallingCall(lm);
    FallingTells(lm, 14, p);
    FallMissed(p);
  }

  lemma FallMissed(p: Call)
    requires ValidCall(p) && p.start == 0 && p.end == p.nb == p.channels == 1 && p.budget == Tell(p.code) + 1
    requires !p.lfe && p.maxDecay == 16.0 && p.bands == [-5.0] && p.levels == [0.0] && p.error == [0.0]
    ensures At(p, p.end, 0).levels == [-5.0] && HeardAt(p, p.end, 0).levels == [-1.0]
  {
    var s := Begin(p);
    assert Room(p, s) == 1;
    assert Predicted(0.0, 0.0, p.coef) == 0.0;
    assert Wish(p, 0, 0, s) == -5;
    assert At(p, 0, 1) == Step(p, 0, 0, s);
  }
}
