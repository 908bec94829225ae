/** quant_coarse_energy_impl and unquant_coarse_energy (quant_bands.c), proved against `CoarseSpec`. */
module CoarseEnergy {
  import opened Arith
  import opened RangeSpec
  import opened RangeEncoder
  import opened RangeDecoder
  import opened Flags
  import opened Laplace
  import opened CoarseSpec

  /** Codes a value as far as the bits that are left allow, and returns the value to go on with. */
  method EncodeValue(enc: Encoder, room: int, q: int, fs0: nat, decay: nat) returns (v: int)
    requires enc.Valid() && TailFits(fs0, decay)
    modifies enc, enc.buf
    ensures enc.Valid() && enc.storage == old(enc.storage)
    ensures v == Chosen(room, q, fs0, decay) && enc.trace == old(enc.trace) + ChosenOps(room, q, fs0, decay)
  {
    if room >= 15 {
      v := LaplaceEncode(enc, q, fs0, decay);
    } else if room >= 2 {
      v := Max(-1, Min(q, 1));
      enc.Icdf(Zigzag(v), SMALL_ENERGY_ICDF, 2);
    } else if room >= 1 {
      v := Min(0, q);
      enc.BitLogp(v != 0, 1);
    } else {
      v := -1;
    }
  }

  /** Decodes a value; q is what the encoder asked for. */
  method DecodeValue(dec: Decoder, room: int, fs0: nat, decay: nat, ghost q: int) returns (v: int)
    requires dec.Valid() && TailFits(fs0, decay)
    modifies dec
    ensures dec.Valid() && dec.error == old(dec.error)
    ensures old(dec.trace) + ChosenOps(room, q, fs0, decay) <= dec.script ==>
      v == Received(room, q, fs0, decay) && dec.trace == old(dec.trace) + ChosenOps(room, q, fs0, decay)
  {
    if room >= 15 {
      v := LaplaceDecode(dec, fs0, decay, q);
    } else if room >= 2 {
      var k := dec.Icdf(SMALL_ENERGY_ICDF, 2);
      v := Unzigzag(k);
    } else if room >= 1 {
      var bit := dec.BitLogp(1);
      v := if bit then -1 else 0;
    } else {
      v := -1;
    }
  }

  /** Coding more operations leads to the code after them. */
  lemma PointNext(t0: seq<Op>, ops: seq<Op>, code: Code, done: seq<Op>, more: seq<Op>)
    requires ValidCode(code) && AtPoint(t0, ops, code, done) && ValidOps(more)
    ensures AtPoint(t0, ops + more, PutAll(code, more), done + more)
  {
    Regroup(t0, done, more);
    PutAllAppend(INIT, ops, more);
  }

  // ----- The encoder

  /** The parts of a band of a channel that a step reads. */
  ghost predicate Reads(p: Call, i: nat, c: nat, s: State, x: real, was: real, prev: real) {
    && InRange(p, i, c) && ValidState(p, s)
    && x == p.bands[Slot(i, c, p.nb)] && was == s.levels[Slot(i, c, p.nb)] && prev == s.prev[c]
  }

  /** One band of one channel: the value coded for it, and how far it is from the one wished for. */
  method QuantValue(enc: Encoder, x: real, was: real, prev: real, coef: real, maxDecay: real, budget: int, first: bool,
                    reserve: int, low: bool, fs0: nat, decay: nat,
                    ghost p: Call, ghost i: nat, ghost c: nat, ghost s: State, ghost t0: seq<Op>)
    returns (q: int, lost: nat)
    requires enc.Valid() && Reads(p, i, c, s, x, was, prev) && AtPoint(t0, enc.trace, s.code, s.ops)
    requires coef == p.coef && maxDecay == p.maxDecay && budget == p.budget
    requires first == (i == p.start) && reserve == Reserve(p.channels, p.end - i) && low == (p.lfe && i >= 2)
    requires fs0 == Fs0(p.row, i) && decay == DecayOf(p.row, i)
    modifies enc, enc.buf
    ensures enc.Valid() && enc.storage == old(enc.storage)
    ensures q == Choice(p, i, c, s) && lost == Abs(Wish(p, i, c, s) - q)
    ensures AtPoint(t0, enc.trace, PutAll(s.code, StepOps(p, i, c, s)), s.ops + StepOps(p, i, c, s))
  {
    EncoderTells(enc);
    var room := budget - enc.Tell();
    var qi, asked := AskValue(x, was, prev, coef, maxDecay, first, room - reserve, low);
    AskIs(p, i, c, s, room, qi, asked);
    q := EncodeNext(enc, room, asked, fs0, decay, t0, s.code, s.ops);
    lost := Abs(qi - q);
  }

  /** Codes a value after what was coded in the call. */
  method EncodeNext(enc: Encoder, room: int, q: int, fs0: nat, decay: nat, ghost t0: seq<Op>, ghost code: Code,
                    ghost done: seq<Op>) returns (v: int)
    requires enc.Valid() && TailFits(fs0, decay) && ValidCode(code) && AtPoint(t0, enc.trace, code, done)
    modifies enc, enc.buf
    ensures enc.Valid() && enc.storage == old(enc.storage) && v == Chosen(room, q, fs0, decay)
    ensures var ops := ChosenOps(room, q, fs0, decay); AtPoint(t0, enc.trace, PutAll(code, ops), done + ops)
  {
    PointNext(t0, enc.trace, code, done, ChosenOps(room, q, fs0, decay));
    v := EncodeValue(enc, room, q, fs0, decay);
  }

  /** The parts make up what is asked for, and what is coded. */
  lemma AskIs(p: Call, i: nat, c: nat, s: State, room: int, qi: int, asked: int)
    requires InRange(p, i, c) && ValidState(p, s) && room == Room(p, s)
    requires qi == Wanted(p.bands[Slot(i, c, p.nb)], s.levels[Slot(i, c, p.nb)], s.prev[c], p.coef, p.maxDecay)
    requires asked == Limited(qi, i == p.start, room - Reserve(p.channels, p.end - i), p.lfe && i >= 2)
    ensures qi == Wish(p, i, c, s) && asked == Asked(p, i, c, s)
    ensures Choice(p, i, c, s) == Chosen(room, asked, Fs0(p.row, i), DecayOf(p.row, i))
    ensures StepOps(p, i, c, s) == ChosenOps(room, asked, Fs0(p.row, i), DecayOf(p.row, i))
  {
  }

  /** The value wished for, and the one asked for. */
  method AskValue(x: real, was: real, prev: real, coef: real, maxDecay: real, first: bool, bitsLeft: int, low: bool)
    returns (qi: int, asked: int)
    ensures qi == Wanted(x, was, prev, coef, maxDecay) && asked == Limited(qi, first, bitsLeft, low)
  {
    qi := WishValue(x, was, prev, coef, maxDecay);
    asked := LimitValue(qi, first, bitsLeft, low);
  }

  method WishValue(x: real, was: real, prev: real, coef: real, maxDecay: real) returns (qi: int)
    ensures qi == Wanted(x, was, prev, coef, maxDecay)
  {
    var oldE := MaxReal(-9.0, was);
    var f := x - coef * oldE - prev;
    qi := (0.5 + f).Floor;
    var decayBound := MaxReal(-28.0, was) - maxDecay;
    assert x - Predicted(was, prev, coef) == f;
    if qi < 0 && x < decayBound {
      qi := qi + (decayBound - x).Floor;
      if qi > 0 {
        qi := 0;
      }
    }
  }

  method LimitValue(q: int, first: bool, bitsLeft: int, low: bool) returns (r: int)
    ensures r == Limited(q, first, bitsLeft, low)
  {
    r := q;
    if !first && bitsLeft < 30 {
      if bitsLeft < 24 {
        r := Min(1, r);
      }
      if bitsLeft < 16 {
        r := Max(-1, r);
      }
    }
    if low {
      r := Min(r, 0);
    }
  }

  /** The coder and the encoder's arrays in a state. */
  ghost predicate Holds(s: State, t0: seq<Op>, ops: seq<Op>, levels: seq<real>, error: seq<real>, prev: seq<real>,
                        badness: int) {
    && AtPoint(t0, ops, s.code, s.ops)
    && levels == s.levels && error == s.error && prev == s.prev && badness == s.badness
  }

  /** What is written for a value. */
  method Outcome(x: real, was: real, prev: real, coef: real, beta: real, q: int)
    returns (level: real, err: real, prev': real)
    ensures level == LevelFor(was, prev, coef, q) && err == x - level && prev' == NextPrev(prev, q, beta)
  {
    var oldE := MaxReal(-9.0, was);
    var f := x - coef * oldE - prev;
    err := f - q as real;
    level := coef * oldE + prev + q as real;
    prev' := prev + q as real - beta * q as real;
  }

  method Write(levels: array<real>, error: array<real>, k: nat, level: real, err: real)
    requires levels != error && k < levels.Length && k < error.Length
    modifies levels, error
    ensures levels[..] == old(levels[..])[k := level] && error[..] == old(error[..])[k := err]
  {
    error[k] := err;
    levels[k] := level;
  }

  /** A step, from what is written for its value. */
  lemma StepIs(p: Call, i: nat, c: nat, s: State, q: int, lost: nat, t0: seq<Op>, ops: seq<Op>, level: real, next: real)
    requires InRange(p, i, c) && ValidState(p, s) && q == Choice(p, i, c, s) && lost == Abs(Wish(p, i, c, s) - q)
    requires AtPoint(t0, ops, PutAll(s.code, StepOps(p, i, c, s)), s.ops + StepOps(p, i, c, s))
    requires level == LevelFor(s.levels[Slot(i, c, p.nb)], s.prev[c], p.coef, q)
    requires next == NextPrev(s.prev[c], q, p.beta)
    ensures var k := Slot(i, c, p.nb);
      Holds(Step(p, i, c, s), t0, ops, s.levels[k := level], s.error[k := p.bands[k] - level], s.prev[c := next],
            s.badness + lost)
  {
  }

  /** The arguments that both sides are given. */
  ghost predicate Given(p: Call, nb: nat, channels: nat, row: Row, coef: real, beta: real) {
    && ValidCall(p) && nb == p.nb && channels == p.channels && row == p.row && coef == p.coef && beta == p.beta
  }

  /** The encoder's arguments. */
  datatype Args = Args(start: nat, end: nat, nb: nat, channels: nat, bands: seq<real>, row: Row, coef: real, beta: real,
                       maxDecay: real, budget: int, lfe: bool)

  ghost function ArgsOf(p: Call): Args {
    Args(p.start, p.end, p.nb, p.channels, p.bands, p.row, p.coef, p.beta, p.maxDecay, p.budget, p.lfe)
  }

  /** One band of one channel, with its entries in the arrays. */
  method QuantEntry(enc: Encoder, a: Args, i: nat, c: nat, levels: array<real>, error: array<real>, prev: seq<real>,
                    badness: nat, ghost p: Call, ghost t0: seq<Op>, ghost s: State)
    returns (prev': seq<real>, badness': nat)
    requires enc.Valid() && a == ArgsOf(p) && InRange(p, i, c) && ValidState(p, s) && levels != error
    requires Holds(s, t0, enc.trace, levels[..], error[..], prev, badness)
    modifies enc, enc.buf, levels, error
    ensures enc.Valid() && enc.storage == old(enc.storage)
    ensures Holds(Step(p, i, c, s), t0, enc.trace, levels[..], error[..], prev', badness')
  {
    var k := Slot(i, c, a.nb);
    var q, lost := QuantValue(enc, a.bands[k], levels[k], prev[c], a.coef, a.maxDecay, a.budget, i == a.start,
                              Reserve(a.channels, a.end - i), a.lfe && i >= 2,
                              Fs0(a.row, i), DecayOf(a.row, i), p, i, c, s, t0);
    var level, err, next := Outcome(a.bands[k], levels[k], prev[c], a.coef, a.beta, q);
    Write(levels, error, k, level, err);
    StepIs(p, i, c, s, q, lost, t0, enc.trace, level, next);
    badness' := badness + lost;
    prev' := prev[c := next];
  }

  /** The states before every band, and after the last. */
  ghost predicate Course(p: Call, course: seq<State>) {
    && ValidCall(p) && |course| == p.end + 1
    && forall i: nat {:trigger At(p, i, 0)} :: p.start <= i <= p.end ==> course[i] == At(p, i, 0)
  }

  lemma RunCourse(p: Call) returns (course: seq<State>)
    requires ValidCall(p)
    ensures Course(p, course) && course[p.start] == Begin(p)
  {
    course := seq(p.end + 1, i requires 0 <= i <= p.end => At(p, Max(i, p.start), 0));
  }

  /** One band of all channels. */
  method QuantChannels(enc: Encoder, a: Args, i: nat, levels: array<real>, error: array<real>, prev: seq<real>,
                       badness: nat, ghost p: Call, ghost t0: seq<Op>, ghost course: seq<State>)
    returns (prev': seq<real>, badness': nat)
    requires enc.Valid() && levels != error && Course(p, course) && a == ArgsOf(p) && p.start <= i < p.end
    requires Holds(course[i], t0, enc.trace, levels[..], error[..], prev, badness)
    modifies enc, enc.buf, levels, error
    ensures enc.Valid() && enc.storage == old(enc.storage)
    ensures Holds(course[i + 1], t0, enc.trace, levels[..], error[..], prev', badness')
  {
    prev', badness' := prev, badness;
    ghost var s := At(p, i, 0);
    for c: nat := 0 to a.channels
      invariant enc.Valid() && enc.storage == old(enc.storage) && ValidState(p, s) && s == At(p, i, c)
      invariant Holds(s, t0, enc.trace, levels[..], error[..], prev', badness')
    {
      prev', badness' := QuantEntry(enc, a, i, c, levels, error, prev', badness', p, t0, s);
      AtNext(p, i, c);
      s := Step(p, i, c, s);
    }
    AtNextBand(p, i);
  }

  method QuantBands(enc: Encoder, a: Args, levels: array<real>, error: array<real>, ghost p: Call, ghost t0: seq<Op>,
                    ghost course: seq<State>) returns (prev: seq<real>, badness: nat)
    requires enc.Valid() && levels != error && Course(p, course) && a == ArgsOf(p)
    requires Holds(course[a.start], t0, enc.trace, levels[..], error[..], [0.0, 0.0], 0)
    modifies enc, enc.buf, levels, error
    ensures enc.Valid() && enc.storage == old(enc.storage)
    ensures Holds(course[a.end], t0, enc.trace, levels[..], error[..], prev, badness)
  {
    prev, badness := [0.0, 0.0], 0;
    for i := a.start to a.end
      invariant enc.Valid() && enc.storage == old(enc.storage)
      invariant Holds(course[i], t0, enc.trace, levels[..], error[..], prev, badness)
    {
      prev, badness := QuantChannels(enc, a, i, levels, error, prev, badness, p, t0, course);
    }
  }

  /** The flag in front of the energies. */
  method EncodeIntra(enc: Encoder, tell: int, budget: int, intra: bool, ghost p: Call)
    requires enc.Valid() && ValidCall(p) && p.code == After(enc.trace) && budget == p.budget && intra == p.intra
    requires tell == Tell(p.code)
    modifies enc, enc.buf
    ensures enc.Valid() && enc.storage == old(enc.storage)
    ensures AtPoint(old(enc.trace), enc.trace, Begin(p).code, Begin(p).ops)
  {
    assert enc.trace == enc.trace + [];
    if tell + 3 <= budget {
      EncodeFlag(enc, intra, 3);
    }
  }

  /** quant_coarse_energy_impl */
  method QuantCoarseEnergy(enc: Encoder, start: nat, end: nat, nb: nat, bands: seq<real>, levels: array<real>,
                           budget: int, error: array<real>, channels: nat, lm: nat, intra: bool, maxDecay: real,
                           lfe: bool)
    returns (badness: nat)
    requires enc.Valid() && levels != error && lm <= 3 && start <= end <= nb && 1 <= channels <= 2
    requires levels.Length == error.Length >= Slot(nb, channels - 1, nb) && |bands| >= Slot(nb, channels - 1, nb)
    requires intra ==> enc.Tell() + 3 <= budget
    modifies enc, enc.buf, levels, error
    ensures enc.Valid() && enc.storage == old(enc.storage) && ValidOps(old(enc.trace))
    ensures var p := CallAt(old(enc.trace), budget, start, end, nb, channels, lm, intra, maxDecay, lfe, bands,
                            old(levels[..]), old(error[..]));
      && ValidCall(p) && enc.trace == old(enc.trace) + Ops(p)
      && levels[..] == At(p, end, 0).levels && error[..] == At(p, end, 0).error
      && badness == if lfe then 0 else At(p, end, 0).badness
  {
    ghost var t0 := enc.trace;
    EncoderTells(enc);
    ghost var p := CallAt(t0, budget, start, end, nb, channels, lm, intra, maxDecay, lfe, bands, levels[..], error[..]);
    EncodeIntra(enc, enc.Tell(), budget, intra, p);
    var a := Args(start, end, nb, channels, bands, RowOf(lm, intra), Coef(lm, intra), Beta(lm, intra), maxDecay, budget,
                  lfe);
    ghost var course := RunCourse(p);
    var prev;
    prev, badness := QuantBands(enc, a, levels, error, p, t0, course);
    assert course[end] == At(p, end, 0);
    badness := if lfe then 0 else badness;
  }

  // ----- The decoder

  /** The decoder has followed the encoder to channel c of band i. */
  ghost predicate Following(p: Call, i: nat, c: nat, t0: seq<Op>, ops: seq<Op>, levels: seq<real>, prev: seq<real>,
                            script: seq<Op>) {
    && ValidCall(p) && p.start <= i <= p.end && c <= p.channels && (i == p.end ==> c == 0) && t0 + Ops(p) <= script
    && AtPoint(t0, ops, At(p, i, c).code, At(p, i, c).ops)
    && levels == HeardAt(p, i, c).levels && prev == HeardAt(p, i, c).prev
  }

  /** What is coded for a band of a channel is next in a stream that holds the whole call. */
  lemma NextValue(p: Call, i: nat, c: nat, t0: seq<Op>, ops: seq<Op>, script: seq<Op>)
    requires InRange(p, i, c) && t0 + Ops(p) <= script && AtPoint(t0, ops, At(p, i, c).code, At(p, i, c).ops)
    ensures ops + StepOps(p, i, c, At(p, i, c)) <= script
    ensures AtPoint(t0, ops + StepOps(p, i, c, At(p, i, c)), At(p, i, c + 1).code, At(p, i, c + 1).ops)
  {
    var s := At(p, i, c);
    AtNext(p, i, c);
    OpsGrow(p, i, c + 1);
    PrefixTrans(t0, At(p, i, c + 1).ops, Ops(p), script);
    PointNext(t0, ops, s.code, s.ops, StepOps(p, i, c, s));
  }

  /** A decoder that follows has as many bits left, and reads the value that was coded. */
  lemma InTouch(dec: Decoder, p: Call, i: nat, c: nat, t0: seq<Op>)
    requires dec.Valid() && InRange(p, i, c) && t0 + Ops(p) <= dec.script
    requires AtPoint(t0, dec.trace, At(p, i, c).code, At(p, i, c).ops)
    ensures p.budget - dec.Tell() == Room(p, At(p, i, c))
    ensures dec.trace + StepOps(p, i, c, At(p, i, c)) <= dec.script
    ensures AtPoint(t0, dec.trace + StepOps(p, i, c, At(p, i, c)), At(p, i, c + 1).code, At(p, i, c + 1).ops)
  {
    NextValue(p, i, c, t0, dec.trace, dec.script);
    DecoderTells(dec, dec.trace);
  }

  /** One value of the decoder; in sync, what it makes of the encoder's. */
  method UnquantValue(dec: Decoder, budget: int, fs0: nat, decay: nat, ghost p: Call, ghost i: nat, ghost c: nat,
                      ghost s: State, ghost sync: bool) returns (q: int)
    requires dec.Valid() && TailFits(fs0, decay)
    requires sync ==> InRange(p, i, c) && ValidState(p, s) && budget - dec.Tell() == Room(p, s)
    requires sync ==> fs0 == Fs0(p.row, i) && decay == DecayOf(p.row, i)
    requires sync ==> dec.trace + StepOps(p, i, c, s) <= dec.script
    modifies dec
    ensures dec.Valid() && dec.error == old(dec.error)
    ensures sync ==> q == Reception(p, i, c, s) && dec.trace == old(dec.trace) + StepOps(p, i, c, s)
  {
    q := DecodeValue(dec, budget - dec.Tell(), fs0, decay, if sync then Asked(p, i, c, s) else 0);
  }

  /** What the decoder writes for a value. */
  method Rebuild(levels: array<real>, k: nat, prev: real, coef: real, beta: real, q: int) returns (prev': real)
    requires k < levels.Length
    modifies levels
    ensures levels[..] == old(levels[..])[k := LevelFor(old(levels[k]), prev, coef, q)]
    ensures prev' == NextPrev(prev, q, beta)
  {
    ghost var was := levels[k];
    levels[k] := MaxReal(-9.0, levels[k]);
    var tmp := coef * levels[k] + prev + q as real;
    assert tmp == LevelFor(was, prev, coef, q);
    levels[k] := tmp;
    prev' := prev + q as real - beta * q as real;
  }

  /** One band of one channel. */
  method UnquantEntry(dec: Decoder, i: nat, c: nat, nb: nat, channels: nat, levels: array<real>, prev: seq<real>,
                      row: Row, coef: real, beta: real, budget: int, ghost p: Call, ghost t0: seq<Op>, ghost sync: bool)
    returns (prev': seq<real>)
    requires dec.Valid() && c < channels <= 2 && i < nb && levels.Length >= Slot(nb, channels - 1, nb) && |prev| == 2
    requires sync ==> Following(p, i, c, t0, dec.trace, levels[..], prev, dec.script)
    requires sync ==> Given(p, nb, channels, row, coef, beta) && i < p.end && budget == p.budget
    modifies dec, levels
    ensures dec.Valid() && dec.error == old(dec.error) && |prev'| == 2
    ensures sync ==> Following(p, i, c + 1, t0, dec.trace, levels[..], prev', dec.script)
  {
    ghost var s := if sync then At(p, i, c) else State(INIT, [], [], [], [], 0);
    if sync {
      InTouch(dec, p, i, c, t0);
      AtNext(p, i, c);
    }
    var q := UnquantValue(dec, budget, Fs0(row, i), DecayOf(row, i), p, i, c, s, sync);
    var next := Rebuild(levels, Slot(i, c, nb), prev[c], coef, beta, q);
    prev' := prev[c := next];
  }

  /** One band of all channels. */
  method UnquantChannels(dec: Decoder, i: nat, nb: nat, channels: nat, levels: array<real>, prev: seq<real>, row: Row,
                         coef: real, beta: real, budget: int, ghost p: Call, ghost t0: seq<Op>, ghost sync: bool)
    returns (prev': seq<real>)
    requires dec.Valid() && channels <= 2 && i < nb && |prev| == 2
    requires channels > 0 && levels.Length >= Slot(nb, channels - 1, nb)
    requires sync ==> Following(p, i, 0, t0, dec.trace, levels[..], prev, dec.script)
    requires sync ==> Given(p, nb, channels, row, coef, beta) && i < p.end && budget == p.budget
    modifies dec, levels
    ensures dec.Valid() && dec.error == old(dec.error) && |prev'| == 2
    ensures sync ==> Following(p, i + 1, 0, t0, dec.trace, levels[..], prev', dec.script)
  {
    prev' := prev;
    for c: nat := 0 to channels
      invariant dec.Valid() && dec.error == old(dec.error) && |prev'| == 2
      invariant sync ==> Following(p, i, c, t0, dec.trace, levels[..], prev', dec.script)
    {
      prev' := UnquantEntry(dec, i, c, nb, channels, levels, prev', row, coef, beta, budget, p, t0, sync);
    }
    if sync {
      AtNextBand(p, i);
    }
  }

  method UnquantBands(dec: Decoder, start: nat, end: nat, nb: nat, channels: nat, levels: array<real>, row: Row,
                      coef: real, beta: real, ghost p: Call, ghost t0: seq<Op>, ghost sync: bool)
    returns (prev: seq<real>)
    requires dec.Valid() && start <= end <= nb && 1 <= channels <= 2 && levels.Length >= Slot(nb, channels - 1, nb)
    requires sync ==> Following(p, start, 0, t0, dec.trace, levels[..], [0.0, 0.0], dec.script)
    requires sync ==> Given(p, nb, channels, row, coef, beta) && start == p.start && end == p.end
    requires sync ==> p.budget == 8 * |dec.buf|
    modifies dec, levels
    ensures dec.Valid() && dec.error == old(dec.error)
    ensures sync ==> Following(p, end, 0, t0, dec.trace, levels[..], prev, dec.script)
  {
    prev := [0.0, 0.0];
    var budget := 8 * |dec.buf|;
    for i := start to end
      invariant dec.Valid() && dec.error == old(dec.error) && |prev| == 2
      invariant sync ==> Following(p, i, 0, t0, dec.trace, levels[..], prev, dec.script)
    {
      prev := UnquantChannels(dec, i, nb, channels, levels, prev, row, coef, beta, budget, p, t0, sync);
    }
  }

  /** unquant_coarse_energy; the flag of the call has been read. */
  method UnquantCoarseEnergy(dec: Decoder, start: nat, end: nat, nb: nat, levels: array<real>, intra: bool,
                             channels: nat, lm: nat, ghost p: Call, ghost t0: seq<Op>, ghost sync: bool)
    requires dec.Valid() && start <= end <= nb && 1 <= channels <= 2 && levels.Length >= Slot(nb, channels - 1, nb)
    requires lm <= 3
    requires sync ==> Following(p, start, 0, t0, dec.trace, levels[..], [0.0, 0.0], dec.script)
    requires sync ==> Given(p, nb, channels, RowOf(lm, intra), Coef(lm, intra), Beta(lm, intra))
    requires sync ==> p.budget == 8 * |dec.buf| && start == p.start && end == p.end
    modifies dec, levels
    ensures dec.Valid() && dec.error == old(dec.error)
    ensures sync ==> levels[..] == HeardAt(p, end, 0).levels && dec.trace == t0 + Ops(p)
  {
    var prev := UnquantBands(dec, start, end, nb, channels, levels, RowOf(lm, intra), Coef(lm, intra), Beta(lm, intra),
                             p, t0, sync);
  }

  /** The flag, as celt_decode_with_ec reads it. */
  method DecodeIntra(dec: Decoder, ghost p: Call, ghost t0: seq<Op>, ghost sync: bool) returns (intra: bool)
    requires dec.Valid()
    requires sync ==> ValidCall(p) && dec.trace == t0 && ValidOps(t0) && p.code == After(t0)
    requires sync ==> t0 + Ops(p) <= dec.script
    requires sync ==> p.budget == 8 * |dec.buf|
    modifies dec
    ensures dec.Valid() && dec.error == old(dec.error)
    ensures sync ==> intra == p.intra && AtPoint(t0, dec.trace, Begin(p).code, Begin(p).ops)
  {
    if sync {
      OpsGrow(p, p.start, 0);
      PrefixTrans(t0, Begin(p).ops, Ops(p), dec.script);
      PrefixTrans(t0, [], Ops(p), dec.script);
      assert t0 + [] == t0;
      DecoderTells(dec, t0);
      AfterBit(t0, p.intra, 3);
    }
    intra := false;
    if dec.Tell() + 3 <= 8 * |dec.buf| {
      intra := dec.BitLogp(3);
    }
  }

  /**
   The flag and the energies. In a frame that holds the call, the decoder reads all of it, and comes to the energies of
   `HeardAt`: by `EnergiesAgree` the encoder's, but for a first band that fell with one bit left.
   */
  method DecodeEnergies(dec: Decoder, start: nat, end: nat, nb: nat, levels: array<real>, channels: nat, lm: nat,
                        ghost intra: bool, ghost maxDecay: real, ghost lfe: bool, ghost bands: seq<real>,
                        ghost error: seq<real>)
    requires dec.Valid() && start <= end <= nb && 1 <= channels <= 2 && levels.Length >= Slot(nb, channels - 1, nb)
    requires lm <= 3 && |bands| >= Slot(nb, channels - 1, nb) && |error| == levels.Length
    modifies dec, levels
    ensures dec.Valid() && dec.error == old(dec.error)
    ensures ValidOps(old(dec.trace)) ==>
      var p := CallAt(old(dec.trace), 8 * |dec.buf|, start, end, nb, channels, lm, intra, maxDecay, lfe, bands,
                      old(levels[..]), error);
      ValidCall(p) && old(dec.trace) + Ops(p) <= dec.script ==>
        dec.trace == old(dec.trace) + Ops(p) && levels[..] == HeardAt(p, end, 0).levels
  {
    ghost var t0 := dec.trace;
    ghost var p := CallAt(if ValidOps(t0) then t0 else [], 8 * |dec.buf|, start, end, nb, channels, lm, intra, maxDecay,
                          lfe, bands, levels[..], error);
    ghost var sync := ValidOps(t0) && ValidCall(p) && t0 + Ops(p) <= dec.script;
    var flag := DecodeIntra(dec, p, t0, sync);
    UnquantCoarseEnergy(dec, start, end, nb, levels, flag, channels, lm, p, t0, sync);
  }
}
