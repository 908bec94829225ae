/**
 The dynalloc boosts of celt_encoder.c and celt_decoder.c (RFC 6716, section 4.3.3): for every band a unary code of how
 many quanta it is boosted by, each flag cheaper after the first, as long as the frame and the band's cap allow.
 */
module Dynalloc {
  import opened Arith
  import opened RangeSpec
  import opened RangeEncoder
  import opened RangeDecoder
  import opened Flags

  /** The loops' parameters: the frame's size in eighths of a bit, and each band's width, cap and requested quanta. */
  datatype Call = Call(code: Code, total: int, start: nat, end: nat, widths: seq<Width>, cap: seq<int>, want: seq<int>)

  /** The samples of a band in all channels and short blocks. */
  type Width = w: nat | w > 0 witness 1

  predicate ValidCall(p: Call) {
    ValidCode(p.code) && p.start <= p.end && p.end <= |p.widths| && p.end <= |p.cap| && p.end <= |p.want|
  }

  /** Six bits, but at most a bit and at least an eighth of a bit per sample. */
  function Quantum(width: Width): (q: nat)
    ensures width <= q <= 8 * width || q == 48
    ensures q > 0
  {
    Min(8 * width, Max(48, width))
  }

  /** Where coding has come to: the coder, the boost of the band so far, its quanta, and all boosts so far. */
  datatype Boost = Boost(code: Code, boost: int, quanta: nat, spent: int, ops: seq<Op>)

  /** Another flag fits, and the band may be boosted further. */
  predicate More(total: int, cap: int, logp: nat, b: Boost)
    requires ValidCode(b.code)
  {
    TellEighths(b.code) + 8 * logp < total - b.spent && b.boost < cap
  }

  /** One flag. */
  function Step(q: nat, want: int, logp: nat, b: Boost): (s: Boost)
    requires ValidCode(b.code) && 1 <= logp <= 23
    ensures ValidCode(s.code)
  {
    var flag := b.quanta < want;
    var code, ops := PutBit(b.code, flag, logp), b.ops + [BitOp(flag, logp)];
    if flag then Boost(code, b.boost + q, b.quanta + 1, b.spent + q, ops) else b.(code := code, ops := ops)
  }

  /** The flags of a band. */
  function Unary(total: int, cap: int, q: nat, want: int, logp: nat, b: Boost): (s: Boost)
    requires ValidCode(b.code) && q > 0 && 1 <= logp <= 23
    ensures ValidCode(s.code)
    decreases cap - b.boost
  {
    if !More(total, cap, logp, b) then b
    else if b.quanta < want then Unary(total, cap, q, want, 1, Step(q, want, logp, b))
    else Step(q, want, logp, b)
  }

  /** The state at band i: the boosts below it, and the cost of a first flag. */
  datatype State = State(code: Code, logp: nat, spent: int, ops: seq<Op>)

  function Begin(s: State): Boost {
    Boost(s.code, 0, 0, s.spent, s.ops)
  }

  function BandBoost(p: Call, i: nat, s: State): (b: Boost)
    requires ValidCall(p) && p.start <= i < p.end && ValidCode(s.code) && 1 <= s.logp <= 23
    ensures ValidCode(b.code)
  {
    Unary(p.total, p.cap[i], Quantum(p.widths[i]), p.want[i], s.logp, Begin(s))
  }

  /** The state at the next band. */
  function Next(p: Call, i: nat, s: State): (t: State)
    requires ValidCall(p) && p.start <= i < p.end && ValidCode(s.code) && 2 <= s.logp <= 6
    ensures ValidCode(t.code) && 2 <= t.logp <= 6
  {
    var b := BandBoost(p, i, s);
    State(b.code, if b.quanta > 0 then Max(2, s.logp - 1) else s.logp, b.spent, b.ops)
  }

  function Bands(p: Call, i: nat): (s: State)
    requires ValidCall(p) && p.start <= i <= p.end
    ensures ValidCode(s.code) && 2 <= s.logp <= 6
  {
    if i == p.start then State(p.code, 6, 0, []) else Next(p, i - 1, Bands(p, i - 1))
  }

  /** The boost both sides give band i. */
  function Result(p: Call, i: nat): int
    requires ValidCall(p) && p.start <= i < p.end
  {
    BandBoost(p, i, Bands(p, i)).boost
  }

  function Ops(p: Call): seq<Op>
    requires ValidCall(p)
  {
    Bands(p, p.end).ops
  }

  /** Boosts come out of the frame; no more quanta than wanted, and none beyond the one that reaches the cap. */
  lemma {:induction false} UnaryBounds(total: int, cap: int, q: nat, want: int, logp: nat, b: Boost)
    requires ValidCode(b.code) && q > 0 && 1 <= logp <= 23
    ensures var s := Unary(total, cap, q, want, logp, b);
      && s.spent - b.spent == s.boost - b.boost >= 0 && b.quanta <= s.quanta <= Max(b.quanta, want)
      && s.boost <= Max(b.boost, cap + q - 1)
    decreases cap - b.boost
  {
    if More(total, cap, logp, b) && b.quanta < want {
      UnaryBounds(total, cap, q, want, 1, Step(q, want, logp, b));
    }
  }

  lemma {:induction false} UnaryWhole(total: int, cap: int, q: nat, want: int, logp: nat, b: Boost)
    requires ValidCode(b.code) && q > 0 && 1 <= logp <= 23 && b.boost == b.quanta * q
    ensures var s := Unary(total, cap, q, want, logp, b); s.boost == s.quanta * q
    decreases cap - b.boost
  {
    if More(total, cap, logp, b) && b.quanta < want {
      Distribute(q, b.quanta, 1);
      UnaryWhole(total, cap, q, want, 1, Step(q, want, logp, b));
    }
  }

  /** A band is boosted in whole quanta, as far as wanted and allowed. */
  lemma ResultBounds(p: Call, i: nat)
    requires ValidCall(p) && p.start <= i < p.end
    ensures var k, q := BandBoost(p, i, Bands(p, i)).quanta, Quantum(p.widths[i]);
      Result(p, i) == k * q && k <= Max(0, p.want[i]) && 0 <= Result(p, i) <= Max(0, p.cap[i] + q - 1)
  {
    var q, b := Quantum(p.widths[i]), Begin(Bands(p, i));
    UnaryBounds(p.total, p.cap[i], q, p.want[i], Bands(p, i).logp, b);
    UnaryWhole(p.total, p.cap[i], q, p.want[i], Bands(p, i).logp, b);
  }

  /** All boosts together are what was taken off the frame. */
  function Boosts(p: Call, i: nat): int
    requires ValidCall(p) && p.start <= i <= p.end
  {
    if i == p.start then 0 else Boosts(p, i - 1) + Result(p, i - 1)
  }

  lemma {:induction false} BoostsSpent(p: Call, i: nat)
    requires ValidCall(p) && p.start <= i <= p.end
    ensures Bands(p, i).spent == Boosts(p, i)
  {
    if i > p.start {
      BoostsSpent(p, i - 1);
      UnaryBounds(p.total, p.cap[i - 1], Quantum(p.widths[i - 1]), p.want[i - 1], Bands(p, i - 1).logp,
                  Begin(Bands(p, i - 1)));
    }
  }

  // ----- What is coded, and how far a band is boosted

  /** The quantum is the size nearest six bits of those from an eighth of a bit to a bit per sample. */
  lemma QuantumNearest(width: Width, x: nat)
    requires width <= x <= 8 * width
    ensures width <= Quantum(width) <= 8 * width && Abs(Quantum(width) - 48) <= Abs(x - 48)
  {
  }

  /** The cost of the flag that follows k set ones: only the first may cost more than a bit. */
  function Cost(k: nat, logp: nat): nat {
    if k == 0 then logp else 1
  }

  function SetFlags(k: nat, logp: nat): (ops: seq<Op>)
    ensures |ops| == k
  {
    seq(k, i requires 0 <= i < k => BitOp(true, Cost(i, logp)))
  }

  /**
   A band of which so many quanta are wanted: a set flag for every quantum it gets; then a clear flag if it got all it
   wanted, unless there is no room for another flag or the cap is reached, and only then may it get fewer.
   */
  predicate Told(total: int, cap: int, want: int, logp: nat, b: Boost, s: Boost)
    requires ValidCode(s.code)
  {
    b.quanta <= s.quanta && var k := s.quanta - b.quanta;
    || (s.ops == b.ops + SetFlags(k, logp) && !More(total, cap, Cost(k, logp), s))
    || (s.ops == b.ops + SetFlags(k, logp) + [BitOp(false, Cost(k, logp))] && s.quanta >= want)
  }

  lemma {:induction false} UnaryTold(total: int, cap: int, q: nat, want: int, logp: nat, b: Boost)
    requires ValidCode(b.code) && q > 0 && 1 <= logp <= 23
    ensures Told(total, cap, want, logp, b, Unary(total, cap, q, want, logp, b))
    decreases cap - b.boost
  {
    if More(total, cap, logp, b) && b.quanta < want {
      var s := Unary(total, cap, q, want, 1, Step(q, want, logp, b));
      UnaryTold(total, cap, q, want, 1, Step(q, want, logp, b));
      FlagFirst(s.quanta - b.quanta, logp);
    }
  }

  lemma FlagFirst(k: nat, logp: nat)
    ensures k > 0 ==> SetFlags(k, logp) == [BitOp(true, logp)] + SetFlags(k - 1, 1)
  {
  }

  /** How many bands below i are boosted. */
  function BoostedBelow(p: Call, i: nat): nat
    requires ValidCall(p) && p.start <= i <= p.end
  {
    if i == p.start then 0 else BoostedBelow(p, i - 1) + if Result(p, i - 1) > 0 then 1 else 0
  }

  /** A first flag costs six bits, and a bit less for every band boosted so far, but at least two. */
  predicate CostFollows(p: Call, i: nat)
    requires ValidCall(p) && p.start <= i <= p.end
  {
    Bands(p, i).logp == Max(2, 6 - BoostedBelow(p, i))
  }

  lemma {:induction false} FirstFlagCost(p: Call, i: nat)
    requires ValidCall(p) && p.start <= i <= p.end
    ensures CostFollows(p, i)
    decreases i
  {
    if i > p.start {
      FirstFlagCost(p, i - 1);
      CostNext(p, i - 1);
    } else {
      CostFirst(p);
    }
  }

  lemma CostFirst(p: Call)
    requires ValidCall(p)
    ensures CostFollows(p, p.start)
  {
  }

  lemma CostNext(p: Call, i: nat)
    requires ValidCall(p) && p.start <= i < p.end && CostFollows(p, i)
    ensures CostFollows(p, i + 1)
  {
    CheaperAfter(p, i, Bands(p, i));
    BoostedNext(p, i, BoostedBelow(p, i), Result(p, i));
  }

  lemma BoostedNext(p: Call, i: nat, n: nat, boost: int)
    requires ValidCall(p) && p.start <= i < p.end && n == BoostedBelow(p, i) && boost == Result(p, i)
    ensures BoostedBelow(p, i + 1) == if boost > 0 then n + 1 else n
  {
  }

  lemma CheaperAfter(p: Call, i: nat, s: State)
    requires ValidCall(p) && p.start <= i < p.end && s == Bands(p, i)
    ensures Bands(p, i + 1).logp == if Result(p, i) > 0 then Max(2, s.logp - 1) else s.logp
  {
    ResultBounds(p, i);
    ProductSign(BandBoost(p, i, s).quanta, Quantum(p.widths[i]));
    assert Bands(p, i + 1) == Next(p, i, s);
  }

  lemma ProductSign(k: nat, q: nat)
    requires q > 0
    ensures k * q > 0 <==> k > 0
  {
  }

  /** What band i codes, and how far it is boosted. */
  lemma BandTold(p: Call, i: nat)
    requires ValidCall(p) && p.start <= i < p.end
    ensures var s := Bands(p, i);
      Told(p.total, p.cap[i], p.want[i], Max(2, 6 - BoostedBelow(p, i)), Begin(s), BandBoost(p, i, s))
  {
    FirstFlagCost(p, i);
    UnaryTold(p.total, p.cap[i], Quantum(p.widths[i]), p.want[i], Bands(p, i).logp, Begin(Bands(p, i)));
  }

  /** A band that wants to be boosted is, if a first flag fits into what the boosts so far have left of the frame. */
  lemma BoostedIff(p: Call, i: nat, boosted: nat, boosts: int)
    requires ValidCall(p) && p.start <= i < p.end && p.want[i] > 0
    requires boosted == BoostedBelow(p, i) && boosts == Boosts(p, i)
    ensures Result(p, i) > 0 <==>
            p.cap[i] > 0 && TellEighths(Bands(p, i).code) + 8 * Max(2, 6 - boosted) + boosts < p.total
  {
    var s := Bands(p, i);
    FirstFlagCost(p, i);
    BoostsSpent(p, i);
    assert s.logp == Max(2, 6 - boosted) && s.spent == boosts;
    BoostedFrom(p, i, s);
  }

  lemma BoostedFrom(p: Call, i: nat, s: State)
    requires ValidCall(p) && p.start <= i < p.end && p.want[i] > 0 && s == Bands(p, i)
    ensures Result(p, i) > 0 <==> p.cap[i] > 0 && TellEighths(s.code) + 8 * s.logp + s.spent < p.total
  {
    FirstQuantum(p.total, p.cap[i], Quantum(p.widths[i]), p.want[i], s.logp, Begin(s));
  }

  lemma FirstQuantum(total: int, cap: int, q: nat, want: int, logp: nat, b: Boost)
    requires ValidCode(b.code) && q > 0 && 1 <= logp <= 23 && b.boost == b.quanta == 0 && want > 0
    ensures Unary(total, cap, q, want, logp, b).boost > 0 <==> More(total, cap, logp, b)
  {
    if More(total, cap, logp, b) {
      UnaryBounds(total, cap, q, want, 1, Step(q, want, logp, b));
    }
  }

  lemma {:induction false} UnaryGrows(total: int, cap: int, q: nat, want: int, logp: nat, b: Boost)
    requires ValidCode(b.code) && q > 0 && 1 <= logp <= 23
    ensures b.ops <= Unary(total, cap, q, want, logp, b).ops
    ensures More(total, cap, logp, b) ==>
      b.ops + [BitOp(b.quanta < want, logp)] <= Unary(total, cap, q, want, logp, b).ops
    decreases cap - b.boost
  {
    if More(total, cap, logp, b) && b.quanta < want {
      UnaryGrows(total, cap, q, want, 1, Step(q, want, logp, b));
    }
  }

  lemma {:induction false} BandsGrow(p: Call, i: nat, j: nat)
    requires ValidCall(p) && p.start <= i <= j <= p.end
    ensures Bands(p, i).ops <= Bands(p, j).ops
    decreases j
  {
    if i < j {
      BandsGrow(p, i, j - 1);
      UnaryGrows(p.total, p.cap[j - 1], Quantum(p.widths[j - 1]), p.want[j - 1], Bands(p, j - 1).logp,
                 Begin(Bands(p, j - 1)));
    }
  }

  // ----- The methods

  /** The unary loop of the encoder. */
  method EncodeUnary(enc: Encoder, total: int, totalBoost: int, tell: int, cap: int, quanta: nat, want: int, logp: nat,
                     ghost b0: Boost, ghost t0: seq<Op>)
    returns (boost: int, j: nat, totalBoost': int, tell': int, ghost b: Boost)
    requires enc.Valid() && ValidCode(b0.code) && AtPoint(t0, enc.trace, b0.code, b0.ops)
    requires 1 <= logp <= 23 && quanta > 0 && tell == TellEighths(b0.code)
    requires b0.boost == 0 && b0.quanta == 0 && b0.spent == totalBoost
    modifies enc, enc.buf
    ensures enc.Valid() && enc.storage == old(enc.storage)
    ensures b == Unary(total, cap, quanta, want, logp, b0) && AtPoint(t0, enc.trace, b.code, b.ops)
    ensures boost == b.boost && j == b.quanta && totalBoost' == b.spent && tell' == TellEighths(b.code)
  {
    boost, j, totalBoost', tell', b := 0, 0, totalBoost, tell, b0;
    var loopLogp := logp;
    while tell' + 8 * loopLogp < total - totalBoost' && boost < cap
      invariant enc.Valid() && enc.storage == old(enc.storage) && 1 <= loopLogp <= 23
      invariant ValidCode(b.code) && AtPoint(t0, enc.trace, b.code, b.ops)
      invariant boost == b.boost && j == b.quanta && totalBoost' == b.spent && tell' == TellEighths(b.code)
      invariant Unary(total, cap, quanta, want, loopLogp, b) == Unary(total, cap, quanta, want, logp, b0)
      decreases cap - boost
    {
      var flag := j < want;
      Regroup(t0, b.ops, [BitOp(flag, loopLogp)]);
      EncodeFlag(enc, flag, loopLogp);
      EncoderTells(enc);
      tell' := enc.TellFrac();
      b := Step(quanta, want, loopLogp, b);
      if !flag {
        break;
      }
      boost := boost + quanta;
      totalBoost' := totalBoost' + quanta;
      loopLogp := 1;
      j := j + 1;
    }
  }

  /** The call that starts from a coder; the width of a band counts every channel and short block. */
  function CallAt(ops: seq<Op>, total: int, start: nat, end: nat, widths: seq<Width>, cap: seq<int>,
                  want: seq<int>): Call
    requires ValidOps(ops)
  {
    Call(After(ops), total, start, end, widths, cap, want)
  }

  /** The entries below i hold the boosts. */
  ghost predicate Boosted(p: Call, offsets: seq<int>, i: nat)
    requires ValidCall(p) && p.start <= i <= p.end
  {
    |offsets| >= p.end && forall k :: p.start <= k < i ==> offsets[k] == Result(p, k)
  }

  /** The states of a call, one after the other, and its boosts. */
  datatype Course = Course(states: seq<State>, boosts: seq<int>)

  ghost predicate Linked(p: Call, i: nat, s: State, t: State, boost: int) {
    && ValidCall(p) && p.start <= i < p.end && ValidCode(s.code) && 2 <= s.logp <= 6
    && t == Next(p, i, s) && boost == BandBoost(p, i, s).boost && s.ops <= t.ops
  }

  ghost predicate ValidCourse(p: Call, c: Course) {
    && p.start <= p.end && |c.states| == p.end + 1 && |c.boosts| == p.end
    && c.states[p.start] == State(p.code, 6, 0, [])
    && (forall i: nat :: p.start <= i < p.end ==> Linked(p, i, c.states[i], c.states[i + 1], c.boosts[i]))
    && (forall i :: p.start <= i <= p.end ==> c.states[i].ops <= c.states[p.end].ops)
  }

  /** Every call runs its course. */
  ghost function CourseOf(p: Call): (c: Course)
    requires ValidCall(p)
    ensures ValidCourse(p, c) && c.states[p.end] == Bands(p, p.end)
    ensures forall i :: p.start <= i < p.end ==> c.boosts[i] == Result(p, i)
  {
    var c := Course(seq(p.end + 1, i requires 0 <= i <= p.end => Bands(p, Max(i, p.start))),
                    seq(p.end, i requires 0 <= i < p.end => if i < p.start then 0 else Result(p, i)));
    CourseValid(p, c);
    c
  }

  lemma CourseValid(p: Call, c: Course)
    requires ValidCall(p) && |c.states| == p.end + 1 && |c.boosts| == p.end
    requires forall i :: p.start <= i <= p.end ==> c.states[i] == Bands(p, i)
    requires forall i :: p.start <= i < p.end ==> c.boosts[i] == Result(p, i)
    ensures ValidCourse(p, c)
  {
    forall i: nat | p.start <= i < p.end ensures Linked(p, i, c.states[i], c.states[i + 1], c.boosts[i]) {
      BandsGrow(p, i, i + 1);
    }
    forall i: nat | p.start <= i <= p.end ensures c.states[i].ops <= c.states[p.end].ops {
      BandsGrow(p, i, p.end);
    }
  }

  /** The loop's variables in a state. */
  ghost predicate Encoding(s: State, t0: seq<Op>, ops: seq<Op>, logp: nat, totalBoost: int, tell: int) {
    && ValidCode(s.code) && 2 <= s.logp <= 6 && AtPoint(t0, ops, s.code, s.ops)
    && logp == s.logp && totalBoost == s.spent && tell == TellEighths(s.code)
  }

  /** One band of the encoder. */
  method EncodeBand(enc: Encoder, i: nat, total: int, width: Width, cap: int, want: int, logp: nat,
                    totalBoost: int, tell: int, ghost p: Call, ghost t0: seq<Op>, ghost s: State, ghost t: State)
    returns (boost: int, logp': nat, totalBoost': int, tell': int)
    requires enc.Valid() && Encoding(s, t0, enc.trace, logp, totalBoost, tell)
    requires ValidCall(p) && p.start <= i < p.end && total == p.total
    requires width == p.widths[i] && cap == p.cap[i] && want == p.want[i] && t == Next(p, i, s)
    modifies enc, enc.buf
    ensures enc.Valid() && enc.storage == old(enc.storage) && boost == BandBoost(p, i, s).boost
    ensures Encoding(t, t0, enc.trace, logp', totalBoost', tell')
  {
    var j;
    ghost var b;
    boost, j, totalBoost', tell', b :=
      EncodeUnary(enc, total, totalBoost, tell, cap, Quantum(width), want, logp, Begin(s), t0);
    assert b == BandBoost(p, i, s);
    logp' := if j > 0 then Max(2, logp - 1) else logp;
  }

  /** ... and its entry in the array. */
  method EncodeEntry(enc: Encoder, offsets: array<int>, i: nat, total: int, width: Width, cap: int, logp: nat,
                     totalBoost: int, tell: int, ghost p: Call, ghost t0: seq<Op>, ghost c: Course)
    returns (logp': nat, totalBoost': int, tell': int)
    requires enc.Valid() && ValidCall(p) && ValidCourse(p, c) && p.start <= i < p.end && total == p.total
    requires Encoding(c.states[i], t0, enc.trace, logp, totalBoost, tell)
    requires width == p.widths[i] && cap == p.cap[i] && offsets.Length == |p.want| && offsets[i] == p.want[i]
    modifies enc, enc.buf, offsets
    ensures enc.Valid() && enc.storage == old(enc.storage)
    ensures Encoding(c.states[i + 1], t0, enc.trace, logp', totalBoost', tell')
    ensures offsets[..] == old(offsets[..])[i := c.boosts[i]]
  {
    assert Linked(p, i, c.states[i], c.states[i + 1], c.boosts[i]);
    var boost;
    boost, logp', totalBoost', tell' := EncodeBand(enc, i, total, width, cap, offsets[i], logp, totalBoost, tell,
                                                   p, t0, c.states[i], c.states[i + 1]);
    offsets[i] := boost;
  }

  method EncodeLoop(enc: Encoder, start: nat, end: nat, widths: seq<Width>, cap: seq<int>, total: int, tell0: int,
                    offsets: array<int>, ghost p: Call, ghost t0: seq<Op>, ghost c: Course) returns (totalBoost: int)
    requires enc.Valid() && ValidCall(p) && ValidCourse(p, c) && offsets[..] == p.want
    requires start == p.start && end == p.end && widths == p.widths && cap == p.cap && total == p.total
    requires Encoding(c.states[start], t0, enc.trace, 6, 0, tell0)
    modifies enc, enc.buf, offsets
    ensures enc.Valid() && enc.storage == old(enc.storage) && enc.trace == t0 + c.states[end].ops
    ensures totalBoost == c.states[end].spent
    ensures offsets.Length == |p.want| && forall k :: start <= k < end ==> offsets[k] == c.boosts[k]
  {
    var logp, tell := 6, tell0;
    totalBoost := 0;
    for i := start to end
      invariant enc.Valid() && enc.storage == old(enc.storage)
      invariant Encoding(c.states[i], t0, enc.trace, logp, totalBoost, tell)
      invariant forall k :: start <= k < end ==> offsets[k] == if k < i then c.boosts[k] else p.want[k]
    {
      logp, totalBoost, tell :=
        EncodeEntry(enc, offsets, i, total, widths[i], cap[i], logp, totalBoost, tell, p, t0, c);
    }
  }

  /** The dynalloc loop of celt_encode_with_ec: what was requested in offsets becomes what was coded. */
  method EncodeBoosts(enc: Encoder, start: nat, end: nat, widths: seq<Width>, cap: seq<int>, total: int,
                      offsets: array<int>) returns (totalBoost: int)
    requires enc.Valid() && start <= end <= offsets.Length && end <= |widths| && end <= |cap|
    modifies enc, enc.buf, offsets
    ensures enc.Valid() && enc.storage == old(enc.storage) && ValidOps(old(enc.trace))
    ensures var p := CallAt(old(enc.trace), total, start, end, widths, cap, old(offsets[..]));
      && enc.trace == old(enc.trace) + Ops(p) && totalBoost == Bands(p, end).spent
      && Boosted(p, offsets[..], end)
  {
    ghost var p := CallAt(enc.trace, total, start, end, widths, cap, offsets[..]);
    ghost var c := CourseOf(p);
    EncoderTells(enc);
    assert enc.trace + [] == enc.trace;
    totalBoost := EncodeLoop(enc, start, end, widths, cap, total, enc.TellFrac(), offsets, p, enc.trace, c);
  }

  // ----- The decoder

  /** The decoder's variables in the unary loop; its total has the boosts taken off already. */
  ghost predicate DecodingUnary(t0: seq<Op>, ops: seq<Op>, total: int, left: int, boost: int, tell: int, b: Boost) {
    && ValidCode(b.code) && AtPoint(t0, ops, b.code, b.ops)
    && boost == b.boost && left == total - b.spent && tell == TellEighths(b.code)
  }

  /** One flag of the decoder; in sync, the one that was coded. */
  method DecodeFlag(dec: Decoder, logp: nat, ghost total: int, ghost left: int, ghost boost: int, ghost tell: int,
                    ghost cap: int, ghost q: nat, ghost want: int, ghost b: Boost, ghost t0: seq<Op>, ghost sync: bool)
    returns (flag: bool, tell': int)
    requires dec.Valid() && 1 <= logp <= 23 && q > 0
    requires sync ==> DecodingUnary(t0, dec.trace, total, left, boost, tell, b) && More(total, cap, logp, b)
    requires sync ==> t0 + Unary(total, cap, q, want, logp, b).ops <= dec.script
    modifies dec
    ensures dec.Valid() && dec.error == old(dec.error)
    ensures sync ==> flag == (b.quanta < want)
    ensures sync ==> var s := Step(q, want, logp, b);
      AtPoint(t0, dec.trace, s.code, s.ops) && tell' == TellEighths(s.code)
  {
    ghost var op := BitOp(b.quanta < want, logp);
    ghost var trace := dec.trace;
    if sync {
      UnaryGrows(total, cap, q, want, logp, b);
      PrefixTrans(t0, b.ops + [op], Unary(total, cap, q, want, logp, b).ops, dec.script);
      Regroup(t0, b.ops, [op]);
      AfterBit(trace, b.quanta < want, logp);
    }
    flag := dec.BitLogp(logp);
    tell' := dec.TellFrac();
    if sync {
      DecoderTells(dec, trace + [op]);
    }
  }

  /** The unary loop of the decoder. */
  method DecodeUnary(dec: Decoder, total0: int, tell: int, cap: int, quanta: nat, logp: nat, ghost total: int,
                     ghost want: int, ghost b0: Boost, ghost t0: seq<Op>, ghost sync: bool)
    returns (boost: int, left: int, tell': int)
    requires dec.Valid() && 1 <= logp <= 23 && quanta > 0
    requires sync ==> DecodingUnary(t0, dec.trace, total, total0, 0, tell, b0) && b0.quanta == 0
    requires sync ==> t0 + Unary(total, cap, quanta, want, logp, b0).ops <= dec.script
    modifies dec
    ensures dec.Valid() && dec.error == old(dec.error) && boost >= 0
    ensures sync ==>
      DecodingUnary(t0, dec.trace, total, left, boost, tell', Unary(total, cap, quanta, want, logp, b0))
  {
    boost, left, tell' := 0, total0, tell;
    var loopLogp := logp;
    ghost var b := b0;
    while tell' + 8 * loopLogp < left && boost < cap
      invariant dec.Valid() && dec.error == old(dec.error) && boost >= 0 && 1 <= loopLogp <= 23
      invariant sync ==> DecodingUnary(t0, dec.trace, total, left, boost, tell', b)
      invariant sync ==> Unary(total, cap, quanta, want, loopLogp, b) == Unary(total, cap, quanta, want, logp, b0)
      decreases cap - boost
    {
      var flag;
      flag, tell' := DecodeFlag(dec, loopLogp, total, left, boost, tell', cap, quanta, want, b, t0, sync);
      if sync {
        b := Step(quanta, want, loopLogp, b);
      }
      if !flag {
        break;
      }
      boost := boost + quanta;
      left := left - quanta;
      loopLogp := 1;
    }
  }

  /** The encoder asks for a flag coded, the decoder for a boost given: the same. */
  lemma BoostMeansQuanta(p: Call, i: nat, s: State)
    requires ValidCall(p) && p.start <= i < p.end && ValidCode(s.code) && 2 <= s.logp <= 6
    ensures var b := BandBoost(p, i, s); b.boost > 0 <==> b.quanta > 0
  {
    UnaryWhole(p.total, p.cap[i], Quantum(p.widths[i]), p.want[i], s.logp, Begin(s));
    BoostSign(BandBoost(p, i, s).quanta, Quantum(p.widths[i]));
  }

  lemma BoostSign(k: nat, q: nat)
    requires q > 0
    ensures k * q > 0 <==> k > 0
  {
    if k > 0 {
      MulMonotone(q, 1, k);
    }
  }

  /** One band of the decoder. */
  method DecodeBand(dec: Decoder, width: Width, cap: int, logp: nat, left: int, tell: int, ghost i: nat,
                    ghost p: Call, ghost t0: seq<Op>, ghost s: State, ghost t: State, ghost sync: bool)
    returns (boost: int, logp': nat, left': int, tell': int)
    requires dec.Valid() && 2 <= logp <= 6
    requires sync ==> Encoding(s, t0, dec.trace, logp, p.total - left, tell) && t0 + t.ops <= dec.script
    requires sync ==> ValidCall(p) && p.start <= i < p.end && width == p.widths[i] && cap == p.cap[i]
    requires sync ==> t == Next(p, i, s)
    modifies dec
    ensures dec.Valid() && dec.error == old(dec.error) && 2 <= logp' <= 6
    ensures sync ==> Encoding(t, t0, dec.trace, logp', p.total - left', tell')
    ensures sync ==> boost == BandBoost(p, i, s).boost
  {
    ghost var b, want, total := Boost(After([]), 0, 0, 0, []), 0, 0;
    if sync {
      b, want, total := Begin(s), p.want[i], p.total;
      BoostMeansQuanta(p, i, s);
    }
    boost, left', tell' := DecodeUnary(dec, left, tell, cap, Quantum(width), logp, total, want, b, t0, sync);
    logp' := if boost > 0 then Max(2, logp - 1) else logp;
  }

  /** The decoder has followed the encoder to band i. */
  ghost predicate Following(p: Call, c: Course, t0: seq<Op>, ops: seq<Op>, i: nat, logp: nat, left: int, tell: int,
                            offsets: seq<int>, script: seq<Op>) {
    && ValidCall(p) && ValidCourse(p, c) && p.start <= i <= p.end <= |offsets|
    && Encoding(c.states[i], t0, ops, logp, p.total - left, tell) && t0 + c.states[p.end].ops <= script
    && forall k :: p.start <= k < i ==> offsets[k] == c.boosts[k]
  }

  /** ... and its entry in the array. */
  method DecodeEntry(dec: Decoder, offsets: array<int>, i: nat, width: Width, cap: int, logp: nat, left: int, tell: int,
                     ghost p: Call, ghost c: Course, ghost t0: seq<Op>, ghost sync: bool)
    returns (logp': nat, left': int, tell': int)
    requires dec.Valid() && 2 <= logp <= 6 && i < offsets.Length
    requires sync ==> Following(p, c, t0, dec.trace, i, logp, left, tell, offsets[..], dec.script)
    requires sync ==> i < p.end && width == p.widths[i] && cap == p.cap[i]
    modifies dec, offsets
    ensures dec.Valid() && dec.error == old(dec.error) && 2 <= logp' <= 6
    ensures sync ==> Following(p, c, t0, dec.trace, i + 1, logp', left', tell', offsets[..], dec.script)
  {
    ghost var s, t, was := State(After([]), 6, 0, []), State(After([]), 6, 0, []), offsets[..];
    if sync {
      s, t := c.states[i], c.states[i + 1];
      assert Linked(p, i, s, t, c.boosts[i]);
      PrefixTrans(t0, t.ops, c.states[p.end].ops, dec.script);
    }
    var boost;
    boost, logp', left', tell' := DecodeBand(dec, width, cap, logp, left, tell, i, p, t0, s, t, sync);
    offsets[i] := boost;
    assert offsets[..] == was[i := boost];
  }

  /**
   The dynalloc loop of celt_decode_with_ec: from the size and the bits it gives every band the encoder's boost, and
   leaves the total less all boosts; want is what the encoder was asked for.
   */
  method DecodeBoosts(dec: Decoder, start: nat, end: nat, widths: seq<Width>, cap: seq<int>, total: int,
                      offsets: array<int>, ghost want: seq<int>) returns (left: int)
    requires dec.Valid() && start <= end <= offsets.Length && end <= |widths| && end <= |cap| && end <= |want|
    modifies dec, offsets
    ensures dec.Valid() && dec.error == old(dec.error)
    ensures ValidOps(old(dec.trace)) ==>
      var p := CallAt(old(dec.trace), total, start, end, widths, cap, want);
      old(dec.trace) + Ops(p) <= dec.script ==>
        && dec.trace == old(dec.trace) + Ops(p) && left == total - Bands(p, end).spent
        && Boosted(p, offsets[..], end)
  {
    ghost var t0, valid := dec.trace, ValidOps(dec.trace);
    ghost var p := CallAt(if valid then t0 else [], total, start, end, widths, cap, want);
    ghost var c := CourseOf(p);
    ghost var sync := valid && t0 + Ops(p) <= dec.script;
    if sync {
      PrefixTrans(t0, [], Ops(p), dec.script);
      assert t0 + [] == t0;
      DecoderTells(dec, t0);
    }
    left := DecodeLoop(dec, start, end, widths, cap, total, dec.TellFrac(), offsets, p, c, t0, sync);
  }

  method DecodeLoop(dec: Decoder, start: nat, end: nat, widths: seq<Width>, cap: seq<int>, total: int, tell0: int,
                    offsets: array<int>, ghost p: Call, ghost c: Course, ghost t0: seq<Op>, ghost sync: bool)
    returns (left: int)
    requires dec.Valid() && start <= end <= offsets.Length && end <= |widths| && end <= |cap|
    requires sync ==> Following(p, c, t0, dec.trace, start, 6, total, tell0, offsets[..], dec.script)
    requires sync ==> start == p.start && end == p.end && widths == p.widths && cap == p.cap
    modifies dec, offsets
    ensures dec.Valid() && dec.error == old(dec.error)
    ensures sync ==> dec.trace == t0 + c.states[end].ops && left == p.total - c.states[end].spent
    ensures sync ==> forall k :: start <= k < end ==> offsets[k] == c.boosts[k]
  {
    var logp, tell := 6, tell0;
    left := total;
    for i := start to end
      invariant dec.Valid() && dec.error == old(dec.error) && 2 <= logp <= 6
      invariant sync ==> Following(p, c, t0, dec.trace, i, logp, left, tell, offsets[..], dec.script)
    {
      logp, left, tell := DecodeEntry(dec, offsets, i, widths[i], cap[i], logp, left, tell, p, c, t0, sync);
    }
  }
}
