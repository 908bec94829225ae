/**
 The entropy coder of RFC 6716, sections 4.1 and 5.1, on unbounded integers.

 `Code` is the encoder's coding interval [low, low + rng), scaled by 256 per renormalisation, with the raw
 bits of the other end of the buffer as one little-endian number. `Dec` is what the decoder knows. The byte-level
 classes are proved against these two; the round trip is proved about them.
 */
module RangeSpec {
  import opened Arith

  newtype byte = b: int | 0 <= b < 256
  type uint32 = x: nat | x < 0x1_0000_0000

  const CODE_TOP: nat := 0x8000_0000
  const CODE_BOT: nat := 0x80_0000

  /**
   One coding step. `Cut` divides the range into ft equal steps, counted from its high end, and keeps the steps
   from `rest` up to `top`; the `open` one also keeps what the division left over. `Bits` is a raw-bit field.
   */
  datatype Op =
    | Cut(ft: nat, rest: nat, top: nat, open: bool)
    | Bits(value: nat, nbits: nat)

  /** A part of the steps, and a total that leaves each step at least one unit of range. */
  predicate ShapedOp(op: Op) {
    match op
    case Cut(ft, rest, top, open) => rest <= top <= ft <= CODE_BOT && 1 <= ft && (open ==> top == ft)
    case Bits(value, nbits) => nbits <= 25 && value < Pow2(nbits)
  }

  /** What the encoder may be given: moreover the part has a nonzero probability. */
  predicate ValidOp(op: Op) {
    ShapedOp(op) && (op.Cut? ==> op.rest < op.top)
  }

  /** The range above the part's low end, and above its high end, both measured down from the top of the range. */
  function Lo(op: Op, rng: nat): int
    requires op.Cut? && op.ft > 0
  {
    rng / op.ft * op.rest
  }

  function Hi(op: Op, rng: nat): int
    requires op.Cut? && op.ft > 0
  {
    if op.open then rng else rng / op.ft * op.top
  }

  /** Every operation keeps a part inside the range; a valid one keeps a nonempty part. */
  lemma CutFits(op: Op, rng: nat)
    requires op.Cut? && ShapedOp(op) && CODE_BOT <= rng
    ensures 0 <= Lo(op, rng) <= Hi(op, rng) <= rng
    ensures op.rest < op.top ==> Lo(op, rng) < Hi(op, rng)
  {
    StepsFit(rng, op.ft, op.rest, op.top);
  }

  /** A range cut into ft steps: the steps from `rest` up to `top` fit. */
  lemma StepsFit(rng: nat, ft: nat, rest: nat, top: nat)
    requires rest <= top <= ft <= rng && ft > 0
    ensures var r := rng / ft; r >= 1 && 0 <= r * rest <= r * top <= r * ft <= rng
    ensures rest < top ==> rng / ft * rest < rng / ft * top
  {
    var r := rng / ft;
    DivBounds(rng, ft, 1);
    DivBounds(rng, ft, r);
    MulMonotone(r, 0, rest);
    MulMonotone(r, rest, top);
    MulMonotone(r, top, ft);
    if rest < top {
      MulMonotone(r, rest + 1, top);
      Distribute(r, rest, 1);
    }
  }

  /** The width of the steps between `rest` and `top` can be had with one multiplication. */
  lemma SplitSteps(r: int, top: int, rest: int)
    ensures r * (top - rest) == r * top - r * rest
  {
  }

  // ----- The encoder

  datatype Code = Code(low: nat, rng: nat, n: nat, raw: nat, nraw: nat)

  const INIT := Code(0, CODE_TOP, 0, 0, 0)

  predicate ValidCode(c: Code) {
    CODE_BOT < c.rng <= CODE_TOP && c.raw < Pow2(c.nraw)
  }

  /** The interval left by a cut, before renormalisation. */
  function Narrow(c: Code, op: Op): (s: Code)
    requires CODE_BOT < c.rng <= CODE_TOP && ValidOp(op) && op.Cut?
    ensures 0 < s.rng && c.low <= s.low && s.low + s.rng <= c.low + c.rng
  {
    CutFits(op, c.rng);
    c.(low := c.low + c.rng - Hi(op, c.rng), rng := Hi(op, c.rng) - Lo(op, c.rng))
  }

  /** Renormalisation: shift bytes out until the range exceeds CODE_BOT. */
  function Scale(c: Code): (s: Code)
    requires 0 < c.rng <= CODE_TOP
    ensures CODE_BOT < s.rng <= CODE_TOP && s.n >= c.n && s.raw == c.raw && s.nraw == c.nraw
    decreases CODE_TOP - c.rng
  {
    if c.rng <= CODE_BOT then Scale(Shift(c)) else c
  }

  function Shift(c: Code): Code {
    c.(low := c.low * 256, rng := c.rng * 256, n := c.n + 1)
  }

  function Put(c: Code, op: Op): (s: Code)
    requires ValidCode(c) && ValidOp(op)
    ensures ValidCode(s)
  {
    if op.Bits? then PutBits(c, op.value, op.nbits) else Scale(Narrow(c, op))
  }

  function PutBits(c: Code, value: nat, nbits: nat): (s: Code)
    requires c.raw < Pow2(c.nraw) && value < Pow2(nbits)
    ensures s.raw < Pow2(s.nraw) && s.low == c.low && s.rng == c.rng && s.n == c.n
  {
    ShlFits(c.raw, value, c.nraw, nbits);
    c.(raw := c.raw + Shl(value, c.nraw), nraw := c.nraw + nbits)
  }

  predicate ValidOps(ops: seq<Op>) {
    forall i :: 0 <= i < |ops| ==> ValidOp(ops[i])
  }

  function PutAll(c: Code, ops: seq<Op>): (s: Code)
    requires ValidCode(c) && ValidOps(ops)
    ensures ValidCode(s)
    decreases |ops|
  {
    if ops == [] then c else PutAll(Put(c, ops[0]), ops[1..])
  }

  /** ec_tell: whole bits used so far, rounded up. */
  function Tell(c: Code): int {
    33 + 8 * c.n + c.nraw - Ilog(c.rng)
  }

  lemma {:induction false} PutAllAppend(c: Code, xs: seq<Op>, ys: seq<Op>)
    requires ValidCode(c) && ValidOps(xs) && ValidOps(ys)
    ensures ValidOps(xs + ys) && PutAll(c, xs + ys) == PutAll(PutAll(c, xs), ys)
    decreases |xs|
  {
    if xs == [] {
      assert xs + ys == ys;
    } else {
      PutAllAppend(Put(c, xs[0]), xs[1..], ys);
      assert (xs + ys)[1..] == xs[1..] + ys && (xs + ys)[0] == xs[0];
    }
  }

  /** The raw window with a new field put above its bits. */
  function AppendBits(window: nat, used: nat, value: nat, nbits: nat): (w: nat)
    requires window < Pow2(used) && value < Pow2(nbits) && used + nbits <= 32
    ensures w < Pow2(used + nbits) <= 0x1_0000_0000
    ensures w == window + Shl(value, used)
  {
    ShlFits(window, value, used, nbits);
    Pow2Bytes();
    Pow2Monotone(used + nbits, 32);
    Join(0, value, used, Shl(value, used));
    OrDisjoint(Shl(value, used), window, used);
    Or(Shl(value, used), window)
  }

  // ----- The buffer, as the decoder sees it

  /** Bytes past the end of the buffer read as zero. */
  function ByteAt(b: seq<byte>, i: nat): (v: nat)
    ensures v < 256
  {
    if i < |b| then b[i] as nat else 0
  }

  /** The first m bytes as a big-endian number. */
  function Front(b: seq<byte>, m: nat): nat {
    if m == 0 then 0 else Front(b, m - 1) * 256 + ByteAt(b, m - 1)
  }

  /** The leading 31 + 8n bits: what the decoder has taken in after n renormalisations. */
  function Window(b: seq<byte>, n: nat): nat {
    Front(b, n + 4) / 2
  }

  /** The m last bytes as a little-endian number read from the end backwards. */
  function Back(b: seq<byte>, m: nat): nat
    requires m <= |b|
  {
    if m == 0 then 0 else Back(b, m - 1) + Shl(b[|b| - m] as nat, 8 * (m - 1))
  }

  lemma {:induction false} FrontFrame(b: seq<byte>, c: seq<byte>, m: nat)
    requires m <= |b| && m <= |c| && b[..m] == c[..m]
    ensures Front(b, m) == Front(c, m)
  {
    if m > 0 {
      assert b[..m - 1] == b[..m][..m - 1] && c[..m - 1] == c[..m][..m - 1];
      assert b[m - 1] == b[..m][m - 1] && c[m - 1] == c[..m][m - 1];
      FrontFrame(b, c, m - 1);
    }
  }

  lemma {:induction false} BackFrame(b: seq<byte>, c: seq<byte>, m: nat)
    requires m <= |b| && m <= |c| && b[|b| - m..] == c[|c| - m..]
    ensures Back(b, m) == Back(c, m)
  {
    if m > 0 {
      assert b[|b| - m] == b[|b| - m..][0] && c[|c| - m] == c[|c| - m..][0];
      assert b[|b| - m + 1..] == b[|b| - m..][1..] && c[|c| - m + 1..] == c[|c| - m..][1..];
      BackFrame(b, c, m - 1);
    }
  }

  lemma {:induction false} BackBound(b: seq<byte>, m: nat)
    requires m <= |b|
    ensures Back(b, m) < Pow2(8 * m)
  {
    if m > 0 {
      BackBound(b, m - 1);
      Pow2Bytes();
      ShlFits(Back(b, m - 1), b[|b| - m] as nat, 8 * (m - 1), 8);
    }
  }

  /** The low bits of the backward number come from the last bytes only. */
  lemma {:induction false} BackLow(b: seq<byte>, m: nat, k: nat)
    requires m <= k <= |b|
    ensures Low(Back(b, k), 8 * m) == Back(b, m)
  {
    if k == m {
      BackBound(b, m);
      LowSmall(Back(b, m), 8 * m);
    } else {
      BackLow(b, m, k - 1);
      PlusFar(Back(b, k - 1), b[|b| - k] as nat, 8 * m, 8 * (k - 1), Back(b, k));
    }
  }

  /** ... and one byte further up, its low u bits. */
  lemma BackLowBits(b: seq<byte>, m: nat, u: nat)
    requires m < |b| && u <= 8
    ensures Low(Back(b, |b|), 8 * m + u) == Back(b, m) + Shl(Low(b[|b| - m - 1] as nat, u), 8 * m)
  {
    var v := b[|b| - m - 1] as nat;
    BackLow(b, m + 1, |b|);
    LowLow(Back(b, |b|), 8 * m + u, 8 * (m + 1));
    BackBound(b, m);
    Join(Back(b, m), v, 8 * m, Back(b, m + 1));
    LowSplit(Back(b, m + 1), 8 * m, u);
  }

  /** The buffer holds a stream that begins with what was coded so far. */
  ghost predicate Contains(c: Code, b: seq<byte>) {
    c.low <= Window(b, c.n) < c.low + c.rng && Low(Back(b, |b|), c.nraw) == c.raw
  }

  /** One more byte in: its top seven bits, below the last bit of the byte before it, enter the window. */
  lemma FrontNext(b: seq<byte>, m: nat)
    requires m > 0
    ensures Front(b, m + 1) / 2 == Front(b, m) / 2 * 256 + (ByteAt(b, m - 1) * 256 + ByteAt(b, m)) / 2 % 256
  {
    var f, r, x := Front(b, m - 1), ByteAt(b, m - 1), ByteAt(b, m);
    assert Front(b, m) == f * 256 + r;
    assert Front(b, m + 1) == (f * 256 + r) * 256 + x;
    assert (f * 256 + r) / 2 == f * 128 + r / 2;
    assert ((f * 256 + r) * 256 + x) / 2 == f * 32768 + r * 128 + x / 2;
    assert (r * 256 + x) / 2 == r * 128 + x / 2;
    assert (r * 128 + x / 2) % 256 == (r % 2) * 128 + x / 2;
  }

  lemma {:induction false} ScaleContains(c: Code, b: seq<byte>)
    requires 0 < c.rng <= CODE_TOP && Contains(Scale(c), b)
    ensures Contains(c, b)
    decreases CODE_TOP - c.rng
  {
    if c.rng <= CODE_BOT {
      ScaleContains(Shift(c), b);
      FrontNext(b, c.n + 4);
    }
  }

  lemma BitsContains(c: Code, op: Op, b: seq<byte>)
    requires ValidCode(c) && ValidOp(op) && op.Bits? && Contains(Put(c, op), b)
    ensures Contains(c, b) && Low(Shr(Back(b, |b|), c.nraw), op.nbits) == op.value
  {
    var back := Back(b, |b|);
    LowSplit(back, c.nraw, op.nbits);
    Split(back, c.nraw);
    var low := Low(back, c.nraw + op.nbits);
    Join(Low(back, c.nraw), Low(Shr(back, c.nraw), op.nbits), c.nraw, low);
    Join(c.raw, op.value, c.nraw, low);
  }

  /** A stream that begins with one more operation begins with what came before it. */
  lemma PutContains(c: Code, op: Op, b: seq<byte>)
    requires ValidCode(c) && ValidOp(op) && Contains(Put(c, op), b)
    ensures Contains(c, b)
    ensures op.Cut? ==> Contains(Narrow(c, op), b)
  {
    if op.Bits? {
      BitsContains(c, op, b);
    } else {
      ScaleContains(Narrow(c, op), b);
    }
  }

  lemma {:induction false} PutAllContains(c: Code, ops: seq<Op>, b: seq<byte>)
    requires ValidCode(c) && ValidOps(ops) && Contains(PutAll(c, ops), b)
    ensures Contains(c, b)
    decreases |ops|
  {
    if ops != [] {
      PutAllContains(Put(c, ops[0]), ops[1..], b);
      PutContains(c, ops[0], b);
    }
  }

  // ----- Ending the stream

  /** (x + msk) & ~msk, for a mask of k bits */
  function RoundUp(x: nat, k: nat): nat {
    Shl(Shr(x + Pow2(k) - 1, k), k)
  }

  /**
   ec_enc_done: how many bits of the low end, rounded up, must be sent so that whatever follows them stays in the
   interval: as many as the range has leading zeros, or one more.
   */
  function DoneBits(c: Code): nat
    requires ValidCode(c)
  {
    RangeBits(c.rng);
    var l := 32 - Ilog(c.rng);
    if RoundUp(c.low, 31 - l) + Pow2(31 - l) > c.low + c.rng then l + 1 else l
  }

  lemma RangeBits(rng: nat)
    requires CODE_BOT < rng <= CODE_TOP
    ensures 24 <= Ilog(rng) <= 32 && Pow2(Ilog(rng) - 1) <= rng
  {
    IlogBounds(rng);
    Pow2Bytes();
    if Ilog(rng) > 32 {
      Pow2Monotone(32, Ilog(rng) - 1);
    }
    if Ilog(rng) < 24 {
      Pow2Monotone(Ilog(rng), 23);
    }
  }

  lemma RoundUpBounds(x: nat, k: nat)
    ensures x <= RoundUp(x, k) < x + Pow2(k) && Low(RoundUp(x, k), k) == 0
  {
    Split(x + Pow2(k) - 1, k);
    Join(0, Shr(x + Pow2(k) - 1, k), k, RoundUp(x, k));
  }

  /** The block of values that begin with the bits sent lies in the coding interval. */
  lemma DoneBlock(c: Code)
    requires ValidCode(c)
    ensures DoneBits(c) <= 9
    ensures var k := 31 - DoneBits(c); c.low <= RoundUp(c.low, k) && RoundUp(c.low, k) + Pow2(k) <= c.low + c.rng
  {
    RangeBits(c.rng);
    RoundUpBounds(c.low, 31 - DoneBits(c));
  }

  /** No more bits are sent in all than ec_tell has announced. */
  lemma DoneBitsWithinTell(c: Code)
    requires ValidCode(c)
    ensures 8 * c.n + DoneBits(c) + c.nraw <= Tell(c)
  {
    RangeBits(c.rng);
  }

  lemma {:induction false} FrontTail(b: seq<byte>, m: nat, j: nat)
    ensures Shl(Front(b, m), 8 * j) <= Front(b, m + j) < Shl(Front(b, m) + 1, 8 * j)
  {
    if j > 0 {
      FrontTail(b, m, j - 1);
      var f, up := Front(b, m), 8 * (j - 1);
      assert 8 * j == up + 8;
      ShlShl(f, up, 8);
      ShlShl(f + 1, up, 8);
      ShlByte(Shl(f, up));
      ShlByte(Shl(f + 1, up));
    }
  }

  lemma Realign(k: nat, v: nat, e: nat)
    requires k <= 4 && v * CODE_TOP == Shl(e, 8 * k)
    ensures Shl(v, 8 * (4 - k)) == 2 * e
  {
    ShlTop(v);
    assert Shl(v, 32) == 2 * Shl(v, 31) && Shl(e, 8 * k + 1) == 2 * Shl(e, 8 * k);
    ShlShl(v, 8 * (4 - k), 8 * k);
    ShlShl(e, 1, 8 * k);
    ShlInjective(Shl(v, 8 * (4 - k)), Shl(e, 1), 8 * k);
  }

  /** Bytes whose leading bits are those of e, with anything after them, put the window within the block of e. */
  lemma DoneWindow(b: seq<byte>, n: nat, k: nat, l: nat, v: nat, e: nat)
    requires l <= 8 * k < l + 8 && k <= 2
    requires v * CODE_TOP == Shl(e, 8 * k)
    requires v <= Front(b, n + k) < v + Pow2(8 * k - l)
    ensures e <= Window(b, n) < e + Pow2(31 - l)
  {
    FrontTail(b, n + k, 4 - k);
    assert n + k + (4 - k) == n + 4;
    Realign(k, v, e);
    BlockBounds(Front(b, n + k), v, 8 * k - l, 8 * (4 - k));
    assert 8 * k - l + 8 * (4 - k) == 32 - l;
    assert Pow2(32 - l) == 2 * Pow2(31 - l);
  }

  /** A buffer with the bytes of the final block in front and the raw bits at the back holds the whole stream. */
  lemma DoneContains(c: Code, b: seq<byte>, k: nat, v: nat)
    requires ValidCode(c) && k <= 2 && DoneBits(c) <= 8 * k < DoneBits(c) + 8
    requires v * CODE_TOP == Shl(RoundUp(c.low, 31 - DoneBits(c)), 8 * k)
    requires v <= Front(b, c.n + k) < v + Pow2(8 * k - DoneBits(c))
    requires Low(Back(b, |b|), c.nraw) == c.raw
    ensures Contains(c, b)
  {
    DoneBlock(c);
    DoneWindow(b, c.n, k, DoneBits(c), v, RoundUp(c.low, 31 - DoneBits(c)));
  }

  lemma BlockBounds(f: nat, v: nat, s: nat, t: nat)
    requires v <= f < v + Pow2(s)
    ensures Shl(v, t) <= Shl(f, t) && Shl(f + 1, t) <= Shl(v, t) + Pow2(s + t)
  {
    ShlMonotone(v, f, t);
    ShlMonotone(f + 1, v + Pow2(s), t);
    ShlSum(v, Pow2(s), t);
    ShlPow2(s, t);
  }

  // ----- The decoder

  datatype Dec = Dec(b: seq<byte>, n: nat, val: nat, rng: nat, pos: nat)

  predicate ValidDec(d: Dec) {
    CODE_BOT < d.rng <= CODE_TOP && d.val < d.rng
  }

  /** After ec_dec_init: 31 bits taken in, 2^31 - 1 less them in val. */
  function DecInit(b: seq<byte>): (d: Dec)
    ensures ValidDec(d)
  {
    FrontBound(b, 4);
    Dec(b, 0, CODE_TOP - 1 - Window(b, 0), CODE_TOP, 0)
  }

  lemma {:induction false} FrontBound(b: seq<byte>, m: nat)
    ensures Front(b, m) < Pow2(8 * m)
    ensures m == 4 ==> Front(b, m) < 0x1_0000_0000
  {
    if m > 0 {
      FrontBound(b, m - 1);
      ShlPow2(8 * (m - 1), 8);
      ShlByte(Pow2(8 * (m - 1)));
      Pow2Bytes();
    }
  }

  /** The pointer lies in the part of the range that the operation keeps. */
  predicate Inside(op: Op, val: nat, rng: nat) {
    op.Cut? && op.ft > 0 && Lo(op, rng) <= val < Hi(op, rng)
  }

  /** The raw bits the decoder takes to come next. */
  function RawNext(d: Dec, nbits: nat): nat {
    Low(Shr(Back(d.b, |d.b|), d.pos), nbits)
  }

  /** Renormalisation: the next byte's bits enter below, complemented. */
  function DecScale(d: Dec): (s: Dec)
    requires d.val < d.rng <= CODE_TOP
    ensures ValidDec(s) && s.b == d.b && s.pos == d.pos
    decreases CODE_TOP - d.rng
  {
    if d.rng <= CODE_BOT then DecScale(DecShift(d)) else d
  }

  function DecShift(d: Dec): (s: Dec)
    ensures d.val < d.rng ==> s.val < s.rng
  {
    var sym := (ByteAt(d.b, d.n + 3) * 256 + ByteAt(d.b, d.n + 4)) / 2 % 256;
    d.(n := d.n + 1, val := d.val * 256 + (255 - sym), rng := d.rng * 256)
  }

  function DecNarrow(d: Dec, op: Op): (s: Dec)
    requires ValidDec(d) && ShapedOp(op) && Inside(op, d.val, d.rng)
    ensures s.val < s.rng <= CODE_TOP && s.b == d.b
  {
    CutFits(op, d.rng);
    d.(val := d.val - Lo(op, d.rng), rng := Hi(op, d.rng) - Lo(op, d.rng))
  }

  function Advance(d: Dec, op: Op): (s: Dec)
    requires ValidDec(d) && Readable(d, op)
    ensures ValidDec(s) && s.b == d.b
  {
    if op.Bits? then d.(pos := d.pos + op.nbits) else DecScale(DecNarrow(d, op))
  }

  /** An operation that this state of the decoder can be read as. */
  predicate Readable(d: Dec, op: Op) {
    ShapedOp(op) && (op.Cut? ==> Inside(op, d.val, d.rng))
  }

  /** The decoder after a list of operations was read. */
  function AdvanceAll(b: seq<byte>, ops: seq<Op>): (d: Dec)
    ensures ValidDec(d) && d.b == b
  {
    if ops == [] then DecInit(b)
    else
      var d, op := AdvanceAll(b, ops[..|ops| - 1]), ops[|ops| - 1];
      if Readable(d, op) then Advance(d, op) else d
  }

  // ----- The round trip

  /** The decoder has followed the encoder: same range, same position, and val holds high end - 1 - pointer. */
  ghost predicate InStep(c: Code, d: Dec) {
    && d.rng == c.rng && d.n == c.n && d.pos == c.nraw
    && d.val == c.low + c.rng - 1 - Window(d.b, c.n)
  }

  lemma {:induction false} ScaleInStep(c: Code, d: Dec)
    requires 0 < c.rng <= CODE_TOP && d.val < d.rng && InStep(c, d)
    ensures InStep(Scale(c), DecScale(d))
    decreases CODE_TOP - c.rng
  {
    if c.rng <= CODE_BOT {
      FrontNext(d.b, c.n + 4);
      ScaleInStep(Shift(c), DecShift(d));
    }
  }

  /** One operation of the round trip: the decoder's pointer is in its part, and the decoder stays in step. */
  lemma StepInStep(c: Code, d: Dec, op: Op)
    requires ValidCode(c) && ValidDec(d) && InStep(c, d) && ValidOp(op)
    requires Contains(Put(c, op), d.b)
    ensures op.Cut? ==> Inside(op, d.val, d.rng)
    ensures op.Bits? ==> RawNext(d, op.nbits) == op.value
    ensures InStep(Put(c, op), Advance(d, op))
  {
    PutContains(c, op, d.b);
    if op.Bits? {
      BitsContains(c, op, d.b);
    } else {
      CutFits(op, c.rng);
      ScaleInStep(Narrow(c, op), DecNarrow(d, op));
    }
  }

  lemma PutLast(ops: seq<Op>, op: Op)
    requires ValidOps(ops + [op])
    ensures ValidOps(ops) && ValidOp(op) && PutAll(INIT, ops + [op]) == Put(PutAll(INIT, ops), op)
  {
    assert forall i :: 0 <= i < |ops| ==> (ops + [op])[i] == ops[i];
    assert (ops + [op])[|ops|] == op;
    PutAllAppend(INIT, ops, [op]);
    var c := PutAll(INIT, ops);
    assert PutAll(c, [op]) == PutAll(Put(c, [op][0]), [op][1..]);
  }

  lemma PrefixContains(ops: seq<Op>, script: seq<Op>, b: seq<byte>)
    requires ops <= script && ValidOps(script) && Contains(PutAll(INIT, script), b)
    ensures ValidOps(ops) && Contains(PutAll(INIT, ops), b)
  {
    var rest := script[|ops|..];
    assert script == ops + rest;
    assert forall i :: 0 <= i < |ops| ==> ops[i] == script[i];
    PutAllAppend(INIT, ops, rest);
    PutAllContains(PutAll(INIT, ops), rest, b);
  }

  /** A decoder that has read a prefix of what was coded is in step with the encoder at that point. */
  lemma {:induction false} PrefixInStep(ops: seq<Op>, script: seq<Op>, b: seq<byte>)
    requires ops <= script && ValidOps(script) && Contains(PutAll(INIT, script), b)
    ensures ValidOps(ops) && InStep(PutAll(INIT, ops), AdvanceAll(b, ops))
  {
    if ops == [] {
      FrontBound(b, 4);
    } else {
      var k := |ops| - 1;
      assert ops == ops[..k] + [ops[k]];
      PrefixInStep(ops[..k], script, b);
      PrefixContains(ops, script, b);
      PutLast(ops[..k], ops[k]);
      StepInStep(PutAll(INIT, ops[..k]), AdvanceAll(b, ops[..k]), ops[k]);
    }
  }

  /** What was coded next can be read next. */
  lemma NextReadable(ops: seq<Op>, op: Op, script: seq<Op>, b: seq<byte>)
    requires ops + [op] <= script && ValidOps(script) && Contains(PutAll(INIT, script), b)
    ensures ValidOp(op) && Readable(AdvanceAll(b, ops), op)
    ensures op.Bits? ==> RawNext(AdvanceAll(b, ops), op.nbits) == op.value
  {
    assert ops == (ops + [op])[..|ops|];
    PrefixInStep(ops, script, b);
    PrefixContains(ops + [op], script, b);
    PutLast(ops, op);
    StepInStep(PutAll(INIT, ops), AdvanceAll(b, ops), op);
  }

  lemma Regroup(a: seq<Op>, b: seq<Op>, c: seq<Op>)
    ensures a + (b + c) == a + b + c
  {
  }

  lemma PrefixTrans(t0: seq<Op>, a: seq<Op>, b: seq<Op>, script: seq<Op>)
    requires a <= b && t0 + b <= script
    ensures t0 + a <= script
  {
  }

  // ----- The calls of the library as operations

  /** ec_encode */
  function SymOp(fl: nat, fh: nat, ft: nat): Op
    requires fl <= fh <= ft
  {
    Cut(ft, ft - fh, ft - fl, fl == 0)
  }

  /** ec_enc_bit_logp */
  function BitOp(bit: bool, logp: nat): Op {
    if bit then Cut(Pow2(logp), 0, 1, false) else Cut(Pow2(logp), 1, Pow2(logp), true)
  }

  /** The symbols of a table divide the range from its low end up, all but the first into equal steps. */
  lemma SymbolsInOrder(c: Code, fl: nat, fm: nat, fh: nat, ft: nat)
    requires ValidCode(c) && fl < fm < fh <= ft <= CODE_BOT
    ensures var s, t := Narrow(c, SymOp(fl, fm, ft)), Narrow(c, SymOp(fm, fh, ft));
      && t.low == s.low + s.rng && t.rng == (fh - fm) * (c.rng / ft)
      && (fl == 0 ==> s.low == c.low) && (fh == ft ==> t.low + t.rng == c.low + c.rng)
  {
    SplitSteps(c.rng / ft, ft - fm, ft - fh);
  }

  predicate ValidIcdf(icdf: seq<nat>, ftb: nat) {
    && |icdf| > 0 && ftb <= 23
    && icdf[0] <= Pow2(ftb) && icdf[|icdf| - 1] == 0
    && forall i, j :: 0 <= i <= j < |icdf| ==> icdf[j] <= icdf[i]
  }

  /** ec_enc_icdf and ec_enc_icdf16 */
  function IcdfOp(s: nat, icdf: seq<nat>, ftb: nat): Op
    requires s < |icdf|
  {
    Cut(Pow2(ftb), icdf[s], if s > 0 then icdf[s - 1] else Pow2(ftb), s == 0)
  }

  lemma PrecisionFits(bits: nat)
    requires bits <= 23
    ensures Pow2(bits) <= CODE_BOT
    ensures bits >= 1 ==> Pow2(bits) >= 2
  {
    Pow2Bytes();
    Pow2Monotone(bits, 23);
  }

  /** A bit may be coded by any of the four routines and decoded by any other: they are the same operation. */
  lemma BitRoutinesAgree(bit: bool, logp: nat)
    requires 1 <= logp <= 23
    ensures ValidOp(BitOp(bit, logp))
    ensures var ft := Pow2(logp);
      BitOp(bit, logp) == SymOp(if bit then ft - 1 else 0, if bit then ft else ft - 1, ft)
    ensures BitOp(bit, logp) == IcdfOp(if bit then 1 else 0, [1, 0], logp)
  {
    PrecisionFits(logp);
  }

  /** The cumulative frequency under the pointer: what ec_decode returns. */
  function FreqAt(val: nat, rng: nat, ft: nat): (fs: nat)
    requires 1 <= ft <= rng
    ensures fs < ft
  {
    DivBounds(rng, ft, 1);
    ft - Min(val / (rng / ft) + 1, ft)
  }

  /** The frequency found lies in [fl, fh) exactly when the pointer lies in the part coded for [fl, fh). */
  lemma FreqAtInside(fl: nat, fh: nat, ft: nat, val: nat, rng: nat)
    requires fl < fh <= ft <= rng && val < rng
    ensures Inside(SymOp(fl, fh, ft), val, rng) <==> fl <= FreqAt(val, rng, ft) < fh
  {
    var r := rng / ft;
    StepsFit(rng, ft, ft - fh, ft - fl);
    DivBounds(val, r, ft - fh);
    DivBounds(val, r, ft - fl);
    assert (ft - fh) * r == r * (ft - fh) && (ft - fl) * r == r * (ft - fl);
  }

  /** The first table entry the pointer has passed: where the loop of ec_dec_icdf stops. */
  function IcdfIndex(val: nat, r: int, icdf: seq<nat>, from: nat): (k: nat)
    requires from < |icdf| && icdf[|icdf| - 1] == 0
    ensures from <= k < |icdf| && r * icdf[k] <= val
    ensures forall i :: from <= i < k ==> val < r * icdf[i]
    decreases |icdf| - from
  {
    if val < r * icdf[from] then IcdfIndex(val, r, icdf, from + 1) else from
  }

  /** On any data, the entry found is one whose part holds the pointer. */
  lemma IcdfIndexInside(val: nat, rng: nat, icdf: seq<nat>, ftb: nat)
    requires ValidIcdf(icdf, ftb) && val < rng
    ensures Inside(IcdfOp(IcdfIndex(val, rng / Pow2(ftb), icdf, 0), icdf, ftb), val, rng)
  {
  }

  /** ... and the only one. */
  lemma IcdfIndexExact(val: nat, rng: nat, s: nat, icdf: seq<nat>, ftb: nat)
    requires ValidIcdf(icdf, ftb) && s < |icdf|
    requires Inside(IcdfOp(s, icdf, ftb), val, rng)
    ensures IcdfIndex(val, rng / Pow2(ftb), icdf, 0) == s
  {
    IcdfBounds(val, rng, rng / Pow2(ftb), s, icdf, ftb);
    IcdfAt(val, rng / Pow2(ftb), s, icdf);
  }

  lemma IcdfBounds(val: nat, rng: nat, r: int, s: nat, icdf: seq<nat>, ftb: nat)
    requires ValidIcdf(icdf, ftb) && s < |icdf| && Inside(IcdfOp(s, icdf, ftb), val, rng) && r == rng / Pow2(ftb)
    ensures r >= 0 && r * icdf[s] <= val && (s > 0 ==> val < r * icdf[s - 1])
  {
    InsideSteps(IcdfOp(s, icdf, ftb), val, rng, r);
  }

  lemma InsideSteps(op: Op, val: nat, rng: nat, r: int)
    requires Inside(op, val, rng) && r == rng / op.ft
    ensures r >= 0 && r * op.rest <= val && (!op.open ==> val < r * op.top)
  {
  }

  lemma IcdfAt(val: nat, r: int, s: nat, icdf: seq<nat>)
    requires s < |icdf| && icdf[|icdf| - 1] == 0 && (forall i, j :: 0 <= i <= j < |icdf| ==> icdf[j] <= icdf[i])
    requires r >= 0 && r * icdf[s] <= val && (s > 0 ==> val < r * icdf[s - 1])
    ensures IcdfIndex(val, r, icdf, 0) == s
  {
    var k := IcdfIndex(val, r, icdf, 0);
    if k < s {
      MulMonotone(r, icdf[s - 1], icdf[k]);
    }
  }

  /** ec_enc_uint: the top eight bits range coded, the rest raw. */
  function UintOps(v: nat, ft: nat): seq<Op>
    requires v < ft
  {
    var ftb := Ilog(ft - 1);
    if ftb > 8 then HighOps(v, ft - 1, ftb - 8) else [SymOp(v, v + 1, ft)]
  }

  function HighOps(v: nat, max: nat, ftb: nat): seq<Op>
    requires v <= max
  {
    ShrMonotone(v, max, ftb);
    [SymOp(Shr(v, ftb), Shr(v, ftb) + 1, Shr(max, ftb) + 1), Bits(Low(v, ftb), ftb)]
  }

  lemma UintOpsAre(v: nat, ft: nat, max: nat)
    requires v < ft && max == ft - 1
    ensures UintOps(v, ft) == if Ilog(max) > 8 then HighOps(v, max, Ilog(max) - 8) else [SymOp(v, v + 1, max + 1)]
  {
  }

  lemma AppendTwo(trace: seq<Op>, a: Op, b: Op, script: seq<Op>)
    ensures trace + [a] + [b] == trace + [a, b]
    ensures trace + [a, b] <= script ==> trace + [a] <= script
  {
    assert trace + [a, b] == trace + [a] + [b];
  }

  /** The range-coded part of an integer below 2^32 has at most 256 values; the raw part at most 24 bits. */
  lemma UintTop(max: nat)
    requires 1 <= max < 0x1_0000_0000
    ensures 1 <= Ilog(max) <= 32
    ensures Ilog(max) <= 8 ==> max < 256
    ensures Ilog(max) > 8 ==> 128 <= Shr(max, Ilog(max) - 8) < 256
  {
    IlogBounds(max);
    Pow2Bytes();
    if Ilog(max) > 32 {
      Pow2Monotone(32, Ilog(max) - 1);
    }
    if Ilog(max) > 8 {
      TopByte(max);
    } else {
      Pow2Monotone(Ilog(max), 8);
    }
  }

  lemma {:induction false} TopByte(x: nat)
    requires Ilog(x) >= 8
    ensures 128 <= Shr(x, Ilog(x) - 8) < 256
  {
    if Ilog(x) == 8 {
      IlogBounds(x);
      assert Pow2(7) == 128 && Pow2(8) == 256;
    } else {
      TopByte(x / 2);
      ShrHalf(x, Ilog(x) - 9);
    }
  }
}
