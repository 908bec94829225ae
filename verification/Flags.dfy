/**
 Single flags through the coder, and how many bits they use. The side information of a frame is coded while the
 budget lasts, so both sides decide from ec_tell alone.
 */
module Flags {
  import opened Arith
  import opened FracTelling
  import opened RangeSpec
  import opened RangeEncoder
  import opened RangeDecoder

  /** The coder after what was coded so far. */
  function After(ops: seq<Op>): (c: Code)
    requires ValidOps(ops)
    ensures ValidCode(c)
  {
    PutAll(INIT, ops)
  }

  function PutBit(c: Code, bit: bool, logp: nat): (s: Code)
    requires ValidCode(c) && 1 <= logp <= 23
    ensures ValidCode(s)
  {
    BitRoutinesAgree(bit, logp);
    Put(c, BitOp(bit, logp))
  }

  /** ec_tell_frac of the coder. */
  function TellEighths(c: Code): int
    requires ValidCode(c)
  {
    FracTell(33 + 8 * c.n + c.nraw, c.rng)
  }

  lemma AfterBit(ops: seq<Op>, bit: bool, logp: nat)
    requires ValidOps(ops) && 1 <= logp <= 23
    ensures ValidOps(ops + [BitOp(bit, logp)]) && After(ops + [BitOp(bit, logp)]) == PutBit(After(ops), bit, logp)
  {
    BitRoutinesAgree(bit, logp);
    assert forall i :: 0 <= i < |ops + [BitOp(bit, logp)]| ==>
      (ops + [BitOp(bit, logp)])[i] == if i < |ops| then ops[i] else BitOp(bit, logp);
    PutLast(ops, BitOp(bit, logp));
  }

  lemma EncoderTells(enc: Encoder)
    requires enc.Valid()
    ensures ValidOps(enc.trace) && enc.Tell() == Tell(After(enc.trace))
    ensures enc.TellFrac() == TellEighths(After(enc.trace))
  {
  }

  /** A decoder in sync uses as many bits as the encoder had used at that point. */
  lemma DecoderTells(dec: Decoder, ops: seq<Op>)
    requires dec.Valid() && dec.trace == ops && ops <= dec.script
    ensures ValidOps(ops) && dec.Tell() == Tell(After(ops)) && dec.TellFrac() == TellEighths(After(ops))
  {
    PrefixInStep(ops, dec.script, dec.buf);
  }

  /** The coder has come to a point of the call that began after t0. */
  ghost predicate AtPoint(t0: seq<Op>, ops: seq<Op>, code: Code, done: seq<Op>) {
    ValidOps(ops) && ops == t0 + done && After(ops) == code
  }

  // ----- What a flag costs

  /** Renormalisation does not change the number of bits used. */
  lemma {:induction false} ScaleTells(c: Code)
    requires 0 < c.rng <= CODE_TOP
    ensures Tell(Scale(c)) == Tell(c)
    decreases CODE_TOP - c.rng
  {
    if c.rng <= CODE_BOT {
      IlogShift(c.rng, 8);
      ShlByte(c.rng);
      ScaleTells(Shift(c));
    }
  }

  lemma {:induction false} IlogShift(x: nat, k: nat)
    requires x > 0
    ensures Ilog(Shl(x, k)) == Ilog(x) + k && Shl(x, k) > 0
  {
    if k > 0 {
      IlogShift(x, k - 1);
    }
  }

  lemma {:induction false} IlogMonotone(x: nat, y: nat)
    requires x <= y
    ensures Ilog(x) <= Ilog(y)
  {
    if x > 0 {
      IlogMonotone(x / 2, y / 2);
    }
  }

  lemma {:induction false} IlogShr(x: nat, k: nat)
    requires k < Ilog(x)
    ensures Ilog(Shr(x, k)) == Ilog(x) - k
  {
    if k > 0 {
      IlogShr(x, k - 1);
    }
  }

  /** A flag of probability 2^-logp costs exactly logp bits when it is set and at most one when it is not. */
  lemma BitCosts(c: Code, bit: bool, logp: nat)
    requires ValidCode(c) && 1 <= logp <= 23
    ensures Tell(PutBit(c, bit, logp)) <= Tell(c) + if bit then logp else 1
    ensures Tell(PutBit(c, bit, logp)) >= Tell(c)
    ensures bit ==> Tell(PutBit(c, bit, logp)) == Tell(c) + logp
  {
    BitRoutinesAgree(bit, logp);
    var op := BitOp(bit, logp);
    CutFits(op, c.rng);
    ScaleTells(Narrow(c, op));
    DivBounds(c.rng, Pow2(logp), c.rng);
    BitRange(c.rng, logp, Pow2(logp), c.rng / Pow2(logp));
    CutBit(c, bit, logp);
  }

  lemma CutBit(c: Code, bit: bool, logp: nat)
    requires ValidCode(c) && 1 <= logp <= 23 && ValidOp(BitOp(bit, logp))
    ensures var s := c.rng / Pow2(logp);
      Narrow(c, BitOp(bit, logp)).rng == if bit then s else c.rng - s
  {
  }

  lemma BitRange(rng: nat, logp: nat, p: nat, s: nat)
    requires CODE_BOT < rng <= CODE_TOP && 1 <= logp <= 23 && p == Pow2(logp) && s <= rng && s == rng / p
    ensures Ilog(s) == Ilog(rng) - logp && Ilog(rng) - 1 <= Ilog(rng - s) <= Ilog(rng)
  {
    RangeBits(rng);
    QuotientRange(rng, logp, p, s);
    assert p == 2 * Pow2(logp - 1);
    RestRange(rng, p, s);
  }

  lemma QuotientRange(rng: nat, k: nat, p: nat, s: nat)
    requires k < Ilog(rng) && p == Pow2(k) && s == rng / p
    ensures Ilog(s) == Ilog(rng) - k
  {
    ShrQuotient(rng, k);
    IlogShr(rng, k);
  }

  lemma RestRange(rng: nat, p: nat, s: nat)
    requires rng > 1 && p >= 2 && s == rng / p
    ensures s <= rng && Ilog(rng) - 1 <= Ilog(rng - s) <= Ilog(rng)
  {
    HalfLeft(rng, p, s);
    IlogMonotone(rng / 2, rng - s);
    IlogMonotone(rng - s, rng);
  }

  lemma HalfLeft(rng: nat, p: nat, s: nat)
    requires p >= 2 && s == rng / p
    ensures rng / 2 <= rng - s <= rng
  {
    DivBounds(rng, p, s);
    MulMonotone(s, 2, p);
  }

  /** A symbol of b-bit precision costs b bits at most. */
  lemma CutCosts(c: Code, op: Op, b: nat)
    requires ValidCode(c) && ValidOp(op) && op.Cut? && b <= 23 && op.ft == Pow2(b)
    ensures Tell(Put(c, op)) <= Tell(c) + b
  {
    CutFits(op, c.rng);
    ScaleTells(Narrow(c, op));
    CutLeaves(op, c.rng, c.rng / op.ft);
    PartRange(c.rng, b, op.ft, c.rng / op.ft, Narrow(c, op).rng);
  }

  lemma PartRange(rng: nat, b: nat, p: nat, r: nat, part: nat)
    requires CODE_BOT < rng <= CODE_TOP && b <= 23 && p == Pow2(b) && part >= r == rng / p
    ensures Ilog(part) >= Ilog(rng) - b
  {
    RangeBits(rng);
    QuotientRange(rng, b, p, r);
    IlogMonotone(r, part);
  }

  lemma CutLeaves(op: Op, rng: nat, r: nat)
    requires op.Cut? && ValidOp(op) && CODE_BOT <= rng && r == rng / op.ft
    ensures Hi(op, rng) - Lo(op, rng) >= r
  {
    StepsFit(rng, op.ft, op.rest, op.ft);
    SplitSteps(r, op.top, op.rest);
    MulMonotone(r, 1, op.top - op.rest);
  }

  // ----- Flags through the classes

  method EncodeFlag(enc: Encoder, bit: bool, logp: nat)
    requires enc.Valid() && 1 <= logp <= 23
    modifies enc, enc.buf
    ensures enc.Valid() && enc.storage == old(enc.storage) && enc.trace == old(enc.trace) + [BitOp(bit, logp)]
    ensures ValidOps(old(enc.trace)) && After(enc.trace) == PutBit(After(old(enc.trace)), bit, logp)
  {
    AfterBit(enc.trace, bit, logp);
    enc.BitLogp(bit, logp);
  }
}
