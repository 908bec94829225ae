/**
 The decoder of entdec.c. It is proved against `RangeSpec.Advance` on any bytes whatever; when the bytes are an
 encoder's, the ghost field `script` is what was coded, `trace` what was read, and every read returns what was written.
 */
module RangeDecoder {
  import opened Arith
  import opened RangeSpec
  import opened FracTelling

  lemma ByteFromEnd(b: seq<byte>, m: nat, u: nat)
    requires u == 8
    ensures Low(Shr(Back(b, |b|), 8 * m), u) == if m < |b| then b[|b| - 1 - m] as nat else 0
  {
    var back := Back(b, |b|);
    if m < |b| {
      var v := b[|b| - 1 - m] as nat;
      assert 8 * m + u == 8 * (m + 1);
      BackLow(b, m + 1, |b|);
      BackLow(b, m, |b|);
      LowSplit(back, 8 * m, u);
      ShlInjective(v, Low(Shr(back, 8 * m), u), 8 * m);
    } else {
      BackBound(b, |b|);
      Pow2Monotone(8 * |b|, 8 * m);
      LowSmall(back, 8 * m);
      LowSmall(0, u);
    }
  }

  /** Reading one more byte into the window keeps it equal to the bits at the read position. */
  lemma RefillWindow(back: nat, pos: nat, have: nat, byte: nat, u: nat)
    requires byte == Low(Shr(back, pos + have), u)
    ensures Low(Shr(back, pos), have + u) == Low(Shr(back, pos), have) + Shl(byte, have)
    ensures Low(Shr(back, pos), have) < Pow2(have) && byte < Pow2(u)
  {
    ShrShr(back, pos, have);
    LowSplit(Shr(back, pos), have, u);
    Split(Shr(back, pos), have);
    Split(Shr(back, pos + have), u);
  }

  /** Taking bits off the window keeps it equal to the bits at the new position. */
  lemma DrainWindow(back: nat, pos: nat, have: nat, take: nat, window: nat)
    requires take <= have && window == Low(Shr(back, pos), have)
    ensures Low(window, take) == Low(Shr(back, pos), take)
    ensures Shr(window, take) == Low(Shr(back, pos + take), have - take)
  {
    var x := Shr(back, pos);
    LowLow(x, take, have);
    ShrShr(back, pos, take);
    LowSplit(x, take, have - take);
    Split(x, take);
    Join(Low(x, take), Low(Shr(x, take), have - take), take, window);
  }

  class Decoder {
    const buf: seq<byte>
    var endOffs: nat
    var endWindow: uint32
    var nendBits: nat
    var nbitsTotal: int
    var offs: nat
    var rng: uint32
    var val: uint32
    var ext: nat
    var rem: nat
    var error: int

    ghost var taken: nat         // bytes taken in from the front, counting those past the buffer
    ghost var pos: nat           // raw bits handed out
    ghost var rawIn: nat         // bytes taken in from the end, counting those past the buffer
    ghost var trace: seq<Op>     // everything read so far
    ghost const script: seq<Op>  // what an encoder coded into the buffer; empty if nothing is known of it

    ghost function State(): Dec
      requires taken >= 4
      reads this`taken, this`val, this`rng, this`pos
    {
      Dec(buf, taken - 4, val, rng, pos)
    }

    ghost predicate FrontRead()
      reads this`taken, this`offs, this`rem
    {
      taken > 0 && offs == Min(taken, |buf|) && rem == ByteAt(buf, taken - 1)
    }

    ghost predicate BackRead()
      reads this`rawIn, this`endOffs, this`endWindow, this`nendBits, this`pos
    {
      && endOffs == Min(rawIn, |buf|) && nendBits <= 32 && pos + nendBits == 8 * rawIn
      && endWindow == Low(Shr(Back(buf, |buf|), pos), nendBits)
    }

    ghost predicate Valid()
      reads this
    {
      && taken >= 4 && FrontRead() && BackRead() && State() == AdvanceAll(buf, trace)
      && ValidOps(script) && Contains(PutAll(INIT, script), buf)
      && nbitsTotal == 1 + 8 * taken + pos
    }

    /** ec_tell */
    function Tell(): int
      reads this`nbitsTotal, this`rng
    {
      nbitsTotal - Ilog(rng)
    }

    /** ec_tell_frac */
    function TellFrac(): int
      requires rng > CODE_BOT
      reads this`nbitsTotal, this`rng
    {
      FracTell(nbitsTotal, rng)
    }

    /** Everything so far was read as it was coded, and this is what was coded next. */
    ghost predicate Next(op: Op)
      reads this`trace
    {
      trace + [op] <= script
    }

    /** ec_read_byte */
    method ReadByte() returns (r: nat)
      requires FrontRead()
      modifies this`offs, this`taken
      ensures taken == old(taken) + 1 && offs == Min(taken, |buf|) && r == ByteAt(buf, taken - 1)
    {
      taken := taken + 1;
      if offs < |buf| {
        r := buf[offs] as nat;
        offs := offs + 1;
      } else {
        r := 0;
      }
    }

    /** ec_read_byte_from_end */
    method ReadByteFromEnd() returns (r: nat)
      requires endOffs == Min(rawIn, |buf|)
      modifies this`endOffs, this`rawIn
      ensures rawIn == old(rawIn) + 1 && endOffs == Min(rawIn, |buf|)
      ensures r == if old(rawIn) < |buf| then buf[|buf| - 1 - old(rawIn)] as nat else 0
    {
      rawIn := rawIn + 1;
      if endOffs < |buf| {
        endOffs := endOffs + 1;
        r := buf[|buf| - endOffs] as nat;
      } else {
        r := 0;
      }
    }

    /** One round of ec_dec_normalize. */
    method ShiftIn()
      requires FrontRead() && val < rng <= CODE_BOT
      modifies this`nbitsTotal, this`rng, this`rem, this`val, this`offs, this`taken
      ensures FrontRead() && taken == old(taken) + 1 && nbitsTotal == old(nbitsTotal) + 8
      ensures rng == old(rng) * 256 && val < rng
      ensures val == old(val) * 256 + (255 - (old(rem) * 256 + rem) / 2 % 256)
    {
      nbitsTotal := nbitsTotal + 8;
      rng := rng * 256;
      var sym := rem;
      rem := ReadByte();
      sym := (sym * 256 + rem) / 2 % 256;
      val := (val * 256 + (255 - sym)) % CODE_TOP;
    }

    /** ec_dec_normalize */
    method Normalize()
      requires taken >= 4 && FrontRead() && val < rng <= CODE_TOP
      modifies this`nbitsTotal, this`rng, this`rem, this`val, this`offs, this`taken
      ensures taken >= 4 && FrontRead() && State() == DecScale(old(State()))
      ensures nbitsTotal == old(nbitsTotal) + 8 * (taken - old(taken))
    {
      while rng <= CODE_BOT
        invariant taken >= 4 && FrontRead() && val < rng <= CODE_TOP
        invariant DecScale(State()) == DecScale(old(State()))
        invariant nbitsTotal == old(nbitsTotal) + 8 * (taken - old(taken))
        decreases CODE_TOP - rng
      {
        ghost var d := State();
        ShiftIn();
        assert State() == DecShift(d);
      }
    }

    /** ec_dec_init */
    constructor (buf: seq<byte>, ghost script: seq<Op>)
      requires ValidOps(script) && Contains(PutAll(INIT, script), buf)
      ensures Valid() && this.buf == buf && this.script == script
      ensures trace == [] && error == 0
    {
      this.buf, this.script := buf, script;
      endOffs, endWindow, nendBits, offs := 0, 0, 0, 0;
      nbitsTotal := 33 - 24;
      ext, rem, val, rng, error := 0, 0, 0, 0x80, 0;
      pos, rawIn, taken, trace := 0, 0, 1, [];
      new;
      if offs < |buf| {
        rem := buf[offs] as nat;
        offs := offs + 1;
      }
      val := rng - 1 - rem / 2;
      FillWindow();
    }

    /** The renormalisation at the end of ec_dec_init, from 7 bits of range to 31. */
    method FillWindow()
      requires FrontRead() && taken == 1 && rng == 0x80 && val + 1 + Front(buf, 1) / 2 == 0x80 && nbitsTotal == 9
      modifies this`nbitsTotal, this`rng, this`rem, this`val, this`offs, this`taken
      ensures FrontRead() && taken == 4 && nbitsTotal == 33
      ensures State() == DecInit(buf).(pos := pos)
    {
      while rng <= CODE_BOT
        invariant FrontRead() && 1 <= taken <= 4 && val < rng
        invariant rng == if taken == 1 then 0x80 else if taken == 2 then 0x8000
                         else if taken == 3 then CODE_BOT else CODE_TOP
        invariant val + 1 + Front(buf, taken) / 2 == rng
        invariant nbitsTotal == 1 + 8 * taken
        decreases CODE_TOP - rng
      {
        FrontNext(buf, taken);
        ShiftIn();
      }
    }

    /** Takes over the new val and range, and renormalises. */
    method Narrow(newVal: int, newRng: int, ghost op: Op)
      requires taken >= 4 && FrontRead() && ValidDec(State()) && ShapedOp(op) && Inside(op, val, rng)
      requires newVal == val - Lo(op, rng) && newRng == Hi(op, rng) - Lo(op, rng)
      modifies this`val, this`rng, this`nbitsTotal, this`rem, this`offs, this`taken
      ensures taken >= 4 && FrontRead() && State() == Advance(old(State()), op)
      ensures nbitsTotal == old(nbitsTotal) + 8 * (taken - old(taken))
    {
      CutFits(op, rng);
      val, rng := newVal, newRng;
      Normalize();
    }

    /** Notes an operation that was read. */
    ghost method Record(op: Op, before: Dec)
      requires before == AdvanceAll(buf, trace) && Readable(before, op)
      requires taken >= 4 && State() == Advance(before, op)
      modifies this`trace
      ensures trace == old(trace) + [op] && State() == AdvanceAll(buf, trace)
    {
      trace := trace + [op];
      assert trace[..|trace| - 1] == old(trace);
    }

    /** Reads an operation, given the val and range it leaves. */
    method Take(newVal: int, newRng: int, ghost op: Op)
      requires Valid() && ShapedOp(op) && Inside(op, val, rng)
      requires newVal == val - Lo(op, rng) && newRng == Hi(op, rng) - Lo(op, rng)
      modifies this`val, this`rng, this`nbitsTotal, this`rem, this`offs, this`taken, this`trace
      ensures Valid() && trace == old(trace) + [op]
    {
      ghost var before := State();
      Narrow(newVal, newRng, op);
      Record(op, before);
    }

    /** What was coded next is where the pointer is. */
    lemma Expect(op: Op)
      requires Valid() && Next(op)
      ensures ValidOp(op) && (op.Cut? ==> Inside(op, val, rng))
      ensures op.Bits? ==> RawNext(State(), op.nbits) == op.value
    {
      NextReadable(trace, op, script, buf);
    }

    /** ec_decode */
    method Decode(ft: nat) returns (fs: nat)
      requires Valid() && 1 <= ft <= CODE_BOT
      modifies this`ext
      ensures Valid() && fs == FreqAt(val, rng, ft) && ext == rng / ft
      ensures forall fl: nat, fh: nat :: fl < fh <= ft && Next(SymOp(fl, fh, ft)) ==> fl <= fs < fh
    {
      DivBounds(rng, ft, 1);
      ext := rng / ft;
      var s := val / ext;
      fs := ft - Min(s + 1, ft);
      forall fl: nat, fh: nat | fl < fh <= ft && Next(SymOp(fl, fh, ft)) ensures fl <= fs < fh {
        Expect(SymOp(fl, fh, ft));
        FreqAtInside(fl, fh, ft, val, rng);
      }
    }

    /** ec_decode_bin */
    method DecodeBin(bits: nat) returns (fs: nat)
      requires Valid() && bits <= 23
      modifies this`ext
      ensures Valid() && fs < Pow2(bits) <= CODE_BOT && fs == FreqAt(val, rng, Pow2(bits)) && ext == rng / Pow2(bits)
      ensures forall fl: nat, fh: nat :: fl < fh <= Pow2(bits) && Next(SymOp(fl, fh, Pow2(bits))) ==> fl <= fs < fh
    {
      PrecisionFits(bits);
      fs := Decode(Pow2(bits));
    }

    /** ec_dec_update */
    method Update(fl: nat, fh: nat, ft: nat)
      requires Valid() && 1 <= ft <= CODE_BOT && ext == rng / ft
      requires fl <= FreqAt(val, rng, ft) < fh <= ft
      modifies this
      ensures Valid() && trace == old(trace) + [SymOp(fl, fh, ft)] && error == old(error)
    {
      FreqAtInside(fl, fh, ft, val, rng);
      var s := ext * (ft - fh);
      SplitSteps(ext, ft - fl, ft - fh);
      assert ft - fl - (ft - fh) == fh - fl;
      Take(val - s, if fl > 0 then ext * (fh - fl) else rng - s, SymOp(fl, fh, ft));
    }

    /** ec_dec_bit_logp */
    method BitLogp(logp: nat) returns (bit: bool)
      requires Valid() && 1 <= logp <= 23
      modifies this
      ensures Valid() && trace == old(trace) + [BitOp(bit, logp)] && error == old(error)
      ensures !old(Next(BitOp(!bit, logp)))
    {
      BitRoutinesAgree(true, logp);
      BitRoutinesAgree(false, logp);
      CutFits(BitOp(true, logp), rng);
      ExpectBit(logp);
      var s := rng / Pow2(logp);
      bit := val < s;
      if bit {
        Take(val, s, BitOp(true, logp));
      } else {
        Take(val - s, rng - s, BitOp(false, logp));
      }
    }

    lemma ExpectBit(logp: nat)
      requires Valid() && 1 <= logp <= 23
      ensures Next(BitOp(true, logp)) ==> val < rng / Pow2(logp)
      ensures Next(BitOp(false, logp)) ==> val >= rng / Pow2(logp)
    {
      if Next(BitOp(true, logp)) {
        Expect(BitOp(true, logp));
      }
      if Next(BitOp(false, logp)) {
        Expect(BitOp(false, logp));
      }
    }

    /** ec_dec_icdf and ec_dec_icdf16 */
    method Icdf(icdf: seq<nat>, ftb: nat) returns (k: nat)
      requires Valid() && ValidIcdf(icdf, ftb)
      modifies this
      ensures Valid() && k < |icdf| && trace == old(trace) + [IcdfOp(k, icdf, ftb)] && error == old(error)
      ensures Readable(old(State()), IcdfOp(k, icdf, ftb))
      ensures forall j: nat :: j < |icdf| && old(Next(IcdfOp(j, icdf, ftb))) ==> j == k
    {
      PrecisionFits(ftb);
      var s, t;
      k, s, t := SearchIcdf(val, rng, rng / Pow2(ftb), icdf);
      ExpectIcdf(icdf, ftb, k);
      Take(val - s, t - s, IcdfOp(k, icdf, ftb));
    }

    lemma ExpectIcdf(icdf: seq<nat>, ftb: nat, k: nat)
      requires Valid() && ValidIcdf(icdf, ftb) && k == IcdfIndex(val, rng / Pow2(ftb), icdf, 0)
      ensures Inside(IcdfOp(k, icdf, ftb), val, rng)
      ensures forall j: nat :: j < |icdf| && Next(IcdfOp(j, icdf, ftb)) ==> j == k
    {
      IcdfIndexInside(val, rng, icdf, ftb);
      forall j: nat | j < |icdf| && Next(IcdfOp(j, icdf, ftb)) ensures j == k {
        Expect(IcdfOp(j, icdf, ftb));
        IcdfIndexExact(val, rng, j, icdf, ftb);
      }
    }

    /** The first half of ec_dec_bits: fills the window up if it holds too few bits. */
    method Refill(nbits: nat)
      requires BackRead() && nbits <= 25
      modifies this`endWindow, this`nendBits, this`endOffs, this`rawIn
      ensures BackRead() && nendBits >= nbits
    {
      if nendBits < nbits {
        // A do-while in the source; its first test holds here.
        while nendBits <= 24
          invariant BackRead()
        {
          ByteFromEnd(buf, rawIn, 8);
          assert pos + nendBits == 8 * rawIn;
          var b := ReadByteFromEnd();
          RefillWindow(Back(buf, |buf|), pos, nendBits, b, 8);
          endWindow := AppendBits(endWindow, nendBits, b, 8);
          nendBits := nendBits + 8;
        }
      }
    }

    /** The second half: takes the lowest bits off the window. */
    method Drain(nbits: nat) returns (ret: nat)
      requires BackRead() && nbits <= nendBits
      modifies this`endWindow, this`nendBits, this`pos, this`nbitsTotal
      ensures BackRead() && pos == old(pos) + nbits && nbitsTotal == old(nbitsTotal) + nbits
      ensures ret == Low(Shr(Back(buf, |buf|), old(pos)), nbits) < Pow2(nbits)
    {
      DrainWindow(Back(buf, |buf|), pos, nendBits, nbits, endWindow);
      Split(endWindow, nbits);
      ret := Low(endWindow, nbits);
      DrainFits(endWindow, nbits);
      endWindow := Shr(endWindow, nbits);
      nendBits := nendBits - nbits;
      pos := pos + nbits;
      nbitsTotal := nbitsTotal + nbits;
    }

    /** ec_dec_bits */
    method Bits(nbits: nat) returns (ret: nat)
      requires Valid() && nbits <= 25
      modifies this
      ensures ret < Pow2(nbits)
      ensures Valid() && trace == old(trace) + [Op.Bits(ret, nbits)] && error == old(error)
      ensures forall v: nat :: old(Next(Op.Bits(v, nbits))) ==> v == ret
    {
      forall v: nat | Next(Op.Bits(v, nbits)) ensures v == Low(Shr(Back(buf, |buf|), pos), nbits) {
        Expect(Op.Bits(v, nbits));
      }
      ghost var before := State();
      Refill(nbits);
      ret := Drain(nbits);
      Record(Op.Bits(ret, nbits), before);
    }

    /** ec_decode and ec_dec_update for a uniform alphabet; v is the symbol the encoder coded, if it did. */
    method Uniform(ft: nat, ghost v: nat) returns (s: nat)
      requires Valid() && 1 <= ft <= CODE_BOT && v < ft
      modifies this
      ensures Valid() && s < ft && trace == old(trace) + [SymOp(s, s + 1, ft)] && error == old(error)
      ensures old(Next(SymOp(v, v + 1, ft))) ==> s == v
    {
      s := Decode(ft);
      Update(s, s + 1, ft);
    }

    /** ec_dec_uint; v is the integer the encoder coded, if it did. */
    method Uint(ft: nat, ghost v: nat) returns (t: nat)
      requires Valid() && 2 <= ft < 0x1_0000_0000 && v < ft
      modifies this
      ensures Valid() && t < ft
      ensures old(trace) + UintOps(v, ft) <= script ==>
        t == v && error == old(error) && trace == old(trace) + UintOps(v, ft)
    {
      var max := ft - 1;
      var ftb := Ilog(max);
      UintTop(max);
      if ftb > 8 {
        t := UintHigh(max, ftb - 8, v);
      } else {
        assert trace + UintOps(v, ft) <= script ==> Next(SymOp(v, v + 1, ft));
        t := Uniform(ft, v);
      }
    }

    /** ec_dec_uint for integers of more than eight bits. */
    method UintHigh(max: nat, ftb: nat, ghost v: nat) returns (t: nat)
      requires Valid() && 1 <= ftb <= 24 && Shr(max, ftb) < 256 && v <= max
      modifies this
      ensures Valid() && t <= max
      ensures old(trace) + HighOps(v, max, ftb) <= script ==>
        t == v && error == old(error) && trace == old(trace) + HighOps(v, max, ftb)
    {
      var s, low := UintParts(max, ftb, v);
      Reassemble(v, s, low, ftb);
      t := Or(Shl(s, ftb), low);
      if t > max {
        error := 1;
        t := max;
      }
    }

    /** The range-coded part of an integer and the raw part. */
    method UintParts(max: nat, ftb: nat, ghost v: nat) returns (s: nat, low: nat)
      requires Valid() && 1 <= ftb <= 24 && Shr(max, ftb) < 256 && v <= max
      modifies this
      ensures Valid() && low < Pow2(ftb) && error == old(error)
      ensures old(trace) + HighOps(v, max, ftb) <= script ==>
        s == Shr(v, ftb) && low == Low(v, ftb) && trace == old(trace) + HighOps(v, max, ftb)
    {
      ghost var fl := Shr(v, ftb);
      HighNext(trace, v, max, ftb, script);
      s := Uniform(Shr(max, ftb) + 1, fl);
      low := Bits(ftb);
    }
  }

  /** The two parts of an integer, or-ed together again. */
  lemma Reassemble(v: nat, s: nat, low: nat, ftb: nat)
    requires low < Pow2(ftb)
    ensures s == Shr(v, ftb) && low == Low(v, ftb) ==> Or(Shl(s, ftb), low) == v
  {
    Join(0, s, ftb, Shl(s, ftb));
    OrDisjoint(Shl(s, ftb), low, ftb);
    Split(v, ftb);
  }

  lemma HighNext(trace: seq<Op>, v: nat, max: nat, ftb: nat, script: seq<Op>)
    requires v <= max
    ensures Shr(v, ftb) <= Shr(max, ftb)
    ensures var fl, top := Shr(v, ftb), Shr(max, ftb) + 1;
      var a, b := SymOp(fl, fl + 1, top), Bits(Low(v, ftb), ftb);
      && trace + [a] + [b] == trace + HighOps(v, max, ftb)
      && (trace + HighOps(v, max, ftb) <= script ==> trace + [a] <= script)
  {
    ShrMonotone(v, max, ftb);
    AppendTwo(trace, HighOps(v, max, ftb)[0], HighOps(v, max, ftb)[1], script);
  }

  lemma {:induction false} DrainFits(w: nat, take: nat)
    ensures Shr(w, take) <= w
  {
    if take > 0 {
      DrainFits(w, take - 1);
    }
  }

  /** The search of ec_dec_icdf: the source's do-while over ++ret, entered with ret = -1. */
  method SearchIcdf(val: nat, rng: nat, r: nat, icdf: seq<nat>) returns (k: nat, s: nat, t: nat)
    requires |icdf| > 0 && icdf[|icdf| - 1] == 0 && val < rng
    ensures k == IcdfIndex(val, r, icdf, 0) && s == r * icdf[k] && t == if k > 0 then r * icdf[k - 1] else rng
  {
    k, s, t := 0, r * icdf[0], rng;
    while val < s
      invariant k < |icdf| && s == r * icdf[k] && t == if k > 0 then r * icdf[k - 1] else rng
      invariant IcdfIndex(val, r, icdf, 0) == IcdfIndex(val, r, icdf, k)
      decreases |icdf| - k
    {
      k := k + 1;
      t := s;
      s := r * icdf[k];
    }
  }
}
