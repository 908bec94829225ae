/**
 The encoder of entenc.c: range-coded bytes grow from the front of the buffer behind a carry queue (`rem`, `ext`),
 raw bits grow from the back. Every method is proved against `RangeSpec.Put`.
 */
module RangeEncoder {
  import opened Arith
  import opened RangeSpec
  import opened FracTelling

  function Rep(v: byte, k: nat): (s: seq<byte>)
    ensures |s| == k && forall i :: 0 <= i < k ==> s[i] == v
  {
    seq(k, _ => v)
  }

  /** A byte string as a big-endian number. */
  function Value(s: seq<byte>): nat {
    Front(s, |s|)
  }

  lemma ValueAppend(s: seq<byte>, x: byte)
    ensures Value(s + [x]) == Value(s) * 256 + x as nat
  {
    FrontFrame(s + [x], s, |s|);
  }

  /** A carry ripples through a run of 255s and leaves zeros behind it. */
  lemma {:induction false} CarryRipples(s: seq<byte>, t: seq<byte>, k: nat)
    requires Value(s) + 1 == Value(t)
    ensures Value(s + Rep(255, k)) + 1 == Value(t + Rep(0, k))
  {
    if k == 0 {
      assert s + Rep(255, 0) == s && t + Rep(0, 0) == t;
    } else {
      CarryRipples(s, t, k - 1);
      ValueAppend(s + Rep(255, k - 1), 255);
      ValueAppend(t + Rep(0, k - 1), 0);
      assert s + Rep(255, k) == s + Rep(255, k - 1) + [255];
      assert t + Rep(0, k) == t + Rep(0, k - 1) + [0];
    }
  }

  /** The digits of an encoder: the bytes released, the buffered one, and a run of 255s awaiting a carry. */
  function DigitsOf(out: seq<byte>, rem: int, ext: nat): seq<byte>
    requires -1 <= rem <= 255
  {
    out + (if rem >= 0 then [rem as byte] else []) + Rep(255, ext)
  }

  /** What the queue becomes when c is appended and its ninth bit is carried into it. */
  function Carried(out: seq<byte>, rem: int, ext: nat, carry: nat): seq<byte>
    requires -1 <= rem <= 255 && carry <= 1 && (carry == 1 ==> 0 <= rem <= 254)
  {
    out + (if rem >= 0 then [(rem + carry) as byte] else []) + Rep(if carry == 1 then 0 else 255, ext)
  }

  lemma CarryValue(out: seq<byte>, rem: int, ext: nat, c: nat)
    requires -1 <= rem <= 255 && c < 512 && (c >= 256 ==> 0 <= rem <= 254)
    ensures Value(Carried(out, rem, ext, c / 256) + [(c % 256) as byte]) == Value(DigitsOf(out, rem, ext)) * 256 + c
  {
    ValueAppend(Carried(out, rem, ext, c / 256), (c % 256) as byte);
    if c >= 256 {
      ValueAppend(out, rem as byte);
      ValueAppend(out, (rem + 1) as byte);
      CarryRipples(out + [rem as byte], out + [(rem + 1) as byte], ext);
    }
  }

  /** The interval is unchanged when its top nine bits move from val to the digits. */
  lemma ShiftOut(v: nat, val: nat, rng: nat)
    requires 0 < rng <= CODE_BOT && val + rng < 0x1_0000_0000
    ensures (v * 256 + val / CODE_BOT) * CODE_TOP + val * 256 % CODE_TOP == (v * CODE_TOP + val) * 256
    ensures val / CODE_BOT < 512 && val * 256 % CODE_TOP + rng * 256 < 0x1_0000_0000
    ensures val / CODE_BOT == 511 ==> val * 256 % CODE_TOP + rng * 256 <= CODE_TOP
    ensures val / CODE_BOT == 255 && val + rng <= CODE_TOP ==> val * 256 % CODE_TOP + rng * 256 <= CODE_TOP
  {
    assert val == val / CODE_BOT * CODE_BOT + val % CODE_BOT;
    assert val * 256 == val / CODE_BOT * CODE_TOP + val % CODE_BOT * 256;
    assert val * 256 % CODE_TOP == val % CODE_BOT * 256;
  }

  /** A byte taken off the window goes on top of the bytes written. */
  lemma WindowShift(w: nat, u: nat, up: nat)
    requires 8 <= u && w < Pow2(u)
    ensures w / 256 < Pow2(u - 8)
    ensures Shl(w % 256, up) + Shl(w / 256, up + 8) == Shl(w, up)
  {
    assert Pow2(u) == 256 * Pow2(u - 8) by {
      ShlByte(Pow2(u - 8));
      ShlPow2(u - 8, 8);
    }
    ShlShl(w / 256, 8, up);
    ShlByte(w / 256);
    ShlSum(w % 256, w / 256 * 256, up);
    assert 8 + up == up + 8;
  }

  lemma RoundUpAdd(x: nat, v: nat, k: nat, s: nat, p: nat)
    requires s == Shl(v, k) && p == Pow2(k)
    ensures RoundUp(x + s, k) == RoundUp(x, k) + s
  {
    PlusShifted(x + p - 1, v, k, x + s + p - 1);
    ShlSum(Shr(x + p - 1, k), v, k);
  }

  /** Rounding to a divisor of 2^31 does not see the digits above. */
  lemma RoundUpShift(v: nat, val: nat, l: nat)
    requires l <= 31
    ensures RoundUp(v * CODE_TOP + val, 31 - l) == v * CODE_TOP + RoundUp(val, 31 - l)
  {
    ShlTop(v);
    ShlShl(v, l, 31 - l);
    RoundUpAdd(val, Shl(v, l), 31 - l, v * CODE_TOP, Pow2(31 - l));
  }

  /** One byte of the final value moves from e to the digits. */
  lemma EndShift(v: nat, e: nat, whole: nat, k: nat)
    requires v * CODE_TOP + e == Shl(whole, 8 * k)
    ensures (v * 256 + e / CODE_BOT) * CODE_TOP + e * 256 % CODE_TOP == Shl(whole, 8 * (k + 1))
  {
    assert e == e / CODE_BOT * CODE_BOT + e % CODE_BOT;
    assert e * 256 % CODE_TOP == e % CODE_BOT * 256;
    ShlShl(whole, 8 * k, 8);
    ShlByte(Shl(whole, 8 * k));
  }

  /** ... and what is left below it has its bits where the next byte takes them from. */
  lemma EndAligned(e: nat, left: nat)
    requires 0 < left <= 9 && Low(e, 31 - left) == 0
    ensures left > 8 ==> Low(e * 256 % CODE_TOP, 31 - (left - 8)) == 0
    ensures left <= 8 ==> e * 256 % CODE_TOP == 0
  {
    Split(e, 31 - left);
    EndTop(Shr(e, 31 - left), e, left);
  }

  lemma EndTop(q: nat, e: nat, left: nat)
    requires 0 < left <= 9 && e == Shl(q, 31 - left)
    ensures left > 8 ==> Low(e * 256 % CODE_TOP, 31 - (left - 8)) == 0
    ensures left <= 8 ==> e * 256 % CODE_TOP == 0
  {
    ShlShl(q, 31 - left, 8);
    ShlByte(e);
    if left > 8 {
      TopBitLeft(q, e * 256);
    } else {
      ShlShl(q, 8 - left, 31);
      ShlTop(Shl(q, 8 - left));
    }
  }

  lemma TopBitLeft(q: nat, x: nat)
    requires x == Shl(q, 30)
    ensures Low(x % CODE_TOP, 30) == 0
  {
    Shl30(q);
    Shl30(q % 2);
    Pow2Bytes();
    assert x % CODE_TOP == q % 2 * 0x4000_0000;
    Join(0, q % 2, 30, x % CODE_TOP);
  }

  lemma Shl30(q: nat)
    ensures Shl(q, 30) == q * 0x4000_0000
  {
    ShlTop(q);
    assert Shl(q, 31) == 2 * Shl(q, 30);
  }

  lemma OrByte(x: nat, w: nat, bits: nat)
    requires x < 256 && w < Pow2(bits) && bits < 8
    ensures Or(x, w) < 256
  {
    Pow2Monotone(bits, 8);
    OrFits(x, w, 8);
  }

  lemma LastByteAligned(s: seq<byte>, slack: nat)
    requires |s| > 0 && Low(Value(s), slack) == 0 && slack < 8
    ensures Low(s[|s| - 1] as nat, slack) == 0
  {
    var x, h := s[|s| - 1] as nat, Value(s[..|s| - 1]);
    assert s == s[..|s| - 1] + [s[|s| - 1]];
    ValueAppend(s[..|s| - 1], s[|s| - 1]);
    ShlByte(h);
    ShlShl(h, 8 - slack, slack);
    PlusShifted(x, Shl(h, 8 - slack), slack, Value(s));
  }

  /** Bits or-ed below a byte whose low bits are clear can be read back from it. */
  lemma OrLow(x: nat, w: nat, used: nat, slack: nat)
    requires used <= slack && Low(x, slack) == 0 && w < Pow2(used)
    ensures Or(x, w) == x + w && Low(x + w, used) == w && w < Pow2(slack)
  {
    Pow2Monotone(used, slack);
    OrDisjoint(x, w, slack);
    LowLow(x, used, slack);
    Split(x, used);
    ShlZero(used);
    LowSmall(0, used);
    Join(w, Shr(x, used), used, x + w);
  }

  /** Merging the last raw bits into the last range-coded byte stays below its slack. */
  lemma MergedFront(was: seq<byte>, now: seq<byte>, out: seq<byte>, w: nat, used: nat, slack: nat)
    requires |out| > 0 && |was| == |now| >= |out| && was[..|out|] == out
    requires used <= slack < 8 && w < Pow2(used) && Low(Value(out), slack) == 0
    requires var x := Or(was[|out| - 1] as nat, w); x < 256 && now == was[|out| - 1 := x as byte]
    ensures Value(out) <= Front(now, |out|) < Value(out) + Pow2(slack)
    ensures Low(now[|out| - 1] as nat, used) == w
  {
    var last := |out| - 1;
    assert was[last] == out[last];
    LastByteAligned(out, slack);
    OrLow(was[last] as nat, w, used, slack);
    assert now[..last] == out[..last];
    FrontFrame(out, now, last);
  }

  /** ... and merging them into a clear byte after it does not touch it. */
  lemma MergedGap(was: seq<byte>, now: seq<byte>, out: seq<byte>, last: nat, w: nat, used: nat)
    requires |out| <= last < |was| == |now| && was[..|out|] == out && was[last] == 0
    requires w < Pow2(used) && w < 256 && now == was[last := w as byte]
    ensures Value(out) == Front(now, |out|) && Low(now[last] as nat, used) == w
  {
    LowSmall(w, used);
    assert now[..|out|] == out;
    FrontFrame(out, now, |out|);
  }

  /** One bit more is needed exactly when the block of the rounded-up val sticks out of the range. */
  lemma FirstTry(c: Code, v: nat, val: nat)
    requires ValidCode(c) && c.low == v * CODE_TOP + val
    ensures var l := 32 - Ilog(c.rng);
      0 <= l <= 8 && DoneBits(c) == if RoundUp(val, 31 - l) + Pow2(31 - l) > val + c.rng then l + 1 else l
  {
    RangeBits(c.rng);
    RoundUpShift(v, val, 32 - Ilog(c.rng));
  }

  lemma EndFits(c: Code, v: nat, val: nat)
    requires ValidCode(c) && c.low == v * CODE_TOP + val && val + c.rng < 0x1_0000_0000
    ensures DoneBits(c) <= 9
    ensures var l := DoneBits(c);
      var end := RoundUp(val, 31 - l);
      && v * CODE_TOP + end == RoundUp(c.low, 31 - l)
      && end < val + c.rng && Low(end, 31 - l) == 0 && (l == 0 ==> end == 0)
  {
    var l := DoneBits(c);
    DoneBlock(c);
    RoundUpShift(v, val, l);
    RoundUpBounds(val, 31 - l);
    EndZero(RoundUp(val, 31 - l), val + c.rng, 31 - l);
  }

  lemma EndZero(end: nat, top: nat, k: nat)
    requires Low(end, k) == 0 && end + Pow2(k) <= top < 0x1_0000_0000
    ensures k == 31 ==> end == 0
  {
    if k == 31 {
      Split(end, k);
      WholeBlock(end, top, Shr(end, k), k, Pow2(k));
    }
  }

  lemma WholeBlock(end: nat, top: nat, h: nat, k: nat, p: nat)
    requires k == 31 && end == Shl(h, k) && p == Pow2(k) && end + p <= top < 0x1_0000_0000
    ensures end == 0
  {
    ShlTop(h);
    Pow2Bytes();
  }

  /** The final value and the number of its bits to send; v is what was sent before val. */
  method ChooseEnd(val: nat, rng: nat, ghost v: nat, ghost c: Code) returns (end: nat, l: nat)
    requires ValidCode(c) && c.rng == rng && c.low == v * CODE_TOP + val && val + rng < 0x1_0000_0000
    ensures l == DoneBits(c) <= 9 && v * CODE_TOP + end == RoundUp(c.low, 31 - l)
    ensures end < val + rng && Low(end, 31 - l) == 0 && (l == 0 ==> end == 0)
  {
    FirstTry(c, v, val);
    EndFits(c, v, val);
    l := 32 - Ilog(rng);
    end := RoundUp(val, 31 - l);
    if end + Pow2(31 - l) > val + rng {
      l := l + 1;
      end := RoundUp(val, 31 - l);
    }
  }

  /** The bytes sent end in as many zero bits as were sent too many. */
  lemma SlackClear(v: nat, e: nat, k: nat, l: nat)
    requires l <= 9 && l <= 8 * k && v * CODE_TOP == Shl(e, 8 * k) && Low(e, 31 - l) == 0
    ensures Low(v, 8 * k - l) == 0
  {
    var q, s := Shr(e, 31 - l), 8 * k - l;
    Split(e, 31 - l);
    ShlShl(q, 31 - l, 8 * k);
    ShlShl(q, s, 31);
    assert 31 - l + 8 * k == s + 31;
    ShlTop(Shl(q, s));
    Join(0, q, s, v);
  }

  /** A field put above the bits in the window is put above all raw bits. */
  lemma RawJoined(done: nat, window: nat, value: nat, used: nat, out: nat)
    ensures done + Shl(window + Shl(value, used), out) == done + Shl(window, out) + Shl(value, out + used)
  {
    ShlSum(window, Shl(value, used), out);
    ShlShl(value, used, out);
    assert used + out == out + used;
  }

  /** One more byte of raw bits. */
  lemma RawGrows(done: nat, value: nat, n: nat)
    requires done < Pow2(8 * n) && value < 256
    ensures done + Shl(value, 8 * n) < Pow2(8 * (n + 1))
  {
    Pow2Bytes();
    ShlFits(done, value, 8 * n, 8);
  }

  class Encoder {
    const buf: array<byte>
    var storage: nat
    var endOffs: nat
    var endWindow: uint32
    var nendBits: nat
    var nbitsTotal: int
    var offs: nat
    var rng: uint32
    var val: uint32
    var ext: nat
    var rem: int
    var error: int

    ghost var out: seq<byte>   // the range-coded bytes released so far, whether or not they fitted
    ghost var rawOut: nat      // how many bytes of raw bits were released, whether or not they fitted
    ghost var rawDone: nat     // their value
    ghost var trace: seq<Op>   // everything encoded so far

    ghost function Digits(): seq<byte>
      requires -1 <= rem <= 255
      reads this`out, this`rem, this`ext
    {
      DigitsOf(out, rem, ext)
    }

    /** The unbounded coding interval this state stands for. */
    ghost function State(): Code
      requires -1 <= rem <= 255
      reads this`out, this`rem, this`ext, this`val, this`rng
      reads this`rawOut, this`rawDone, this`endWindow, this`nendBits
    {
      Code(Value(Digits()) * CODE_TOP + val, rng, |Digits()|,
           rawDone + Shl(endWindow, 8 * rawOut), 8 * rawOut + nendBits)
    }

    /** The buffer holds what was released, or more was released than it has room for. */
    ghost predicate Stored()
      reads this, buf
    {
      && storage <= buf.Length && offs + endOffs <= storage
      && (error == 0 <==> |out| + rawOut <= storage)
      && (error == 0 ==> offs == |out| && buf[..offs] == out && endOffs == rawOut)
      && (error == 0 ==> Back(buf[..storage], endOffs) == rawDone)
      && rawDone < Pow2(8 * rawOut)
    }

    ghost predicate Buffered()
      reads this, buf
    {
      && Stored()
      && -1 <= rem <= 255 && (rem == -1 ==> out == [])
      && nendBits <= 32 && endWindow < Pow2(nendBits)
    }

    /** A carry can only come while there is a byte below 255 to take it. */
    ghost predicate Carries()
      reads this`rem, this`val, this`rng
    {
      && 0 < rng <= CODE_TOP && val + rng < 0x1_0000_0000
      && (rem == -1 || rem == 255 ==> val + rng <= CODE_TOP)
    }

    ghost predicate Valid()
      reads this, buf
    {
      && Buffered() && Carries() && CODE_BOT < rng
      && nbitsTotal == 33 + 8 * |Digits()| + 8 * rawOut + nendBits
      && ValidOps(trace) && PutAll(INIT, trace) == State()
    }

    /** ec_tell */
    function Tell(): int
      reads this`nbitsTotal, this`rng
    {
      nbitsTotal - Ilog(rng)
    }

    /** ec_tell_frac */
    function TellFrac(): int
      requires rng > CODE_BOT
      reads this`nbitsTotal, this`rng
    {
      FracTell(nbitsTotal, rng)
    }

    /** ec_enc_init */
    constructor (buf: array<byte>, size: nat)
      requires size <= buf.Length
      ensures Valid() && this.buf == buf && storage == size
      ensures trace == [] && error == 0
    {
      this.buf := buf;
      endOffs, endWindow, nendBits := 0, 0, 0;
      nbitsTotal := 33;
      offs := 0;
      rng := CODE_TOP;
      rem, val, ext := -1, 0, 0;
      storage := size;
      error := 0;
      out, rawOut, rawDone, trace := [], 0, 0, [];
    }

    method WriteByte(value: byte) returns (r: int)
      requires offs + endOffs <= storage <= buf.Length
      modifies this`offs, this`out, buf
      ensures out == old(out) + [value]
      ensures r == if old(offs) + endOffs >= storage then -1 else 0
      ensures r == -1 ==> offs == old(offs) && buf[..] == old(buf[..])
      ensures r == 0 ==> offs == old(offs) + 1 && buf[..] == old(buf[..])[old(offs) := value]
    {
      out := out + [value];
      if offs + endOffs >= storage {
        return -1;
      }
      buf[offs] := value;
      offs := offs + 1;
      return 0;
    }

    method WriteByteAtEnd(value: byte) returns (r: int)
      requires offs + endOffs <= storage <= buf.Length
      modifies this`endOffs, this`rawOut, this`rawDone, buf
      ensures rawOut == old(rawOut) + 1 && rawDone == old(rawDone) + Shl(value as nat, 8 * old(rawOut))
      ensures r == if offs + old(endOffs) >= storage then -1 else 0
      ensures r == -1 ==> endOffs == old(endOffs) && buf[..] == old(buf[..])
      ensures r == 0 ==> endOffs == old(endOffs) + 1 && buf[..] == old(buf[..])[storage - endOffs := value]
    {
      rawDone := rawDone + Shl(value as nat, 8 * rawOut);
      rawOut := rawOut + 1;
      if offs + endOffs >= storage {
        return -1;
      }
      endOffs := endOffs + 1;
      buf[storage - endOffs] := value;
      return 0;
    }

    /** Releases one byte of the front stream: error |= ec_write_byte(...). */
    method Release(value: byte)
      requires Stored()
      modifies this`offs, this`out, this`error, buf
      ensures Stored() && out == old(out) + [value]
    {
      var r := WriteByte(value);
      if r != 0 {
        error := r;
      } else if error == 0 {
        BackFrame(buf[..storage], old(buf[..storage]), endOffs);
      }
    }

    /** Releases one byte of raw bits: error |= ec_write_byte_at_end(...). */
    method ReleaseAtEnd(value: byte)
      requires Stored()
      modifies this`endOffs, this`rawOut, this`rawDone, this`error, buf
      ensures Stored() && rawOut == old(rawOut) + 1
      ensures rawDone == old(rawDone) + Shl(value as nat, 8 * old(rawOut))
    {
      RawGrows(rawDone, value as nat, rawOut);
      var r := WriteByteAtEnd(value);
      if r != 0 {
        error := r;
      } else if error == 0 {
        BackFrame(buf[..storage], old(buf[..storage]), old(endOffs));
      }
    }

    /** ec_enc_carry_out: appends the digit c, whose ninth bit is a carry into the digits before it. */
    method CarryOut(c: nat)
      requires Buffered() && c < 512 && (c >= 256 ==> 0 <= rem <= 254)
      modifies this`offs, this`out, this`error, this`ext, this`rem, buf
      ensures Buffered()
      ensures |Digits()| == old(|Digits()|) + 1 && Value(Digits()) == old(Value(Digits())) * 256 + c
      ensures rem == -1 ==> old(rem) == -1 && c == 255
      ensures rem == 255 ==> c == 511 || (c == 255 && old(rem) == 255)
      ensures c == 0 ==> rem == 0 && ext == 0
    {
      if c != 255 {
        var carry := c / 256;
        CarryValue(out, rem, ext, c);
        ghost var after := Carried(out, rem, ext, carry) + [(c % 256) as byte];
        FlushQueue(carry);
        rem := c % 256;
        assert Digits() == after;
      } else {
        ghost var before := Digits();
        ext := ext + 1;
        assert Digits() == before + [255];
        ValueAppend(before, 255);
      }
    }

    /** Releases the buffered byte with the carry added, and the run behind it. */
    method FlushQueue(carry: nat)
      requires Buffered() && carry <= 1 && (carry == 1 ==> 0 <= rem <= 254)
      modifies this`offs, this`out, this`error, this`ext, buf
      ensures Stored() && ext == 0 && out == old(Carried(out, rem, ext, carry))
    {
      if rem >= 0 {
        Release((rem + carry) as byte);
      }
      ghost var base, run := out, ext;
      var sym := ((255 + carry) % 256) as byte;
      while ext > 0
        invariant Stored() && out == base + Rep(sym, run - ext) && 0 <= ext <= run
      {
        Release(sym);
        ext := ext - 1;
      }
    }

    /** One round of ec_enc_normalize. */
    method ShiftByte()
      requires Buffered() && Carries() && rng <= CODE_BOT
      modifies this`offs, this`out, this`error, this`ext, this`rem, this`val, this`rng, this`nbitsTotal, buf
      ensures Buffered() && Carries() && rng == old(rng) * 256
      ensures State() == Shift(old(State()))
      ensures nbitsTotal == old(nbitsTotal) + 8
    {
      ShiftOut(Value(Digits()), val, rng);
      CarryOut(val / CODE_BOT);
      val := val * 256 % CODE_TOP;
      rng := rng * 256;
      nbitsTotal := nbitsTotal + 8;
    }

    /** ec_enc_normalize */
    method Normalize()
      requires Buffered() && Carries()
      modifies this`offs, this`out, this`error, this`ext, this`rem, this`val, this`rng, this`nbitsTotal, buf
      ensures Buffered() && Carries() && CODE_BOT < rng
      ensures State() == Scale(old(State()))
      ensures nbitsTotal == old(nbitsTotal) + 8 * (State().n - old(State().n))
    {
      while rng <= CODE_BOT
        invariant Buffered() && Carries()
        invariant Scale(State()) == Scale(old(State()))
        invariant nbitsTotal == old(nbitsTotal) + 8 * (State().n - old(State().n))
        decreases CODE_TOP - rng
      {
        ShiftByte();
      }
    }

    /** Notes an operation that has been carried out in full. */
    ghost method Record(op: Op)
      requires ValidOps(trace) && ValidOp(op)
      requires -1 <= rem <= 255 && State() == Put(PutAll(INIT, trace), op)
      modifies this`trace
      ensures trace == old(trace) + [op] && ValidOps(trace)
      ensures PutAll(INIT, trace) == State()
    {
      PutAllAppend(INIT, trace, [op]);
      trace := trace + [op];
    }

    /** Takes over the new low end and range. */
    method SetInterval(newVal: int, newRng: int, ghost op: Op)
      requires Buffered() && Carries() && CODE_BOT < rng && ValidOp(op) && op.Cut?
      requires newVal == val + rng - Hi(op, rng) && newRng == Hi(op, rng) - Lo(op, rng)
      modifies this`val, this`rng
      ensures Buffered() && Carries() && State() == Narrow(old(State()), op)
    {
      CutFits(op, rng);
      val, rng := newVal, newRng;
    }

    /** Narrows the interval to an operation's part, given the new low end and range, and renormalises. */
    method Keep(newVal: int, newRng: int, ghost op: Op)
      requires Valid() && ValidOp(op) && op.Cut?
      requires newVal == val + rng - Hi(op, rng) && newRng == Hi(op, rng) - Lo(op, rng)
      modifies this, buf
      ensures Valid() && trace == old(trace) + [op] && storage == old(storage)
    {
      SetInterval(newVal, newRng, op);
      Normalize();
      Record(op);
    }

    /** The common part of ec_encode and ec_encode_bin. */
    method KeepSym(fl: nat, fh: nat, ft: nat, r: int)
      requires Valid() && fl < fh <= ft <= CODE_BOT && r == rng / ft
      modifies this, buf
      ensures Valid() && trace == old(trace) + [SymOp(fl, fh, ft)] && storage == old(storage)
    {
      if fl > 0 {
        SplitSteps(r, ft - fl, ft - fh);
        assert ft - fl - (ft - fh) == fh - fl;
        Keep(val + (rng - r * (ft - fl)), r * (fh - fl), SymOp(fl, fh, ft));
      } else {
        Keep(val, rng - r * (ft - fh), SymOp(fl, fh, ft));
      }
    }

    /** ec_encode */
    method Encode(fl: nat, fh: nat, ft: nat)
      requires Valid() && fl < fh <= ft <= CODE_BOT
      modifies this, buf
      ensures Valid() && trace == old(trace) + [SymOp(fl, fh, ft)] && storage == old(storage)
    {
      KeepSym(fl, fh, ft, rng / ft);
    }

    /** ec_encode_bin */
    method EncodeBin(fl: nat, fh: nat, bits: nat)
      requires Valid() && bits <= 23 && fl < fh <= Pow2(bits)
      modifies this, buf
      ensures Valid() && trace == old(trace) + [SymOp(fl, fh, Pow2(bits))] && storage == old(storage)
    {
      PrecisionFits(bits);
      var ft := Pow2(bits);
      KeepSym(fl, fh, ft, rng / ft);
    }

    /** ec_enc_bit_logp */
    method BitLogp(bit: bool, logp: nat)
      requires Valid() && 1 <= logp <= 23
      modifies this, buf
      ensures Valid() && trace == old(trace) + [BitOp(bit, logp)] && storage == old(storage)
    {
      BitRoutinesAgree(bit, logp);
      var s := rng / Pow2(logp);
      var r := rng - s;
      if bit {
        Keep(val + r, s, BitOp(bit, logp));
      } else {
        Keep(val, r, BitOp(bit, logp));
      }
    }

    /** ec_enc_icdf and ec_enc_icdf16 */
    method Icdf(s: nat, icdf: seq<nat>, ftb: nat)
      requires Valid() && ValidIcdf(icdf, ftb) && s < |icdf|
      requires icdf[s] < if s > 0 then icdf[s - 1] else Pow2(ftb)
      modifies this, buf
      ensures Valid() && trace == old(trace) + [IcdfOp(s, icdf, ftb)] && storage == old(storage)
    {
      PrecisionFits(ftb);
      var r := rng / Pow2(ftb);
      if s > 0 {
        SplitSteps(r, icdf[s - 1], icdf[s]);
        Keep(val + (rng - r * icdf[s - 1]), r * (icdf[s - 1] - icdf[s]), IcdfOp(s, icdf, ftb));
      } else {
        Keep(val, rng - r * icdf[s], IcdfOp(s, icdf, ftb));
      }
    }

    /** ec_enc_uint */
    method Uint(v: nat, ft: nat)
      requires Valid() && v < ft && 2 <= ft < 0x1_0000_0000
      modifies this, buf
      ensures Valid() && trace == old(trace) + UintOps(v, ft) && storage == old(storage)
    {
      var max := ft - 1;
      var ftb := Ilog(max);
      UintTop(max);
      UintOpsAre(v, ft, max);
      if ftb > 8 {
        UintHigh(v, max, ftb - 8);
      } else {
        Encode(v, v + 1, max + 1);
      }
    }

    /** ec_enc_uint for integers of more than eight bits. */
    method UintHigh(v: nat, max: nat, ftb: nat)
      requires Valid() && v <= max && 1 <= ftb <= 24 && Shr(max, ftb) < 256
      modifies this, buf
      ensures Valid() && trace == old(trace) + HighOps(v, max, ftb) && storage == old(storage)
    {
      ShrMonotone(v, max, ftb);
      Split(v, ftb);
      var fl := Shr(v, ftb);
      AppendTwo(trace, HighOps(v, max, ftb)[0], HighOps(v, max, ftb)[1], []);
      Encode(fl, fl + 1, Shr(max, ftb) + 1);
      Bits(Low(v, ftb), ftb);
    }

    /** Writes whole bytes of the raw window to the end of the buffer while it holds any. */
    method FlushRaw(window: uint32, used: nat) returns (w: uint32, u: nat)
      requires Stored() && used <= 32 && window < Pow2(used)
      modifies this`endOffs, this`rawOut, this`rawDone, this`error, buf
      ensures Stored() && u < 8 && w < Pow2(u) && 8 * rawOut + u == 8 * old(rawOut) + used
      ensures rawDone + Shl(w, 8 * rawOut) == old(rawDone) + Shl(window, 8 * old(rawOut))
    {
      w, u := window, used;
      while u >= 8
        invariant Stored() && u <= 32 && w < Pow2(u) && 8 * rawOut + u == 8 * old(rawOut) + used
        invariant rawDone + Shl(w, 8 * rawOut) == old(rawDone) + Shl(window, 8 * old(rawOut))
      {
        WindowShift(w, u, 8 * rawOut);
        ReleaseAtEnd((w % 256) as byte);
        w := w / 256;
        u := u - 8;
      }
    }

    /** The first half of ec_enc_bits: empties the window unless the new field fits into it. */
    method MakeRoom(nbits: nat)
      requires Valid() && 1 <= nbits <= 25
      modifies this`endOffs, this`rawOut, this`rawDone, this`error, this`endWindow, this`nendBits, buf
      ensures Valid() && State() == old(State()) && nendBits + nbits <= 32
    {
      if nendBits + nbits > 32 {
        // A do-while in the source; its first test holds here, since nendBits > 32 - 25.
        endWindow, nendBits := FlushRaw(endWindow, nendBits);
      }
    }

    /** The second half: puts the new field above the bits in the window. */
    method AddToWindow(value: nat, nbits: nat)
      requires Buffered() && value < Pow2(nbits) && nendBits + nbits <= 32
      modifies this`endWindow, this`nendBits, this`nbitsTotal
      ensures Buffered() && nendBits == old(nendBits) + nbits && nbitsTotal == old(nbitsTotal) + nbits
      ensures rawDone + Shl(endWindow, 8 * rawOut)
           == old(rawDone + Shl(endWindow, 8 * rawOut)) + Shl(value, 8 * rawOut + old(nendBits))
    {
      RawJoined(rawDone, endWindow, value, nendBits, 8 * rawOut);
      endWindow := AppendBits(endWindow, nendBits, value, nbits);
      nendBits := nendBits + nbits;
      nbitsTotal := nbitsTotal + nbits;
    }

    /** ec_enc_bits */
    method Bits(value: nat, nbits: nat)
      requires Valid() && 1 <= nbits <= 25 && value < Pow2(nbits)
      modifies this, buf
      ensures Valid() && trace == old(trace) + [Op.Bits(value, nbits)] && storage == old(storage)
    {
      MakeRoom(nbits);
      AddField(value, nbits);
      Record(Op.Bits(value, nbits));
    }

    method AddField(value: nat, nbits: nat)
      requires Buffered() && value < Pow2(nbits) && nendBits + nbits <= 32 && State().raw < Pow2(State().nraw)
      modifies this`endWindow, this`nendBits, this`nbitsTotal
      ensures Buffered() && nendBits == old(nendBits) + nbits && nbitsTotal == old(nbitsTotal) + nbits
      ensures State() == PutBits(old(State()), value, nbits)
    {
      AddToWindow(value, nbits);
    }

    /** ec_enc_shrink: the raw bytes move down to the end of the smaller buffer. */
    method Shrink(size: nat)
      requires Valid() && offs + endOffs <= size <= storage
      modifies this`storage, buf
      ensures Valid() && storage == size
    {
      MoveRaw(size);
      BackFrame(buf[..size], old(buf[..storage]), endOffs);
      storage := size;
    }

    method MoveRaw(size: nat)
      requires offs + endOffs <= size <= storage <= buf.Length
      modifies buf
      ensures buf[..offs] == old(buf[..offs])
      ensures buf[..size][size - endOffs..] == old(buf[..storage])[storage - endOffs..]
    {
      forall i | 0 <= i < endOffs {
        buf[size - endOffs + i] := buf[storage - endOffs + i];
      }
    }

    /** Sends the next byte of the final value. */
    method SendByte(e: nat, left: nat, ghost whole: nat, ghost k: nat) returns (e': nat)
      requires Buffered() && e < 0x1_0000_0000 && (e >= CODE_TOP ==> 0 <= rem <= 254)
      requires 0 < left <= 9 && Low(e, 31 - left) == 0
      requires Value(Digits()) * CODE_TOP + e == Shl(whole, 8 * k)
      modifies this`offs, this`out, this`error, this`ext, this`rem, buf
      ensures Buffered() && |Digits()| == old(|Digits()|) + 1 && e' < CODE_TOP
      ensures Value(Digits()) * CODE_TOP + e' == Shl(whole, 8 * (k + 1))
      ensures if left > 8 then Low(e', 31 - (left - 8)) == 0 else e' == 0
    {
      EndShift(Value(Digits()), e, whole, k);
      EndAligned(e, left);
      CarryOut(e / CODE_BOT);
      e' := e * 256 % CODE_TOP;
    }

    /** Empties the carry queue. */
    method EmptyQueue()
      requires Buffered()
      modifies this`offs, this`out, this`error, this`ext, this`rem, buf
      ensures Stored() && |out| == old(|Digits()|) && Value(out) == old(Value(Digits()))
    {
      if rem >= 0 || ext > 0 {
        CarryOut(0);
        assert out + [0] == Digits();
        ValueAppend(out, 0);
      }
    }

    /** Sends the leading l bits of end, in whole bytes. */
    method SendEnd(end: nat, l: nat) returns (slack: nat, ghost k: nat)
      requires Buffered() && l <= 9 && Low(end, 31 - l) == 0 && (l == 0 ==> end == 0)
      requires end < 0x1_0000_0000 && (end >= CODE_TOP ==> 0 <= rem <= 254)
      modifies this`offs, this`out, this`error, this`ext, this`rem, buf
      ensures Stored() && l <= 8 * k < l + 8 && slack == 8 * k - l && |out| == old(|Digits()|) + k
      ensures Value(out) * CODE_TOP == Shl(old(Value(Digits())) * CODE_TOP + end, 8 * k)
    {
      var e: nat, left: int := end, l;
      ghost var whole := Value(Digits()) * CODE_TOP + end;
      k := 0;
      while left > 0
        invariant left == l - 8 * k && l > 8 * (k - 1)
        invariant Buffered() && |Digits()| == old(|Digits()|) + k
        invariant Value(Digits()) * CODE_TOP + e == Shl(whole, 8 * k)
        invariant if left > 0 then Low(e, 31 - left) == 0 else e == 0
        invariant e < 0x1_0000_0000 && (e >= CODE_TOP ==> 0 <= rem <= 254)
      {
        e := SendByte(e, left, whole, k);
        left := left - 8;
        k := k + 1;
      }
      EmptyQueue();
      slack := -left;
    }

    /** Clears the bytes between the two streams. */
    method ClearGap()
      requires Stored() && error == 0
      modifies buf
      ensures Stored() && forall i :: offs <= i < storage - endOffs ==> buf[i] == 0
    {
      forall i | offs <= i < storage - endOffs {
        buf[i] := 0;
      }
      BackFrame(buf[..storage], old(buf[..storage]), endOffs);
    }

    /** Or-s the last raw bits into the byte before the raw bytes, which may be the last range-coded one. */
    method MergeLast(window: nat, used: nat, slack: nat)
      requires Stored() && error == 0 && 0 < used < 8 && window < Pow2(used) && slack < 8
      requires forall i :: offs <= i < storage - endOffs ==> buf[i] == 0
      requires Low(Value(out), slack) == 0
      modifies this`error, buf
      ensures error == 0 <==> endOffs < storage && (offs + endOffs < storage || used <= slack)
      ensures error == 0 ==> Back(buf[..storage], endOffs) == rawDone
      ensures error == 0 ==> Low(buf[storage - endOffs - 1] as nat, used) == window
      ensures error == 0 ==> Value(out) <= Front(buf[..storage], offs) < Value(out) + Pow2(slack)
    {
      if endOffs >= storage {
        error := -1;
      } else if offs + endOffs >= storage && slack < used {
        // Busted: keep only the raw bits that fit below the range-coded ones.
        Split(window, slack);
        OrInto(storage - endOffs - 1, Low(window, slack), slack);
        error := -1;
      } else {
        MergeByte(window, used, slack);
      }
    }

    /** The last raw bits have a byte of their own, or fit below the range-coded bits of the last one. */
    method MergeByte(window: nat, used: nat, slack: nat)
      requires Stored() && error == 0 && 0 < used < 8 && window < Pow2(used) && slack < 8
      requires forall i :: offs <= i < storage - endOffs ==> buf[i] == 0
      requires Low(Value(out), slack) == 0 && endOffs < storage && (offs + endOffs < storage || used <= slack)
      modifies buf
      ensures Back(buf[..storage], endOffs) == rawDone
      ensures Low(buf[storage - endOffs - 1] as nat, used) == window
      ensures Value(out) <= Front(buf[..storage], offs) < Value(out) + Pow2(slack)
    {
      ghost var was := buf[..storage];
      OrInto(storage - endOffs - 1, window, used);
      if offs + endOffs < storage {
        MergedGap(was, buf[..storage], out, storage - endOffs - 1, window, used);
      } else {
        MergedFront(was, buf[..storage], out, window, used, slack);
      }
    }

    method OrInto(i: nat, w: nat, bits: nat)
      requires Stored() && error == 0 && i == storage - endOffs - 1 && w < Pow2(bits) && bits < 8
      modifies buf
      ensures Or(old(buf[i]) as nat, w) < 256
      ensures buf[..storage] == old(buf[..storage])[i := Or(old(buf[i]) as nat, w) as byte]
      ensures Back(buf[..storage], endOffs) == rawDone
    {
      OrByte(buf[i] as nat, w, bits);
      buf[i] := Or(buf[i] as nat, w) as byte;
      BackFrame(buf[..storage], old(buf[..storage]), endOffs);
    }

    /** The two streams when no raw bits are left over. */
    lemma PlainBuffer()
      requires Stored() && error == 0
      ensures Value(out) == Front(buf[..storage], offs)
      ensures Low(Back(buf[..storage], storage), 8 * rawOut) == rawDone
    {
      BackLow(buf[..storage], endOffs, storage);
      FrontFrame(out, buf[..storage], offs);
    }

    /** The last part of ec_enc_done: what lies between the two streams. */
    method FinishBuffer(window: nat, used: nat, slack: nat)
      requires Stored() && used < 8 && window < Pow2(used) && slack < 8
      requires Low(Value(out), slack) == 0 && (out == [] ==> slack == 0)
      modifies this`error, buf
      ensures error == 0 <==> 8 * (|out| + rawOut) + used <= 8 * storage + slack
      ensures error == 0 ==> offs == |out| && endOffs == rawOut && offs + endOffs <= storage
      ensures error == 0 ==> Value(out) <= Front(buf[..storage], offs) < Value(out) + Pow2(slack)
      ensures error == 0 ==>
        Low(Back(buf[..storage], storage), 8 * rawOut + used) == rawDone + Shl(window, 8 * rawOut)
    {
      if error == 0 {
        ClearGap();
        if used > 0 {
          MergeRest(window, used, slack);
        } else {
          PlainBuffer();
          ShlZero(8 * rawOut);
        }
      }
    }

    /** The two streams when some raw bits are left over. */
    method MergeRest(window: nat, used: nat, slack: nat)
      requires Stored() && error == 0 && 0 < used < 8 && window < Pow2(used) && slack < 8
      requires forall i :: offs <= i < storage - endOffs ==> buf[i] == 0
      requires Low(Value(out), slack) == 0 && (out == [] ==> slack == 0)
      modifies this`error, buf
      ensures error == 0 <==> 8 * (|out| + rawOut) + used <= 8 * storage + slack
      ensures error == 0 ==> Value(out) <= Front(buf[..storage], offs) < Value(out) + Pow2(slack)
      ensures error == 0 ==>
        Low(Back(buf[..storage], storage), 8 * rawOut + used) == rawDone + Shl(window, 8 * rawOut)
    {
      MergeLast(window, used, slack);
      if error == 0 {
        BackLowBits(buf[..storage], endOffs, used);
      }
    }

    /** The buffer finished so, for a coder state and the bytes sent for it, holds its stream. */
    method Seal(window: nat, used: nat, slack: nat, ghost c: Code, ghost k: nat)
      requires Stored() && used < 8 && window < Pow2(used) && slack < 8
      requires Low(Value(out), slack) == 0 && (out == [] ==> slack == 0)
      requires ValidCode(c) && slack == 8 * k - DoneBits(c) && k <= 2 && |out| == c.n + k
      requires Value(out) * CODE_TOP == Shl(RoundUp(c.low, 31 - DoneBits(c)), 8 * k)
      requires 8 * rawOut + used == c.nraw && rawDone + Shl(window, 8 * rawOut) == c.raw
      modifies this`error, buf
      ensures error == 0 <==> 8 * c.n + DoneBits(c) + c.nraw <= 8 * storage
      ensures error == 0 ==> Contains(c, buf[..storage]) && offs == c.n + k
    {
      FinishBuffer(window, used, slack);
      if error == 0 {
        DoneContains(c, buf[..storage], k, Value(out));
      }
    }

    /** Sends the end of the range-coded stream. */
    method SendRange() returns (slack: nat, ghost k: nat)
      requires Valid()
      modifies this`offs, this`out, this`error, this`ext, this`rem, buf
      ensures Stored() && slack < 8
      ensures slack == 8 * k - DoneBits(old(State())) && k <= 2 && |out| == old(State().n) + k
      ensures Value(out) * CODE_TOP == Shl(RoundUp(old(State().low), 31 - DoneBits(old(State()))), 8 * k)
      ensures Low(Value(out), slack) == 0 && (out == [] ==> slack == 0)
    {
      ghost var c := State();
      var end, l := ChooseEnd(val, rng, Value(Digits()), c);
      RoundUpBounds(c.low, 31 - l);
      slack, k := SendEnd(end, l);
      SlackClear(Value(out), RoundUp(c.low, 31 - l), k, l);
    }

    /** Sends the end of the range-coded stream and the whole bytes of raw bits. */
    method SendAll() returns (window: uint32, used: nat, slack: nat, ghost k: nat)
      requires Valid()
      modifies this`offs, this`out, this`error, this`ext, this`rem, this`endOffs, this`rawOut, this`rawDone, buf
      ensures Stored() && used < 8 && window < Pow2(used) && slack < 8
      ensures slack == 8 * k - DoneBits(old(State())) && k <= 2 && |out| == old(State().n) + k
      ensures Value(out) * CODE_TOP == Shl(RoundUp(old(State().low), 31 - DoneBits(old(State()))), 8 * k)
      ensures Low(Value(out), slack) == 0 && (out == [] ==> slack == 0)
      ensures 8 * rawOut + used == old(State().nraw) && rawDone + Shl(window, 8 * rawOut) == old(State().raw)
    {
      slack, k := SendRange();
      window, used := FlushRaw(endWindow, nendBits);
    }

    /** ec_enc_done */
    method Done()
      requires Valid()
      modifies this, buf
      ensures storage == old(storage) && rng == old(rng) && nbitsTotal == old(nbitsTotal)
      ensures error == 0 <==> old(8 * State().n + DoneBits(State()) + State().nraw) <= 8 * storage
      ensures error == 0 ==> Contains(old(State()), buf[..storage])
      ensures error == 0 ==> 8 * offs < old(8 * State().n + DoneBits(State())) + 8
    {
      ghost var c := State();
      var window, used, slack; ghost var k;
      window, used, slack, k := SendAll();
      Seal(window, used, slack, c, k);
    }
  }
}
