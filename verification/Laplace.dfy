/** The Laplace-like coder of coarse energy (laplace.c; RFC 6716, section 4.3.2.1). */
module Laplace {
  import opened Arith
  import opened RangeSpec
  import opened RangeEncoder
  import opened RangeDecoder

  /** The probabilities a value may be coded with: that of 0, out of 32768, and the decay of the others. */
  predicate ValidModel(fs0: nat, decay: nat) {
    0 < fs0 <= 32736 && decay < 16384
  }

  /** ec_laplace_get_freq1 */
  function Freq1(fs0: nat, decay: nat): nat
    requires ValidModel(fs0, decay)
  {
    Scaled(32736 - fs0, 16384 - decay)
  }

  /** x * y >> 15 */
  function Scaled(x: nat, y: nat): nat {
    MulMonotone(x, 0, y);
    x * y / 32768
  }

  /** The frequency of the next magnitude, less its guaranteed minimum of one. */
  function Decayed(f: nat, decay: nat): (g: nat)
    requires decay < 16384
    ensures f > 0 ==> g < f
  {
    MulMonotone(2 * f, decay, 16383);
    Scaled(2 * f, decay)
  }

  /** A point of the search: magnitude i has the 2 (f + 1) frequencies from fl on; all have f = 0 from some i on. */
  datatype Level = Level(i: nat, fl: nat, f: nat)

  function NextLevel(w: Level, decay: nat): Level
    requires decay < 16384
  {
    Level(w.i + 1, w.fl + 2 * w.f + 2, Decayed(w.f, decay))
  }

  /** The encoder's search: for a magnitude. */
  function Seek(w: Level, m: nat, decay: nat): (r: Level)
    requires decay < 16384
    ensures r.fl >= w.fl && r.i >= w.i
    ensures w.i <= m ==> r.i <= m && (r.f > 0 ==> r.i == m)
    decreases w.f
  {
    if w.f > 0 && w.i < m then Seek(NextLevel(w, decay), m, decay) else w
  }

  /** The decoder's search: for a frequency. */
  function Find(w: Level, fm: nat, decay: nat): (r: Level)
    requires decay < 16384
    ensures r.f > 0 ==> fm < r.fl + 2 * (r.f + 1)
    ensures w.fl <= fm ==> r.fl <= fm
    decreases w.f
  {
    if w.f > 0 && fm >= w.fl + 2 * (w.f + 1) then Find(NextLevel(w, decay), fm, decay) else w
  }

  /** Where the tail begins, in which every value has frequency one. */
  function TailStart(w: Level, decay: nat): (fl: nat)
    requires decay < 16384
    ensures fl >= w.fl
    decreases w.f
  {
    if w.f == 0 then w.fl else TailStart(NextLevel(w, decay), decay)
  }

  function First(fs0: nat, decay: nat): Level
    requires ValidModel(fs0, decay)
  {
    Level(1, fs0, Freq1(fs0, decay))
  }

  /** There is room for a tail of at least one value of each sign. */
  predicate TailFits(fs0: nat, decay: nat) {
    ValidModel(fs0, decay) && TailStart(First(fs0, decay), decay) <= 32766
  }

  /** What ec_laplace_encode does with a value: the value it codes instead, and its interval. */
  datatype Coded = Coded(value: int, fl: int, fh: int)

  function Encoded(v: int, fs0: nat, decay: nat): Coded
    requires ValidModel(fs0, decay)
  {
    if v == 0 then Coded(0, 0, fs0)
    else
      var w := Seek(First(fs0, decay), Abs(v), decay);
      if w.f == 0 then Tail(w, Abs(v), v < 0)
      else if v < 0 then Coded(v, w.fl, w.fl + w.f + 1)
      else Coded(v, w.fl + w.f + 1, w.fl + 2 * (w.f + 1))
  }

  /** In the tail the magnitude is limited to what fits below 32768. */
  function Tail(w: Level, m: nat, neg: bool): Coded {
    var room := (32768 - w.fl + if neg then 1 else 0) / 2;
    var di := Min(m - w.i, room - 1);
    var fl := w.fl + 2 * di + if neg then 0 else 1;
    Coded(if neg then -(w.i + di) else w.i + di, fl, fl + Min(1, 32768 - fl))
  }

  /** What ec_laplace_decode makes of a frequency. */
  function Decoded(fm: nat, fs0: nat, decay: nat): (c: Coded)
    requires ValidModel(fs0, decay) && fm < 32768
    ensures 0 <= c.fl <= fm < c.fh <= 32768
  {
    if fm < fs0 then Coded(0, 0, fs0)
    else
      PointIn(Find(First(fs0, decay), fm, decay), fm)
  }

  function PointIn(w: Level, fm: nat): (c: Coded)
    requires w.fl <= fm < 32768 && (w.f > 0 ==> fm < w.fl + 2 * (w.f + 1))
    ensures 0 <= c.fl <= fm < c.fh <= 32768
  {
    var di := if w.f == 0 then (fm - w.fl) / 2 else 0;
    var fl, fs := w.fl + 2 * di, w.f + 1;
    if fm < fl + fs then Coded(-(w.i + di), fl, Min(fl + fs, 32768))
    else Coded(w.i + di, fl + fs, Min(fl + 2 * fs, 32768))
  }

  lemma {:induction false} SeekBelowTail(w: Level, m: nat, decay: nat)
    requires decay < 16384
    ensures var r := Seek(w, m, decay);
      if r.f == 0 then r.fl == TailStart(w, decay) else r.fl + 2 * (r.f + 1) <= TailStart(w, decay)
    decreases w.f
  {
    if w.f > 0 && w.i < m {
      SeekBelowTail(NextLevel(w, decay), m, decay);
    }
  }

  /** The decoder's search from any frequency of a magnitude ends where the encoder's search for it ended. */
  lemma {:induction false} FindSought(w: Level, m: nat, fm: nat, decay: nat)
    requires decay < 16384 && w.i <= m
    requires var r := Seek(w, m, decay); r.fl <= fm && (r.f > 0 ==> fm < r.fl + 2 * (r.f + 1))
    ensures Find(w, fm, decay) == Seek(w, m, decay)
    decreases w.f
  {
    if w.f > 0 && w.i < m {
      FindSought(NextLevel(w, decay), m, fm, decay);
    }
  }

  /** What is coded has a valid interval, the sign of the value and at most its magnitude. */
  lemma EncodedValid(v: int, fs0: nat, decay: nat)
    requires TailFits(fs0, decay)
    ensures var c := Encoded(v, fs0, decay);
      0 <= c.fl < c.fh <= 32768 && Abs(c.value) <= Abs(v) && (c.value < 0 <==> v < 0) && (c.value > 0 <==> v > 0)
  {
    if v != 0 {
      SeekBelowTail(First(fs0, decay), Abs(v), decay);
    }
  }

  lemma TailRoundTrip(w: Level, m: nat, neg: bool, fm: nat)
    requires w.f == 0 && w.fl <= 32766 && w.i <= m
    requires var c := Tail(w, m, neg); c.fl <= fm < c.fh
    ensures fm < 32768 && w.fl <= fm && PointIn(w, fm) == Tail(w, m, neg)
  {
  }

  /** The round trip on frequencies: any point of a value's interval decodes to it, and to its interval. */
  lemma DecodedEncoded(v: int, fm: nat, fs0: nat, decay: nat)
    requires TailFits(fs0, decay)
    requires var c := Encoded(v, fs0, decay); c.fl <= fm < c.fh
    ensures fm < 32768 && Decoded(fm, fs0, decay) == Encoded(v, fs0, decay)
  {
    EncodedValid(v, fs0, decay);
    if v != 0 {
      SeekBelowTail(First(fs0, decay), Abs(v), decay);
      FindSought(First(fs0, decay), Abs(v), fm, decay);
      var w := Seek(First(fs0, decay), Abs(v), decay);
      if w.f == 0 {
        TailRoundTrip(w, Abs(v), v < 0, fm);
      }
    }
  }

  lemma PointsDecode(v: int, fs0: nat, decay: nat)
    requires TailFits(fs0, decay)
    ensures var c := Encoded(v, fs0, decay);
      0 <= c.fl < c.fh <= 32768 && forall fm: nat :: c.fl <= fm < c.fh ==> Decoded(fm, fs0, decay) == c
  {
    EncodedValid(v, fs0, decay);
    var c := Encoded(v, fs0, decay);
    forall fm: nat | c.fl <= fm < c.fh ensures Decoded(fm, fs0, decay) == c {
      DecodedEncoded(v, fm, fs0, decay);
    }
  }

  /** Every value that is not clamped keeps its own interval, so distinct values have disjoint ones. */
  lemma Disjoint(v: int, w: int, fm: nat, fs0: nat, decay: nat)
    requires TailFits(fs0, decay)
    requires var c := Encoded(v, fs0, decay); c.fl <= fm < c.fh
    requires var c := Encoded(w, fs0, decay); c.fl <= fm < c.fh
    ensures Encoded(v, fs0, decay).value == Encoded(w, fs0, decay).value
  {
    DecodedEncoded(v, fm, fs0, decay);
    DecodedEncoded(w, fm, fs0, decay);
  }

  // ----- The layout

  /** One magnitude more is one step more of the search, unless the tail has begun. */
  lemma {:induction false} SeekNext(w: Level, m: nat, decay: nat)
    requires decay < 16384 && w.i <= m
    ensures var r := Seek(w, m, decay);
      Seek(w, m + 1, decay) == if r.f > 0 then NextLevel(r, decay) else r
    decreases w.f
  {
    if w.f > 0 && w.i < m {
      SeekNext(NextLevel(w, decay), m, decay);
    }
  }

  /** The value is coded as it is. */
  predicate Representable(v: int, fs0: nat, decay: nat)
    requires ValidModel(fs0, decay)
  {
    Encoded(v, fs0, decay).value == v
  }

  /** The frequency of a value, less the one that all have. */
  function Excess(v: int, fs0: nat, decay: nat): int
    requires ValidModel(fs0, decay)
  {
    Encoded(v, fs0, decay).fh - Encoded(v, fs0, decay).fl - 1
  }

  /** The intervals of a magnitude's two values are side by side, the negative one's first, and as wide. */
  predicate Adjacent(neg: int, pos: int, fs0: nat, decay: nat)
    requires ValidModel(fs0, decay)
  {
    Encoded(neg, fs0, decay).fh == Encoded(pos, fs0, decay).fl && Excess(neg, fs0, decay) == Excess(pos, fs0, decay)
  }

  lemma SignsAdjacent(v: int, fs0: nat, decay: nat)
    requires TailFits(fs0, decay) && v > 0 && Representable(v, fs0, decay)
    ensures Representable(-v, fs0, decay) && Adjacent(-v, v, fs0, decay)
  {
    SeekBelowTail(First(fs0, decay), v, decay);
  }

  /** Zero comes first, and every magnitude follows the one below it. */
  lemma MagnitudesInOrder(m: nat, fs0: nat, decay: nat)
    requires TailFits(fs0, decay) && Representable(-(m + 1), fs0, decay)
    ensures Representable(m, fs0, decay)
    ensures Encoded(-(m + 1), fs0, decay).fl == Encoded(m, fs0, decay).fh
    ensures Encoded(0, fs0, decay).fl == 0 && Encoded(0, fs0, decay).fh == fs0
  {
    SeekBelowTail(First(fs0, decay), m + 1, decay);
    if m > 0 {
      SeekBelowTail(First(fs0, decay), m, decay);
      SeekNext(First(fs0, decay), m, decay);
    }
  }

  /** Frequencies fall off geometrically, rounded down, from a share of what zero and 16 values a side leave. */
  lemma FrequenciesDecay(m: nat, fs0: nat, decay: nat)
    requires TailFits(fs0, decay) && m > 0
    ensures m == 1 ==> Excess(m, fs0, decay) == (32768 - 2 * 16 - fs0) * (16384 - decay) / 32768
    ensures Excess(m + 1, fs0, decay) == Excess(m, fs0, decay) * decay / 16384
  {
    var r, t := Seek(First(fs0, decay), m, decay), Seek(First(fs0, decay), m + 1, decay);
    SeekBelowTail(First(fs0, decay), m, decay);
    SeekBelowTail(First(fs0, decay), m + 1, decay);
    SeekNext(First(fs0, decay), m, decay);
    assert Excess(m, fs0, decay) == r.f && Excess(m + 1, fs0, decay) == t.f;
    HalvedProduct(r.f, decay);
  }

  lemma HalvedProduct(f: nat, decay: nat)
    requires decay < 16384
    ensures Decayed(f, decay) == f * decay / 16384 && (f == 0 ==> Decayed(f, decay) == 0)
  {
    assert 2 * f * decay == 2 * (f * decay);
    DoubledQuotient(f * decay);
  }

  lemma DoubledQuotient(x: int)
    ensures 2 * x / 32768 == x / 16384
  {
  }

  /** A value is replaced only if there is no room for another of its sign. */
  lemma ClampedAtEnd(v: int, fs0: nat, decay: nat)
    requires TailFits(fs0, decay) && !Representable(v, fs0, decay)
    ensures Encoded(v, fs0, decay).fl + 2 >= 32768
  {
  }

  /** What ec_laplace_encode codes. */
  function LaplaceOps(v: int, fs0: nat, decay: nat): seq<Op>
    requires TailFits(fs0, decay)
  {
    EncodedValid(v, fs0, decay);
    [SymOp(Encoded(v, fs0, decay).fl, Encoded(v, fs0, decay).fh, Pow2(15))]
  }

  /** The search of ec_laplace_encode. */
  method SearchMagnitude(fs0: nat, decay: nat, val: nat) returns (i: nat, fl: nat, fs: nat)
    requires ValidModel(fs0, decay) && val > 0
    ensures Level(i, fl, fs) == Seek(First(fs0, decay), val, decay)
  {
    fl := fs0;
    fs := Freq1(fs0, decay);
    i := 1;
    while fs > 0 && i < val
      invariant i <= val && Seek(Level(i, fl, fs), val, decay) == Seek(First(fs0, decay), val, decay)
      decreases fs
    {
      ghost var f := fs;
      fs := fs * 2;
      fl := fl + fs + 2;
      fs := Scaled(fs, decay);
      assert fs == Decayed(f, decay);
      i := i + 1;
    }
  }

  /** From the value to what is coded for it and its interval. */
  method IntervalOf(value: int, fs0: nat, decay: nat) returns (coded: int, fl: int, fs: int)
    requires TailFits(fs0, decay)
    ensures Encoded(value, fs0, decay) == Coded(coded, fl, fl + fs)
  {
    coded, fl, fs := value, 0, fs0;
    if value != 0 {
      var neg := value < 0;
      var val, i := Abs(value), 0;
      i, fl, fs := SearchMagnitude(fs0, decay, val);
      if fs == 0 {
        var di := Min(val - i, (32768 - fl + if neg then 1 else 0) / 2 - 1);
        fl := fl + 2 * di + if neg then 0 else 1;
        fs := Min(1, 32768 - fl);
        coded := if neg then -(i + di) else i + di;
      } else {
        fs := fs + 1;
        fl := fl + if neg then 0 else fs;
      }
    }
  }

  /** ec_laplace_encode; returns the value written back. */
  method LaplaceEncode(enc: Encoder, value: int, fs0: nat, decay: nat) returns (coded: int)
    requires enc.Valid() && TailFits(fs0, decay)
    modifies enc, enc.buf
    ensures enc.Valid() && enc.storage == old(enc.storage) && coded == Encoded(value, fs0, decay).value
    ensures enc.trace == old(enc.trace) + LaplaceOps(value, fs0, decay)
  {
    EncodedValid(value, fs0, decay);
    assert Pow2(15) == 32768;
    var fl, fs;
    coded, fl, fs := IntervalOf(value, fs0, decay);
    enc.EncodeBin(fl, fl + fs, 15);
  }

  /** The search of ec_laplace_decode. */
  method SearchFrequency(fs0: nat, decay: nat, fm: nat) returns (val: nat, fl: nat, fs: nat)
    requires ValidModel(fs0, decay) && fm >= fs0
    ensures fs >= 1 && Level(val, fl, fs - 1) == Find(First(fs0, decay), fm, decay)
  {
    val := 1;
    fl := fs0;
    fs := Freq1(fs0, decay) + 1;
    while fs > 1 && fm >= fl + 2 * fs
      invariant fs >= 1 && Find(Level(val, fl, fs - 1), fm, decay) == Find(First(fs0, decay), fm, decay)
      decreases fs
    {
      ghost var f := fs - 1;
      fs := fs * 2;
      fl := fl + fs;
      fs := Scaled(fs - 2, decay) + 1;
      assert fs - 1 == Decayed(f, decay);
      val := val + 1;
    }
  }

  /** From the decoded frequency to the value and its interval. */
  method ValueAt(fs0: nat, decay: nat, fm: nat) returns (val: int, fl: nat, fs: nat)
    requires ValidModel(fs0, decay) && fm < 32768
    ensures Decoded(fm, fs0, decay) == Coded(val, fl, Min(fl + fs, 32768))
  {
    val, fl, fs := 0, 0, fs0;
    if fm >= fs0 {
      val, fl, fs := SearchFrequency(fs0, decay, fm);
      if fs <= 1 {
        var di := (fm - fl) / 2;
        val := val + di;
        fl := fl + 2 * di;
      }
      if fm < fl + fs {
        val := -val;
      } else {
        fl := fl + fs;
      }
    }
  }

  /** ec_laplace_decode; v is the value the encoder was given, if it coded one. */
  method LaplaceDecode(dec: Decoder, fs0: nat, decay: nat, ghost v: int) returns (val: int)
    requires dec.Valid() && TailFits(fs0, decay)
    modifies dec
    ensures dec.Valid() && dec.error == old(dec.error)
    ensures old(dec.trace) + LaplaceOps(v, fs0, decay) <= dec.script ==>
      val == Encoded(v, fs0, decay).value && dec.trace == old(dec.trace) + LaplaceOps(v, fs0, decay)
  {
    assert Pow2(15) == 32768;
    ghost var c := Encoded(v, fs0, decay);
    PointsDecode(v, fs0, decay);
    var fm := dec.DecodeBin(15);
    ghost var before := dec.trace;
    var fl, fs;
    val, fl, fs := ValueAt(fs0, decay, fm);
    assert before + [SymOp(c.fl, c.fh, Pow2(15))] <= dec.script ==> Coded(val, fl, Min(fl + fs, 32768)) == c;
    dec.Update(fl, Min(fl + fs, 32768), 32768);
  }
}
