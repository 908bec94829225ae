/** ec_laplace_encode_p0 and ec_laplace_decode_p0 of laplace.c: any integer, as a sign and chunks of up to seven. */
module LaplaceP0 {
  import opened Arith
  import opened RangeSpec
  import opened RangeEncoder
  import opened RangeDecoder
  import opened Laplace

  /** The models for which every sign and every chunk has a nonzero probability. */
  predicate ValidP0(p0: nat, decay: nat) {
    1 <= p0 <= 32766 && decay < 32768
  }

  function SignTable(p0: nat): seq<nat>
    requires p0 <= 32768
  {
    [32768 - p0, (32768 - p0) / 2, 0]
  }

  /** Entry i of the table of chunk sizes. */
  function Entry(i: nat, decay: nat): (e: nat)
    requires i <= 7 && decay < 32768
    ensures i < 7 ==> 7 - i <= e < 32768
    ensures 0 < i ==> e < Entry(i - 1, decay)
  {
    if i == 0 then Max(7, decay) as nat
    else if i == 7 then 0
    else
      MulMonotone(Entry(i - 1, decay), decay, 32767);
      Max(7 - i, Scaled(Entry(i - 1, decay), decay))
  }

  function ChunkTable(decay: nat): (t: seq<nat>)
    requires decay < 32768
    ensures |t| == 8 && forall i :: 0 <= i < 8 ==> t[i] == Entry(i, decay)
  {
    seq(8, i requires 0 <= i < 8 => Entry(i, decay))
  }

  /** A table the encoder and decoder may use, all of whose symbols have a nonzero probability. */
  predicate FullTable(t: seq<nat>) {
    |t| > 0 && ValidIcdf(t, 15) && forall s :: 0 <= s < |t| ==> t[s] < if s > 0 then t[s - 1] else Pow2(15)
  }

  lemma {:induction false} DescendingFull(t: seq<nat>)
    requires |t| > 0 && t[0] < 32768 && t[|t| - 1] == 0 && forall s :: 0 < s < |t| ==> t[s] < t[s - 1]
    ensures FullTable(t)
  {
    Pow2Bytes();
    forall i, j | 0 <= i <= j < |t| ensures t[j] <= t[i] {
      Descends(t, i, j);
    }
  }

  lemma {:induction false} Descends(t: seq<nat>, i: nat, j: nat)
    requires i <= j < |t| && forall s :: 0 < s < |t| ==> t[s] < t[s - 1]
    ensures t[j] <= t[i]
  {
    if i < j {
      Descends(t, i, j - 1);
    }
  }

  lemma TablesFull(p0: nat, decay: nat)
    requires ValidP0(p0, decay)
    ensures FullTable(SignTable(p0)) && FullTable(ChunkTable(decay))
  {
    DescendingFull(SignTable(p0));
    DescendingFull(ChunkTable(decay));
  }

  /** A count as chunks: sevens, and a last chunk below seven. */
  function Chunks(m: nat, decay: nat): seq<Op>
    requires decay < 32768
  {
    if m < 7 then [IcdfOp(m, ChunkTable(decay), 15)]
    else [IcdfOp(7, ChunkTable(decay), 15)] + Chunks(m - 7, decay)
  }

  function Sign(v: int): nat {
    if v == 0 then 0 else if v > 0 then 1 else 2
  }

  /** What ec_laplace_encode_p0 codes. */
  function P0Ops(v: int, p0: nat, decay: nat): seq<Op>
    requires ValidP0(p0, decay)
  {
    [IcdfOp(Sign(v), SignTable(p0), 15)] + if v == 0 then [] else Chunks(Abs(v) - 1, decay)
  }

  /** The table of chunk sizes. */
  method MakeTable(decay: nat) returns (t: seq<nat>)
    requires decay < 32768
    ensures t == ChunkTable(decay) && FullTable(t)
  {
    var icdf := new nat[8];
    icdf[0] := Max(7, decay);
    for i := 1 to 7
      invariant forall j :: 0 <= j < i ==> icdf[j] == Entry(j, decay)
    {
      icdf[i] := Max(7 - i, Scaled(icdf[i - 1], decay));
    }
    icdf[7] := 0;
    t := icdf[..];
    TablesFull(1, decay);
  }

  /** ec_laplace_encode_p0 */
  method EncodeP0(enc: Encoder, value: int, p0: nat, decay: nat)
    requires enc.Valid() && ValidP0(p0, decay)
    modifies enc, enc.buf
    ensures enc.Valid() && enc.storage == old(enc.storage)
    ensures enc.trace == old(enc.trace) + P0Ops(value, p0, decay)
  {
    SignNext(enc.trace, value, p0, decay, []);
    EncodeSign(enc, Sign(value), p0);
    if value != 0 {
      var icdf := MakeTable(decay);
      EncodeChunks(enc, Abs(value) - 1, icdf, decay);
    }
  }

  method EncodeSign(enc: Encoder, s: nat, p0: nat)
    requires enc.Valid() && 1 <= p0 <= 32766 && s <= 2
    modifies enc, enc.buf
    ensures enc.Valid() && enc.storage == old(enc.storage)
    ensures enc.trace == old(enc.trace) + [IcdfOp(s, SignTable(p0), 15)]
  {
    TablesFull(p0, 0);
    enc.Icdf(s, SignTable(p0), 15);
  }

  method EncodeChunks(enc: Encoder, m: nat, icdf: seq<nat>, ghost decay: nat)
    requires enc.Valid() && decay < 32768 && icdf == ChunkTable(decay) && FullTable(icdf)
    modifies enc, enc.buf
    ensures enc.Valid() && enc.storage == old(enc.storage)
    ensures enc.trace == old(enc.trace) + Chunks(m, decay)
  {
    var value: int := m;
    // A do-while in the source; its first test holds here.
    while value >= 0
      invariant enc.Valid() && enc.storage == old(enc.storage)
      invariant enc.trace + (if value >= 0 then Chunks(value, decay) else []) == old(enc.trace) + Chunks(m, decay)
    {
      ghost var op := IcdfOp(Min(value, 7), icdf, 15);
      Regroup(enc.trace, [op], if value >= 7 then Chunks(value - 7, decay) else []);
      enc.Icdf(Min(value, 7), icdf, 15);
      value := value - 7;
    }
  }

  /** Renormalisation never moves the pointer down, and past the end of the buffer a shift moves it up. */
  lemma {:induction false} ScaleMoves(d: Dec)
    requires d.val < d.rng <= CODE_TOP
    ensures var s := DecScale(d);
      s == d || (s.n > d.n && (d.n >= |d.b| ==> s.val > d.val))
    decreases CODE_TOP - d.rng
  {
    if d.rng <= CODE_BOT {
      ScaleMoves(DecShift(d));
    }
  }

  /** A chunk of seven leaves the pointer and lowers the range: on any data the run of sevens comes to an end. */
  lemma SevenMoves(d: Dec, icdf: seq<nat>)
    requires ValidDec(d) && FullTable(icdf) && |icdf| == 8
    requires Readable(d, IcdfOp(7, icdf, 15))
    ensures var s := Advance(d, IcdfOp(7, icdf, 15));
      || (s.n > d.n && (d.n >= |d.b| ==> s.val > d.val))
      || (s.n == d.n && s.val == d.val && s.rng < d.rng)
  {
    var op := IcdfOp(7, icdf, 15);
    assert icdf[6] < icdf[5] <= Pow2(15);
    DivBounds(d.rng, Pow2(15), 1);
    MulMonotone(d.rng / Pow2(15), icdf[6], Pow2(15) - 1);
    ScaleMoves(DecNarrow(d, op));
  }

  lemma NextChunk(trace: seq<Op>, m: nat, decay: nat, script: seq<Op>)
    requires decay < 32768 && trace + Chunks(m, decay) <= script
    ensures trace + [IcdfOp(Min(m, 7), ChunkTable(decay), 15)] <= script
    ensures m >= 7 ==>
      trace + [IcdfOp(7, ChunkTable(decay), 15)] + Chunks(m - 7, decay) == trace + Chunks(m, decay)
  {
    var op := IcdfOp(Min(m, 7), ChunkTable(decay), 15);
    if m >= 7 {
      Regroup(trace, [op], Chunks(m - 7, decay));
    }
  }

  /** The chunks of a count; m is the count the encoder was given. */
  method DecodeChunks(dec: Decoder, icdf: seq<nat>, ghost decay: nat, ghost m: nat) returns (value: nat)
    requires dec.Valid() && decay < 32768 && icdf == ChunkTable(decay) && FullTable(icdf)
    modifies dec
    ensures dec.Valid() && dec.error == old(dec.error) && value >= 1
    ensures old(dec.trace) + Chunks(m, decay) <= dec.script ==>
      value == 1 + m && dec.trace == old(dec.trace) + Chunks(m, decay)
  {
    value := 1;
    var v := 7;
    ghost var left := m;
    ghost var sync := dec.trace + Chunks(m, decay) <= dec.script;
    while v == 7
      invariant dec.Valid() && dec.error == old(dec.error) && value >= 1 && v <= 7
      invariant sync ==> value + (if v == 7 then left else 0) == 1 + m
      invariant sync ==>
        dec.trace + (if v == 7 then Chunks(left, decay) else []) == old(dec.trace) + Chunks(m, decay)
      decreases v == 7, Max(|dec.buf| - dec.State().n, 0), CODE_TOP - dec.State().val, dec.State().rng
    {
      v := DecodeChunk(dec, icdf, decay, left, sync);
      value := value + v;
      left := if left >= 7 then left - 7 else 0;
    }
  }

  method DecodeChunk(dec: Decoder, icdf: seq<nat>, ghost decay: nat, ghost left: nat, ghost sync: bool) returns (v: nat)
    requires dec.Valid() && decay < 32768 && icdf == ChunkTable(decay) && FullTable(icdf)
    requires sync ==> dec.trace + Chunks(left, decay) <= dec.script
    modifies dec
    ensures dec.Valid() && dec.error == old(dec.error) && v <= 7
    ensures sync ==> v == Min(left, 7)
    ensures sync ==>
      dec.trace + (if v == 7 then Chunks(left - 7, decay) else []) == old(dec.trace) + Chunks(left, decay)
    ensures v == 7 ==> var s, d := dec.State(), old(dec.State());
      || (s.n > d.n && (d.n >= |dec.buf| ==> s.val > d.val))
      || (s.n == d.n && s.val == d.val && s.rng < d.rng)
  {
    ghost var d := dec.State();
    if sync {
      NextChunk(dec.trace, left, decay, dec.script);
    }
    v := dec.Icdf(icdf, 15);
    if v == 7 {
      SevenMoves(d, icdf);
    }
  }

  method DecodeSign(dec: Decoder, p0: nat, ghost coded: nat) returns (s: nat)
    requires dec.Valid() && 1 <= p0 <= 32766 && coded <= 2
    modifies dec
    ensures dec.Valid() && dec.error == old(dec.error) && s <= 2
    ensures old(dec.trace) + [IcdfOp(coded, SignTable(p0), 15)] <= dec.script ==>
      s == coded && dec.trace == old(dec.trace) + [IcdfOp(coded, SignTable(p0), 15)]
  {
    TablesFull(p0, 0);
    ghost var t := SignTable(p0);
    assert coded < |t| && (dec.trace + [IcdfOp(coded, t, 15)] <= dec.script ==> dec.Next(IcdfOp(coded, t, 15)));
    s := dec.Icdf(SignTable(p0), 15);
  }

  /** ec_laplace_decode_p0; v is the value the encoder was given, if it coded one. */
  method DecodeP0(dec: Decoder, p0: nat, decay: nat, ghost v: int) returns (value: int)
    requires dec.Valid() && ValidP0(p0, decay)
    modifies dec
    ensures dec.Valid() && dec.error == old(dec.error)
    ensures old(dec.trace) + P0Ops(v, p0, decay) <= dec.script ==>
      value == v && dec.trace == old(dec.trace) + P0Ops(v, p0, decay)
  {
    ghost var m := if v == 0 then 0 else Abs(v) - 1;
    SignNext(dec.trace, v, p0, decay, dec.script);
    var s := DecodeSign(dec, p0, Sign(v));
    value := 0;
    if s != 0 {
      var icdf := MakeTable(decay);
      var count: int := DecodeChunks(dec, icdf, decay, m);
      value := if s == 2 then -count else count;
    }
  }

  lemma SignNext(trace: seq<Op>, v: int, p0: nat, decay: nat, script: seq<Op>)
    requires ValidP0(p0, decay)
    ensures var sign := IcdfOp(Sign(v), SignTable(p0), 15);
      && (trace + P0Ops(v, p0, decay) <= script ==> trace + [sign] <= script)
      && (v == 0 ==> trace + [sign] == trace + P0Ops(v, p0, decay))
      && (v != 0 ==> trace + [sign] + Chunks(Abs(v) - 1, decay) == trace + P0Ops(v, p0, decay))
  {
    Regroup(trace, [IcdfOp(Sign(v), SignTable(p0), 15)], if v == 0 then [] else Chunks(Abs(v) - 1, decay));
  }
}
