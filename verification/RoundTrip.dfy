/**
 Any list of calls through the bytes: what the encoder codes and ec_enc_done leaves without an error, the decoder reads
 back, and after every call both have used as many bits (RFC 6716, sections 4.1 and 5.1).
 */
module RoundTrip {
  import opened Arith
  import opened RangeSpec
  import opened RangeEncoder
  import opened RangeDecoder
  import opened Flags

  /**
   The model of a call: cumulative frequencies, for a total or for a number of bits; a flag; an inverse cumulative
   distribution; a uniform integer; raw bits.
   */
  datatype Model =
    | Table(cum: seq<nat>)
    | Binary(cum: seq<nat>, bits: nat)
    | Flag(logp: nat)
    | Inverse(icdf: seq<nat>, ftb: nat)
    | Integer(ft: nat)
    | Raw(nbits: nat)

  predicate Cumulative(cum: seq<nat>, ft: nat) {
    && |cum| >= 2 && cum[0] == 0 && cum[|cum| - 1] == ft && ft >= 1
    && forall i, j :: 0 <= i <= j < |cum| ==> cum[i] <= cum[j]
  }

  predicate ValidModel(m: Model) {
    match m
    case Table(cum) => |cum| > 0 && Cumulative(cum, cum[|cum| - 1]) && cum[|cum| - 1] <= CODE_BOT
    case Binary(cum, bits) => bits <= 23 && Cumulative(cum, Pow2(bits))
    case Flag(logp) => 1 <= logp <= 23
    case Inverse(icdf, ftb) => ValidIcdf(icdf, ftb)
    case Integer(ft) => 2 <= ft < 0x1_0000_0000
    case Raw(nbits) => 1 <= nbits <= 25
  }

  /** A value that the model gives a probability. */
  predicate Codable(m: Model, v: nat)
    requires ValidModel(m)
  {
    match m
    case Table(cum) => v + 1 < |cum| && cum[v] < cum[v + 1]
    case Binary(cum, bits) => v + 1 < |cum| && cum[v] < cum[v + 1]
    case Flag(logp) => v <= 1
    case Inverse(icdf, ftb) => v < |icdf| && icdf[v] < if v > 0 then icdf[v - 1] else Pow2(ftb)
    case Integer(ft) => v < ft
    case Raw(nbits) => v < Pow2(nbits)
  }

  /** What a call codes. */
  function OpsOf(m: Model, v: nat): (ops: seq<Op>)
    requires ValidModel(m) && Codable(m, v)
  {
    match m
    case Table(cum) => [SymOp(cum[v], cum[v + 1], cum[|cum| - 1])]
    case Binary(cum, bits) => [SymOp(cum[v], cum[v + 1], Pow2(bits))]
    case Flag(logp) => [BitOp(v == 1, logp)]
    case Inverse(icdf, ftb) => [IcdfOp(v, icdf, ftb)]
    case Integer(ft) => UintOps(v, ft)
    case Raw(nbits) => [Op.Bits(v, nbits)]
  }

  ghost predicate ValidCalls(models: seq<Model>, values: seq<nat>) {
    |models| == |values| && forall i :: 0 <= i < |models| ==> ValidModel(models[i]) && Codable(models[i], values[i])
  }

  /** What each call codes. */
  ghost function Pieces(models: seq<Model>, values: seq<nat>): (pieces: seq<seq<Op>>)
    requires ValidCalls(models, values)
    ensures |pieces| == |models| && forall i :: 0 <= i < |models| ==> pieces[i] == OpsOf(models[i], values[i])
  {
    seq(|models|, i requires 0 <= i < |models| => OpsOf(models[i], values[i]))
  }

  /** ... and the first k together. */
  ghost function Joined(pieces: seq<seq<Op>>, k: nat): seq<Op>
    requires k <= |pieces|
  {
    if k == 0 then [] else Joined(pieces, k - 1) + pieces[k - 1]
  }

  lemma {:induction false} JoinedGrows(pieces: seq<seq<Op>>, j: nat, k: nat)
    requires j <= k <= |pieces|
    ensures Joined(pieces, j) <= Joined(pieces, k)
    decreases k
  {
    if j < k {
      JoinedGrows(pieces, j, k - 1);
    }
  }

  // ----- One call

  method EncodeCall(enc: Encoder, m: Model, v: nat)
    requires enc.Valid() && ValidModel(m) && Codable(m, v)
    modifies enc, enc.buf
    ensures enc.Valid() && enc.storage == old(enc.storage) && enc.trace == old(enc.trace) + OpsOf(m, v)
  {
    match m
    case Table(cum) => enc.Encode(cum[v], cum[v + 1], cum[|cum| - 1]);
    case Binary(cum, bits) => enc.EncodeBin(cum[v], cum[v + 1], bits);
    case Flag(logp) => enc.BitLogp(v == 1, logp);
    case Inverse(icdf, ftb) => enc.Icdf(v, icdf, ftb);
    case Integer(ft) => enc.Uint(v, ft);
    case Raw(nbits) => enc.Bits(v, nbits);
  }

  /** The symbol whose frequencies hold fs. */
  method Lookup(cum: seq<nat>, ft: nat, fs: nat) returns (k: nat)
    requires Cumulative(cum, ft) && fs < ft
    ensures k + 1 < |cum| && cum[k] <= fs < cum[k + 1]
    ensures forall v: nat :: v + 1 < |cum| && cum[v] <= fs < cum[v + 1] ==> v == k
  {
    k := 0;
    while cum[k + 1] <= fs
      invariant k + 1 < |cum| && cum[k] <= fs
      decreases |cum| - k
    {
      k := k + 1;
    }
  }

  /** Reads a symbol of a table; v is the one the encoder coded, if it did. */
  method DecodeSymbol(dec: Decoder, cum: seq<nat>, ft: nat, ghost v: nat) returns (k: nat)
    requires dec.Valid() && Cumulative(cum, ft) && ft <= CODE_BOT && v + 1 < |cum| && cum[v] < cum[v + 1]
    modifies dec
    ensures dec.Valid() && dec.error == old(dec.error)
    ensures var op := SymOp(cum[v], cum[v + 1], ft);
      old(dec.trace) + [op] <= dec.script ==> k == v && dec.trace == old(dec.trace) + [op]
  {
    ghost var op := SymOp(cum[v], cum[v + 1], ft);
    ghost var next := dec.Next(op);
    var fs := dec.Decode(ft);
    k := Lookup(cum, ft, fs);
    assert next ==> cum[v] <= fs < cum[v + 1];
    dec.Update(cum[k], cum[k + 1], ft);
  }

  method DecodeBinary(dec: Decoder, cum: seq<nat>, bits: nat, ghost v: nat) returns (k: nat)
    requires dec.Valid() && bits <= 23 && Cumulative(cum, Pow2(bits)) && v + 1 < |cum| && cum[v] < cum[v + 1]
    modifies dec
    ensures dec.Valid() && dec.error == old(dec.error)
    ensures var op := SymOp(cum[v], cum[v + 1], Pow2(bits));
      old(dec.trace) + [op] <= dec.script ==> k == v && dec.trace == old(dec.trace) + [op]
  {
    ghost var op := SymOp(cum[v], cum[v + 1], Pow2(bits));
    ghost var next := dec.Next(op);
    var fs := dec.DecodeBin(bits);
    k := Lookup(cum, Pow2(bits), fs);
    assert next ==> cum[v] <= fs < cum[v + 1];
    dec.Update(cum[k], cum[k + 1], Pow2(bits));
  }

  /** Reads a call; v is the value that was coded, if one was. */
  method DecodeCall(dec: Decoder, m: Model, ghost v: nat) returns (r: nat)
    requires dec.Valid() && ValidModel(m) && Codable(m, v)
    modifies dec
    ensures dec.Valid()
    ensures old(dec.trace) + OpsOf(m, v) <= dec.script ==>
      r == v && dec.error == old(dec.error) && dec.trace == old(dec.trace) + OpsOf(m, v)
  {
    match m
    case Table(cum) => r := DecodeSymbol(dec, cum, cum[|cum| - 1], v);
    case Binary(cum, bits) => r := DecodeBinary(dec, cum, bits, v);
    case Flag(logp) =>
      var bit := dec.BitLogp(logp);
      r := if bit then 1 else 0;
    case Inverse(icdf, ftb) => r := dec.Icdf(icdf, ftb);
    case Integer(ft) => r := dec.Uint(ft, v);
    case Raw(nbits) => r := dec.Bits(nbits);
  }

  // ----- All calls

  /** What a coder has used: ec_tell, ec_tell_frac, and its range. */
  datatype Used = Used(bits: int, eighths: int, rng: nat)

  ghost function UsedAfter(ops: seq<Op>): Used {
    if ValidOps(ops) then Used(Tell(After(ops)), TellEighths(After(ops)), After(ops).rng) else Used(0, 0, 0)
  }

  method EncoderUsed(enc: Encoder) returns (u: Used)
    requires enc.Valid()
    ensures u == UsedAfter(enc.trace)
  {
    EncoderTells(enc);
    u := Used(enc.Tell(), enc.TellFrac(), enc.rng);
  }

  /** A decoder that has read what was coded so far has used what the encoder had. */
  method DecoderUsed(dec: Decoder) returns (u: Used)
    requires dec.Valid()
    ensures dec.trace <= dec.script ==> u == UsedAfter(dec.trace)
  {
    if dec.trace <= dec.script {
      DecoderTells(dec, dec.trace);
      PrefixInStep(dec.trace, dec.script, dec.buf);
    }
    u := Used(dec.Tell(), dec.TellFrac(), dec.rng);
  }

  /** A call that follows some operations, those after it, and what has been used then. */
  ghost predicate Link(m: Model, v: nat, ops: seq<Op>, next: seq<Op>, u: Used) {
    ValidModel(m) && Codable(m, v) && next == ops + OpsOf(m, v) && u == UsedAfter(next)
  }

  /** The operations before each call and after the last, and what has been used after each call. */
  ghost predicate Course(models: seq<Model>, values: seq<nat>, stops: seq<seq<Op>>, used: seq<Used>) {
    && |models| == |values| == |used| && |stops| == |models| + 1 && stops[0] == []
    && forall i: nat {:trigger used[i]} :: i < |models| ==>
      Link(models[i], values[i], stops[i], stops[i + 1], used[i]) && stops[i + 1] <= stops[|models|]
  }

  ghost function Stops(pieces: seq<seq<Op>>): (stops: seq<seq<Op>>)
    ensures |stops| == |pieces| + 1
  {
    seq(|pieces| + 1, i requires 0 <= i <= |pieces| => Joined(pieces, i))
  }

  /** What has been used after each call. */
  ghost function UsedAll(stops: seq<seq<Op>>): (used: seq<Used>)
    requires |stops| > 0
    ensures |used| == |stops| - 1
  {
    seq(|stops| - 1, i requires 0 <= i < |stops| - 1 => UsedAfter(stops[i + 1]))
  }

  lemma StopsAt(pieces: seq<seq<Op>>, i: nat)
    requires i < |pieces|
    ensures var stops := Stops(pieces); stops[i + 1] == stops[i] + pieces[i] && stops[i + 1] <= stops[|pieces|]
  {
    JoinedGrows(pieces, i + 1, |pieces|);
  }

  lemma RunCourse(models: seq<Model>, values: seq<nat>, stops: seq<seq<Op>>)
    requires ValidCalls(models, values) && stops == Stops(Pieces(models, values))
    ensures Course(models, values, stops, UsedAll(stops))
    ensures stops[|models|] == Joined(Pieces(models, values), |models|)
  {
    var used := UsedAll(stops);
    forall i: nat {:trigger used[i]} | i < |models|
      ensures Link(models[i], values[i], stops[i], stops[i + 1], used[i]) && stops[i + 1] <= stops[|models|]
    {
      StopsAt(Pieces(models, values), i);
    }
  }

  method EncodeOne(enc: Encoder, m: Model, v: nat, ghost ops: seq<Op>, ghost next: seq<Op>, ghost u: Used)
    returns (u': Used)
    requires enc.Valid() && enc.trace == ops && Link(m, v, ops, next, u)
    modifies enc, enc.buf
    ensures enc.Valid() && enc.storage == old(enc.storage) && enc.trace == next && u' == u
  {
    EncodeCall(enc, m, v);
    u' := EncoderUsed(enc);
  }

  method EncodeAll(enc: Encoder, models: seq<Model>, values: seq<nat>, ghost stops: seq<seq<Op>>, ghost used: seq<Used>)
    returns (used': seq<Used>)
    requires enc.Valid() && enc.trace == [] && Course(models, values, stops, used)
    modifies enc, enc.buf
    ensures enc.Valid() && enc.storage == old(enc.storage) && enc.trace == stops[|models|] && used' == used
  {
    used' := [];
    for i := 0 to |models|
      invariant enc.Valid() && enc.storage == old(enc.storage) && enc.trace == stops[i] && used' == used[..i]
    {
      assert Link(models[i], values[i], stops[i], stops[i + 1], used[i]);
      var u := EncodeOne(enc, models[i], values[i], stops[i], stops[i + 1], used[i]);
      used' := used' + [u];
    }
  }

  method DecodeOne(dec: Decoder, m: Model, ghost v: nat, ghost ops: seq<Op>, ghost next: seq<Op>, ghost u: Used)
    returns (r: nat, u': Used)
    requires dec.Valid() && dec.trace == ops && Link(m, v, ops, next, u) && next <= dec.script
    modifies dec
    ensures dec.Valid() && dec.error == old(dec.error) && dec.trace == next && r == v && u' == u
  {
    r := DecodeCall(dec, m, v);
    u' := DecoderUsed(dec);
  }

  /** Reads with the same models; the values are only named, not used. */
  method DecodeAll(dec: Decoder, models: seq<Model>, ghost values: seq<nat>, ghost stops: seq<seq<Op>>,
                   ghost used: seq<Used>) returns (read: seq<nat>, used': seq<Used>)
    requires dec.Valid() && dec.trace == [] && Course(models, values, stops, used) && dec.script == stops[|models|]
    modifies dec
    ensures dec.Valid() && dec.error == old(dec.error) && read == values && used' == used
  {
    read, used' := [], [];
    for i := 0 to |models|
      invariant dec.Valid() && dec.error == old(dec.error)
      invariant dec.trace == stops[i] && read == values[..i] && used' == used[..i]
    {
      assert Link(models[i], values[i], stops[i], stops[i + 1], used[i]) && stops[i + 1] <= stops[|models|];
      var r, u := DecodeOne(dec, models[i], values[i], stops[i], stops[i + 1], used[i]);
      read, used' := read + [r], used' + [u];
    }
  }

  /**
   The round trip. Without an error, which is so exactly when the frame has room for what was coded, every value is read
   back, and after every call the decoder has used what the encoder had: the same bits, eighths of a bit, and range.
   */
  method CodeAndDecode(buf: array<byte>, size: nat, models: seq<Model>, values: seq<nat>)
    returns (ok: bool, read: seq<nat>, encUsed: seq<Used>, decUsed: seq<Used>)
    requires size <= buf.Length && ValidCalls(models, values)
    modifies buf
    ensures ok <==> Room(Joined(Pieces(models, values), |models|), size)
    ensures encUsed == UsedAll(Stops(Pieces(models, values))) && (ok ==> read == values && decUsed == encUsed)
  {
    ghost var stops := Stops(Pieces(models, values));
    ghost var used := UsedAll(stops);
    RunCourse(models, values, stops);
    var enc := new Encoder(buf, size);
    encUsed := EncodeAll(enc, models, values, stops, used);
    ghost var ops := enc.trace;
    enc.Done();
    ok, read, decUsed := enc.error == 0, [], [];
    if ok {
      var dec := new Decoder(buf[..size], ops);
      read, decUsed := DecodeAll(dec, models, values, stops, used);
    }
  }

  /** The whole bytes and the last bits of the range coder, and the raw bits, fit. */
  ghost predicate Room(ops: seq<Op>, size: nat) {
    ValidOps(ops) && var c := After(ops); 8 * c.n + DoneBits(c) + c.nraw <= 8 * size
  }
}
