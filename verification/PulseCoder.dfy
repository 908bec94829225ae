/** encode_pulses and decode_pulses of cwrs.c: a pulse vector through the entropy coder. */
module PulseCoder {
  import opened RangeSpec
  import opened RangeEncoder
  import opened RangeDecoder
  import opened Cwrs
  import CwrsTable

  /** What encode_pulses codes. */
  function PulseOps(y: seq<int>): seq<Op>
    requires |y| > 0
  {
    IndexFits(y);
    UintOps(Index(y), V(|y|, Norm(y)))
  }

  /** With at least one pulse there is something to choose. */
  lemma AtLeastTwo(n: nat, k: nat)
    requires n > 0 && k > 0
    ensures V(n, k) >= 2
  {
    Monotone(n, 1, k);
    Monotone(n, 1, k + 1);
    Symmetric(n, 1);
    RowOne(n);
  }

  method EncodePulses(enc: Encoder, y: seq<int>)
    requires enc.Valid() && |y| >= 2 && Norm(y) > 0 && V(|y|, Norm(y)) < 0x1_0000_0000
    modifies enc, enc.buf
    ensures enc.Valid() && enc.trace == old(enc.trace) + PulseOps(y) && enc.storage == old(enc.storage)
  {
    var i := CwrsTable.Icwrs(y);
    IndexFits(y);
    AtLeastTwo(|y|, Norm(y));
    enc.Uint(i, CwrsTable.Table(|y|, Norm(y)) + CwrsTable.Table(|y|, Norm(y) + 1));
  }

  /** decode_pulses; x is the vector the encoder coded, if it did. */
  method DecodePulses(dec: Decoder, n: nat, k: nat, y: array<int>, ghost x: seq<int>) returns (yy: int)
    requires dec.Valid() && n >= 2 && k > 0 && V(n, k) < 0x1_0000_0000 && y.Length == n
    requires |x| == n && Norm(x) == k
    modifies dec, y
    ensures dec.Valid() && Norm(y[..]) == k && yy == Squares(y[..])
    ensures old(dec.trace) + PulseOps(x) <= dec.script ==>
      y[..] == x && dec.trace == old(dec.trace) + PulseOps(x) && dec.error == old(dec.error)
  {
    IndexFits(x);
    AtLeastTwo(n, k);
    PulsesOfIndex(x);
    var i := dec.Uint(CwrsTable.Table(n, k) + CwrsTable.Table(n, k + 1), Index(x));
    IndexOfPulses(n, k, i);
    yy := CwrsTable.Cwrsi(n, k, i, y);
  }
}
