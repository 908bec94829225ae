/** The fine passes of quant_bands.c, in place on the arrays of energies and errors, proved against `FineSpec`. */
module FineEnergy {
  import opened Arith
  import opened RangeSpec
  import opened RangeEncoder
  import opened RangeDecoder
  import opened CoarseSpec
  import opened FineSpec

  /** The encoder's arrays, and what was coded since t0. */
  ghost predicate Holds(s: Tuning, t0: seq<Op>, ops: seq<Op>, levels: seq<real>, error: seq<real>) {
    levels == s.levels && error == s.error && ops == t0 + s.ops
  }

  method PartIndex(e: real, frac: nat) returns (q2: nat)
    requires frac > 0
    ensures q2 == PartOf(e, frac)
  {
    var q := ((e + 0.5) * frac as real).Floor;
    if q > frac - 1 {
      q := frac - 1;
    }
    if q < 0 {
      q := 0;
    }
    q2 := q;
  }

  /** The value coded for an error, and what it stands for. */
  method Choose(last: bool, e: real, n: nat) returns (q2: nat, offset: real)
    requires n <= 14 && (last ==> n < 14)
    ensures q2 == Symbol(last, e, n) && offset == Offset(last, q2, n)
  {
    if last {
      q2 := if e < 0.0 then 0 else 1;
    } else {
      q2 := PartIndex(e, Pow2(n));
    }
    offset := Offset(last, q2, n);
  }

  method Shift(levels: array<real>, error: array<real>, k: nat, offset: real)
    requires levels != error && k < levels.Length && k < error.Length
    modifies levels, error
    ensures levels[..] == old(levels[..])[k := old(levels[k]) + offset]
    ensures error[..] == old(error[..])[k := old(error[k]) - offset]
  {
    levels[k] := levels[k] + offset;
    error[k] := error[k] - offset;
  }

  lemma TuneIs(last: bool, n: nat, k: nat, s: Tuning, t0: seq<Op>, ops: seq<Op>, q2: nat, offset: real)
    requires k < |s.levels| == |s.error| && n <= 14 && (last ==> n < 14) && ops == t0 + s.ops
    requires q2 == Symbol(last, s.error[k], n) && offset == Offset(last, q2, n)
    ensures Holds(Tune(last, n, k, s), t0, ops + [Op.Bits(q2, if last then 1 else n)],
                  s.levels[k := s.levels[k] + offset], s.error[k := s.error[k] - offset])
  {
    Regroup(t0, s.ops, [TuneOp(last, s.error[k], n)]);
  }

  /** One channel of a band, in either pass. */
  method TuneEntry(enc: Encoder, last: bool, n: nat, k: nat, levels: array<real>, error: array<real>,
                   ghost t0: seq<Op>, ghost s: Tuning, ghost t: Tuning)
    requires enc.Valid() && levels != error && k < levels.Length == error.Length
    requires n <= 14 && (if last then n < 14 else n > 0) && Holds(s, t0, enc.trace, levels[..], error[..])
    requires t == Tune(last, n, k, s)
    modifies enc, enc.buf, levels, error
    ensures enc.Valid() && enc.storage == old(enc.storage)
    ensures Holds(t, t0, enc.trace, levels[..], error[..])
  {
    ghost var t1 := enc.trace;
    var q2, offset := Choose(last, error[k], n);
    enc.Bits(q2, if last then 1 else n);
    Shift(levels, error, k, offset);
    TuneIs(last, n, k, s, t0, t1, q2, offset);
  }

  /** All channels of a band. */
  method TuneBand(enc: Encoder, last: bool, i: nat, nb: nat, channels: nat, n: nat, levels: array<real>,
                  error: array<real>, ghost f: Frame, ghost t0: seq<Op>, ghost s: Tuning)
    requires enc.Valid() && levels != error && Fits(f, s) && f.start <= i < f.end
    requires Holds(s, t0, enc.trace, levels[..], error[..])
    requires nb == f.nb && channels == f.channels && n == f.fine[i] && if last then n < 14 else n > 0
    modifies enc, enc.buf, levels, error
    ensures enc.Valid() && enc.storage == old(enc.storage)
    ensures Holds(Band(last, f, i, channels, s), t0, enc.trace, levels[..], error[..])
  {
    for c: nat := 0 to channels
      invariant enc.Valid() && enc.storage == old(enc.storage)
      invariant Holds(Band(last, f, i, c, s), t0, enc.trace, levels[..], error[..])
    {
      TuneEntry(enc, last, n, Slot(i, c, nb), levels, error, t0, Band(last, f, i, c, s), Band(last, f, i, c + 1, s));
    }
  }

  /** quant_fine_energy */
  method QuantFineEnergy(enc: Encoder, start: nat, end: nat, nb: nat, levels: array<real>, error: array<real>,
                         fine: seq<nat>, channels: nat, ghost f: Frame)
    requires enc.Valid() && levels != error && levels.Length == error.Length
    requires f == Frame(start, end, nb, channels, fine, f.priority)
    requires Fits(f, Tuning(levels[..], error[..], []))
    modifies enc, enc.buf, levels, error
    ensures enc.Valid() && enc.storage == old(enc.storage)
    ensures Holds(FineTo(f, end, Tuning(old(levels[..]), old(error[..]), [])), old(enc.trace), enc.trace,
                  levels[..], error[..])
  {
    ghost var t0, s := enc.trace, Tuning(levels[..], error[..], []);
    assert t0 + [] == t0;
    for i := start to end
      invariant enc.Valid() && enc.storage == old(enc.storage)
      invariant Holds(FineTo(f, i, s), t0, enc.trace, levels[..], error[..])
    {
      if fine[i] > 0 {
        TuneBand(enc, false, i, nb, channels, fine[i], levels, error, f, t0, FineTo(f, i, s));
      }
    }
  }

  /** One round of quant_energy_finalise. */
  method FinaliseRound(enc: Encoder, priority: int, start: nat, end: nat, nb: nat, levels: array<real>,
                       error: array<real>, fine: seq<nat>, finePriority: seq<int>, bitsLeft: int, channels: nat,
                       ghost f: Frame, ghost t0: seq<Op>, ghost r: Rest) returns (left: int)
    requires enc.Valid() && levels != error && f == Frame(start, end, nb, channels, fine, finePriority)
    requires Fits(f, r.s) && bitsLeft == r.left && Holds(r.s, t0, enc.trace, levels[..], error[..])
    modifies enc, enc.buf, levels, error
    ensures enc.Valid() && enc.storage == old(enc.storage)
    ensures var t := LastTo(f, priority, end, r); left == t.left && Holds(t.s, t0, enc.trace, levels[..], error[..])
  {
    left := bitsLeft;
    var i := start;
    while i < end && left >= channels
      invariant start <= i <= end && enc.Valid() && enc.storage == old(enc.storage)
      invariant left == LastTo(f, priority, i, r).left
      invariant Holds(LastTo(f, priority, i, r).s, t0, enc.trace, levels[..], error[..])
    {
      if fine[i] < MAX_FINE_BITS && finePriority[i] == priority {
        TuneBand(enc, true, i, nb, channels, fine[i], levels, error, f, t0, LastTo(f, priority, i, r).s);
        left := left - channels;
      }
      i := i + 1;
    }
    if i < end {
      NoneLeft(f, priority, i, end, r);
    }
  }

  /** Without a bit for each channel a round is over. */
  lemma {:induction false} NoneLeft(f: Frame, priority: int, i: nat, j: nat, r: Rest)
    requires Fits(f, r.s) && f.start <= i <= j <= f.end && LastTo(f, priority, i, r).left < f.channels
    ensures LastTo(f, priority, j, r) == LastTo(f, priority, i, r)
  {
    if i < j {
      NoneLeft(f, priority, i, j - 1, r);
    }
  }

  /** quant_energy_finalise */
  method QuantEnergyFinalise(enc: Encoder, start: nat, end: nat, nb: nat, levels: array<real>, error: array<real>,
                             fine: seq<nat>, finePriority: seq<int>, bitsLeft: int, channels: nat)
    requires enc.Valid() && levels != error && levels.Length == error.Length
    requires Fits(Frame(start, end, nb, channels, fine, finePriority), Tuning(levels[..], error[..], []))
    modifies enc, enc.buf, levels, error
    ensures enc.Valid() && enc.storage == old(enc.storage)
    ensures var f := Frame(start, end, nb, channels, fine, finePriority);
      Holds(Finalised(f, Rest(bitsLeft, Tuning(old(levels[..]), old(error[..]), []))).s, old(enc.trace), enc.trace,
            levels[..], error[..])
  {
    ghost var f := Frame(start, end, nb, channels, fine, finePriority);
    ghost var t0, r := enc.trace, Rest(bitsLeft, Tuning(levels[..], error[..], []));
    assert t0 + [] == t0;
    var left := FinaliseRound(enc, 0, start, end, nb, levels, error, fine, finePriority, bitsLeft, channels, f, t0, r);
    left := FinaliseRound(enc, 1, start, end, nb, levels, error, fine, finePriority, left, channels, f, t0,
                          LastTo(f, 0, end, r));
  }

  // ----- The decoder

  /** The decoder has the encoder's energies, and read what was coded since t0, in a stream that goes on with `all`. */
  ghost predicate Follows(s: Tuning, t0: seq<Op>, ops: seq<Op>, levels: seq<real>, all: seq<Op>, script: seq<Op>) {
    levels == s.levels && ops == t0 + s.ops && s.ops <= all && t0 + all <= script
  }

  /** One channel of a band, in either pass. */
  method UntuneEntry(dec: Decoder, last: bool, n: nat, k: nat, levels: array<real>, ghost t0: seq<Op>, ghost s: Tuning,
                     ghost all: seq<Op>, ghost sync: bool)
    requires dec.Valid() && k < levels.Length && n <= 14 && if last then n < 14 else n > 0
    requires sync ==> |s.error| == |s.levels| && Follows(s, t0, dec.trace, levels[..], all, dec.script)
    requires sync ==> Tune(last, n, k, s).ops <= all
    modifies dec, levels
    ensures dec.Valid() && dec.error == old(dec.error)
    ensures sync ==> Follows(Tune(last, n, k, s), t0, dec.trace, levels[..], all, dec.script)
  {
    if sync {
      Regroup(t0, s.ops, [TuneOp(last, s.error[k], n)]);
      PrefixTrans(t0, Tune(last, n, k, s).ops, all, dec.script);
    }
    var q2 := dec.Bits(if last then 1 else n);
    levels[k] := levels[k] + Offset(last, q2, n);
  }

  /** All channels of a band. */
  method UntuneBand(dec: Decoder, last: bool, i: nat, nb: nat, channels: nat, n: nat, levels: array<real>,
                    ghost f: Frame, ghost t0: seq<Op>, ghost s: Tuning, ghost all: seq<Op>, ghost sync: bool)
    requires dec.Valid() && i < nb && 1 <= channels <= 2 && levels.Length >= Slot(nb, channels - 1, nb)
    requires n <= 14 && if last then n < 14 else n > 0
    requires sync ==> Fits(f, s) && f.start <= i < f.end && nb == f.nb && channels == f.channels && n == f.fine[i]
    requires sync ==> Follows(s, t0, dec.trace, levels[..], all, dec.script) && Band(last, f, i, channels, s).ops <= all
    modifies dec, levels
    ensures dec.Valid() && dec.error == old(dec.error)
    ensures sync ==> Follows(Band(last, f, i, channels, s), t0, dec.trace, levels[..], all, dec.script)
  {
    for c: nat := 0 to channels
      invariant dec.Valid() && dec.error == old(dec.error)
      invariant sync ==> Follows(Band(last, f, i, c, s), t0, dec.trace, levels[..], all, dec.script)
    {
      if sync {
        BandGrows(last, f, i, c + 1, channels, s);
      }
      UntuneEntry(dec, last, n, Slot(i, c, nb), levels, t0, if sync then Band(last, f, i, c, s) else s, all, sync);
    }
  }

  /** unquant_fine_energy: in a frame that holds the pass, the energies become the encoder's. */
  method UnquantFineEnergy(dec: Decoder, start: nat, end: nat, nb: nat, levels: array<real>, fine: seq<nat>,
                           channels: nat, ghost f: Frame, ghost error: seq<real>)
    requires dec.Valid() && f == Frame(start, end, nb, channels, fine, f.priority)
    requires Fits(f, Tuning(levels[..], error, []))
    modifies dec, levels
    ensures dec.Valid() && dec.error == old(dec.error)
    ensures var t := FineTo(f, end, Tuning(old(levels[..]), error, []));
      old(dec.trace) + t.ops <= dec.script ==> dec.trace == old(dec.trace) + t.ops && levels[..] == t.levels
  {
    ghost var t0, s := dec.trace, Tuning(levels[..], error, []);
    ghost var all := FineTo(f, end, s).ops;
    ghost var sync := t0 + all <= dec.script;
    assert t0 + [] == t0;
    for i := start to end
      invariant dec.Valid() && dec.error == old(dec.error)
      invariant sync ==> Follows(FineTo(f, i, s), t0, dec.trace, levels[..], all, dec.script)
    {
      FineGrows(f, i + 1, end, s);
      if fine[i] > 0 {
        UntuneBand(dec, false, i, nb, channels, fine[i], levels, f, t0, FineTo(f, i, s), all, sync);
      }
    }
  }

  /** One band in a round. */
  method UnquantTurn(dec: Decoder, priority: int, i: nat, nb: nat, levels: array<real>, n: nat, bandPriority: int,
                     bitsLeft: int, channels: nat, ghost f: Frame, ghost t0: seq<Op>, ghost b: Rest, ghost next: Rest,
                     ghost all: seq<Op>, ghost sync: bool) returns (left: int)
    requires dec.Valid() && Fits(f, b.s) && f.start <= i < f.end && nb == f.nb && channels == f.channels
    requires n == f.fine[i] && bandPriority == f.priority[i] && bitsLeft == b.left >= channels
    requires levels.Length == |b.s.levels| && next.s.ops <= all
    requires next == if Eligible(f, priority, i) then Rest(b.left - channels, Band(true, f, i, channels, b.s)) else b
    requires sync ==> Follows(b.s, t0, dec.trace, levels[..], all, dec.script)
    modifies dec, levels
    ensures dec.Valid() && dec.error == old(dec.error) && left == next.left
    ensures sync ==> Follows(next.s, t0, dec.trace, levels[..], all, dec.script)
  {
    left := bitsLeft;
    if n < MAX_FINE_BITS && bandPriority == priority {
      UntuneBand(dec, true, i, nb, channels, n, levels, f, t0, b.s, all, sync);
      left := left - channels;
    }
  }

  /** One round of unquant_energy_finalise. */
  method UnquantLoop(dec: Decoder, priority: int, start: nat, end: nat, nb: nat, levels: array<real>,
                      fine: seq<nat>, finePriority: seq<int>, bitsLeft: int, channels: nat,
                      ghost f: Frame, ghost t0: seq<Op>, ghost r: Rest, ghost all: seq<Op>, ghost sync: bool)
    returns (left: int, i: nat)
    requires dec.Valid() && f == Frame(start, end, nb, channels, fine, finePriority) && Fits(f, r.s)
    requires bitsLeft == r.left && levels.Length == |r.s.levels| && LastTo(f, priority, end, r).s.ops <= all
    requires sync ==> Follows(r.s, t0, dec.trace, levels[..], all, dec.script)
    modifies dec, levels
    ensures dec.Valid() && dec.error == old(dec.error)
    ensures start <= i <= end && left == LastTo(f, priority, i, r).left && (i < end ==> left < channels)
    ensures sync ==> Follows(LastTo(f, priority, i, r).s, t0, dec.trace, levels[..], all, dec.script)
  {
    left, i := bitsLeft, start;
    ghost var b := r;
    while i < end && left >= channels
      invariant start <= i <= end && dec.Valid() && dec.error == old(dec.error)
      invariant b == LastTo(f, priority, i, r) && left == b.left
      invariant sync ==> Follows(b.s, t0, dec.trace, levels[..], all, dec.script)
    {
      LastGrows(f, priority, i + 1, end, r);
      ghost var next := LastTo(f, priority, i + 1, r);
      left := UnquantTurn(dec, priority, i, nb, levels, fine[i], finePriority[i], left, channels, f, t0, b, next, all,
                          sync);
      i := i + 1;
      b := next;
    }
  }

  method UnquantRound(dec: Decoder, priority: int, start: nat, end: nat, nb: nat, levels: array<real>,
                      fine: seq<nat>, finePriority: seq<int>, bitsLeft: int, channels: nat,
                      ghost f: Frame, ghost t0: seq<Op>, ghost r: Rest, ghost all: seq<Op>, ghost sync: bool)
    returns (left: int)
    requires dec.Valid() && f == Frame(start, end, nb, channels, fine, finePriority) && Fits(f, r.s)
    requires bitsLeft == r.left && levels.Length == |r.s.levels| && LastTo(f, priority, end, r).s.ops <= all
    requires sync ==> Follows(r.s, t0, dec.trace, levels[..], all, dec.script)
    modifies dec, levels
    ensures dec.Valid() && dec.error == old(dec.error) && left == LastTo(f, priority, end, r).left
    ensures sync ==> Follows(LastTo(f, priority, end, r).s, t0, dec.trace, levels[..], all, dec.script)
  {
    var i;
    left, i := UnquantLoop(dec, priority, start, end, nb, levels, fine, finePriority, bitsLeft, channels, f, t0, r, all,
                           sync);
    if i < end {
      NoneLeft(f, priority, i, end, r);
    }
  }

  /** unquant_energy_finalise, given as many bits as the encoder had left. */
  method UnquantEnergyFinalise(dec: Decoder, start: nat, end: nat, nb: nat, levels: array<real>, fine: seq<nat>,
                               finePriority: seq<int>, bitsLeft: int, channels: nat, ghost error: seq<real>)
    requires dec.Valid()
    requires Fits(Frame(start, end, nb, channels, fine, finePriority), Tuning(levels[..], error, []))
    modifies dec, levels
    ensures dec.Valid() && dec.error == old(dec.error)
    ensures var f := Frame(start, end, nb, channels, fine, finePriority);
      var t := Finalised(f, Rest(bitsLeft, Tuning(old(levels[..]), error, []))).s;
      old(dec.trace) + t.ops <= dec.script ==> dec.trace == old(dec.trace) + t.ops && levels[..] == t.levels
  {
    ghost var f := Frame(start, end, nb, channels, fine, finePriority);
    ghost var t0, r := dec.trace, Rest(bitsLeft, Tuning(levels[..], error, []));
    ghost var all := Finalised(f, r).s.ops;
    ghost var sync := t0 + all <= dec.script;
    assert t0 + [] == t0;
    LastGrows(f, 1, start, end, LastTo(f, 0, end, r));
    var left := UnquantRound(dec, 0, start, end, nb, levels, fine, finePriority, bitsLeft, channels, f, t0, r, all,
                             sync);
    left := UnquantRound(dec, 1, start, end, nb, levels, fine, finePriority, left, channels, f, t0,
                         LastTo(f, 0, end, r), all, sync);
  }
}
