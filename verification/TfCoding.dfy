/** tf_encode and tf_decode: the time-frequency resolution of every band (RFC 6716, section 4.3.1). */
module TfCoding {
  import opened Arith
  import opened RangeSpec
  import opened RangeEncoder
  import opened RangeDecoder
  import opened Flags

  /** The resolution change for a frame size, a transient or not, a tf_select and a flag. */
  function TfTable(lm: nat, transient: bool, select: bool, flag: bool): int
    requires lm <= 3
  {
    TF_SELECT_TABLE[lm][(if transient then 4 else 0) + (if select then 2 else 0) + if flag then 1 else 0]
  }

  const TF_SELECT_TABLE: seq<seq<int>> := [
    [0, -1, 0, -1, 0, -1, 0, -1],
    [0, -1, 0, -2, 1, 0, 1, -1],
    [0, -2, 0, -3, 2, 0, 1, -1],
    [0, -2, 0, -3, 3, 0, 1, -1]]

  /** The table in closed form: a set flag asks for better time resolution, and tf_select never for less. */
  lemma TfTableIs(lm: nat, transient: bool, select: bool, flag: bool)
    requires lm <= 3
    ensures TfTable(lm, transient, select, flag) ==
            if !transient then if !flag then 0 else if select then -Min(lm + 1, 3) else -(1 + lm / 2)
            else if !flag then if select then Min(lm, 1) else lm
            else if select || lm == 0 then -1 else 0
    ensures TfTable(lm, transient, select, true) < TfTable(lm, transient, select, false)
    ensures TfTable(lm, transient, true, flag) <= TfTable(lm, transient, false, flag)
  {
  }

  /** A call: the coder it starts from, the size of the frame in bytes, and the flags wanted from `start` on. */
  datatype Call = Call(code: Code, storage: nat, start: nat, end: nat, transient: bool, lm: nat,
                       want: seq<bool>, select: bool)

  predicate ValidCall(p: Call) {
    ValidCode(p.code) && p.start <= p.end <= |p.want| && p.lm <= 3
  }

  function Logp(p: Call, i: nat): (l: nat)
    ensures 1 <= l <= 5
  {
    if i == p.start then if p.transient then 2 else 4 else if p.transient then 4 else 5
  }

  /** Whether a bit is kept back for tf_select. */
  predicate Reserved(p: Call)
    requires ValidCall(p)
  {
    p.lm > 0 && Tell(p.code) + Logp(p, p.start) + 1 <= 8 * p.storage
  }

  function Budget(p: Call): int
    requires ValidCall(p)
  {
    8 * p.storage - if Reserved(p) then 1 else 0
  }

  /** Where the bands below i have brought the coder, with the flag in effect and whether any was set. */
  datatype Progress = Progress(code: Code, curr: bool, changed: bool, ops: seq<Op>)

  predicate Codes(p: Call, i: nat, s: Progress)
    requires ValidCall(p)
  {
    Tell(s.code) + Logp(p, i) <= Budget(p)
  }

  function Bands(p: Call, i: nat): (s: Progress)
    requires ValidCall(p) && p.start <= i <= p.end
    ensures ValidCode(s.code)
  {
    if i == p.start then Progress(p.code, false, false, [])
    else
      var s := Bands(p, i - 1);
      if Codes(p, i - 1, s) then
        var bit := p.want[i - 1] != s.curr;
        Progress(PutBit(s.code, bit, Logp(p, i - 1)), p.want[i - 1], s.changed || p.want[i - 1],
                 s.ops + [BitOp(bit, Logp(p, i - 1))])
      else s
  }

  /** tf_select is coded only if it makes a difference. */
  predicate SelectCoded(p: Call)
    requires ValidCall(p)
  {
    var changed := Bands(p, p.end).changed;
    Reserved(p) && TfTable(p.lm, p.transient, false, changed) != TfTable(p.lm, p.transient, true, changed)
  }

  predicate Select(p: Call)
    requires ValidCall(p)
  {
    SelectCoded(p) && p.select
  }

  /** Everything the call codes. */
  function Ops(p: Call): seq<Op>
    requires ValidCall(p)
  {
    Bands(p, p.end).ops + if SelectCoded(p) then [BitOp(p.select, 1)] else []
  }

  /** The resolution change of band k that both sides end up with. */
  function Result(p: Call, k: nat): int
    requires ValidCall(p) && p.start <= k < p.end
  {
    TfTable(p.lm, p.transient, Select(p), Bands(p, k + 1).curr)
  }

  /** The reserved bit is never used up by the flags. */
  lemma {:induction false} ReserveKept(p: Call, i: nat)
    requires ValidCall(p) && p.start <= i <= p.end
    ensures Reserved(p) ==> Tell(Bands(p, i).code) + 1 <= 8 * p.storage
    ensures Tell(p.code) <= 8 * p.storage ==> Tell(Bands(p, i).code) <= 8 * p.storage
  {
    if i > p.start {
      ReserveKept(p, i - 1);
      var s := Bands(p, i - 1);
      if Codes(p, i - 1, s) {
        BitCosts(s.code, p.want[i - 1] != s.curr, Logp(p, i - 1));
      }
    }
  }

  /** So coding tf_select, or anything else in the call, never exceeds the frame. */
  lemma SelectFits(p: Call)
    requires ValidCall(p)
    ensures SelectCoded(p) ==> Tell(PutBit(Bands(p, p.end).code, p.select, 1)) <= 8 * p.storage
  {
    if SelectCoded(p) {
      ReserveKept(p, p.end);
      BitCosts(Bands(p, p.end).code, p.select, 1);
    }
  }

  /** With enough bits for every flag, what is decoded is what was wanted. */
  lemma {:induction false} WantedCoded(p: Call, k: nat)
    requires ValidCall(p) && p.start <= k < p.end
    requires Tell(p.code) + Logp(p, p.start) + 5 * (p.end - p.start) <= 8 * p.storage
    ensures Bands(p, k + 1).curr == p.want[k]
    ensures Tell(Bands(p, k + 1).code) <= Tell(p.code) + Logp(p, p.start) + 5 * (k - p.start)
  {
    if k > p.start {
      WantedCoded(p, k - 1);
    }
    var s := Bands(p, k);
    assert Codes(p, k, s);
    BitCosts(s.code, p.want[k] != s.curr, Logp(p, k));
  }

  /** A flag that differs from the one before costs the least in the first band, and in a transient. */
  lemma CheapestFirst(p: Call, q: Call, i: nat)
    requires i != p.start && p.transient && q == p.(transient := false)
    ensures Logp(p, p.start) < Logp(q, p.start) == Logp(p, i) < Logp(q, i)
  {
  }

  /** Without a set flag so far none is in effect. */
  lemma {:induction false} SetFlagsChange(p: Call, i: nat)
    requires ValidCall(p) && p.start <= i <= p.end
    ensures Bands(p, i).curr ==> Bands(p, i).changed
  {
    if i > p.start {
      SetFlagsChange(p, i - 1);
    }
  }

  lemma {:induction false} ChangedStays(p: Call, i: nat, j: nat)
    requires ValidCall(p) && p.start <= i <= j <= p.end
    ensures Bands(p, i).changed ==> Bands(p, j).changed
    decreases j
  {
    if i < j {
      ChangedStays(p, i, j - 1);
    }
  }

  /** tf_select is left out only where it makes no difference to any band: where it may be coded, all follow it. */
  lemma SelectFollowed(p: Call, k: nat)
    requires ValidCall(p) && p.start <= k < p.end && (Reserved(p) || p.lm == 0)
    ensures Result(p, k) == TfTable(p.lm, p.transient, p.select, Bands(p, k + 1).curr)
  {
    SetFlagsChange(p, k + 1);
    ChangedStays(p, k + 1, p.end);
    SelectMatters(p.lm, p.transient);
  }

  /** Where a set flag is in effect tf_select matters; where it does not matter to a clear flag, none is set. */
  lemma SelectMatters(lm: nat, transient: bool)
    requires lm <= 3
    ensures lm > 0 ==> TfTable(lm, transient, false, true) != TfTable(lm, transient, true, true)
    ensures lm == 0 ==> forall flag :: TfTable(lm, transient, false, flag) == TfTable(lm, transient, true, flag)
  {
  }

  lemma {:induction false} OpsGrow(p: Call, i: nat, j: nat)
    requires ValidCall(p) && p.start <= i <= j <= p.end
    ensures Bands(p, i).ops <= Bands(p, j).ops
    decreases j
  {
    if i < j {
      OpsGrow(p, i, j - 1);
    }
  }

  /** The call that starts from a coder. */
  function CallAt(ops: seq<Op>, storage: nat, start: nat, end: nat, transient: bool, lm: nat, want: seq<bool>,
                  select: bool): Call
    requires ValidOps(ops)
  {
    Call(After(ops), storage, start, end, transient, lm, want, select)
  }

  /** The flags of an array of zeros and ones. */
  function Bools(a: seq<int>): (s: seq<bool>)
    ensures |s| == |a| && forall i :: 0 <= i < |a| ==> s[i] == (a[i] == 1)
  {
    seq(|a|, i requires 0 <= i < |a| => a[i] == 1)
  }

  function Int(b: bool): int {
    if b then 1 else 0
  }

  /** The coder has come to band i of the call that began after t0. */
  ghost predicate AtBand(p: Call, t0: seq<Op>, ops: seq<Op>, i: nat) {
    && ValidCall(p) && p.start <= i <= p.end && ValidOps(ops)
    && ops == t0 + Bands(p, i).ops && After(ops) == Bands(p, i).code
  }

  /** What the bands below i have in place of their flags. */
  ghost predicate Flagged(p: Call, tfRes: seq<int>, i: nat)
    requires ValidCall(p) && p.start <= i <= p.end
  {
    |tfRes| >= p.end && forall k :: p.start <= k < i ==> tfRes[k] == Int(Bands(p, k + 1).curr)
  }

  /** The loop's variables at band i. */
  ghost predicate Running(p: Call, i: nat, curr: bool, changed: bool, tell: int)
    requires ValidCall(p) && p.start <= i <= p.end
  {
    curr == Bands(p, i).curr && changed == Bands(p, i).changed && tell == Tell(Bands(p, i).code)
  }

  lemma FlaggedNext(p: Call, tfRes: seq<int>, i: nat, curr: bool)
    requires ValidCall(p) && p.start <= i < p.end && Flagged(p, tfRes, i) && curr == Bands(p, i + 1).curr
    ensures Flagged(p, tfRes[i := Int(curr)], i + 1)
  {
  }

  /** One band of tf_encode. */
  method EncodeBand(enc: Encoder, flag: bool, curr: bool, changed: bool, tell: int, logp: nat, budget: int,
                    ghost p: Call, ghost t0: seq<Op>, ghost i: nat)
    returns (curr': bool, changed': bool, tell': int)
    requires enc.Valid() && AtBand(p, t0, enc.trace, i) && i < p.end && flag == p.want[i] && logp == Logp(p, i)
    requires Running(p, i, curr, changed, tell) && budget == Budget(p)
    modifies enc, enc.buf
    ensures enc.Valid() && enc.storage == old(enc.storage) && AtBand(p, t0, enc.trace, i + 1)
    ensures Running(p, i + 1, curr', changed', tell')
  {
    curr', changed', tell' := curr, changed, tell;
    if tell + logp <= budget {
      Regroup(t0, Bands(p, i).ops, [BitOp(flag != curr, logp)]);
      EncodeFlag(enc, flag != curr, logp);
      EncoderTells(enc);
      tell' := enc.Tell();
      curr' := flag;
      changed' := changed || curr';
    }
  }

  /** The encoder has come to band i: flags done below it, flags wanted from it on. */
  ghost predicate Leading(p: Call, t0: seq<Op>, ops: seq<Op>, i: nat, curr: bool, changed: bool, tell: int,
                          tfRes: seq<int>) {
    && AtBand(p, t0, ops, i) && Running(p, i, curr, changed, tell) && Flagged(p, tfRes, i)
    && forall k :: i <= k < p.end ==> tfRes[k] == Int(p.want[k])
  }

  /** ... and its entry in the array. */
  method EncodeEntry(enc: Encoder, tfRes: array<int>, curr: bool, changed: bool, tell: int, logp: nat, budget: int,
                     ghost p: Call, ghost t0: seq<Op>, i: nat)
    returns (curr': bool, changed': bool, tell': int)
    requires enc.Valid() && Leading(p, t0, enc.trace, i, curr, changed, tell, tfRes[..]) && i < p.end
    requires logp == Logp(p, i) && budget == Budget(p)
    modifies enc, enc.buf, tfRes
    ensures enc.Valid() && enc.storage == old(enc.storage)
    ensures Leading(p, t0, enc.trace, i + 1, curr', changed', tell', tfRes[..])
  {
    ghost var res := tfRes[..];
    curr', changed', tell' := EncodeBand(enc, tfRes[i] == 1, curr, changed, tell, logp, budget, p, t0, i);
    tfRes[i] := Int(curr');
    FlaggedNext(p, res, i, curr');
    assert tfRes[..] == res[i := Int(curr')];
  }

  /** The loop of tf_encode over the bands: a flag that is not coded becomes the one in effect. */
  method EncodeBands(enc: Encoder, tfRes: array<int>, tell0: int, budget: int, start: nat, end: nat, transient: bool,
                     ghost p: Call) returns (changed: bool)
    requires enc.Valid() && ValidCall(p) && start == p.start && end == p.end && transient == p.transient
    requires Leading(p, enc.trace, enc.trace, start, false, false, tell0, tfRes[..]) && budget == Budget(p)
    modifies enc, enc.buf, tfRes
    ensures enc.Valid() && enc.storage == old(enc.storage)
    ensures AtBand(p, old(enc.trace), enc.trace, end) && changed == Bands(p, end).changed
    ensures Flagged(p, tfRes[..], end)
  {
    ghost var t0 := enc.trace;
    var curr, tell, logp := false, tell0, if transient then 2 else 4;
    changed := false;
    for i := start to end
      invariant enc.Valid() && enc.storage == old(enc.storage) && logp == Logp(p, i)
      invariant Leading(p, t0, enc.trace, i, curr, changed, tell, tfRes[..])
    {
      curr, changed, tell := EncodeEntry(enc, tfRes, curr, changed, tell, logp, budget, p, t0, i);
      logp := if transient then 4 else 5;
    }
  }

  /** The last loop of both sides. */
  method Resolve(tfRes: array<int>, start: nat, end: nat, transient: bool, lm: nat, select: bool,
                 ghost p: Call, ghost sync: bool)
    requires start <= end <= tfRes.Length && lm <= 3
    requires sync ==> ValidCall(p) && Flagged(p, tfRes[..], p.end) && start == p.start && end == p.end
    requires sync ==> transient == p.transient && lm == p.lm && select == Select(p)
    modifies tfRes
    ensures sync ==> forall k :: start <= k < end ==> tfRes[k] == Result(p, k)
  {
    for i := start to end
      invariant sync ==> forall k :: start <= k < i ==> tfRes[k] == Result(p, k)
      invariant sync ==> forall k :: i <= k < end ==> tfRes[k] == Int(Bands(p, k + 1).curr)
    {
      tfRes[i] := TfTable(lm, transient, select, tfRes[i] == 1);
    }
  }

  /** tf_encode */
  method TfEncode(enc: Encoder, start: nat, end: nat, transient: bool, tfRes: array<int>, lm: nat, tfSelect: bool)
    requires enc.Valid() && start <= end <= tfRes.Length && lm <= 3
    requires forall k :: start <= k < end ==> tfRes[k] == 0 || tfRes[k] == 1
    modifies enc, enc.buf, tfRes
    ensures enc.Valid() && enc.storage == old(enc.storage)
    ensures ValidOps(old(enc.trace))
    ensures var p := CallAt(old(enc.trace), enc.storage, start, end, transient, lm, Bools(old(tfRes[..])), tfSelect);
      && enc.trace == old(enc.trace) + Ops(p)
      && forall k :: start <= k < end ==> tfRes[k] == Result(p, k)
  {
    ghost var t0 := enc.trace;
    ghost var p := CallAt(t0, enc.storage, start, end, transient, lm, Bools(tfRes[..]), tfSelect);
    EncoderTells(enc);
    assert t0 + [] == t0;
    var budget := 8 * enc.storage;
    var tell := enc.Tell();
    var rsv := lm > 0 && tell + (if transient then 2 else 4) + 1 <= budget;
    budget := budget - if rsv then 1 else 0;
    var changed := EncodeBands(enc, tfRes, tell, budget, start, end, transient, p);
    var select := EncodeSelect(enc, rsv, changed, transient, lm, tfSelect, p, t0);
    Resolve(tfRes, start, end, transient, lm, select, p, true);
  }

  /** tf_select, if it is coded. */
  method EncodeSelect(enc: Encoder, rsv: bool, changed: bool, transient: bool, lm: nat, tfSelect: bool,
                      ghost p: Call, ghost t0: seq<Op>) returns (select: bool)
    requires enc.Valid() && AtBand(p, t0, enc.trace, p.end) && changed == Bands(p, p.end).changed
    requires rsv == Reserved(p) && transient == p.transient && lm == p.lm && tfSelect == p.select
    modifies enc, enc.buf
    ensures enc.Valid() && enc.storage == old(enc.storage)
    ensures enc.trace == t0 + Ops(p) && select == Select(p)
  {
    select := false;
    Regroup(t0, Bands(p, p.end).ops, if SelectCoded(p) then [BitOp(p.select, 1)] else []);
    if rsv && TfTable(lm, transient, false, changed) != TfTable(lm, transient, true, changed) {
      EncodeFlag(enc, tfSelect, 1);
      select := tfSelect;
    }
  }

  // ----- The decoder

  /** What is coded at band i is next in a stream that holds the whole call. */
  lemma NextFlag(p: Call, t0: seq<Op>, i: nat, script: seq<Op>)
    requires ValidCall(p) && p.start <= i < p.end && Codes(p, i, Bands(p, i)) && t0 + Ops(p) <= script
    ensures t0 + Bands(p, i).ops + [BitOp(p.want[i] != Bands(p, i).curr, Logp(p, i))] <= script
  {
    var b := [BitOp(p.want[i] != Bands(p, i).curr, Logp(p, i))];
    OpsGrow(p, i + 1, p.end);
    Regroup(t0, Bands(p, i).ops, b);
    assert Bands(p, i + 1).ops == Bands(p, i).ops + b;
    PrefixTrans(t0, Bands(p, i + 1).ops, Ops(p), script);
  }

  /** One band of tf_decode; in sync, the flag that was coded for it. */
  method DecodeBand(dec: Decoder, curr: bool, changed: bool, tell: int, logp: nat, budget: int,
                    ghost p: Call, ghost t0: seq<Op>, ghost i: nat, ghost sync: bool)
    returns (curr': bool, changed': bool, tell': int)
    requires dec.Valid() && 1 <= logp <= 23
    requires sync ==> AtBand(p, t0, dec.trace, i) && i < p.end && logp == Logp(p, i) && t0 + Ops(p) <= dec.script
    requires sync ==> Running(p, i, curr, changed, tell) && budget == Budget(p)
    modifies dec
    ensures dec.Valid() && dec.error == old(dec.error)
    ensures sync ==> AtBand(p, t0, dec.trace, i + 1) && Running(p, i + 1, curr', changed', tell')
  {
    curr', changed', tell' := curr, changed, tell;
    if tell + logp <= budget {
      ghost var trace := dec.trace;
      if sync {
        NextFlag(p, t0, i, dec.script);
        AfterBit(trace, p.want[i] != curr, logp);
        Regroup(t0, Bands(p, i).ops, [BitOp(p.want[i] != curr, logp)]);
      }
      var bit := dec.BitLogp(logp);
      curr' := curr != bit;
      changed' := changed || curr';
      tell' := dec.Tell();
      if sync {
        DecoderTells(dec, trace + [BitOp(p.want[i] != curr, logp)]);
      }
    }
  }

  /** The decoder has followed the encoder to band i. */
  ghost predicate Following(p: Call, t0: seq<Op>, ops: seq<Op>, i: nat, curr: bool, changed: bool, tell: int,
                            budget: int, tfRes: seq<int>, script: seq<Op>) {
    && AtBand(p, t0, ops, i) && t0 + Ops(p) <= script && budget == Budget(p)
    && Running(p, i, curr, changed, tell) && Flagged(p, tfRes, i)
  }

  /** One band of tf_decode and its entry in the array. */
  method DecodeEntry(dec: Decoder, tfRes: array<int>, curr: bool, changed: bool, tell: int, logp: nat, budget: int,
                     ghost p: Call, ghost t0: seq<Op>, i: nat, ghost sync: bool)
    returns (curr': bool, changed': bool, tell': int)
    requires dec.Valid() && 1 <= logp <= 23 && i < tfRes.Length
    requires sync ==> Following(p, t0, dec.trace, i, curr, changed, tell, budget, tfRes[..], dec.script)
    requires sync ==> i < p.end && logp == Logp(p, i)
    modifies dec, tfRes
    ensures dec.Valid() && dec.error == old(dec.error)
    ensures sync ==> Following(p, t0, dec.trace, i + 1, curr', changed', tell', budget, tfRes[..], dec.script)
  {
    ghost var res := tfRes[..];
    curr', changed', tell' := DecodeBand(dec, curr, changed, tell, logp, budget, p, t0, i, sync);
    tfRes[i] := Int(curr');
    if sync {
      FlaggedNext(p, res, i, curr');
    }
    assert tfRes[..] == res[i := Int(curr')];
  }

  /** The loop of tf_decode over the bands. */
  method DecodeBands(dec: Decoder, tfRes: array<int>, tell0: int, budget: int, start: nat, end: nat, transient: bool,
                     ghost p: Call, ghost sync: bool) returns (changed: bool)
    requires dec.Valid() && start <= end <= tfRes.Length
    requires sync ==> start == p.start && end == p.end && transient == p.transient
    requires sync ==> Following(p, dec.trace, dec.trace, start, false, false, tell0, budget, tfRes[..], dec.script)
    modifies dec, tfRes
    ensures dec.Valid() && dec.error == old(dec.error)
    ensures sync ==> AtBand(p, old(dec.trace), dec.trace, end) && changed == Bands(p, end).changed
    ensures sync ==> Flagged(p, tfRes[..], end)
  {
    ghost var t0 := dec.trace;
    var curr, tell, logp := false, tell0, if transient then 2 else 4;
    changed := false;
    for i := start to end
      invariant dec.Valid() && dec.error == old(dec.error) && 1 <= logp <= 23 && (sync ==> logp == Logp(p, i))
      invariant sync ==> Following(p, t0, dec.trace, i, curr, changed, tell, budget, tfRes[..], dec.script)
    {
      curr, changed, tell := DecodeEntry(dec, tfRes, curr, changed, tell, logp, budget, p, t0, i, sync);
      logp := if transient then 4 else 5;
    }
  }

  method DecodeSelect(dec: Decoder, rsv: bool, changed: bool, transient: bool, lm: nat,
                      ghost p: Call, ghost t0: seq<Op>, ghost sync: bool) returns (select: bool)
    requires dec.Valid() && lm <= 3
    requires sync ==> AtBand(p, t0, dec.trace, p.end) && changed == Bands(p, p.end).changed
    requires sync ==> rsv == Reserved(p) && transient == p.transient && lm == p.lm && t0 + Ops(p) <= dec.script
    modifies dec
    ensures dec.Valid() && dec.error == old(dec.error)
    ensures sync ==> dec.trace == t0 + Ops(p) && select == Select(p)
  {
    select := false;
    if sync {
      Regroup(t0, Bands(p, p.end).ops, if SelectCoded(p) then [BitOp(p.select, 1)] else []);
    }
    if rsv && TfTable(lm, transient, false, changed) != TfTable(lm, transient, true, changed) {
      select := dec.BitLogp(1);
    }
  }

  /**
   tf_decode. From the frame size and the bits alone it gives every band what tf_encode gave it; want and select are
   what the encoder was given, storage the size of its buffer.
   */
  method TfDecode(dec: Decoder, start: nat, end: nat, transient: bool, tfRes: array<int>, lm: nat,
                  ghost want: seq<bool>, ghost select: bool)
    requires dec.Valid() && start <= end <= tfRes.Length && end <= |want| && lm <= 3
    modifies dec, tfRes
    ensures dec.Valid() && dec.error == old(dec.error)
    ensures ValidOps(old(dec.trace)) ==>
      var p := CallAt(old(dec.trace), |dec.buf|, start, end, transient, lm, want, select);
      old(dec.trace) + Ops(p) <= dec.script ==>
        dec.trace == old(dec.trace) + Ops(p) && forall k :: start <= k < end ==> tfRes[k] == Result(p, k)
  {
    ghost var t0 := dec.trace;
    ghost var valid := ValidOps(t0);
    ghost var p := CallAt(if valid then t0 else [], |dec.buf|, start, end, transient, lm, want, select);
    ghost var sync := valid && t0 + Ops(p) <= dec.script;
    if sync {
      PrefixTrans(t0, [], Ops(p), dec.script);
      assert t0 + [] == t0;
      DecoderTells(dec, t0);
    }
    var budget := 8 * |dec.buf|;
    var tell := dec.Tell();
    var rsv := lm > 0 && tell + (if transient then 2 else 4) + 1 <= budget;
    budget := budget - if rsv then 1 else 0;
    var changed := DecodeBands(dec, tfRes, tell, budget, start, end, transient, p, sync);
    var sel := DecodeSelect(dec, rsv, changed, transient, lm, p, t0, sync);
    Resolve(tfRes, start, end, transient, lm, sel, p, sync);
  }
}
