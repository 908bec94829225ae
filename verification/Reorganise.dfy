/** haar1 in place, and the reorganisation of a band in quant_band and its undoing, as bands.c does them. */
module Reorganise {
  import opened Arith
  import opened Hadamard
  import opened Interleaving

  // ----- haar1

  /** Element i of pair j of blocks of n: the first of its pair. */
  function Place(j: nat, n: nat, i: nat): nat {
    Blocks(j, n) + i
  }

  lemma {:induction false} BlocksProduct(j: nat, n: nat)
    ensures Blocks(j, n) == n * 2 * j
  {
    if j > 0 {
      BlocksProduct(j - 1, n);
      Distribute(n * 2, j - 1, 1);
    }
  }

  lemma {:induction false} BlocksGrow(j: nat, k: nat, n: nat)
    requires j <= k
    ensures Blocks(j, n) <= Blocks(k, n) && (j < k ==> Blocks(j, n) + 2 * n <= Blocks(k, n))
  {
    if j < k {
      BlocksGrow(j, k - 1, n);
    }
  }

  /** What a step makes of a pair, and that it leaves the rest. */
  lemma {:induction false} StepPair(x: seq<real>, m: nat, n: nat, h: real, j: nat, i: nat)
    requires j < m && i < n && Blocks(m, n) <= |x|
    ensures Place(j, n, i) + n < Blocks(m, n)
    ensures var p, y := Place(j, n, i), Step(x, m, n, h);
      y[p] == h * x[p] + h * x[p + n] && y[p + n] == h * x[p] - h * x[p + n]
  {
    BlocksGrow(j, m, n);
    HaarPair(x, m, n, Sum(h), Diff(h), j, i);
  }

  ghost predicate Paired(x: seq<real>, y: seq<real>, p: nat, n: nat, s: Op, d: Op) {
    |x| == |y| && p + n < |x| && y[p] == s(x[p], x[p + n]) && y[p + n] == d(x[p], x[p + n])
  }

  lemma {:induction false} HaarPair(x: seq<real>, m: nat, n: nat, s: Op, d: Op, j: nat, i: nat)
    requires j < m && i < n && Blocks(m, n) <= |x| && Place(j, n, i) + n < |x|
    ensures Paired(x, Haar(x, m, n, s, d), Place(j, n, i), n, s, d)
    decreases m
  {
    var u, r := Cut(x, 2 * n);
    HaarFirst(u, r, m, n, s, d);
    var y, z := Butterfly(u, n, s, d), Haar(r, m - 1, n, s, d);
    if j == 0 {
      PairFront(u, r, z, n, s, d, i);
    } else {
      BlocksGrow(j, m, n);
      HaarPair(r, m - 1, n, s, d, j - 1, i);
      PairBehind(u, r, y, z, n, s, d, Place(j - 1, n, i), Place(j, n, i));
    }
  }

  lemma PairFront(u: seq<real>, r: seq<real>, z: seq<real>, n: nat, s: Op, d: Op, i: nat)
    requires |u| == 2 * n && |r| == |z| && i < n
    ensures Paired(u + r, Butterfly(u, n, s, d) + z, i, n, s, d)
  {
    var y := Butterfly(u, n, s, d);
    assert y[i] == s(u[i], u[n + i]) && y[n + i] == d(u[i], u[n + i]);
  }

  lemma PairBehind(u: seq<real>, r: seq<real>, y: seq<real>, z: seq<real>, n: nat, s: Op, d: Op, q: nat, p: nat)
    requires |u| == |y| == 2 * n && |r| == |z| && Paired(r, z, q, n, s, d) && p == q + 2 * n
    ensures Paired(u + r, y + z, p, n, s, d)
  {
  }

  lemma {:induction false} HaarBeyond(x: seq<real>, m: nat, n: nat, s: Op, d: Op, p: nat)
    requires Blocks(m, n) <= p < |x|
    ensures Haar(x, m, n, s, d)[p] == x[p]
    decreases m
  {
    if m > 0 {
      var u, r := Cut(x, 2 * n);
      HaarFirst(u, r, m, n, s, d);
      HaarBeyond(r, m - 1, n, s, d, p - 2 * n);
    }
  }

  /** Every element the step reaches is in some pair. */
  lemma {:induction false} PairOf(p: nat, m: nat, n: nat) returns (j: nat, i: nat)
    requires p < Blocks(m, n)
    ensures j < m && i < n && (p == Place(j, n, i) || p == Place(j, n, i) + n)
    decreases m
  {
    if p >= Blocks(m - 1, n) {
      var o := p - Blocks(m - 1, n);
      j, i := m - 1, if o < n then o else o - n;
    } else {
      j, i := PairOf(p, m - 1, n);
    }
  }

  lemma PairsApart(j: nat, i: nat, k: nat, e: nat, n: nat)
    requires i < n && e < n && (j != k || i != e)
    ensures Place(j, n, i) != Place(k, n, e) && Place(j, n, i) + n != Place(k, n, e)
    ensures Place(j, n, i) != Place(k, n, e) + n
  {
    if j < k {
      BlocksGrow(j, k, n);
    } else if k < j {
      BlocksGrow(k, j, n);
    }
  }

  /** haar1; n0 samples of stride blocks, so n0 / 2 pairs. */
  method Haar1(x: array<real>, n0: nat, stride: nat, h: real)
    requires Blocks(n0 / 2, stride) <= x.Length
    modifies x
    ensures x[..] == Step(old(x[..]), n0 / 2, stride, h)
  {
    var m := n0 / 2;
    ghost var x0, y := x[..], Step(x[..], m, stride, h);
    ghost var done: set<(nat, nat)> := {};
    PairwiseStart(x0, y, m, stride);
    for i := 0 to stride
      invariant Pairwise(x[..], x0, y, m, stride, done)
      invariant forall a: nat, j: nat :: a < stride && j < m ==> ((j, a) in done <==> a < i)
    {
      for j := 0 to m
        invariant Pairwise(x[..], x0, y, m, stride, done)
        invariant forall a: nat, k: nat :: a < stride && k < m ==> ((k, a) in done <==> a < i || (a == i && k < j))
      {
        HaarAt(x, j, i, m, stride, h, x0, y, done);
        done := done + {(j, i)};
      }
    }
    forall p: nat | p < x.Length ensures x[p] == y[p] {
      if p < Blocks(m, stride) {
        var j, i := PairOf(p, m, stride);
        assert (j, i) in done && PairHolds(x[..], x0, y, Place(j, stride, i), stride, true);
      } else {
        HaarBeyond(x0, m, stride, Sum(h), Diff(h), p);
      }
    }
  }

  /** A pair that is done holds its sum and difference, another what it held. */
  ghost predicate PairHolds(x: seq<real>, x0: seq<real>, y: seq<real>, p: nat, n: nat, done: bool)
    requires |x| == |x0| == |y|
  {
    p + n < |x| && if done then x[p] == y[p] && x[p + n] == y[p + n] else x[p] == x0[p] && x[p + n] == x0[p + n]
  }

  /** ... and nothing else has changed. */
  ghost predicate Pairwise(x: seq<real>, x0: seq<real>, y: seq<real>, m: nat, n: nat, done: set<(nat, nat)>)
    requires Blocks(m, n) <= |x0| == |y|
  {
    && |x| == |x0|
    && (forall j: nat, i: nat :: j < m && i < n ==> PairHolds(x, x0, y, Place(j, n, i), n, (j, i) in done))
    && (forall p :: Blocks(m, n) <= p < |x| ==> x[p] == x0[p])
  }

  lemma PairwiseStart(x: seq<real>, y: seq<real>, m: nat, n: nat)
    requires Blocks(m, n) <= |x| == |y|
    ensures Pairwise(x, x, y, m, n, {})
  {
    forall j: nat, i: nat | j < m && i < n ensures PairHolds(x, x, y, Place(j, n, i), n, (j, i) in {}) {
      BlocksGrow(j, m, n);
    }
  }

  /** One pair. */
  method HaarAt(x: array<real>, j: nat, i: nat, m: nat, n: nat, h: real,
                ghost x0: seq<real>, ghost y: seq<real>, ghost done: set<(nat, nat)>)
    requires j < m && i < n && Blocks(m, n) <= |x0| && y == Step(x0, m, n, h) && (j, i) !in done
    requires Pairwise(x[..], x0, y, m, n, done)
    modifies x
    ensures Pairwise(x[..], x0, y, m, n, done + {(j, i)})
  {
    ghost var was := x[..];
    StepPair(x0, m, n, h, j, i);
    BlocksProduct(j, n);
    var a := n * 2 * j + i;
    assert a == Place(j, n, i) && PairHolds(x[..], x0, y, a, n, false);
    SetPair(x, a, n, h, x0[a], x0[a + n], y[a], y[a + n]);
    PairwiseNext(was, x[..], x0, y, m, n, done, j, i);
  }

  method SetPair(x: array<real>, a: nat, n: nat, h: real, ghost u: real, ghost v: real, ghost sum: real,
                 ghost diff: real)
    requires a < a + n < x.Length && x[a] == u && x[a + n] == v
    requires sum == h * u + h * v && diff == h * u - h * v
    modifies x
    ensures x[..] == old(x[..])[a := sum][a + n := diff]
  {
    var tmp1 := h * x[a];
    var tmp2 := h * x[a + n];
    assert tmp1 == h * u && tmp2 == h * v;
    x[a] := tmp1 + tmp2;
    x[a + n] := tmp1 - tmp2;
  }

  lemma PairwiseNext(was: seq<real>, x: seq<real>, x0: seq<real>, y: seq<real>, m: nat, n: nat,
                     done: set<(nat, nat)>, j: nat, i: nat)
    requires Blocks(m, n) <= |x0| == |y| && j < m && i < n && Pairwise(was, x0, y, m, n, done)
    requires Place(j, n, i) + n < Blocks(m, n)
    requires var p := Place(j, n, i); x == was[p := y[p]][p + n := y[p + n]]
    ensures Pairwise(x, x0, y, m, n, done + {(j, i)})
  {
    forall k: nat, e: nat | k < m && e < n
      ensures PairHolds(x, x0, y, Place(k, n, e), n, (k, e) in done + {(j, i)})
    {
      assert PairHolds(was, x0, y, Place(k, n, e), n, (k, e) in done);
      if (k, e) != (j, i) {
        PairsApart(j, i, k, e, n);
      }
    }
  }

  // ----- Recombining short blocks: stages of doubling stride, undone in the same order

  /** The pairs of stage k, and their stride. */
  function Stage(x: seq<real>, len: nat, k: nat, h: real): (y: seq<real>)
    ensures |y| == |x|
  {
    Step(x, Shr(len, k + 1), Pow2(k), h)
  }

  type Stages = (nat, seq<real>) -> seq<real>

  /** Stages 0, 1, ..., r - 1. */
  function Through(f: Stages, x: seq<real>, r: nat): seq<real> {
    if r == 0 then x else f(r - 1, Through(f, x, r - 1))
  }

  /** The stages of recombining, on vectors that are long enough. */
  function Recombining(len: nat, h: real): Stages {
    (k: nat, x: seq<real>) => if len <= |x| then Stage(x, len, k, h) else x
  }

  ghost predicate Commuting(f: Stages) {
    forall j: nat, k: nat, x: seq<real> {:trigger f(k, f(j, x))} :: j < k ==> f(k, f(j, x)) == f(j, f(k, x))
  }

  ghost predicate Involutions(f: Stages) {
    forall k: nat, x: seq<real> {:trigger f(k, x)} :: f(k, f(k, x)) == x
  }

  /** A stage commutes with all the stages before it. */
  lemma {:induction false} StageAfter(f: Stages, x: seq<real>, r: nat, k: nat)
    requires r <= k && Commuting(f)
    ensures Through(f, f(k, x), r) == f(k, Through(f, x, r))
    decreases r
  {
    if r > 0 {
      var y := Through(f, x, r - 1);
      StageAfter(f, x, r - 1, k);
      assert f(k, f(r - 1, y)) == f(r - 1, f(k, y));
    }
  }

  lemma ThroughLast(f: Stages, x: seq<real>, r: nat)
    ensures Through(f, x, r + 1) == f(r, Through(f, x, r))
  {
  }

  lemma TwiceAt(f: Stages, k: nat, x: seq<real>)
    requires Involutions(f)
    ensures f(k, f(k, x)) == x
  {
  }

  /** Doing all stages again, in the same order, undoes them. */
  lemma {:induction false} ThroughTwice(f: Stages, x: seq<real>, r: nat)
    requires Commuting(f) && Involutions(f)
    ensures Through(f, Through(f, x, r), r) == x
    decreases r
  {
    if r > 0 {
      var k := r - 1;
      ThroughTwice(f, x, k);
      ThroughTwiceNext(f, x, k);
    }
  }

  lemma ThroughTwiceNext(f: Stages, x: seq<real>, k: nat)
    requires Commuting(f) && Involutions(f) && Through(f, Through(f, x, k), k) == x
    ensures Through(f, Through(f, x, k + 1), k + 1) == x
  {
    var y := Through(f, x, k);
    StageAfter(f, y, k, k);
    TwiceAt(f, k, x);
    ThroughLast(f, x, k);
    ThroughLast(f, f(k, y), k);
  }

  lemma StageTwice(x: seq<real>, len: nat, k: nat, h: real)
    requires 2.0 * h * h == 1.0
    ensures Stage(Stage(x, len, k, h), len, k, h) == x
  {
    SumDiffUndone(h);
    HaarTwice(x, Shr(len, k + 1), Pow2(k), Sum(h), Diff(h));
  }

  /** Blocks of so many samples fit into a vector. */
  predicate Fits(b: nat, nb: nat, len: nat) {
    b * nb <= len
  }

  /** They still do when they are cut in half, and the halves make pairs. */
  lemma FitsHalf(b: nat, nb: nat, len: nat)
    requires Fits(b, nb, len)
    ensures Fits(2 * b, nb / 2, len) && Blocks(nb / 2, b) <= len
  {
    var m := nb / 2;
    MulMonotone(b, 2 * m, nb);
    BlocksProduct(m, b);
    assert 2 * b * m == b * (2 * m) == b * 2 * m;
  }

  lemma {:induction false} FitsDivided(b: nat, nb: nat, k: nat, len: nat)
    requires Fits(b, nb, len)
    ensures Fits(Shl(b, k), Shr(nb, k), len)
  {
    if k > 0 {
      FitsDivided(b, nb, k - 1, len);
      FitsHalf(Shl(b, k - 1), Shr(nb, k - 1), len);
    }
  }

  /** ... and when two are joined. */
  lemma FitsJoined(b: nat, nb: nat, len: nat)
    requires Fits(b, nb, len)
    ensures Fits(b / 2, 2 * nb, len)
  {
    var c := b / 2;
    MulMonotone(nb, 2 * c, b);
    assert c * (2 * nb) == nb * (2 * c) && nb * b == b * nb;
  }

  lemma {:induction false} FitsRecombined(b: nat, nb: nat, r: nat, len: nat)
    requires Fits(b, nb, len)
    ensures Fits(Shr(b, r), Shl(nb, r), len)
  {
    if r > 0 {
      FitsRecombined(b, nb, r - 1, len);
      FitsJoined(Shr(b, r - 1), Shl(nb, r - 1), len);
    }
  }

  lemma StageFits(len: nat, k: nat)
    ensures Blocks(Shr(len, k + 1), Pow2(k)) <= len
  {
    FitsDivided(1, len, k, len);
    ShlOne(k);
    FitsHalf(Pow2(k), Shr(len, k), len);
  }

  lemma {:induction false} PairsProduct(n: nat, c: nat)
    ensures Pairs(n, c) == n * (2 * c)
  {
    if n > 0 {
      PairsProduct(n - 1, c);
      Distribute(2 * c, n - 1, 1);
    }
  }

  /** A block of a later stage is made of pairs of an earlier one, and the later stage does not reach further. */
  lemma StagesNest(len: nat, j: nat, k: nat, c: nat)
    requires j < k && c == Pow2(k - j - 1)
    ensures Pow2(k) == Blocks(c, Pow2(j)) && Pairs(Shr(len, k + 1), c) <= Shr(len, j + 1)
  {
    BlocksProduct(c, Pow2(j));
    ShlPow2(j + 1, k - j - 1);
    ShlProduct(Pow2(j + 1), k - j - 1);
    assert Pow2(j) * 2 * c == Pow2(j + 1) * c;
    var m := Shr(len, j + 1);
    ShrShr(len, j + 1, k - j);
    Split(m, k - j);
    ShlProduct(Shr(m, k - j), k - j);
    PairsProduct(Shr(len, k + 1), c);
  }

  lemma StagesCommute(x: seq<real>, len: nat, j: nat, k: nat, h: real)
    requires j < k && len <= |x|
    ensures Stage(Stage(x, len, j, h), len, k, h) == Stage(Stage(x, len, k, h), len, j, h)
  {
    var c := Pow2(k - j - 1);
    StagesNest(len, j, k, c);
    StageFits(len, j);
    StepCommutes(x, Shr(len, j + 1), Shr(len, k + 1), c, Pow2(j), Pow2(k), h);
  }

  /** The recombination is undone by itself. */
  lemma RecombinedTwice(x: seq<real>, len: nat, r: nat, h: real)
    requires 2.0 * h * h == 1.0
    ensures Through(Recombining(len, h), Through(Recombining(len, h), x, r), r) == x
  {
    var f := Recombining(len, h);
    forall j: nat, k: nat, y: seq<real> | j < k ensures f(k, f(j, y)) == f(j, f(k, y)) {
      if len <= |y| {
        StagesCommute(y, len, j, k, h);
      }
    }
    forall k: nat, y: seq<real> ensures f(k, f(k, y)) == y {
      if len <= |y| {
        StageTwice(y, len, k, h);
      }
    }
    ThroughTwice(f, x, r);
  }

  // ----- Dividing time: stages of doubling stride and halving length, undone in the opposite order

  function Divided(x: seq<real>, nb: nat, b: nat, k: nat, h: real): (y: seq<real>)
    ensures |y| == |x|
  {
    if k == 0 then x else Step(Divided(x, nb, b, k - 1, h), Shr(nb, k), Shl(b, k - 1), h)
  }

  lemma DividedBack(x: seq<real>, nb: nat, b: nat, k: nat, h: real)
    requires k > 0 && 2.0 * h * h == 1.0
    ensures Step(Divided(x, nb, b, k, h), Shr(nb, k), Shl(b, k - 1), h) == Divided(x, nb, b, k - 1, h)
  {
    SumDiffUndone(h);
    HaarTwice(Divided(x, nb, b, k - 1, h), Shr(nb, k), Shl(b, k - 1), Sum(h), Diff(h));
  }

  /** How often time is divided: while tfChange asks for it and the blocks can be halved. */
  function Divisions(nb: nat, tfChange: int): (k: nat)
    decreases -tfChange
  {
    if nb % 2 == 0 && tfChange < 0 then 1 + Divisions(nb / 2, tfChange + 1) else 0
  }

  /** Time is divided as often as tfChange asks for, or as the blocks can be halved. */
  lemma {:induction false} DivisionsGreatest(nb: nat, tfChange: int, d: nat)
    ensures d <= Divisions(nb, tfChange) <==> d <= Max(0, -tfChange) && nb % Pow2(d) == 0
    decreases d
  {
    if d > 0 {
      DivisionsGreatest(nb / 2, tfChange + 1, d - 1);
      HalvesDivide(nb, Pow2(d - 1));
    }
  }

  lemma HalvesDivide(n: nat, p: nat)
    requires p > 0
    ensures n % (2 * p) == 0 <==> n % 2 == 0 && n / 2 % p == 0
  {
    var h, r := n / 2 / p, n / 2 % p;
    assert n / 2 == p * h + r;
    DivModUnique(n, 2 * p, h, 2 * r + n % 2);
  }

  /** Only blocks of an even length are halved, so joining the halves gives the length back. */
  lemma {:induction false} DivisionsEven(nb: nat, tfChange: int, i: nat)
    requires i < Divisions(nb, tfChange)
    ensures Shr(nb, i) % 2 == 0
    decreases i
  {
    if i > 0 {
      DivisionsEven(nb / 2, tfChange + 1, i - 1);
      ShrShr(nb, 1, i - 1);
    }
  }

  // ----- quant_band

  /** The stages that recombine short blocks, before quantisation and, once more, after it. */
  method Recombine(x: array<real>, r: nat, h: real)
    modifies x
    ensures x[..] == Through(Recombining(x.Length, h), old(x[..]), r)
  {
    ghost var x0, f := x[..], Recombining(x.Length, h);
    for k := 0 to r
      invariant x[..] == Through(f, x0, k)
    {
      StageFits(x.Length, k);
      Haar1(x, Shr(x.Length, k), Pow2(k), h);
    }
  }

  /** Stage e of dividing time, with b blocks of nb samples. */
  ghost predicate AtStage(x: seq<real>, x0: seq<real>, nb0: nat, b0: nat, e: nat, nb: nat, b: nat, h: real) {
    x == Divided(x0, nb0, b0, e, h) && nb == Shr(nb0, e) && b == Shl(b0, e) && Fits(b, nb, |x|)
  }

  lemma StageNext(x0: seq<real>, nb0: nat, b0: nat, e: nat, nb: nat, b: nat, h: real)
    requires nb == Shr(nb0, e) && b == Shl(b0, e) && Fits(b, nb, |x0|)
    ensures Blocks(nb / 2, b) <= |x0|
    ensures AtStage(Step(Divided(x0, nb0, b0, e, h), nb / 2, b, h), x0, nb0, b0, e + 1, nb / 2, 2 * b, h)
  {
    FitsHalf(b, nb, |x0|);
    assert Shr(nb0, e + 1) == nb / 2 && Shl(b0, e + 1) == 2 * b;
  }

  method DivideOnce(x: array<real>, nb: nat, b: nat, h: real, ghost x0: seq<real>, ghost nb0: nat, ghost b0: nat,
                    ghost e: nat) returns (nb': nat, b': nat)
    requires |x0| == x.Length && AtStage(x[..], x0, nb0, b0, e, nb, b, h)
    modifies x
    ensures AtStage(x[..], x0, nb0, b0, e + 1, nb', b', h) && nb' == nb / 2
  {
    StageNext(x0, nb0, b0, e, nb, b, h);
    Haar1(x, nb, b, h);
    b' := 2 * b;
    nb' := nb / 2;
  }

  /** Increasing the time resolution. */
  method DivideTime(x: array<real>, nb0: nat, b0: nat, tfChange: int, h: real) returns (nb: nat, b: nat, k: nat)
    requires Fits(b0, nb0, x.Length)
    modifies x
    ensures AtStage(x[..], old(x[..]), nb0, b0, k, nb, b, h) && k == Divisions(nb0, tfChange)
  {
    nb, b, k := nb0, b0, 0;
    ghost var x0, all := x[..], Divisions(nb0, tfChange);
    var tf := tfChange;
    while nb % 2 == 0 && tf < 0
      invariant AtStage(x[..], x0, nb0, b0, k, nb, b, h)
      invariant k + Divisions(nb, tf) == all
      decreases -tf
    {
      nb, b := DivideOnce(x, nb, b, h, x0, nb0, b0, k);
      k := k + 1;
      tf := tf + 1;
    }
  }

  lemma ShapeBefore(nb0: nat, b0: nat, e: nat, nb: nat, b: nat, len: nat)
    requires e > 0 && nb == Shr(nb0, e) && b == Shl(b0, e) && Fits(b, nb, len) && Shr(nb0, e - 1) % 2 == 0
    ensures nb * 2 == Shr(nb0, e - 1) && b / 2 == Shl(b0, e - 1)
    ensures Fits(b / 2, nb * 2, len) && Blocks(nb, b / 2) <= len
  {
    FitsJoined(b, nb, len);
    FitsHalf(b / 2, nb * 2, len);
  }

  lemma StageBefore(x0: seq<real>, nb0: nat, b0: nat, e: nat, nb: nat, b: nat, h: real)
    requires e > 0 && nb == Shr(nb0, e) && b == Shl(b0, e) && Fits(b, nb, |x0|) && 2.0 * h * h == 1.0
    requires Shr(nb0, e - 1) % 2 == 0
    ensures Blocks(nb, b / 2) <= |x0|
    ensures AtStage(Step(Divided(x0, nb0, b0, e, h), nb, b / 2, h), x0, nb0, b0, e - 1, nb * 2, b / 2, h)
  {
    ShapeBefore(nb0, b0, e, nb, b, |x0|);
    DividedBack(x0, nb0, b0, e, h);
  }

  /** Undoing it; x0 is what was divided. */
  method JoinTime(x: array<real>, nb1: nat, b1: nat, k: nat, h: real, ghost nb0: nat, ghost b0: nat,
                  ghost x0: seq<real>)
    requires |x0| == x.Length && 2.0 * h * h == 1.0 && AtStage(x[..], x0, nb0, b0, k, nb1, b1, h)
    requires forall i :: 0 <= i < k ==> Shr(nb0, i) % 2 == 0
    modifies x
    ensures x[..] == x0
  {
    var nb, b := nb1, b1;
    for j := 0 to k
      invariant AtStage(x[..], x0, nb0, b0, k - j, nb, b, h)
    {
      StageBefore(x0, nb0, b0, k - j, nb, b, h);
      b := b / 2;
      nb := nb * 2;
      Haar1(x, nb, b, h);
    }
  }

  /** What quant_band makes of a band: how its blocks are recombined, and divided, before the quantiser. */
  datatype Shape = Shape(r: nat, nb0: nat, b0: nat, k: nat, nb: nat, b: nat, longBlocks: bool)

  function ShapeOf(len: nat, blocks: nat, tfChange: int): Shape
    requires blocks > 0
  {
    var r := Max(tfChange, 0);
    var b0, nb0 := Shr(blocks, r), Shl(len / blocks, r);
    var k := Divisions(nb0, tfChange);
    Shape(r, nb0, b0, k, Shr(nb0, k), Shl(b0, k), blocks == 1)
  }

  /** A positive change merges blocks, and makes them longer. */
  lemma BlocksMerged(len: nat, blocks: nat, tfChange: nat)
    requires blocks > 0
    ensures var s := ShapeOf(len, blocks, tfChange);
      s.b == blocks / Pow2(tfChange) && s.nb == len / blocks * Pow2(tfChange) && s.k == 0
  {
    ShrQuotient(blocks, tfChange);
    ShlProduct(len / blocks, tfChange);
  }

  /** A negative one divides them, as often as it asks for and their length allows. */
  lemma BlocksDivided(len: nat, blocks: nat, tfChange: int, nb: nat, k: nat)
    requires blocks > 0 && tfChange < 0 && nb == len / blocks && k == ShapeOf(len, blocks, tfChange).k
    ensures var s := ShapeOf(len, blocks, tfChange);
      s.b == blocks * Pow2(k) && s.nb == nb / Pow2(k) && s.r == 0
    ensures k <= -tfChange && nb % Pow2(k) == 0 && (k < -tfChange ==> nb % Pow2(k + 1) != 0)
  {
    ShlProduct(blocks, k);
    ShrQuotient(nb, k);
    DivisionsGreatest(nb, tfChange, k);
    DivisionsGreatest(nb, tfChange, k + 1);
  }

  lemma ShapeFits(len: nat, blocks: nat, tfChange: int)
    requires blocks > 0
    ensures var s := ShapeOf(len, blocks, tfChange);
      Fits(s.b0, s.nb0, len) && Fits(s.b, s.nb, len) && Fits(Shl(s.b, s.r), Shr(s.nb, s.r), len)
      && (s.b > 0 ==> Shl(s.b, s.r) > 0)
  {
    var s := ShapeOf(len, blocks, tfChange);
    DivBounds(len, blocks, len / blocks);
    FitsRecombined(blocks, len / blocks, s.r, len);
    FitsDivided(s.b0, s.nb0, s.k, len);
    FitsDivided(s.b, s.nb, s.r, len);
    if s.b > 0 {
      ShlMonotone(1, s.b, s.r);
      ShlOne(s.r);
    }
  }

  /** The vector that the quantiser sees, but for a single sample, which is not reorganised. */
  function Reorganised(x: seq<real>, blocks: nat, tfChange: int, h: real): (y: seq<real>)
    requires blocks > 0
  {
    var s := ShapeOf(|x|, blocks, tfChange);
    ShapeFits(|x|, blocks, tfChange);
    Ordered(Divided(Through(Recombining(|x|, h), x, s.r), s.nb0, s.b0, s.k, h), s)
  }

  /** The samples in time order. */
  function Ordered(x: seq<real>, s: Shape): (y: seq<real>)
    ensures |y| == |x|
  {
    var rows, n0 := Shl(s.b, s.r), Shr(s.nb, s.r);
    if s.b > 1 && rows > 0 && Fits(rows, n0, |x|) then Deinterleaved(x, n0, rows, s.longBlocks) else x
  }

  lemma {:induction false} RecombiningLength(len: nat, h: real, x: seq<real>, r: nat)
    ensures |Through(Recombining(len, h), x, r)| == |x|
  {
    if r > 0 {
      RecombiningLength(len, h, x, r - 1);
    }
  }

  // ----- What recombining does to a steady band

  function Scaled(h: real, x: real): real {
    h * x
  }

  /** h to the r */
  function Gain(h: real, r: nat): real {
    if r == 0 then 1.0 else Scaled(h, Gain(h, r - 1))
  }

  /** The sum of n samples from lo on. */
  function SumFrom(x: seq<real>, lo: nat, n: nat): real
    requires lo + n <= |x|
  {
    if n == 0 then 0.0 else SumFrom(x, lo, n - 1) + x[lo + n - 1]
  }

  lemma {:induction false} SumJoins(x: seq<real>, lo: nat, m: nat, n: nat)
    requires lo + m + n <= |x|
    ensures SumFrom(x, lo, m + n) == SumFrom(x, lo, m) + SumFrom(x, lo + m, n)
  {
    if n > 0 {
      SumJoins(x, lo, m, n - 1);
      assert m + n - 1 == m + (n - 1);
    }
  }

  /** Element p has become the sum of the n samples from p on, times c. */
  predicate Merged(x: seq<real>, y: seq<real>, c: real, n: nat, p: nat) {
    p + n <= |x| == |y| && n > 0 && y[p] == Scaled(c, SumFrom(x, p, n))
  }

  /** Recombining r times leaves in the first of every 2^r short-block coefficients their sum, scaled. */
  lemma {:induction false} MergedSum(x: seq<real>, len: nat, h: real, r: nat, g: nat, n: nat, p: nat)
    requires g < Shr(len, r) && len <= |x| && n == Pow2(r) && p == g * n
    ensures Merged(x, Through(Recombining(len, h), x, r), Gain(h, r), n, p)
    decreases r
  {
    if r == 0 {
      assert SumFrom(x, p, 1) == SumFrom(x, p, 0) + x[p];
    } else {
      var q := Pow2(r - 1);
      Halves(g, q, n, p);
      MergedSum(x, len, h, r - 1, 2 * g, q, p);
      MergedSum(x, len, h, r - 1, 2 * g + 1, q, p + q);
      MergedNext(x, Through(Recombining(len, h), x, r - 1), Through(Recombining(len, h), x, r), len, h, r, q,
                 Gain(h, r - 1), Gain(h, r), g, n, p);
    }
  }

  lemma MergedNext(x: seq<real>, y: seq<real>, z: seq<real>, len: nat, h: real, r: nat, q: nat, c: real, c2: real,
                   g: nat, n: nat, p: nat)
    requires r > 0 && g < Shr(len, r) && len <= |x| && q == Pow2(r - 1) && n == 2 * q && p == Place(g, q, 0)
    requires y == Through(Recombining(len, h), x, r - 1) && z == Through(Recombining(len, h), x, r)
    requires c == Gain(h, r - 1) && c2 == Gain(h, r) && Merged(x, y, c, q, p) && Merged(x, y, c, q, p + q)
    ensures Merged(x, z, c2, n, p)
  {
    var m := Shr(len, r);
    StageFits(len, r - 1);
    ThroughStage(x, len, h, r);
    GainNext(h, r, c, c2);
    MergedStep(x, y, z, m, q, h, c, c2, g, n, p);
  }

  lemma GainNext(h: real, r: nat, c: real, c2: real)
    requires r > 0 && c == Gain(h, r - 1) && c2 == Gain(h, r)
    ensures c2 == Scaled(h, c)
  {
  }

  lemma ThroughStage(x: seq<real>, len: nat, h: real, r: nat)
    requires r > 0 && len <= |x|
    ensures Through(Recombining(len, h), x, r) ==
            Step(Through(Recombining(len, h), x, r - 1), Shr(len, r), Pow2(r - 1), h)
    ensures |Through(Recombining(len, h), x, r - 1)| == |Through(Recombining(len, h), x, r)| == |x|
  {
    RecombiningLength(len, h, x, r - 1);
    RecombiningLength(len, h, x, r);
  }

  lemma MergedStep(x: seq<real>, y: seq<real>, z: seq<real>, m: nat, q: nat, h: real, c: real, c2: real, g: nat,
                   n: nat, p: nat)
    requires z == Step(y, m, q, h) && g < m && Blocks(m, q) <= |y| && |z| == |y| && n == 2 * q && p == Place(g, q, 0)
    requires Merged(x, y, c, q, p) && Merged(x, y, c, q, p + q) && c2 == Scaled(h, c)
    ensures Merged(x, z, c2, n, p)
  {
    StepPair(y, m, q, h, g, 0);
    MergedPair(x, y, z, q, h, c, c2, n, p);
  }

  lemma MergedPair(x: seq<real>, y: seq<real>, z: seq<real>, q: nat, h: real, c: real, c2: real, n: nat, p: nat)
    requires |z| == |y| && n == q + q && Merged(x, y, c, q, p) && Merged(x, y, c, q, p + q) && c2 == Scaled(h, c)
    requires z[p] == h * y[p] + h * y[p + q]
    ensures Merged(x, z, c2, n, p)
  {
    SumJoins(x, p, q, q);
    ScaleSum(h, c, SumFrom(x, p, q), SumFrom(x, p + q, q));
  }

  lemma Halves(g: nat, q: nat, n: nat, p: nat)
    requires n == 2 * q && p == g * n
    ensures p == 2 * g * q && p + q == (2 * g + 1) * q && p == Place(g, q, 0)
  {
    BlocksProduct(g, q);
  }

  lemma ScaleSum(h: real, c: real, a: real, b: real)
    ensures h * (c * a) + h * (c * b) == h * c * (a + b)
  {
  }

  method TimeOrder(x: array<real>, s: Shape)
    requires Fits(Shl(s.b, s.r), Shr(s.nb, s.r), x.Length) && (s.b > 0 ==> Shl(s.b, s.r) > 0)
    modifies x
    ensures x[..] == Ordered(old(x[..]), s)
  {
    if s.b > 1 {
      Deinterleave(x, Shr(s.nb, s.r), Shl(s.b, s.r), s.longBlocks);
    }
  }

  method FrequencyOrder(x: array<real>, s: Shape, ghost x0: seq<real>)
    requires Fits(Shl(s.b, s.r), Shr(s.nb, s.r), x.Length) && (s.b > 0 ==> Shl(s.b, s.r) > 0)
    requires |x0| == x.Length && x[..] == Ordered(x0, s)
    modifies x
    ensures x[..] == x0
  {
    if s.b > 1 {
      Interleave(x, Shr(s.nb, s.r), Shl(s.b, s.r), s.longBlocks);
      InterleaveUndoes(x0, Shr(s.nb, s.r), Shl(s.b, s.r), s.longBlocks);
    }
  }

  /** The first half of quant_band, up to the quantiser. */
  method Arrange(x: array<real>, blocks: nat, tfChange: int, h: real) returns (s: Shape)
    requires blocks > 0
    modifies x
    ensures s == ShapeOf(x.Length, blocks, tfChange) && x[..] == Reorganised(old(x[..]), blocks, tfChange, h)
  {
    ShapeFits(x.Length, blocks, tfChange);
    var recombine := Max(tfChange, 0);
    Recombine(x, recombine, h);
    var b0, nb0 := Shr(blocks, recombine), Shl(x.Length / blocks, recombine);
    var nb, b, divided := DivideTime(x, nb0, b0, tfChange, h);
    s := Shape(recombine, nb0, b0, divided, nb, b, blocks == 1);
    TimeOrder(x, s);
  }

  /** The second half, after the quantiser: x0 is the band it stands for. */
  method Restore(x: array<real>, s: Shape, h: real, ghost blocks: nat, ghost tfChange: int, ghost x0: seq<real>)
    requires blocks > 0 && 2.0 * h * h == 1.0 && |x0| == x.Length && s == ShapeOf(x.Length, blocks, tfChange)
    requires x[..] == Reorganised(x0, blocks, tfChange, h)
    modifies x
    ensures x[..] == x0
  {
    ShapeFits(x.Length, blocks, tfChange);
    ghost var x1 := Through(Recombining(|x0|, h), x0, s.r);
    RecombiningLength(|x0|, h, x0, s.r);
    forall i: nat | i < s.k ensures Shr(s.nb0, i) % 2 == 0 {
      DivisionsEven(s.nb0, tfChange, i);
    }
    FrequencyOrder(x, s, Divided(x1, s.nb0, s.b0, s.k, h));
    JoinTime(x, s.nb, s.b, s.k, h, s.nb0, s.b0, x1);
    Recombine(x, s.r, h);
    RecombinedTwice(x0, |x0|, s.r, h);
  }

  /**
   quant_band around a quantiser that changes nothing: it is handed the reorganised band, `seen`, and the band comes
   back exactly, whatever the change of resolution and the number of short blocks. A single sample stays as it is.
   */
  method QuantBand(x: array<real>, blocks: nat, tfChange: int, h: real) returns (ghost seen: seq<real>)
    requires blocks > 0 && 2.0 * h * h == 1.0
    modifies x
    ensures seen == if x.Length == 1 then old(x[..]) else Reorganised(old(x[..]), blocks, tfChange, h)
    ensures x[..] == old(x[..])
  {
    seen := x[..];
    if x.Length == 1 {
      return;
    }
    ghost var x0 := x[..];
    var s := Arrange(x, blocks, tfChange, h);
    seen := x[..];
    // The quantiser comes here.
    Restore(x, s, h, blocks, tfChange, x0);
  }
}
