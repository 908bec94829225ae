/**
 op_pvq_search_c (vq.c): the search for a vector of k pulses close to a band. The samples are real numbers; the pulses
 and their sums of squares, which the source keeps in floating point, are integers.
 */
module PulseSearch {
  import opened Arith
  import opened Cwrs

  function AbsReal(x: real): real {
    if x < 0.0 then -x else x
  }

  function Sum(x: seq<real>): real {
    if x == [] then 0.0 else x[0] + Sum(x[1..])
  }

  /** The inner product of a band and its pulses. */
  function Dot(x: seq<real>, v: seq<int>): real
    requires |x| == |v|
  {
    if x == [] then 0.0 else x[0] * v[0] as real + Dot(x[1..], v[1..])
  }

  // ----- Changing one element

  lemma {:induction false} NormUpdate(v: seq<int>, j: nat, e: int)
    requires j < |v|
    ensures Norm(v[j := e]) == Norm(v) - Abs(v[j]) + Abs(e)
  {
    if j == 0 {
      assert v[j := e][1..] == v[1..];
    } else {
      assert v[j := e][1..] == v[1..][j - 1 := e];
      NormUpdate(v[1..], j - 1, e);
    }
  }

  lemma {:induction false} SquaresUpdate(v: seq<int>, j: nat, e: int)
    requires j < |v|
    ensures Squares(v[j := e]) == Squares(v) - v[j] * v[j] + e * e
  {
    if j == 0 {
      assert v[j := e][1..] == v[1..];
    } else {
      assert v[j := e][1..] == v[1..][j - 1 := e];
      SquaresUpdate(v[1..], j - 1, e);
    }
  }

  lemma {:induction false} DotUpdate(x: seq<real>, v: seq<int>, j: nat, e: int)
    requires j < |v| == |x|
    ensures Dot(x, v[j := e]) == Dot(x, v) + x[j] * (e - v[j]) as real
  {
    if j == 0 {
      assert v[j := e][1..] == v[1..];
    } else {
      assert v[j := e][1..] == v[1..][j - 1 := e];
      DotUpdate(x[1..], v[1..], j - 1, e);
    }
  }

  lemma {:induction false} Zeros(x: seq<real>, v: seq<int>)
    requires |x| == |v| && forall j :: 0 <= j < |v| ==> v[j] == 0
    ensures Norm(v) == 0 && Squares(v) == 0 && Dot(x, v) == 0.0
  {
    if v != [] {
      Zeros(x[1..], v[1..]);
    }
  }

  /** One pulse more at j. */
  function Added(v: seq<int>, j: nat): (w: seq<int>)
    requires j < |v|
    ensures |w| == |v|
  {
    v[j := v[j] + 1]
  }

  lemma AddedIs(x: seq<real>, v: seq<int>, j: nat)
    requires j < |v| == |x| && v[j] >= 0
    ensures Norm(Added(v, j)) == Norm(v) + 1 && Squares(Added(v, j)) == Squares(v) + 1 + 2 * v[j]
    ensures Dot(x, Added(v, j)) == Dot(x, v) + x[j]
  {
    NormUpdate(v, j, v[j] + 1);
    AddedSquares(v, j, v[j]);
    AddedDot(x, v, j, v[j]);
  }

  lemma AddedSquares(v: seq<int>, j: nat, e: int)
    requires j < |v| && e == v[j]
    ensures Squares(Added(v, j)) == Squares(v) + 1 + 2 * e
  {
    AddedSquare(v, j, e, e * e, (e + 1) * (e + 1));
  }

  lemma AddedSquare(v: seq<int>, j: nat, e: int, a: int, b: int)
    requires j < |v| && e == v[j] && a == e * e && b == (e + 1) * (e + 1)
    ensures Squares(Added(v, j)) == Squares(v) + 1 + 2 * e
  {
    Square(e, a, b);
    SquaresChange(v, j, e + 1, a, b);
  }

  lemma SquaresChange(v: seq<int>, j: nat, e: int, a: int, b: int)
    requires j < |v| && a == v[j] * v[j] && b == e * e
    ensures Squares(v[j := e]) == Squares(v) - a + b
  {
    SquaresUpdate(v, j, e);
  }

  lemma AddedDot(x: seq<real>, v: seq<int>, j: nat, e: int)
    requires j < |v| == |x| && e == v[j]
    ensures Dot(x, Added(v, j)) == Dot(x, v) + x[j]
  {
    DotUpdate(x, v, j, e + 1);
    assert e + 1 - v[j] == 1;
  }

  lemma Square(e: int, a: int, b: int)
    requires a == e * e && b == (e + 1) * (e + 1)
    ensures b == a + 2 * e + 1
  {
  }

  // ----- Which place is best

  /** a / b <= c / d, without a division. */
  predicate FractionLe(a: real, b: real, c: real, d: real) {
    a * d <= c * b
  }

  /** The square of the inner product after a pulse at j, and the square of the vector's length. */
  function Num(x: seq<real>, v: seq<int>, j: nat): real
    requires j < |v| == |x|
  {
    Dot(x, Added(v, j)) * Dot(x, Added(v, j))
  }

  function Den(v: seq<int>, j: nat): int
    requires j < |v|
  {
    Squares(Added(v, j))
  }

  /** A pulse at i brings the vector no closer to the band, in angle, than a pulse at j. */
  ghost predicate NoBetter(x: seq<real>, v: seq<int>, i: nat, j: nat)
    requires i < |v| && j < |v| == |x|
  {
    FractionLe(Num(x, v, i), Den(v, i) as real, Num(x, v, j), Den(v, j) as real)
  }

  lemma CrossTransitive(a: real, b: real, c: real, d: real, e: real, f: real)
    requires b > 0.0 && d > 0.0 && f > 0.0 && FractionLe(a, b, c, d) && FractionLe(c, d, e, f)
    ensures FractionLe(a, b, e, f)
  {
    Scale(a * d, c * b, f);
    Scale(c * f, e * d, b);
    assert (a * d) * f == (a * f) * d && (c * b) * f == (c * f) * b && (e * d) * b == (e * b) * d;
    Unscale(a * f, e * b, d);
  }

  /** The test of the loop: the new fraction exceeds the best. */
  predicate Exceeds(num: real, den: int, bestNum: real, bestDen: int) {
    bestDen as real * num > den as real * bestNum
  }

  lemma Decide(x: seq<real>, v: seq<int>, j: nat, num: real, den: int, best: nat, bestNum: real, bestDen: int)
    requires Scored(x, v, j, num, den) && Scored(x, v, best, bestNum, bestDen)
    ensures if Exceeds(num, den, bestNum, bestDen) then NoBetter(x, v, best, j) else NoBetter(x, v, j, best)
    ensures NoBetter(x, v, j, j)
  {
  }

  lemma Scale(a: real, b: real, c: real)
    requires a <= b && c > 0.0
    ensures a * c <= b * c
  {
  }

  lemma Unscale(a: real, b: real, c: real)
    requires a * c <= b * c && c > 0.0
    ensures a <= b
  {
  }

  /** The band without signs, and pulses without signs with their running sums. */
  ghost predicate Placing(x: seq<real>, v: seq<int>, xy: real, yy: int) {
    && |x| == |v| && xy == Dot(x, v) && yy == Squares(v)
    && (forall j :: 0 <= j < |v| ==> v[j] >= 0)
  }

  method PlacePulse(X: array<real>, iy: array<int>, y: array<int>, xy: real, yy: int)
    returns (xy': real, yy': int, best: nat)
    requires X.Length >= 2 && iy != y && iy.Length == y.Length == X.Length
    requires Placing(X[..], iy[..], xy, yy) && forall j :: 0 <= j < y.Length ==> y[j] == 2 * iy[j]
    modifies iy, y
    ensures best < iy.Length && iy[..] == Added(old(iy[..]), best) && Placing(X[..], iy[..], xy', yy')
    ensures forall j :: 0 <= j < y.Length ==> y[j] == 2 * iy[j]
    ensures forall j :: 0 <= j < iy.Length ==> NoBetter(X[..], old(iy[..]), j, best)
  {
    best := FindBest(X, iy, y, xy, yy + 1);
    AddedIs(X[..], iy[..], best);
    xy' := xy + X[best];
    yy' := yy + 1 + y[best];
    y[best] := y[best] + 2;
    iy[best] := iy[best] + 1;
  }

  /** The loop over the places; yy has the square of the new pulse added already. */
  method FindBest(X: array<real>, iy: array<int>, y: array<int>, xy: real, yy: int) returns (best: nat)
    requires X.Length >= 2 && iy.Length == y.Length == X.Length
    requires Placing(X[..], iy[..], xy, yy - 1) && forall j :: 0 <= j < y.Length ==> y[j] == 2 * iy[j]
    ensures best < iy.Length && forall j :: 0 <= j < iy.Length ==> NoBetter(X[..], iy[..], j, best)
  {
    best := 0;
    var bestNum, bestDen := Score(X, iy, y, xy, yy, 0);
    Decide(X[..], iy[..], best, bestNum, bestDen, best, bestNum, bestDen);
    var j := 1;
    // A do-while in the source; its first test holds here, since there are two samples at least.
    while j < X.Length
      invariant 1 <= j <= X.Length && best < j && bestDen > 0
      invariant Scored(X[..], iy[..], best, bestNum, bestDen)
      invariant forall i :: 0 <= i < j ==> NoBetter(X[..], iy[..], i, best)
    {
      var num, den := Score(X, iy, y, xy, yy, j);
      Decide(X[..], iy[..], j, num, den, best, bestNum, bestDen);
      ghost var was := best;
      if Exceeds(num, den, bestNum, bestDen) {
        bestDen, bestNum, best := den, num, j;
      }
      Compare(X[..], iy[..], was, j, best);
      j := j + 1;
    }
  }

  ghost predicate Scored(x: seq<real>, v: seq<int>, j: nat, num: real, den: int) {
    && j < |v| == |x| && num == Num(x, v, j) && den == Den(v, j)
  }

  method Score(X: array<real>, iy: array<int>, y: array<int>, xy: real, yy: int, j: nat) returns (num: real, den: int)
    requires j < X.Length && iy.Length == y.Length == X.Length
    requires Placing(X[..], iy[..], xy, yy - 1) && forall j :: 0 <= j < y.Length ==> y[j] == 2 * iy[j]
    ensures Scored(X[..], iy[..], j, num, den) && den > 0
  {
    AddedIs(X[..], iy[..], j);
    SquaresPositive(iy[..]);
    var Rxy := xy + X[j];
    den := yy + y[j];
    num := Rxy * Rxy;
  }

  lemma {:induction false} SquaresPositive(v: seq<int>)
    ensures Squares(v) >= 0
  {
  }

  /** The better of two places is at least as good as all that the first was as good as. */
  lemma Compare(x: seq<real>, v: seq<int>, was: nat, j: nat, best: nat)
    requires was < j < |v| == |x| && (forall i :: 0 <= i < |v| ==> v[i] >= 0)
    requires forall i :: 0 <= i < j ==> NoBetter(x, v, i, was)
    requires best == was || best == j
    requires if best == was then NoBetter(x, v, j, was) else NoBetter(x, v, was, j)
    requires NoBetter(x, v, j, j)
    ensures forall i :: 0 <= i <= j ==> NoBetter(x, v, i, best)
  {
    if best == j {
      forall i | 0 <= i < j ensures NoBetter(x, v, i, j) {
        Chain(x, v, i, was, j);
      }
    }
  }

  lemma Chain(x: seq<real>, v: seq<int>, i: nat, j: nat, k: nat)
    requires i < |v| && j < |v| && k < |v| == |x| && (forall i :: 0 <= i < |v| ==> v[i] >= 0)
    requires NoBetter(x, v, i, j) && NoBetter(x, v, j, k)
    ensures NoBetter(x, v, i, k)
  {
    AddedIs(x, v, i);
    AddedIs(x, v, j);
    AddedIs(x, v, k);
    CrossTransitive(Num(x, v, i), Den(v, i) as real, Num(x, v, j), Den(v, j) as real, Num(x, v, k), Den(v, k) as real);
  }

  // ----- The projection on the pyramid

  lemma {:induction false} SumSnoc(x: seq<real>, e: real)
    ensures Sum(x + [e]) == Sum(x) + e
  {
    if x == [] {
      assert x + [e] == [e];
    } else {
      assert (x + [e])[1..] == x[1..] + [e];
      SumSnoc(x[1..], e);
    }
  }

  function Times(a: real, b: real): real {
    a * b
  }

  /** The pulses that a sample gets. */
  function Share(rcp: real, e: real): int {
    Times(rcp, e).Floor
  }

  ghost predicate Projected(x: seq<real>, v: seq<int>, rcp: real) {
    |x| == |v| && forall j :: 0 <= j < |v| ==> x[j] >= 0.0 && v[j] == Share(rcp, x[j])
  }

  lemma {:induction false} ProjectedSum(x: seq<real>, v: seq<int>, rcp: real)
    requires Projected(x, v, rcp) && rcp >= 0.0
    ensures forall j :: 0 <= j < |v| ==> v[j] >= 0
    ensures Times(rcp, Sum(x)) - |x| as real <= Norm(v) as real <= Times(rcp, Sum(x))
  {
    if x != [] {
      ProjectedSum(x[1..], v[1..], rcp);
      ProjectedCons(rcp, x[0], Sum(x[1..]), v[0], Norm(v[1..]), |x| - 1);
    }
  }

  lemma ProjectedCons(rcp: real, e: real, sum: real, f: int, norm: int, n: int)
    requires rcp >= 0.0 && e >= 0.0 && f == Share(rcp, e)
    requires Times(rcp, sum) - n as real <= norm as real <= Times(rcp, sum)
    ensures f >= 0 && Times(rcp, e + sum) - (n + 1) as real <= (f + norm) as real <= Times(rcp, e + sum)
  {
    ShareSign(rcp, e);
    DistributeReal(rcp, e, sum);
  }

  lemma ShareSign(a: real, b: real)
    requires a >= 0.0 && b >= 0.0
    ensures Share(a, b) >= 0 && Share(a, b) as real <= Times(a, b) < Share(a, b) as real + 1.0
  {
  }

  lemma DistributeReal(a: real, b: real, c: real)
    ensures Times(a, b + c) == Times(a, b) + Times(a, c)
  {
  }

  /** The factor that the projection takes: a little more than k over the sum. */
  function Factor(k: nat, sum: real): real
    requires sum > 0.0
  {
    (k as real + 0.8) * (1.0 / sum)
  }

  lemma FactorTimesSum(k: nat, sum: real)
    requires sum > 0.0
    ensures Times(Factor(k, sum), sum) == k as real + 0.8 && Factor(k, sum) > 0.0
  {
    var r := 1.0 / sum;
    assert r * sum == 1.0 && r > 0.0;
    assert (k as real + 0.8) * r * sum == (k as real + 0.8) * (r * sum);
  }

  /** The projection places no more than k pulses, and leaves fewer than there are samples: never more than n + 3. */
  lemma ProjectionLeaves(x: seq<real>, v: seq<int>, k: nat)
    requires Sum(x) > 0.0 && Projected(x, v, Factor(k, Sum(x)))
    ensures Norm(v) <= k < Norm(v) + |x|
    ensures forall j :: 0 <= j < |v| ==> v[j] >= 0
  {
    FactorTimesSum(k, Sum(x));
    ProjectionLeavesOf(x, v, k, Factor(k, Sum(x)));
  }

  lemma ProjectionLeavesOf(x: seq<real>, v: seq<int>, k: nat, rcp: real)
    requires Projected(x, v, rcp) && rcp >= 0.0 && Times(rcp, Sum(x)) == k as real + 0.8
    ensures Norm(v) <= k < Norm(v) + |x|
    ensures forall j :: 0 <= j < |v| ==> v[j] >= 0
  {
    ProjectedSum(x, v, rcp);
  }

  // ----- The search

  function Absolute(x: seq<real>): (a: seq<real>)
    ensures |a| == |x| && forall j :: 0 <= j < |x| ==> a[j] == AbsReal(x[j])
  {
    seq(|x|, j requires 0 <= j < |x| => AbsReal(x[j]))
  }

  /** A single pulse in front. */
  function FrontPulse(n: nat): (x: seq<real>)
    ensures |x| == n
  {
    seq(n, j => if j == 0 then 1.0 else 0.0)
  }

  /** What the search aims at: the band without signs, unless it projects and the band is too small or too large. */
  function Aimed(a: seq<real>, k: nat): (x: seq<real>)
    ensures |x| == |a|
  {
    if k > |a| / 2 && !(EPSILON < Sum(a) < 64.0) then FrontPulse(|a|) else a
  }

  /** Where it begins: at the projection for many pulses, at none for few. */
  ghost predicate Begun(x: seq<real>, v: seq<int>, k: nat) {
    && |x| == |v|
    && if k > |v| / 2 then Sum(x) > 0.0 && Projected(x, v, Factor(k, Sum(x)))
       else forall j :: 0 <= j < |v| ==> v[j] == 0
  }

  /** The pulses after one more at each place of a path. */
  function Followed(v: seq<int>, path: seq<nat>): (w: seq<int>)
    requires forall i :: 0 <= i < |path| ==> path[i] < |v|
    ensures |w| == |v|
  {
    if path == [] then v else Added(Followed(v, path[..|path| - 1]), path[|path| - 1])
  }

  /** No place would have been better at any step. */
  ghost predicate Greedy(x: seq<real>, v: seq<int>, path: seq<nat>) {
    && |x| == |v| && (forall i :: 0 <= i < |path| ==> path[i] < |v|)
    && forall i: nat :: i < |path| ==> BestPlace(x, Followed(v, path[..i]), path[i])
  }

  ghost predicate BestPlace(x: seq<real>, v: seq<int>, best: nat)
    requires best < |v| == |x|
  {
    forall j :: 0 <= j < |v| ==> NoBetter(x, v, j, best)
  }

  lemma GreedyNext(x: seq<real>, v: seq<int>, path: seq<nat>, best: nat)
    requires Greedy(x, v, path) && best < |v| && BestPlace(x, Followed(v, path), best)
    ensures Greedy(x, v, path + [best]) && Followed(v, path + [best]) == Added(Followed(v, path), best)
  {
    var p := path + [best];
    assert p[..|p| - 1] == path;
    forall i: nat | i < |p| ensures BestPlace(x, Followed(v, p[..i]), p[i]) {
      if i < |path| {
        assert p[..i] == path[..i];
      } else {
        assert p[..i] == path;
      }
    }
  }

  /** v is found for the band a: from its beginning, by the best place at every step. */
  ghost predicate Found(a: seq<real>, k: nat, v: seq<int>, v0: seq<int>, path: seq<nat>) {
    Begun(Aimed(a, k), v0, k) && Greedy(Aimed(a, k), v0, path) && v == Followed(v0, path)
  }

  /** The beginning leaves too few pulses for the fallback. */
  lemma BegunLeaves(x: seq<real>, v: seq<int>, k: nat)
    requires Begun(x, v, k) && |v| >= 2
    ensures Norm(v) <= k <= Norm(v) + |v| + 3
  {
    if k > |v| / 2 {
      ProjectionLeaves(x, v, k);
    } else {
      Zeros(x, v);
    }
  }

  // ----- Silence

  lemma FrontSum(n: nat)
    requires n > 0
    ensures Sum(FrontPulse(n)) == 1.0
  {
    SumZeros(FrontPulse(n)[1..]);
  }

  lemma WholeShare(k: nat)
    ensures Share(Factor(k, 1.0), 1.0) == k && Share(Factor(k, 1.0), 0.0) == 0
  {
  }

  lemma {:induction false} NormZeros(v: seq<int>)
    requires forall j :: 0 <= j < |v| ==> v[j] == 0
    ensures Norm(v) == 0
  {
    if v != [] {
      NormZeros(v[1..]);
    }
  }

  /** A silent band, or one that is too large, has all its pulses in its first sample if it projects. */
  lemma SilenceInFront(a: seq<real>, k: nat, v: seq<int>, v0: seq<int>, path: seq<nat>)
    requires k > |a| / 2 && |a| >= 2 && !(EPSILON < Sum(a) < 64.0)
    requires Found(a, k, v, v0, path) && |path| == k - Norm(v0)
    ensures |v| == |a| && v[0] == k && forall j :: 0 < j < |v| ==> v[j] == 0
  {
    FrontSum(|a|);
    WholeShare(k);
    assert v0[0] == k && forall j :: 0 < j < |v0| ==> v0[j] == 0;
    NormZeros(v0[1..]);
  }

  // ----- The methods

  /** The source's constant 1e-15. */
  const EPSILON := 0.000000000000001

  method SumOf(X: array<real>) returns (sum: real)
    ensures sum == Sum(X[..])
  {
    sum := 0.0;
    for j := 0 to X.Length
      invariant sum == Sum(X[..j])
    {
      SumSnoc(X[..j], X[j]);
      assert X[..j + 1] == X[..j] + [X[j]];
      sum := sum + X[j];
    }
    assert X[..X.Length] == X[..];
  }

  lemma {:induction false} SumZeros(x: seq<real>)
    requires forall j :: 0 <= j < |x| ==> x[j] == 0.0
    ensures Sum(x) == 0.0
  {
    if x != [] {
      SumZeros(x[1..]);
    }
  }

  /** A sum that is too small or too large is replaced by that of a single pulse in front. */
  method Guard(X: array<real>, sum0: real) returns (sum: real)
    requires X.Length >= 2 && sum0 == Sum(X[..]) && forall j :: 0 <= j < X.Length ==> X[j] >= 0.0
    modifies X
    ensures sum == Sum(X[..]) && sum > 0.0 && forall j :: 0 <= j < X.Length ==> X[j] >= 0.0
    ensures X[..] == if EPSILON < sum0 < 64.0 then old(X[..]) else FrontPulse(X.Length)
  {
    sum := sum0;
    if !(sum > EPSILON && sum < 64.0) {
      X[0] := 1.0;
      for j := 1 to X.Length
        invariant X[0] == 1.0 && forall i :: 1 <= i < j ==> X[i] == 0.0
      {
        X[j] := 0.0;
      }
      sum := 1.0;
      SumZeros(X[..][1..]);
    }
  }

  /** The running sums of the pulses placed so far. */
  ghost predicate Running(x: seq<real>, v: seq<int>, xy: real, yy: int, placed: int) {
    |x| == |v| && placed == Norm(v) && xy == Dot(x, v) && yy == Squares(v)
  }

  /** The projection has come to sample j. */
  ghost predicate Projecting(x: seq<real>, v: seq<int>, y: seq<int>, rcp: real, j: nat) {
    && |x| == |v| == |y| && j <= |v|
    && (forall i :: 0 <= i < |v| ==> v[i] == (if i < j then Share(rcp, x[i]) else 0) && y[i] == 2 * v[i])
  }

  lemma RunningNext(x: seq<real>, v: seq<int>, j: nat, xy: real, yy: int, placed: int, e: int)
    requires Running(x, v, xy, yy, placed) && j < |v| && v[j] == 0 && e >= 0
    ensures Running(x, v[j := e], xy + x[j] * e as real, yy + e * e, placed + e)
  {
    NormUpdate(v, j, e);
    SquaresUpdate(v, j, e);
    DotUpdate(x, v, j, e);
    assert e - v[j] == e;
  }

  method ProjectEntry(X: array<real>, iy: array<int>, y: array<int>, rcp: real, j: nat, xy: real, yy: int, left: int,
                      ghost k: nat) returns (xy': real, yy': int, left': int)
    requires iy != y && j < X.Length && X[j] >= 0.0 && rcp >= 0.0
    requires Projecting(X[..], iy[..], y[..], rcp, j) && Running(X[..], iy[..], xy, yy, k - left)
    modifies iy, y
    ensures Projecting(X[..], iy[..], y[..], rcp, j + 1) && Running(X[..], iy[..], xy', yy', k - left')
  {
    var e := Share(rcp, X[j]);
    ShareSign(rcp, X[j]);
    RunningNext(X[..], iy[..], j, xy, yy, k - left, e);
    iy[j] := e;
    y[j] := e;
    yy', xy' := SumsWith(yy, xy, X[j], e);
    y[j] := y[j] * 2;
    left' := left - iy[j];
  }

  method SumsWith(yy: int, xy: real, x: real, e: int) returns (yy': int, xy': real)
    ensures yy' == yy + e * e && xy' == xy + x * e as real
  {
    yy' := yy + e * e;
    xy' := xy + x * e as real;
  }

  method Project(X: array<real>, iy: array<int>, y: array<int>, k: nat) returns (xy: real, yy: int, left: nat)
    requires X.Length >= 2 && iy != y && (forall j :: 0 <= j < X.Length ==> X[j] >= 0.0)
    requires Projecting(X[..], iy[..], y[..], 0.0, 0)
    modifies X, iy, y
    ensures Placing(X[..], iy[..], xy, yy) && Norm(iy[..]) + left == k
    ensures forall j :: 0 <= j < y.Length ==> y[j] == 2 * iy[j]
    ensures X[..] == if EPSILON < Sum(old(X[..])) < 64.0 then old(X[..]) else FrontPulse(X.Length)
    ensures Sum(X[..]) > 0.0 && Projected(X[..], iy[..], Factor(k, Sum(X[..])))
  {
    var sum := SumOf(X);
    sum := Guard(X, sum);
    var rcp := Factor(k, sum);
    FactorTimesSum(k, sum);
    Zeros(X[..], iy[..]);
    ghost var x := X[..];
    var l: int;
    xy, yy, l := 0.0, 0, k;
    for j := 0 to X.Length
      invariant forall j :: 0 <= j < X.Length ==> X[j] >= 0.0
      invariant X[..] == x && sum == Sum(x)
      invariant Projecting(X[..], iy[..], y[..], rcp, j) && Running(X[..], iy[..], xy, yy, k - l)
    {
      xy, yy, l := ProjectEntry(X, iy, y, rcp, j, xy, yy, l, k);
    }
    ProjectionLeaves(X[..], iy[..], k);
    left := l;
  }

  method StripSigns(X: array<real>, iy: array<int>, y: array<int>, signx: array<bool>)
    requires X.Length == iy.Length == y.Length == signx.Length && iy != y
    modifies X, iy, y, signx
    ensures forall j :: 0 <= j < X.Length ==> X[j] == AbsReal(old(X[j])) && signx[j] == (old(X[j]) < 0.0)
    ensures forall j :: 0 <= j < X.Length ==> iy[j] == 0 && y[j] == 0
  {
    for j := 0 to X.Length
      invariant forall i :: 0 <= i < j ==> X[i] == AbsReal(old(X[i])) && signx[i] == (old(X[i]) < 0.0)
      invariant forall i :: j <= i < X.Length ==> X[i] == old(X[i])
      invariant forall i :: 0 <= i < j ==> iy[i] == 0 && y[i] == 0
    {
      signx[j] := X[j] < 0.0;
      X[j] := AbsReal(X[j]);
      iy[j], y[j] := 0, 0;
    }
  }

  /** (x ^ -s) + s, for s zero or one: x or its negative. */
  method RestoreSigns(iy: array<int>, signx: array<bool>)
    requires iy.Length == signx.Length && forall j :: 0 <= j < iy.Length ==> iy[j] >= 0
    modifies iy
    ensures Norm(iy[..]) == old(Norm(iy[..])) && Squares(iy[..]) == old(Squares(iy[..]))
    ensures forall j :: 0 <= j < iy.Length ==> iy[j] == if signx[j] then -old(iy[j]) else old(iy[j])
  {
    for j := 0 to iy.Length
      invariant Norm(iy[..]) == old(Norm(iy[..])) && Squares(iy[..]) == old(Squares(iy[..]))
      invariant forall i :: 0 <= i < iy.Length ==> iy[i] == if i < j && signx[i] then -old(iy[i]) else old(iy[i])
    {
      var e := if signx[j] then -iy[j] else iy[j];
      NormUpdate(iy[..], j, e);
      SquaresUpdate(iy[..], j, e);
      iy[j] := e;
    }
  }

  /** All pulses that are left go to the first sample; the projection never leaves that many. */
  method Overflow(iy: array<int>, y: array<int>, yy: int, left: nat) returns (yy': int)
    requires iy.Length == y.Length > 0 && iy != y && yy == Squares(iy[..]) && y[0] == 2 * iy[0]
    requires forall j :: 0 <= j < iy.Length ==> iy[j] >= 0
    modifies iy
    ensures Norm(iy[..]) == old(Norm(iy[..])) + left && yy' == Squares(iy[..])
    ensures forall j :: 0 <= j < iy.Length ==> iy[j] >= 0
  {
    NormUpdate(iy[..], 0, iy[0] + left);
    SquaresUpdate(iy[..], 0, iy[0] + left);
    SquareOfSum(iy[0], left);
    yy' := yy + left * left;
    yy' := yy' + left * y[0];
    iy[0] := iy[0] + left;
  }

  lemma SquareOfSum(a: int, b: int)
    ensures (a + b) * (a + b) == a * a + b * b + b * (2 * a)
  {
  }

  /** The loop that places the pulses that are left. */
  method PlaceAll(X: array<real>, iy: array<int>, y: array<int>, xy0: real, yy0: int, left: nat)
    returns (yy: int, ghost path: seq<nat>)
    requires X.Length >= 2 && iy != y && iy.Length == y.Length == X.Length && Placing(X[..], iy[..], xy0, yy0)
    requires forall j :: 0 <= j < y.Length ==> y[j] == 2 * iy[j]
    modifies iy, y
    ensures Norm(iy[..]) == old(Norm(iy[..])) + left && yy == Squares(iy[..])
    ensures forall j :: 0 <= j < iy.Length ==> iy[j] >= 0
    ensures |path| == left && Greedy(X[..], old(iy[..]), path) && iy[..] == Followed(old(iy[..]), path)
  {
    var xy;
    xy, yy, path := xy0, yy0, [];
    ghost var v0 := iy[..];
    for i := 0 to left
      invariant Placing(X[..], iy[..], xy, yy) && Norm(iy[..]) == Norm(v0) + i
      invariant forall j :: 0 <= j < y.Length ==> y[j] == 2 * iy[j]
      invariant |path| == i && Greedy(X[..], v0, path) && iy[..] == Followed(v0, path)
    {
      ghost var v := iy[..];
      var best;
      xy, yy, best := PlacePulse(X, iy, y, xy, yy);
      AddedIs(X[..], v, best);
      GreedyNext(X[..], v0, path, best);
      path := path + [best];
    }
  }

  /** The search without signs; placed says that the fallback was not taken. */
  method Search(X: array<real>, iy: array<int>, y: array<int>, k: nat)
    returns (yy: int, ghost v0: seq<int>, ghost path: seq<nat>)
    requires X.Length >= 2 && iy != y && iy.Length == y.Length == X.Length
    requires forall j :: 0 <= j < X.Length ==> X[j] >= 0.0 && iy[j] == 0 && y[j] == 0
    modifies X, iy, y
    ensures Norm(iy[..]) == k && yy == Squares(iy[..]) && forall j :: 0 <= j < iy.Length ==> iy[j] >= 0
    ensures Begun(Aimed(old(X[..]), k), v0, k)
    ensures k <= Norm(v0) + X.Length + 3 ==> Found(old(X[..]), k, iy[..], v0, path) && |path| == k - Norm(v0)
  {
    Zeros(X[..], iy[..]);
    var xy, left := 0.0, k;
    yy, path := 0, [];
    if k > X.Length / 2 {
      xy, yy, left := Project(X, iy, y, k);
    }
    v0 := iy[..];
    assert X[..] == Aimed(old(X[..]), k);
    if left > X.Length + 3 {
      yy := Overflow(iy, y, yy, left);
    } else {
      yy, path := PlaceAll(X, iy, y, xy, yy, left);
    }
  }

  /**
   op_pvq_search_c, for a band of two samples at least: exactly k pulses, signed as the samples; the result is the sum
   of their squares. Without signs they are found from the projection of the band, or from none, by the best place for
   every pulse that is left.
   */
  method PvqSearch(X: array<real>, iy: array<int>, k: nat)
    returns (yy: int, ghost v: seq<int>, ghost v0: seq<int>, ghost path: seq<nat>)
    requires iy.Length == X.Length >= 2
    modifies X, iy
    ensures Norm(iy[..]) == k && yy == Squares(iy[..])
    ensures |v| == X.Length && forall j :: 0 <= j < X.Length ==>
      v[j] >= 0 && iy[j] == if old(X[j]) < 0.0 then -v[j] else v[j]
    ensures Found(Absolute(old(X[..])), k, v, v0, path) && |path| == k - Norm(v0)
  {
    var y, signx := new int[X.Length], new bool[X.Length];
    ghost var a := Absolute(X[..]);
    StripSigns(X, iy, y, signx);
    assert X[..] == a;
    yy, v0, path := Search(X, iy, y, k);
    BegunLeaves(Aimed(a, k), v0, k);
    v := iy[..];
    RestoreSigns(iy, signx);
  }
}
