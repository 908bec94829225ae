/**
 The Haar steps of bands.c in exact arithmetic, with 2 * h * h = 1: each undoes itself, and steps of different
 strides commute, so that a recombination may be undone in the order in which it was done.
 */
module Hadamard {

  type Vec = seq<real>

  /** A binary operation on samples, and on vectors sample by sample. */
  type Op = (real, real) -> real

  function Comb(x: Vec, y: Vec, f: Op): (z: Vec)
    requires |x| == |y|
    ensures |z| == |x| && forall i :: 0 <= i < |x| ==> z[i] == f(x[i], y[i])
  {
    seq(|x|, i requires 0 <= i < |x| => f(x[i], y[i]))
  }

  /** The scaled sum and difference of two samples. */
  function Sum(h: real): Op {
    (a: real, b: real) => h * a + h * b
  }

  function Diff(h: real): Op {
    (a: real, b: real) => h * a - h * b
  }

  /** Taking sum and difference of sum and difference gives the samples back. */
  ghost predicate Undone(s: Op, d: Op) {
    forall a: real, b: real {:trigger s(a, b)} {:trigger d(a, b)} ::
      s(s(a, b), d(a, b)) == a && d(s(a, b), d(a, b)) == b
  }

  /** The operations may be applied to the rows of a square and then its columns, or the other way round. */
  ghost predicate Medial(f: Op, g: Op) {
    forall a: real, b: real, c: real, d: real {:trigger f(g(a, b), g(c, d))} {:trigger g(f(a, c), f(b, d))} ::
      f(g(a, b), g(c, d)) == g(f(a, c), f(b, d))
  }

  lemma SumDiffUndone(h: real)
    requires 2.0 * h * h == 1.0
    ensures Undone(Sum(h), Diff(h))
  {
    var s, d := Sum(h), Diff(h);
    forall a: real, b: real ensures s(s(a, b), d(a, b)) == a && d(s(a, b), d(a, b)) == b {
      var p, q := h * a + h * b, h * a - h * b;
      assert s(a, b) == p && d(a, b) == q;
      HalfSquares(h, a, b, p, q);
    }
  }

  lemma HalfSquares(h: real, a: real, b: real, p: real, q: real)
    requires 2.0 * h * h == 1.0 && p == h * a + h * b && q == h * a - h * b
    ensures h * p + h * q == a && h * p - h * q == b
  {
    assert h * p == h * h * a + h * h * b && h * q == h * h * a - h * h * b;
    assert 2.0 * h * h * a == h * h * a + h * h * a && 2.0 * h * h * b == h * h * b + h * h * b;
  }

  /** Any two of the operations are medial: they are linear. */
  lemma LinearMedial(f: Op, g: Op, h: real)
    requires (f == Sum(h) || f == Diff(h)) && (g == Sum(h) || g == Diff(h))
    ensures Medial(f, g)
  {
    forall a: real, b: real, c: real, d: real ensures f(g(a, b), g(c, d)) == g(f(a, c), f(b, d)) {
      var u, v := if f == Sum(h) then 1.0 else -1.0, if g == Sum(h) then 1.0 else -1.0;
      Spread(f, h, u, a, c);
      Spread(f, h, u, b, d);
      Spread(f, h, u, g(a, b), g(c, d));
      Spread(g, h, v, a, b);
      Spread(g, h, v, c, d);
      Spread(g, h, v, f(a, c), f(b, d));
      assert h * (h * a + v * (h * b)) == h * h * a + v * (h * h * b);
      assert h * (h * c + v * (h * d)) == h * h * c + v * (h * h * d);
      assert h * (h * a + u * (h * c)) == h * h * a + u * (h * h * c);
      assert h * (h * b + u * (h * d)) == h * h * b + u * (h * h * d);
    }
  }

  lemma Spread(f: Op, h: real, u: real, a: real, b: real)
    requires (f == Sum(h) && u == 1.0) || (f == Diff(h) && u == -1.0)
    ensures f(a, b) == h * a + u * (h * b)
  {
  }

  // ----- haar1

  /** Sums of the two halves of a pair of blocks, and their differences. */
  function Butterfly(x: Vec, n: nat, s: Op, d: Op): (y: Vec)
    requires |x| == 2 * n
    ensures |y| == |x|
  {
    Comb(x[..n], x[n..], s) + Comb(x[..n], x[n..], d)
  }

  /** haar1 on the first m pairs of blocks of n samples. */
  function Haar(x: Vec, m: nat, n: nat, s: Op, d: Op): (y: Vec)
    ensures |y| == |x|
    decreases m
  {
    if m == 0 || |x| < 2 * n then x else Butterfly(x[..2 * n], n, s, d) + Haar(x[2 * n..], m - 1, n, s, d)
  }

  /** The first pair of blocks, and the rest. */
  lemma HaarFirst(u: Vec, r: Vec, m: nat, n: nat, s: Op, d: Op)
    requires |u| == 2 * n && m > 0
    ensures Haar(u + r, m, n, s, d) == Butterfly(u, n, s, d) + Haar(r, m - 1, n, s, d)
  {
    assert (u + r)[..2 * n] == u && (u + r)[2 * n..] == r;
  }

  lemma Cut(x: Vec, k: nat) returns (u: Vec, r: Vec)
    requires k <= |x|
    ensures x == u + r && |u| == k
  {
    u, r := x[..k], x[k..];
  }

  lemma ButterflyTwice(x: Vec, n: nat, s: Op, d: Op)
    requires |x| == 2 * n && Undone(s, d)
    ensures Butterfly(Butterfly(x, n, s, d), n, s, d) == x
  {
    var p, q := x[..n], x[n..];
    var a, b := Comb(p, q, s), Comb(p, q, d);
    var y := a + b;
    assert y[..n] == a && y[n..] == b;
    CombUndone(p, q, s, d);
    assert p + q == x;
  }

  lemma CombUndone(p: Vec, q: Vec, s: Op, d: Op)
    requires |p| == |q| && Undone(s, d)
    ensures Comb(Comb(p, q, s), Comb(p, q, d), s) == p && Comb(Comb(p, q, s), Comb(p, q, d), d) == q
  {
    forall i | 0 <= i < |p|
      ensures Comb(Comb(p, q, s), Comb(p, q, d), s)[i] == p[i] && Comb(Comb(p, q, s), Comb(p, q, d), d)[i] == q[i]
    {
      var a, b := p[i], q[i];
      assert s(s(a, b), d(a, b)) == a;
    }
  }

  /** A step undoes itself. */
  lemma {:induction false} HaarTwice(x: Vec, m: nat, n: nat, s: Op, d: Op)
    requires Undone(s, d)
    ensures Haar(Haar(x, m, n, s, d), m, n, s, d) == x
    decreases m
  {
    if m > 0 && |x| >= 2 * n {
      var u, r := Cut(x, 2 * n);
      HaarTwice(r, m - 1, n, s, d);
      HaarTwiceFirst(u, r, m, n, s, d);
    }
  }

  lemma HaarTwiceFirst(u: Vec, r: Vec, m: nat, n: nat, s: Op, d: Op)
    requires |u| == 2 * n && m > 0 && Undone(s, d) && Haar(Haar(r, m - 1, n, s, d), m - 1, n, s, d) == r
    ensures Haar(Haar(u + r, m, n, s, d), m, n, s, d) == u + r
  {
    var u', r' := Butterfly(u, n, s, d), Haar(r, m - 1, n, s, d);
    HaarFirst(u, r, m, n, s, d);
    HaarFirst(u', r', m, n, s, d);
    ButterflyTwice(u, n, s, d);
  }

  // ----- Steps of different strides commute

  lemma CombMedial(p: Vec, q: Vec, r: Vec, t: Vec, f: Op, g: Op)
    requires |p| == |q| == |r| == |t| && Medial(f, g)
    ensures Comb(Comb(p, q, g), Comb(r, t, g), f) == Comb(Comb(p, r, f), Comb(q, t, f), g)
  {
    forall i | 0 <= i < |p|
      ensures Comb(Comb(p, q, g), Comb(r, t, g), f)[i] == Comb(Comb(p, r, f), Comb(q, t, f), g)[i]
    {
      var a, b, c, e := p[i], q[i], r[i], t[i];
      assert f(g(a, b), g(c, e)) == g(f(a, c), f(b, e));
    }
  }

  lemma CombSplit(x: Vec, y: Vec, k: nat, f: Op)
    requires |x| == |y| >= k
    ensures Comb(x, y, f)[..k] == Comb(x[..k], y[..k], f) && Comb(x, y, f)[k..] == Comb(x[k..], y[k..], f)
  {
  }

  lemma CombJoin(p: Vec, q: Vec, r: Vec, t: Vec, f: Op)
    requires |p| == |q| && |r| == |t|
    ensures Comb(p + r, q + t, f) == Comb(p, q, f) + Comb(r, t, f)
  {
  }

  lemma ButterflyLinear(x: Vec, y: Vec, n: nat, s: Op, d: Op, g: Op)
    requires |x| == |y| == 2 * n && Medial(s, g) && Medial(d, g)
    ensures Butterfly(Comb(x, y, g), n, s, d) == Comb(Butterfly(x, n, s, d), Butterfly(y, n, s, d), g)
  {
    CombSplit(x, y, n, g);
    CombMedial(x[..n], y[..n], x[n..], y[n..], s, g);
    CombMedial(x[..n], y[..n], x[n..], y[n..], d, g);
    CombJoin(Comb(x[..n], x[n..], s), Comb(y[..n], y[n..], s), Comb(x[..n], x[n..], d), Comb(y[..n], y[n..], d), g);
  }

  lemma {:induction false} HaarLinear(x: Vec, y: Vec, m: nat, n: nat, s: Op, d: Op, g: Op)
    requires |x| == |y| && Medial(s, g) && Medial(d, g)
    ensures Haar(Comb(x, y, g), m, n, s, d) == Comb(Haar(x, m, n, s, d), Haar(y, m, n, s, d), g)
    decreases m
  {
    if m > 0 && |x| >= 2 * n {
      var k := 2 * n;
      CombSplit(x, y, k, g);
      ButterflyLinear(x[..k], y[..k], n, s, d, g);
      HaarLinear(x[k..], y[k..], m - 1, n, s, d, g);
      CombJoin(Butterfly(x[..k], n, s, d), Butterfly(y[..k], n, s, d),
               Haar(x[k..], m - 1, n, s, d), Haar(y[k..], m - 1, n, s, d), g);
    }
  }

  /** The length of m pairs of blocks. */
  function Blocks(m: nat, n: nat): nat {
    if m == 0 then 0 else 2 * n + Blocks(m - 1, n)
  }

  lemma {:induction false} BlocksSum(c: nat, e: nat, n: nat)
    ensures Blocks(c + e, n) == Blocks(c, n) + Blocks(e, n)
  {
    if c > 0 {
      BlocksSum(c - 1, e, n);
      assert c + e - 1 == c - 1 + e;
    }
  }

  /** Blocks in front do not matter to the blocks behind. */
  lemma {:induction false} HaarAppend(x: Vec, y: Vec, m: nat, k: nat, n: nat, s: Op, d: Op)
    requires |x| == Blocks(m, n)
    ensures Haar(x + y, m + k, n, s, d) == Haar(x, m, n, s, d) + Haar(y, k, n, s, d)
    decreases m
  {
    if m == 0 {
      assert x + y == y;
    } else {
      var u, r := Cut(x, 2 * n);
      Assoc(u, r, y);
      HaarFirst(u, r, m, n, s, d);
      HaarFirst(u, r + y, m + k, n, s, d);
      HaarAppend(r, y, m - 1, k, n, s, d);
      assert m + k - 1 == m - 1 + k;
      Assoc(Butterfly(u, n, s, d), Haar(r, m - 1, n, s, d), Haar(y, k, n, s, d));
    }
  }

  lemma Assoc(x: Vec, y: Vec, z: Vec)
    ensures x + (y + z) == x + y + z
  {
  }

  /** A butterfly of wide blocks, each made of c pairs of narrow ones, commutes with the narrow step. */
  lemma ButterflyCommutes(x: Vec, c: nat, a: nat, b: nat, s: Op, d: Op)
    requires b == Blocks(c, a) && |x| == 2 * b && Medial(s, s) && Medial(s, d) && Medial(d, s) && Medial(d, d)
    ensures Butterfly(Haar(x, c + c, a, s, d), b, s, d) == Haar(Butterfly(x, b, s, d), c + c, a, s, d)
  {
    var p, q := x[..b], x[b..];
    assert x == p + q;
    HaarAppend(p, q, c, c, a, s, d);
    var y := Haar(x, c + c, a, s, d);
    assert y[..b] == Haar(p, c, a, s, d) && y[b..] == Haar(q, c, a, s, d);
    HaarLinear(p, q, c, a, s, d, s);
    HaarLinear(p, q, c, a, s, d, d);
    HaarAppend(Comb(p, q, s), Comb(p, q, d), c, c, a, s, d);
  }

  /** haar1 itself: the scaled sums and differences. */
  function Step(x: Vec, m: nat, n: nat, h: real): (y: Vec)
    ensures |y| == |x|
  {
    Haar(x, m, n, Sum(h), Diff(h))
  }

  /** One pair of wide blocks in front: what either order does to it, v, and to the rest, t. */
  lemma NarrowThenWide(u: Vec, r: Vec, k: nat, m: nat, n: nat, a: nat, b: nat, h: real, v: Vec, t: Vec)
    requires n > 0 && |u| == 2 * b == Blocks(k, a)
    requires v == Butterfly(Step(u, k, a, h), b, Sum(h), Diff(h)) && t == Step(Step(r, m, a, h), n - 1, b, h)
    ensures Step(Step(u + r, k + m, a, h), n, b, h) == v + t
  {
    HaarAppend(u, r, k, m, a, Sum(h), Diff(h));
    HaarFirst(Step(u, k, a, h), Step(r, m, a, h), n, b, Sum(h), Diff(h));
  }

  lemma WideThenNarrow(u: Vec, r: Vec, k: nat, m: nat, n: nat, a: nat, b: nat, h: real, v: Vec, t: Vec)
    requires n > 0 && |u| == 2 * b == Blocks(k, a)
    requires v == Step(Butterfly(u, b, Sum(h), Diff(h)), k, a, h) && t == Step(Step(r, n - 1, b, h), m, a, h)
    ensures Step(Step(u + r, n, b, h), k + m, a, h) == v + t
  {
    HaarFirst(u, r, n, b, Sum(h), Diff(h));
    HaarAppend(Butterfly(u, b, Sum(h), Diff(h)), Step(r, n - 1, b, h), k, m, a, Sum(h), Diff(h));
  }

  /** The wide step, of n pairs of blocks, may cover less than the narrow step, of m, but not more. */
  lemma {:induction false} StepCommutes(x: Vec, m: nat, n: nat, c: nat, a: nat, b: nat, h: real)
    requires b == Blocks(c, a) && Pairs(n, c) <= m && Blocks(m, a) <= |x|
    ensures Step(Step(x, m, a, h), n, b, h) == Step(Step(x, n, b, h), m, a, h)
    decreases n
  {
    if n == 0 {
      NoBlocks(x, b, h);
      NoBlocks(Step(x, m, a, h), b, h);
    } else {
      var k, rest := c + c, m - (c + c);
      FirstFits(m, n, c, a, b, |x|, k, rest);
      var u, r := Cut(x, 2 * b);
      StepCommutes(r, rest, n - 1, c, a, b, h);
      CommutesWith(u, r, k, rest, n, c, a, b, h);
    }
  }

  lemma FirstFits(m: nat, n: nat, c: nat, a: nat, b: nat, len: nat, k: nat, rest: int)
    requires n > 0 && b == Blocks(c, a) && Pairs(n, c) <= m && Blocks(m, a) <= len && k == c + c && rest == m - k
    ensures rest >= 0 && 2 * b == Blocks(k, a) <= len
    ensures Pairs(n - 1, c) <= rest && Blocks(rest, a) <= len - 2 * b
  {
    BlocksSum(c, c, a);
    BlocksSum(k, rest, a);
  }

  lemma NoBlocks(x: Vec, n: nat, h: real)
    ensures Step(x, 0, n, h) == x
  {
  }

  lemma CommutesWith(u: Vec, r: Vec, k: nat, m: nat, n: nat, c: nat, a: nat, b: nat, h: real)
    requires n > 0 && k == c + c && b == Blocks(c, a) && |u| == 2 * b == Blocks(k, a)
    requires Step(Step(r, m, a, h), n - 1, b, h) == Step(Step(r, n - 1, b, h), m, a, h)
    ensures Step(Step(u + r, k + m, a, h), n, b, h) == Step(Step(u + r, n, b, h), k + m, a, h)
  {
    LinearCommutes(u, c, a, b, h);
    var v, t := Step(Butterfly(u, b, Sum(h), Diff(h)), k, a, h), Step(Step(r, m, a, h), n - 1, b, h);
    NarrowThenWide(u, r, k, m, n, a, b, h, v, t);
    WideThenNarrow(u, r, k, m, n, a, b, h, v, t);
  }

  lemma LinearCommutes(u: Vec, c: nat, a: nat, b: nat, h: real)
    requires b == Blocks(c, a) && |u| == 2 * b
    ensures Butterfly(Step(u, c + c, a, h), b, Sum(h), Diff(h)) == Step(Butterfly(u, b, Sum(h), Diff(h)), c + c, a, h)
  {
    var s, d := Sum(h), Diff(h);
    LinearMedial(s, s, h);
    LinearMedial(s, d, h);
    LinearMedial(d, s, h);
    LinearMedial(d, d, h);
    ButterflyCommutes(u, c, a, b, s, d);
  }

  /** How many narrow pairs n pairs of wide blocks are made of, each wide block of c. */
  function Pairs(n: nat, c: nat): nat {
    if n == 0 then 0 else c + c + Pairs(n - 1, c)
  }
}
