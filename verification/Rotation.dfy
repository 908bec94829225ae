/** The spreading rotation of vq.c (RFC 6716, section 4.3.4.3), in exact arithmetic. */
module Rotation {
  import opened Arith

  /** A map of the plane. */
  type Plane = (real, real) -> (real, real)

  /** The rotation with cosine c and sine s. */
  function Turn(c: real, s: real): Plane {
    (a: real, b: real) => (c * a - s * b, c * b + s * a)
  }

  ghost predicate Undoes(u: Plane, t: Plane) {
    forall a: real, b: real {:trigger t(a, b)} :: u(t(a, b).0, t(a, b).1).0 == a && u(t(a, b).0, t(a, b).1).1 == b
  }

  function Sq(x: real): real {
    x * x
  }

  /** The map keeps the sum of a quantity over the two coordinates; of their squares, if it keeps lengths. */
  ghost predicate Keeps(t: Plane, f: real -> real) {
    forall a: real, b: real {:trigger t(a, b)} :: f(t(a, b).0) + f(t(a, b).1) == f(a) + f(b)
  }

  function Square(): real -> real {
    (v: real) => Sq(v)
  }

  /** Turning by the opposite angle turns back. */
  lemma TurnUndoes(c: real, s: real, r: real)
    requires Unit(c, s) && r == -s
    ensures Undoes(Turn(c, r), Turn(c, s))
  {
    var t, u := Turn(c, s), Turn(c, r);
    forall a: real, b: real ensures u(t(a, b).0, t(a, b).1).0 == a && u(t(a, b).0, t(a, b).1).1 == b {
      var p, q := t(a, b).0, t(a, b).1;
      TurnBack(c, s, a, b, p, q);
      Opposite(s, r, q);
      Opposite(s, r, p);
      assert u(p, q).0 == c * p - r * q;
      assert u(p, q).1 == c * q + r * p;
    }
  }

  lemma Opposite(s: real, r: real, x: real)
    requires r == -s
    ensures r * x == -(s * x)
  {
  }

  /** A point of the unit circle: the cosine and the sine of an angle. */
  predicate Unit(c: real, s: real) {
    c * c + s * s == 1.0
  }

  lemma UnitSymmetric(c: real, s: real)
    requires Unit(c, s)
    ensures Unit(c, -s) && Unit(s, c) && Unit(s, -c)
  {
    assert -s * -s == s * s && -c * -c == c * c;
  }

  lemma TurnBack(c: real, s: real, a: real, b: real, p: real, q: real)
    requires Unit(c, s) && p == c * a - s * b && q == c * b + s * a
    ensures c * p + s * q == a && c * q - s * p == b
  {
    assert c * p == c * c * a - c * s * b && s * q == c * s * b + s * s * a;
    assert c * q == c * c * b + c * s * a && s * p == c * s * a - s * s * b;
    assert c * c * a + s * s * a == (c * c + s * s) * a;
    assert c * c * b + s * s * b == (c * c + s * s) * b;
  }

  lemma TurnKeeps(c: real, s: real)
    requires Unit(c, s)
    ensures Keeps(Turn(c, s), Square())
  {
    var t, f := Turn(c, s), Square();
    forall a: real, b: real ensures f(t(a, b).0) + f(t(a, b).1) == f(a) + f(b) {
      var p, q := t(a, b).0, t(a, b).1;
      TurnLength(c, s, a, b, p, q);
    }
  }

  lemma TurnLength(c: real, s: real, a: real, b: real, p: real, q: real)
    requires Unit(c, s) && p == c * a - s * b && q == c * b + s * a
    ensures Sq(p) + Sq(q) == Sq(a) + Sq(b)
  {
    TurnBack(c, s, a, b, p, q);
    assert a * (c * p + s * q) + b * (c * q - s * p) == p * (c * a - s * b) + q * (c * b + s * a) by {
      assert a * (c * p + s * q) == c * (a * p) + s * (a * q);
      assert b * (c * q - s * p) == c * (b * q) - s * (b * p);
      assert p * (c * a - s * b) == c * (a * p) - s * (b * p);
      assert q * (c * b + s * a) == c * (b * q) + s * (a * q);
    }
  }

  /** One plane rotation, of elements i and i + stride. */
  function Rot(x: seq<real>, i: nat, stride: nat, t: Plane): (y: seq<real>)
    requires stride > 0 && i + stride < |x|
    ensures |y| == |x|
  {
    var (a, b) := (x[i], x[i + stride]);
    var p := t(a, b);
    x[i + stride := p.1][i := p.0]
  }

  /** Rotations at a, a + 1, ..., b - 1. */
  function Up(x: seq<real>, a: nat, b: nat, stride: nat, t: Plane): (y: seq<real>)
    requires stride > 0 && a <= b && (a < b ==> b - 1 + stride < |x|)
    ensures |y| == |x|
    decreases b - a
  {
    if a == b then x else Rot(Up(x, a, b - 1, stride, t), b - 1, stride, t)
  }

  /** Rotations at b - 1, b - 2, ..., a. */
  function Down(x: seq<real>, a: nat, b: nat, stride: nat, t: Plane): (y: seq<real>)
    requires stride > 0 && a <= b && (a < b ==> b - 1 + stride < |x|)
    ensures |y| == |x|
    decreases b - a
  {
    if a == b then x else Rot(Down(x, a + 1, b, stride, t), a, stride, t)
  }

  /** How many rotations a pass has, and how many the way back has. */
  function Forth(n: nat, stride: nat): nat {
    if n > stride then n - stride else 0
  }

  function Back(n: nat, stride: nat): (b: nat)
    ensures b <= Forth(n, stride) <= b + stride
  {
    if n > 2 * stride then n - 2 * stride else 0
  }

  /** exp_rotation1: up through the vector and back down. */
  function Pass(x: seq<real>, stride: nat, t: Plane): (y: seq<real>)
    requires stride > 0
    ensures |y| == |x|
  {
    Down(Up(x, 0, Forth(|x|, stride), stride, t), 0, Back(|x|, stride), stride, t)
  }

  // ----- A rotation undone

  lemma RotUndone(x: seq<real>, i: nat, stride: nat, t: Plane, u: Plane)
    requires stride > 0 && i + stride < |x| && Undoes(u, t)
    ensures Rot(Rot(x, i, stride, t), i, stride, u) == x
  {
    var a, b := x[i], x[i + stride];
    assert u(t(a, b).0, t(a, b).1).0 == a;
    var y := Rot(x, i, stride, t);
    var z := Rot(y, i, stride, u);
    assert z[i] == x[i] && z[i + stride] == x[i + stride];
  }

  lemma {:induction false} UpFirst(x: seq<real>, a: nat, b: nat, stride: nat, t: Plane)
    requires stride > 0 && a < b && b - 1 + stride < |x|
    ensures Up(x, a, b, stride, t) == Up(Rot(x, a, stride, t), a + 1, b, stride, t)
    decreases b - a
  {
    if a + 1 < b {
      UpFirst(x, a, b - 1, stride, t);
    } else {
      assert Up(x, a, b - 1, stride, t) == x;
    }
  }

  /** Down with the opposite angle undoes up. */
  lemma {:induction false} UpUndone(x: seq<real>, a: nat, b: nat, stride: nat, t: Plane, u: Plane)
    requires stride > 0 && a <= b && (a < b ==> b - 1 + stride < |x|) && Undoes(u, t)
    ensures Down(Up(x, a, b, stride, t), a, b, stride, u) == x
    decreases b - a
  {
    if a < b {
      UpFirst(x, a, b, stride, t);
      UpUndone(Rot(x, a, stride, t), a + 1, b, stride, t, u);
      RotUndone(x, a, stride, t, u);
    }
  }

  /** Up with the opposite angle undoes down. */
  lemma {:induction false} DownUndone(x: seq<real>, a: nat, b: nat, stride: nat, t: Plane, u: Plane)
    requires stride > 0 && a <= b && (a < b ==> b - 1 + stride < |x|) && Undoes(u, t)
    ensures Up(Down(x, a, b, stride, t), a, b, stride, u) == x
    decreases b - a
  {
    if a < b {
      var y := Down(x, a + 1, b, stride, t);
      UpFirst(Rot(y, a, stride, t), a, b, stride, u);
      RotUndone(y, a, stride, t, u);
      DownUndone(x, a + 1, b, stride, t, u);
    }
  }

  // ----- The turning point: rotations of disjoint pairs commute

  /** What rotating a stretch of at most stride disjoint pairs makes of element k. */
  function Turned(x: seq<real>, a: nat, b: nat, stride: nat, t: Plane, k: nat): real
    requires a <= b <= a + stride && (a < b ==> b - 1 + stride < |x|) && k < |x|
  {
    if a <= k < b then t(x[k], x[k + stride]).0
    else if a + stride <= k < b + stride then t(x[k - stride], x[k]).1
    else x[k]
  }

  lemma {:induction false} UpTurns(x: seq<real>, a: nat, b: nat, stride: nat, t: Plane)
    requires stride > 0 && a <= b <= a + stride && (a < b ==> b - 1 + stride < |x|)
    ensures forall k: nat :: k < |x| ==> Up(x, a, b, stride, t)[k] == Turned(x, a, b, stride, t, k)
    decreases b - a
  {
    if a < b {
      UpTurns(x, a, b - 1, stride, t);
    }
  }

  lemma {:induction false} DownTurns(x: seq<real>, a: nat, b: nat, stride: nat, t: Plane)
    requires stride > 0 && a <= b <= a + stride && (a < b ==> b - 1 + stride < |x|)
    ensures forall k: nat :: k < |x| ==> Down(x, a, b, stride, t)[k] == Turned(x, a, b, stride, t, k)
    decreases b - a
  {
    if a < b {
      DownTurns(x, a + 1, b, stride, t);
    }
  }

  /** So the turning point, unlike the rest, is undone going the same way. */
  lemma TurnUndone(x: seq<real>, a: nat, b: nat, stride: nat, t: Plane, u: Plane)
    requires stride > 0 && a <= b <= a + stride && (a < b ==> b - 1 + stride < |x|) && Undoes(u, t)
    ensures Up(Up(x, a, b, stride, t), a, b, stride, u) == x
  {
    var y := Up(x, a, b, stride, t);
    UpUndone(x, a, b, stride, t, u);
    UpTurns(y, a, b, stride, u);
    DownTurns(y, a, b, stride, u);
    assert Up(y, a, b, stride, u) == Down(y, a, b, stride, u);
  }

  lemma {:induction false} UpSplit(x: seq<real>, a: nat, m: nat, b: nat, stride: nat, t: Plane)
    requires stride > 0 && a <= m <= b && (a < b ==> b - 1 + stride < |x|)
    ensures Up(x, a, b, stride, t) == Up(Up(x, a, m, stride, t), m, b, stride, t)
    decreases b - m
  {
    if m < b {
      UpSplit(x, a, m, b - 1, stride, t);
    }
  }

  /** A pass with the opposite angle undoes a pass, for every length and stride. */
  lemma PassUndone(x: seq<real>, stride: nat, t: Plane, u: Plane)
    requires stride > 0 && Undoes(u, t)
    ensures Pass(Pass(x, stride, t), stride, u) == x
  {
    var m, k := Forth(|x|, stride), Back(|x|, stride);
    var y := Up(x, 0, k, stride, t);
    var v := Up(y, k, m, stride, t);
    var w := Down(v, 0, k, stride, t);
    UpSplit(x, 0, k, m, stride, t);
    UpSplit(w, 0, k, m, stride, u);
    DownUndone(v, 0, k, stride, t, u);
    TurnUndone(y, k, m, stride, t, u);
    UpUndone(x, 0, k, stride, t, u);
  }

  // ----- Energy

  function Total(f: real -> real, x: seq<real>): real {
    if x == [] then 0.0 else Total(f, x[..|x| - 1]) + f(x[|x| - 1])
  }

  /** The sum of squares. */
  function Energy(x: seq<real>): real {
    Total(Square(), x)
  }

  lemma {:induction false} TotalUpdate(f: real -> real, x: seq<real>, i: nat, v: real)
    requires i < |x|
    ensures Total(f, x[i := v]) == Total(f, x) - f(x[i]) + f(v)
    decreases |x|
  {
    var n := |x| - 1;
    if i < n {
      TotalUpdate(f, x[..n], i, v);
      assert x[i := v][..n] == x[..n][i := v];
    } else {
      assert x[i := v][..n] == x[..n];
    }
  }

  lemma TwoUpdates(f: real -> real, x: seq<real>, y: seq<real>, i: nat, j: nat, v: real, w: real)
    requires i < j < |x| && f(v) + f(w) == f(x[i]) + f(x[j]) && y == x[j := w][i := v]
    ensures Total(f, y) == Total(f, x)
  {
    TotalUpdate(f, x, j, w);
    TotalUpdate(f, x[j := w], i, v);
  }

  lemma KeepsAt(f: real -> real, t: Plane, a: real, b: real)
    requires Keeps(t, f)
    ensures f(t(a, b).0) + f(t(a, b).1) == f(a) + f(b)
  {
  }

  lemma RotTotalAt(f: real -> real, x: seq<real>, i: nat, stride: nat, t: Plane, p: (real, real))
    requires stride > 0 && i + stride < |x| && p == t(x[i], x[i + stride])
    requires f(p.0) + f(p.1) == f(x[i]) + f(x[i + stride])
    ensures Total(f, Rot(x, i, stride, t)) == Total(f, x)
  {
    TwoUpdates(f, x, Rot(x, i, stride, t), i, i + stride, p.0, p.1);
  }

  lemma RotTotal(f: real -> real, x: seq<real>, i: nat, stride: nat, t: Plane)
    requires stride > 0 && i + stride < |x| && Keeps(t, f)
    ensures Total(f, Rot(x, i, stride, t)) == Total(f, x)
  {
    KeepsAt(f, t, x[i], x[i + stride]);
    RotTotalAt(f, x, i, stride, t, t(x[i], x[i + stride]));
  }

  lemma {:induction false} UpTotal(f: real -> real, x: seq<real>, a: nat, b: nat, stride: nat, t: Plane)
    requires stride > 0 && a <= b && (a < b ==> b - 1 + stride < |x|) && Keeps(t, f)
    ensures Total(f, Up(x, a, b, stride, t)) == Total(f, x)
    decreases b - a
  {
    if a < b {
      var y := Up(x, a, b - 1, stride, t);
      UpTotal(f, x, a, b - 1, stride, t);
      RotTotal(f, y, b - 1, stride, t);
    }
  }

  lemma {:induction false} DownTotal(f: real -> real, x: seq<real>, a: nat, b: nat, stride: nat, t: Plane)
    requires stride > 0 && a <= b && (a < b ==> b - 1 + stride < |x|) && Keeps(t, f)
    ensures Total(f, Down(x, a, b, stride, t)) == Total(f, x)
    decreases b - a
  {
    if a < b {
      DownTotal(f, x, a + 1, b, stride, t);
      RotTotal(f, Down(x, a + 1, b, stride, t), a, stride, t);
    }
  }

  lemma PassTotal(f: real -> real, x: seq<real>, stride: nat, t: Plane)
    requires stride > 0 && Keeps(t, f)
    ensures Total(f, Pass(x, stride, t)) == Total(f, x)
  {
    var m, k := Forth(|x|, stride), Back(|x|, stride);
    UpTotal(f, x, 0, m, stride, t);
    DownTotal(f, Up(x, 0, m, stride, t), 0, k, stride, t);
  }

  // ----- exp_rotation

  /** How far apart the second pass turns: none for short blocks, else about the square root of len / stride. */
  function Stride2(len: nat, stride: nat, from: nat): (r: nat)
    requires stride > 0
    decreases len - from
  {
    if (from * from + from) * stride + stride / 4 < len && from < len then Stride2(len, stride, from + 1) else from
  }

  /** r is the root of len / stride, rounded: it lies between r - 1/2 and r + 1/2. */
  predicate RoundedRoot(len: nat, stride: nat, r: nat) {
    r >= 1 && OddSquare(r - 1) * stride < 4 * len <= OddSquare(r) * stride
  }

  /** (2 r + 1)^2 */
  function OddSquare(r: nat): nat {
    (2 * r + 1) * (2 * r + 1)
  }

  /** The loop's test, in integers, is exact: it compares with (r + 1/2)^2 * stride. */
  lemma TestIs(len: nat, stride: nat, r: nat)
    ensures (r * r + r) * stride + stride / 4 < len <==> OddSquare(r) * stride < 4 * len
  {
    assert OddSquare(r) == 4 * (r * r + r) + 1;
    Distribute(stride, 4 * (r * r + r), 1);
    assert stride * (4 * (r * r + r)) == 4 * ((r * r + r) * stride);
  }

  lemma OddSquareGrows(r: nat, q: nat, stride: nat)
    requires r <= q
    ensures OddSquare(r) * stride <= OddSquare(q) * stride
  {
    MulMonotone(2 * r + 1, 2 * r + 1, 2 * q + 1);
    MulMonotone(2 * q + 1, 2 * r + 1, 2 * q + 1);
    MulMonotone(stride, OddSquare(r), OddSquare(q));
  }

  /** No other number is. */
  lemma RootUnique(len: nat, stride: nat, r: nat, q: nat)
    requires RoundedRoot(len, stride, r) && RoundedRoot(len, stride, q)
    ensures r == q
  {
    if r < q {
      OddSquareGrows(r, q - 1, stride);
    } else if q < r {
      OddSquareGrows(q, r - 1, stride);
    }
  }

  lemma {:induction false} Stride2IsRoot(len: nat, stride: nat, from: nat)
    requires stride > 0 && from >= 1 && OddSquare(from - 1) * stride < 4 * len
    ensures RoundedRoot(len, stride, Stride2(len, stride, from))
    decreases len - from
  {
    TestIs(len, stride, from);
    GrowsPast(from, stride);
    if (from * from + from) * stride + stride / 4 < len {
      Stride2IsRoot(len, stride, from + 1);
    }
  }

  /** The two passes over one block, in the one direction and in the other. */
  function Spread(x: seq<real>, forward: bool, stride2: nat, c: real, s: real): (y: seq<real>)
    ensures |y| == |x|
  {
    if forward then
      var y := Pass(x, 1, Turn(c, -s));
      if stride2 > 0 then Pass(y, stride2, Turn(s, -c)) else y
    else Pass(if stride2 > 0 then Pass(x, stride2, Turn(s, c)) else x, 1, Turn(c, s))
  }

  /** A map of blocks applied to the first k blocks of n elements. */
  function MapBlocks(x: seq<real>, n: nat, k: nat, g: seq<real> -> seq<real>): seq<real>
    decreases k
  {
    if k == 0 || n > |x| then x else g(x[..n]) + MapBlocks(x[n..], n, k - 1, g)
  }

  /** exp_rotation as a map of blocks. */
  function Spreading(forward: bool, stride2: nat, c: real, s: real): seq<real> -> seq<real> {
    (x: seq<real>) => Spread(x, forward, stride2, c, s)
  }

  /** One direction undoes the other. */
  lemma SpreadUndone(x: seq<real>, forward: bool, stride2: nat, c: real, s: real)
    requires Unit(c, s)
    ensures Spread(Spread(x, forward, stride2, c, s), !forward, stride2, c, s) == x
  {
    UnitSymmetric(c, s);
    if forward {
      TurnUndoes(c, -s, s);
      TurnUndoes(s, -c, c);
      PassUndone(x, 1, Turn(c, -s), Turn(c, s));
      if stride2 > 0 {
        PassUndone(Pass(x, 1, Turn(c, -s)), stride2, Turn(s, -c), Turn(s, c));
      }
    } else {
      TurnUndoes(c, s, -s);
      TurnUndoes(s, c, -c);
      PassUndone(if stride2 > 0 then Pass(x, stride2, Turn(s, c)) else x, 1, Turn(c, s), Turn(c, -s));
      if stride2 > 0 {
        PassUndone(x, stride2, Turn(s, c), Turn(s, -c));
      }
    }
  }

  lemma SpreadEnergy(x: seq<real>, forward: bool, stride2: nat, c: real, s: real)
    requires Unit(c, s)
    ensures Energy(Spread(x, forward, stride2, c, s)) == Energy(x)
  {
    UnitSymmetric(c, s);
    if forward {
      PassEnergy(x, 1, c, -s);
      if stride2 > 0 {
        PassEnergy(Pass(x, 1, Turn(c, -s)), stride2, s, -c);
      }
    } else {
      if stride2 > 0 {
        PassEnergy(x, stride2, s, c);
      }
      PassEnergy(if stride2 > 0 then Pass(x, stride2, Turn(s, c)) else x, 1, c, s);
    }
  }

  lemma PassEnergy(x: seq<real>, stride: nat, c: real, s: real)
    requires stride > 0 && Unit(c, s)
    ensures Energy(Pass(x, stride, Turn(c, s))) == Energy(x)
  {
    TurnKeeps(c, s);
    PassTotal(Square(), x, stride, Turn(c, s));
  }

  lemma {:induction false} MapBlocksUndone(x: seq<real>, n: nat, k: nat, g: seq<real> -> seq<real>,
                                           h: seq<real> -> seq<real>)
    requires forall b: seq<real> {:trigger g(b)} :: |g(b)| == |b| && h(g(b)) == b
    ensures MapBlocks(MapBlocks(x, n, k, g), n, k, h) == x
    decreases k
  {
    if k > 0 && n <= |x| {
      var b, rest := x[..n], x[n..];
      var y := g(b) + MapBlocks(rest, n, k - 1, g);
      assert |g(b)| == n && y[..n] == g(b) && y[n..] == MapBlocks(rest, n, k - 1, g);
      MapBlocksUndone(rest, n, k - 1, g, h);
      assert h(y[..n]) == b && b + rest == x;
    }
  }

  /** exp_rotation with dir = -1 undoes dir = 1, and the other way round, whatever the lengths and strides. */
  lemma SpreadingUndone(x: seq<real>, n: nat, k: nat, forward: bool, stride2: nat, c: real, s: real)
    requires Unit(c, s)
    ensures var there, back := Spreading(forward, stride2, c, s), Spreading(!forward, stride2, c, s);
      MapBlocks(MapBlocks(x, n, k, there), n, k, back) == x
  {
    var g, h := Spreading(forward, stride2, c, s), Spreading(!forward, stride2, c, s);
    forall b: seq<real> ensures |g(b)| == |b| && h(g(b)) == b {
      SpreadUndone(b, forward, stride2, c, s);
    }
    MapBlocksUndone(x, n, k, g, h);
  }

  // ----- What a spreading does to the end of a block

  /** Element k with its share of those before it, a stride apart: each weighted by s once more than the next. */
  function Trail(x: seq<real>, k: nat, stride: nat, c: real, s: real): real
    requires stride > 0 && k < |x|
  {
    if k < stride then x[k] else c * x[k] + s * Trail(x, k - stride, stride, c, s)
  }

  lemma {:induction false} UpTrails(x: seq<real>, b: nat, stride: nat, c: real, s: real, k: nat)
    requires stride > 0 && b <= Forth(|x|, stride) && b <= k < |x|
    ensures Up(x, 0, b, stride, Turn(c, s))[k] == if k < b + stride then Trail(x, k, stride, c, s) else x[k]
  {
    if b > 0 {
      UpTrails(x, b - 1, stride, c, s, k);
      UpTrails(x, b - 1, stride, c, s, b - 1);
      RotTrails(x, Up(x, 0, b - 1, stride, Turn(c, s)), b - 1, stride, c, s, k);
    }
  }

  lemma RotTrails(x: seq<real>, y: seq<real>, i: nat, stride: nat, c: real, s: real, k: nat)
    requires stride > 0 && |y| == |x| && i + stride < |x| && i < k < |x|
    requires y[i] == Trail(x, i, stride, c, s)
    requires y[k] == if k < i + stride then Trail(x, k, stride, c, s) else x[k]
    ensures Rot(y, i, stride, Turn(c, s))[k] == if k <= i + stride then Trail(x, k, stride, c, s) else x[k]
  {
    if k == i + stride {
      assert Rot(y, i, stride, Turn(c, s))[k] == c * y[k] + s * y[i];
    }
  }

  lemma {:induction false} DownLeaves(x: seq<real>, a: nat, b: nat, stride: nat, t: Plane, k: nat)
    requires stride > 0 && a <= b && (a < b ==> b - 1 + stride < |x|) && b + stride <= k < |x|
    ensures Down(x, a, b, stride, t)[k] == x[k]
    decreases b - a
  {
    if a < b {
      DownLeaves(x, a + 1, b, stride, t, k);
    }
  }

  /** A pass carries every element to those a stride, two strides and more above it, up to the end of the vector. */
  lemma PassTrails(x: seq<real>, stride: nat, c: real, s: real, k: nat)
    requires 0 < stride <= k < |x| && |x| - stride <= k
    ensures Pass(x, stride, Turn(c, s))[k] == Trail(x, k, stride, c, s)
  {
    var b := Forth(|x|, stride);
    UpTrails(x, b, stride, c, s, k);
    DownLeaves(Up(x, 0, b, stride, Turn(c, s)), 0, Back(|x|, stride), stride, Turn(c, s), k);
  }

  /**
   Before quantisation the neighbours enter with sine -s, and those of the second stride with the angle turned by a
   right angle; on the way back with s.
   */
  lemma SpreadTrails(x: seq<real>, forward: bool, stride2: nat, c: real, s: real, k: nat)
    requires stride2 < |x| == k + 1 && k > 0
    ensures Spread(x, forward, stride2, c, s)[k] ==
            if stride2 == 0 then Trail(x, k, 1, c, if forward then -s else s)
            else if forward then Trail(Pass(x, 1, Turn(c, -s)), k, stride2, s, -c)
            else Trail(Pass(x, stride2, Turn(s, c)), k, 1, c, s)
  {
    if stride2 == 0 {
      PassTrails(x, 1, c, if forward then -s else s, k);
    } else if forward {
      PassTrails(Pass(x, 1, Turn(c, -s)), stride2, s, -c, k);
    } else {
      PassTrails(Pass(x, stride2, Turn(s, c)), 1, c, s, k);
    }
  }

  lemma {:induction false} TotalSum(f: real -> real, x: seq<real>, y: seq<real>)
    ensures Total(f, x + y) == Total(f, x) + Total(f, y)
    decreases |y|
  {
    if y == [] {
      assert x + y == x;
    } else {
      var m := |y| - 1;
      TotalSum(f, x, y[..m]);
      assert (x + y)[..|x + y| - 1] == x + y[..m];
    }
  }

  lemma SumTotal(f: real -> real, b: seq<real>, rest: seq<real>, b': seq<real>, rest': seq<real>)
    requires Total(f, b') == Total(f, b) && Total(f, rest') == Total(f, rest)
    ensures Total(f, b' + rest') == Total(f, b + rest)
  {
    TotalSum(f, b, rest);
    TotalSum(f, b', rest');
  }

  lemma {:induction false} MapBlocksTotal(f: real -> real, x: seq<real>, n: nat, k: nat, g: seq<real> -> seq<real>)
    requires forall b: seq<real> {:trigger g(b)} :: Total(f, g(b)) == Total(f, b)
    ensures Total(f, MapBlocks(x, n, k, g)) == Total(f, x)
    decreases k
  {
    if k > 0 && n <= |x| {
      var b, rest := x[..n], x[n..];
      MapBlocksTotal(f, rest, n, k - 1, g);
      assert b + rest == x;
      SumTotal(f, b, rest, g(b), MapBlocks(rest, n, k - 1, g));
    }
  }

  /** ... and both preserve the sum of squares. */
  lemma SpreadingEnergy(x: seq<real>, n: nat, k: nat, forward: bool, stride2: nat, c: real, s: real)
    requires Unit(c, s)
    ensures Energy(MapBlocks(x, n, k, Spreading(forward, stride2, c, s))) == Energy(x)
  {
    var f, g := Square(), Spreading(forward, stride2, c, s);
    forall b: seq<real> ensures Total(f, g(b)) == Total(f, b) {
      SpreadEnergy(b, forward, stride2, c, s);
    }
    MapBlocksTotal(f, x, n, k, g);
  }

  // ----- The methods

  /** The elements of an array from base on. */
  ghost predicate Slice(x: seq<real>, old_x: seq<real>, base: nat, y: seq<real>) {
    && base + |y| <= |x| == |old_x| && x[base..base + |y|] == y
    && (forall k :: 0 <= k < base ==> x[k] == old_x[k])
    && (forall k :: base + |y| <= k < |x| ==> x[k] == old_x[k])
  }

  /** One plane rotation in place. */
  method RotateAt(x: array<real>, base: nat, i: nat, stride: nat, c: real, s: real, ghost was: seq<real>,
                  ghost y: seq<real>)
    requires stride > 0 && i + stride < |y| && Slice(x[..], was, base, y)
    modifies x
    ensures Slice(x[..], was, base, Rot(y, i, stride, Turn(c, s)))
  {
    var x1, x2 := x[base + i], x[base + i + stride];
    ghost var p, z := Turn(c, s)(x1, x2), Rot(y, i, stride, Turn(c, s));
    assert x1 == y[i] && x2 == y[i + stride];
    x[base + i + stride] := c * x2 + s * x1;
    x[base + i] := c * x1 - s * x2;
    assert x[base + i] == p.0 == z[i] && x[base + i + stride] == p.1 == z[i + stride];
    assert forall k :: 0 <= k < |z| ==> x[base + k] == z[k];
  }

  /** exp_rotation1 on the n elements from base on. */
  method RotatePass(x: array<real>, base: nat, n: nat, stride: nat, c: real, s: real)
    requires base + n <= x.Length && stride > 0
    modifies x
    ensures Slice(x[..], old(x[..]), base, Pass(old(x[base..base + n]), stride, Turn(c, s)))
  {
    ghost var was, y0, t := x[..], x[base..base + n], Turn(c, s);
    var i := 0;
    while i + stride < n
      invariant i <= Forth(n, stride) && Slice(x[..], was, base, Up(y0, 0, i, stride, t))
    {
      RotateAt(x, base, i, stride, c, s, was, Up(y0, 0, i, stride, t));
      i := i + 1;
    }
    ghost var y1 := Up(y0, 0, Forth(n, stride), stride, t);
    ghost var back := Back(n, stride);
    var k: int := n - 2 * stride - 1;
    while k >= 0
      invariant Max(k + 1, 0) <= back
      invariant Slice(x[..], was, base, Down(y1, Max(k + 1, 0), back, stride, t))
    {
      RotateAt(x, base, k, stride, c, s, was, Down(y1, k + 1, back, stride, t));
      k := k - 1;
    }
  }

  /** The step of the second pass: the rounded square root of len / stride. */
  method SecondStride(len: nat, stride: nat) returns (stride2: nat)
    requires stride > 0
    ensures if len >= 8 * stride then RoundedRoot(len, stride, stride2) else stride2 == 0
  {
    stride2 := 0;
    if len >= 8 * stride {
      stride2 := 1;
      while (stride2 * stride2 + stride2) * stride + stride / 4 < len
        invariant stride2 >= 1 && OddSquare(stride2 - 1) * stride < 4 * len
        decreases len - stride2
      {
        TestIs(len, stride, stride2);
        GrowsPast(stride2, stride);
        stride2 := stride2 + 1;
      }
      TestIs(len, stride, stride2);
    }
  }

  lemma StrideFound(len: nat, stride: nat, r: nat)
    requires stride > 0 && if len >= 8 * stride then RoundedRoot(len, stride, r) else r == 0
    ensures r == if len >= 8 * stride then Stride2(len, stride, 1) else 0
  {
    if len >= 8 * stride {
      Stride2IsRoot(len, stride, 1);
      RootUnique(len, stride, r, Stride2(len, stride, 1));
    }
  }

  lemma GrowsPast(r: nat, stride: nat)
    requires stride > 0
    ensures r <= (r * r + r) * stride
  {
    MulMonotone(r, 0, r);
    MulMonotone(r * r + r, 1, stride);
  }

  /** One block in one direction. */
  method SpreadBlock(x: array<real>, base: nat, n: nat, forward: bool, stride2: nat, c: real, s: real)
    requires base + n <= x.Length
    modifies x
    ensures Slice(x[..], old(x[..]), base, Spread(old(x[base..base + n]), forward, stride2, c, s))
  {
    if forward {
      RotatePass(x, base, n, 1, c, -s);
      if stride2 > 0 {
        RotatePass(x, base, n, stride2, s, -c);
      }
    } else {
      if stride2 > 0 {
        RotatePass(x, base, n, stride2, s, c);
      }
      RotatePass(x, base, n, 1, c, s);
    }
  }

  /** One more block done. */
  lemma BlockDone(before: seq<real>, after: seq<real>, base: nat, n: nat, k: nat, g: seq<real> -> seq<real>)
    requires k > 0 && base + n <= |before| && |g(before[base..base + n])| == n
    requires Slice(after, before, base, g(before[base..base + n]))
    ensures |after| == |before|
    ensures after[..base + n] + MapBlocks(after[base + n..], n, k - 1, g)
         == before[..base] + MapBlocks(before[base..], n, k, g)
  {
    var b := before[base..base + n];
    assert before[base..][..n] == b && before[base..][n..] == before[base + n..];
    assert after[base + n..] == before[base + n..];
    assert after[..base + n] == before[..base] + g(b);
  }

  /** exp_rotation on the whole vector; (c, s) is the angle that its gain gives. */
  method ExpRotation(x: array<real>, dir: int, stride: nat, k: nat, spread: nat, c: real, s: real)
    requires stride > 0
    modifies x
    ensures var len := x.Length;
      x[..] == if 2 * k >= len || spread == 0 then old(x[..])
               else MapBlocks(old(x[..]), len / stride, stride,
                              Spreading(dir >= 0, if len >= 8 * stride then Stride2(len, stride, 1) else 0, c, s))
  {
    var len := x.Length;
    if 2 * k >= len || spread == 0 {
      return;
    }
    var stride2 := SecondStride(len, stride);
    StrideFound(len, stride, stride2);
    TimesQuotient(len, stride, len / stride);
    SpreadAll(x, len / stride, stride, dir >= 0, stride2, c, s);
  }

  /** The length of k blocks of n elements. */
  function Times(k: nat, n: nat): nat {
    if k == 0 then 0 else n + Times(k - 1, n)
  }

  lemma {:induction false} TimesProduct(k: nat, n: nat)
    ensures Times(k, n) == k * n
  {
    if k > 0 {
      TimesProduct(k - 1, n);
    }
  }

  lemma TimesQuotient(len: nat, stride: nat, n: nat)
    requires stride > 0 && n == len / stride
    ensures Times(stride, n) <= len
  {
    DivBounds(len, stride, n);
    TimesProduct(stride, n);
  }

  /** The first base elements are done, and the next k blocks make up the goal. */
  ghost predicate Pending(x: seq<real>, base: nat, n: nat, k: nat, g: seq<real> -> seq<real>, goal: seq<real>) {
    base + Times(k, n) <= |x| && x[..base] + MapBlocks(x[base..], n, k, g) == goal
  }

  lemma PendingBegins(x: seq<real>, n: nat, k: nat, g: seq<real> -> seq<real>)
    requires Times(k, n) <= |x|
    ensures Pending(x, 0, n, k, g, MapBlocks(x, n, k, g))
  {
    assert x[0..] == x;
  }

  lemma PendingEnds(x: seq<real>, base: nat, n: nat, g: seq<real> -> seq<real>, goal: seq<real>)
    requires Pending(x, base, n, 0, g, goal)
    ensures x == goal
  {
    assert x[..base] + x[base..] == x;
  }

  method SpreadNext(x: array<real>, base: nat, n: nat, forward: bool, stride2: nat, c: real, s: real,
                    ghost k: nat, ghost g: seq<real> -> seq<real>, ghost goal: seq<real>)
    requires k > 0 && Pending(x[..], base, n, k, g, goal) && g == Spreading(forward, stride2, c, s)
    modifies x
    ensures Pending(x[..], base + n, n, k - 1, g, goal)
  {
    ghost var before := x[..];
    SpreadBlock(x, base, n, forward, stride2, c, s);
    assert x[base..base + n] == x[..][base..base + n];
    BlockDone(before, x[..], base, n, k, g);
  }

  /** Every block, one after the other; base is the offset of block i. */
  method SpreadAll(x: array<real>, n: nat, stride: nat, forward: bool, stride2: nat, c: real, s: real)
    requires Times(stride, n) <= x.Length
    modifies x
    ensures x[..] == MapBlocks(old(x[..]), n, stride, Spreading(forward, stride2, c, s))
  {
    ghost var g := Spreading(forward, stride2, c, s);
    ghost var goal := MapBlocks(x[..], n, stride, g);
    PendingBegins(x[..], n, stride, g);
    var base: nat := 0;
    for i := 0 to stride
      invariant Pending(x[..], base, n, stride - i, g, goal)
    {
      SpreadNext(x, base, n, forward, stride2, c, s, stride - i, g, goal);
      base := base + n;
    }
    PendingEnds(x[..], base, n, g, goal);
  }
}
