/** The table-driven coder of cwrs.c, proved against the enumeration. */
module CwrsTable {
  import opened Arith
  import opened Cwrs

  /** CELT_PVQ_U: the table keeps one half of U; row `min`, column `max`. */
  function Table(n: nat, k: nat): (u: nat)
    ensures u == U(n, k)
  {
    Symmetric(n, k);
    if n <= k then U(n, k) else U(k, n)
  }

  /** A row of the table, which holds the columns from its own number on. */
  function Row(r: nat, c: nat): (u: nat)
    requires r <= c
    ensures u == U(r, c) == U(c, r)
  {
    Symmetric(r, c);
    U(r, c)
  }

  /** icwrs */
  method Icwrs(y: seq<int>) returns (i: nat)
    requires |y| >= 2
    ensures i == Index(y)
  {
    var n := |y|;
    var j := n - 1;
    i := if y[j] < 0 then 1 else 0;
    var k := Abs(y[j]);
    assert y[j..] == [y[j]] && [y[j]][1..] == [];
    while j > 0
      invariant 0 <= j < n
      invariant i == Index(y[j..]) && k == Norm(y[j..])
    {
      j := j - 1;
      assert y[j..][1..] == y[j + 1..];
      i := i + Table(n - j, k);
      k := k + Abs(y[j]);
      if y[j] < 0 {
        i := i + Table(n - j, k + 1);
      }
    }
    assert y[0..] == y;
  }

  /** (x + s) ^ s for s = 0 or -1: the sign applied to a magnitude. */
  function Signed(x: int, neg: bool): int {
    if neg then -x else x
  }

  /** The many-pulses branch: how many of k pulses are left after the first of n dimensions, k >= n. */
  method SearchPulses(n: nat, k: nat, i: nat) returns (r: nat, p: nat)
    requires 2 < n <= k && i < U(n, k + 1)
    ensures r == Rest(n, k, i) && p == U(n, r)
  {
    var q := Row(n, n);
    r := k;
    if q > i {
      r := n - 1;
      p := Row(r, n);
      while p > i
        invariant r < n && p == U(n, r) && i < U(n, r + 1)
        decreases r
      {
        r := r - 1;
        p := Row(r, n);
      }
    } else {
      p := Row(n, r);
      while p > i
        invariant n <= r <= k && p == U(n, r) && i < U(n, r + 1)
        decreases r
      {
        r := r - 1;
        p := Row(n, r);
      }
    }
    RestUnique(n, k, i, r);
  }

  /** The many-dimensions branch: the same for k < n and a first element that is not zero. */
  method SearchDimensions(n: nat, k: nat, i: nat) returns (r: nat, p: nat)
    requires k < n && i < U(n, k)
    ensures r == Rest(n, k, i) < k && p == U(n, r)
  {
    r := k - 1;
    p := Row(r, n);
    while p > i
      invariant r < k && p == U(n, r) && i < U(n, r + 1)
      decreases r
    {
      r := r - 1;
      p := Row(r, n);
    }
    RestUnique(n, k, i, r);
  }

  /** The halves of the index range: what is left of an index once its sign is known. */
  lemma Half(n: nat, k: nat, i: nat, top: nat, i0: nat)
    requires n > 0 && i < V(n, k) && top == U(n, k + 1) && i0 == if i >= top then i - top else i
    ensures i0 < top && (i >= top ==> i0 < U(n, k))
  {
    Monotone(n, k, k + 1);
  }

  /** The next element: its sign from the half, its size from the pulses left, the rest from what is left of i. */
  lemma Taken(n: nat, k: nat, i: nat, top: nat, i0: nat, k1: nat, base: nat, i1: int)
    requires n > 1 && i < V(n, k) && top == U(n, k + 1) && i0 == if i >= top then i - top else i
    requires k1 == Rest(n, k, i0) && base == U(n, k1) && i1 == i0 - base
    ensures 0 <= i1 < V(n - 1, k1)
    ensures Pulses(n, k, i) == [Signed(k - k1, i >= top)] + Pulses(n - 1, k1, i1)
  {
    Half(n, k, i, top, i0);
    RestFits(n, k, i0);
  }

  /** The many-pulses branch of the loop of cwrsi. */
  method ManyPulses(n: nat, k: nat, i: nat) returns (x: int, k1: nat, i1: nat)
    requires 2 < n <= k && i < V(n, k)
    ensures i1 < V(n - 1, k1) && Pulses(n, k, i) == [x] + Pulses(n - 1, k1, i1)
  {
    var p := Row(n, k + 1);
    var neg := i >= p;
    var i0 := if neg then i - p else i;
    Half(n, k, i, p, i0);
    k1, p := SearchPulses(n, k, i0);
    i1 := i0 - p;
    Taken(n, k, i, U(n, k + 1), i0, k1, p, i1);
    x := Signed(k - k1, neg);
  }

  /** The many-dimensions branch. */
  method ManyDimensions(n: nat, k: nat, i: nat) returns (x: int, k1: nat, i1: nat)
    requires k < n && 2 < n && i < V(n, k)
    ensures i1 < V(n - 1, k1) && Pulses(n, k, i) == [x] + Pulses(n - 1, k1, i1)
  {
    var p := Row(k, n);
    var q := Row(k + 1, n);
    if p <= i < q {
      RestUnique(n, k, i, k);
      x, k1, i1 := 0, k, i - p;
      Taken(n, k, i, q, i, k, p, i1);
    } else {
      var neg := i >= q;
      var i0 := if neg then i - q else i;
      Half(n, k, i, q, i0);
      k1, p := SearchDimensions(n, k, i0);
      i1 := i0 - p;
      Taken(n, k, i, q, i0, k1, p, i1);
      x := Signed(k - k1, neg);
    }
  }

  /** The last two elements, for which U(2, k) = 2k - 1 needs no table. */
  method LastTwo(k: nat, i: nat) returns (x0: int, x1: int)
    requires i < V(2, k)
    ensures [x0, x1] == Pulses(2, k, i)
  {
    RowTwo(k);
    RowTwo(k + 1);
    var p := 2 * k + 1;
    var neg := i >= p;
    var i0 := if neg then i - p else i;
    var k1 := (i0 + 1) / 2;
    RowTwo(k1);
    RowTwo(k1 + 1);
    RestUnique(2, k, i0, k1);
    var i1 := if k1 > 0 then i0 - (2 * k1 - 1) else i0;
    Taken(2, k, i, p, i0, k1, U(2, k1), i1);
    x0 := Signed(k - k1, neg);
    RowOne(k1);
    RowOne(k1 + 1);
    x1 := Signed(k1, i1 == 1);
  }

  lemma SquaresCons(x: int, b: seq<int>)
    ensures Squares([x] + b) == x * x + Squares(b)
  {
    assert ([x] + b)[1..] == b;
  }

  /** Stores the next element; `left` is what remains to be decoded after it. */
  method Store(y: array<int>, at: nat, x: int, yy: int, ghost left: seq<int>) returns (yy': int)
    requires at < y.Length
    modifies y
    ensures y[..at + 1] == old(y[..at]) + [x]
    ensures y[..at + 1] + left == old(y[..at]) + ([x] + left)
    ensures yy' + Squares(left) == yy + Squares([x] + left)
  {
    SquaresCons(x, left);
    y[at] := x;
    yy' := yy + x * x;
  }

  /** cwrsi: fills y with the vector of index i and returns its squared norm. */
  method Cwrsi(n: nat, k: nat, i: nat, y: array<int>) returns (yy: int)
    requires n > 1 && i < V(n, k) && y.Length == n
    modifies y
    ensures y[..] == Pulses(n, k, i) && yy == Squares(y[..])
  {
    var n': nat, k': nat, i': nat := n, k, i;
    yy := 0;
    ghost var left := Pulses(n, k, i);
    while n' > 2
      invariant 2 <= n' <= n && i' < V(n', k') && left == Pulses(n', k', i')
      invariant y[..n - n'] + left == Pulses(n, k, i)
      invariant yy + Squares(left) == Squares(Pulses(n, k, i))
    {
      var x;
      if k' >= n' {
        x, k', i' := ManyPulses(n', k', i');
      } else {
        x, k', i' := ManyDimensions(n', k', i');
      }
      left := Pulses(n' - 1, k', i');
      yy := Store(y, n - n', x, yy, left);
      n' := n' - 1;
    }
    var x0, x1 := LastTwo(k', i');
    assert left == [x0] + [x1] && [x1] == [x1] + [];
    yy := Store(y, n - 2, x0, yy, [x1]);
    yy := Store(y, n - 1, x1, yy, []);
    assert y[..n] == y[..];
  }
}
