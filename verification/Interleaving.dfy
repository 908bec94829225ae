/** deinterleave_hadamard and interleave_hadamard of bands.c: short blocks in time order or in frequency order. */
module Interleaving {
  import opened Arith

  /** Element j of row a, in rows of n. */
  function Cell(a: nat, n: nat, j: nat): nat {
    a * n + j
  }

  lemma CellSplit(a: nat, n: nat, j: nat)
    requires j < n
    ensures Cell(a, n, j) / n == a && Cell(a, n, j) % n == j
  {
    DivModUnique(Cell(a, n, j), n, a, j);
  }

  lemma CellFits(a: nat, m: nat, n: nat, j: nat)
    requires a < m && j < n
    ensures Cell(a, n, j) < m * n
  {
    MulMonotone(n, a + 1, m);
    Distribute(n, a, 1);
  }

  lemma CellOf(p: nat, m: nat, n: nat)
    requires n > 0 && p < m * n
    ensures p / n < m && p % n < n && p == Cell(p / n, n, p % n)
  {
    DivBounds(p, n, m);
  }

  /** The order of the rows: as they are, or by the table for 2, 4, 8 or 16 of them. */
  function Order(rows: nat, hadamard: bool, i: nat): nat {
    if !hadamard || i >= rows then i
    else if rows == 2 then [1, 0][i]
    else if rows == 4 then [3, 0, 2, 1][i]
    else if rows == 8 then [7, 0, 4, 3, 6, 1, 5, 2][i]
    else if rows == 16 then [15, 0, 8, 7, 12, 3, 11, 4, 14, 1, 9, 6, 13, 2, 10, 5][i]
    else i
  }

  /** ... and which row comes to a place. */
  function RowAt(rows: nat, hadamard: bool, a: nat): nat {
    if !hadamard || a >= rows then a
    else if rows == 2 then [1, 0][a]
    else if rows == 4 then [1, 3, 2, 0][a]
    else if rows == 8 then [1, 5, 7, 3, 2, 6, 4, 0][a]
    else if rows == 16 then [1, 9, 13, 5, 7, 15, 11, 3, 2, 10, 14, 6, 4, 12, 8, 0][a]
    else a
  }

  lemma OrderIsPermutation(rows: nat, hadamard: bool, i: nat)
    requires i < rows
    ensures Order(rows, hadamard, i) < rows && RowAt(rows, hadamard, Order(rows, hadamard, i)) == i
    ensures RowAt(rows, hadamard, i) < rows && Order(rows, hadamard, RowAt(rows, hadamard, i)) == i
  {
  }

  /**
   The orders are reflected Gray codes with their bits reversed, from the end: each ends with twice the order half as
   long, and begins with that order backwards, twice and plus one. So the constant row of a Hadamard transform is last.
   */
  lemma RowsReflected(half: nat, a: nat)
    requires half in {1, 2, 4, 8} && a < half
    ensures RowAt(2 * half, true, half + a) == 2 * RowAt(half, true, a)
    ensures RowAt(2 * half, true, a) == 2 * RowAt(half, true, half - 1 - a) + 1
    ensures RowAt(half, true, half - 1) == 0
  {
  }

  type Vec = seq<real>

  /** The element that deinterleaving brings to place p. */
  function Taken(n0: nat, rows: nat, hadamard: bool, p: nat): (q: nat)
    requires rows > 0
    ensures p < rows * n0 ==> q < rows * n0
  {
    if p >= rows * n0 then p
    else
      MulMonotone(rows, n0, 0 + n0);
      PlaceFits(n0, rows, hadamard, p);
      Cell(p % n0, rows, RowAt(rows, hadamard, p / n0))
  }

  lemma PlaceFits(n0: nat, rows: nat, hadamard: bool, p: nat)
    requires p < rows * n0
    ensures n0 > 0 && p / n0 < rows && Cell(p % n0, rows, RowAt(rows, hadamard, p / n0)) < rows * n0
  {
    CellOf(p, rows, n0);
    OrderIsPermutation(rows, hadamard, p / n0);
    CellFits(p % n0, n0, rows, RowAt(rows, hadamard, p / n0));
    assert n0 * rows == rows * n0;
  }

  /** ... and that interleaving brings. */
  function Put(n0: nat, rows: nat, hadamard: bool, p: nat): (q: nat)
    requires rows > 0
    ensures p < rows * n0 ==> q < rows * n0
  {
    if p >= rows * n0 then p
    else
      CellFromFits(n0, rows, hadamard, p);
      Cell(Order(rows, hadamard, p % rows), n0, p / rows)
  }

  lemma CellFromFits(n0: nat, rows: nat, hadamard: bool, p: nat)
    requires rows > 0 && p < rows * n0
    ensures p / rows < n0 && Cell(Order(rows, hadamard, p % rows), n0, p / rows) < rows * n0
  {
    assert rows * n0 == n0 * rows;
    CellOf(p, n0, rows);
    OrderIsPermutation(rows, hadamard, p % rows);
    CellFits(Order(rows, hadamard, p % rows), rows, n0, p / rows);
  }

  /** The two places are each other's. */
  lemma PlacesInverse(n0: nat, rows: nat, hadamard: bool, p: nat)
    requires rows > 0
    ensures Taken(n0, rows, hadamard, Put(n0, rows, hadamard, p)) == p
  {
    if p < rows * n0 {
      CellFromFits(n0, rows, hadamard, p);
      assert rows * n0 == n0 * rows;
      CellOf(p, n0, rows);
      OrderIsPermutation(rows, hadamard, p % rows);
      CellSplit(Order(rows, hadamard, p % rows), n0, p / rows);
    }
  }

  function Deinterleaved(x: Vec, n0: nat, rows: nat, hadamard: bool): (y: Vec)
    requires rows > 0 && rows * n0 <= |x|
    ensures |y| == |x|
  {
    seq(|x|, p requires 0 <= p < |x| => x[Taken(n0, rows, hadamard, p)])
  }

  function Interleaved(x: Vec, n0: nat, rows: nat, hadamard: bool): (y: Vec)
    requires rows > 0 && rows * n0 <= |x|
    ensures |y| == |x|
  {
    seq(|x|, p requires 0 <= p < |x| => x[Put(n0, rows, hadamard, p)])
  }

  /** Interleaving undoes deinterleaving, in either order of the blocks. */
  lemma InterleaveUndoes(x: Vec, n0: nat, rows: nat, hadamard: bool)
    requires rows > 0 && rows * n0 <= |x|
    ensures Interleaved(Deinterleaved(x, n0, rows, hadamard), n0, rows, hadamard) == x
  {
    var y := Interleaved(Deinterleaved(x, n0, rows, hadamard), n0, rows, hadamard);
    forall p | 0 <= p < |x| ensures y[p] == x[p] {
      PlacesInverse(n0, rows, hadamard, p);
    }
  }

  // ----- The methods: both fill a scratch vector row by row and copy it back

  /** The place of element j of block i, deinterleaved. */
  lemma TakenAt(n0: nat, rows: nat, hadamard: bool, i: nat, j: nat)
    requires i < rows && j < n0
    ensures var p := Cell(Order(rows, hadamard, i), n0, j);
      p < rows * n0 && Taken(n0, rows, hadamard, p) == Cell(j, rows, i) < rows * n0
  {
    OrderIsPermutation(rows, hadamard, i);
    CellFits(Order(rows, hadamard, i), rows, n0, j);
    CellSplit(Order(rows, hadamard, i), n0, j);
  }

  lemma PutAt(n0: nat, rows: nat, hadamard: bool, i: nat, j: nat)
    requires i < rows && j < n0
    ensures var p := Cell(j, rows, i);
      p < rows * n0 && Put(n0, rows, hadamard, p) == Cell(Order(rows, hadamard, i), n0, j) < rows * n0
  {
    CellFits(j, n0, rows, i);
    assert n0 * rows == rows * n0;
    CellSplit(j, rows, i);
    CellFromFits(n0, rows, hadamard, Cell(j, rows, i));
  }

  /** Sample i of group j, one group for every coefficient, becomes coefficient j of block i in the order; and back. */
  lemma BlocksGathered(x: Vec, n0: nat, rows: nat, hadamard: bool, i: nat, j: nat)
    requires i < rows && j < n0 && rows * n0 <= |x|
    requires Order(rows, hadamard, i) * n0 + j < rows * n0 && j * rows + i < rows * n0
    ensures Deinterleaved(x, n0, rows, hadamard)[Order(rows, hadamard, i) * n0 + j] == x[j * rows + i]
    ensures Interleaved(x, n0, rows, hadamard)[j * rows + i] == x[Order(rows, hadamard, i) * n0 + j]
  {
    TakenAt(n0, rows, hadamard, i, j);
    PutAt(n0, rows, hadamard, i, j);
  }

  /** The places written so far hold what belongs there. */
  ghost predicate Partly(tmp: Vec, goal: Vec, done: set<nat>) {
    |tmp| <= |goal| && forall p :: p in done && p < |tmp| ==> tmp[p] == goal[p]
  }

  /** Every place is some element of some block. */
  lemma RowsCover(n0: nat, rows: nat, hadamard: bool, p: nat)
    requires p < rows * n0
    ensures n0 > 0 && var a := RowAt(rows, hadamard, p / n0);
      a < rows && p % n0 < n0 && p == Cell(Order(rows, hadamard, a), n0, p % n0)
  {
    CellOf(p, rows, n0);
    OrderIsPermutation(rows, hadamard, p / n0);
  }

  lemma ColumnsCover(n0: nat, rows: nat, p: nat) returns (a: nat, j: nat)
    requires rows > 0 && p < rows * n0
    ensures a < rows && j < n0 && p == Cell(j, rows, a)
  {
    assert rows * n0 == n0 * rows;
    CellOf(p, n0, rows);
    a, j := p % rows, p / rows;
  }

  /** One block of deinterleave_hadamard. */
  method DeinterleaveBlock(x: array<real>, tmp: array<real>, n0: nat, rows: nat, hadamard: bool, i: nat,
                           ghost goal: Vec, ghost done0: set<nat>) returns (ghost done: set<nat>)
    requires tmp != x && i < rows && rows * n0 == tmp.Length <= x.Length
    requires goal == Deinterleaved(x[..], n0, rows, hadamard) && Partly(tmp[..], goal, done0)
    modifies tmp
    ensures Partly(tmp[..], goal, done) && done0 <= done
    ensures forall j: nat :: j < n0 ==> Cell(Order(rows, hadamard, i), n0, j) in done
  {
    done := done0;
    for j := 0 to n0
      invariant Partly(tmp[..], goal, done) && done0 <= done
      invariant forall k: nat :: k < j ==> Cell(Order(rows, hadamard, i), n0, k) in done
    {
      TakenAt(n0, rows, hadamard, i, j);
      var p := Cell(Order(rows, hadamard, i), n0, j);
      tmp[p] := x[Cell(j, rows, i)];
      done := done + {p};
    }
  }

  /** deinterleave_hadamard */
  method Deinterleave(x: array<real>, n0: nat, rows: nat, hadamard: bool)
    requires rows > 0 && rows * n0 <= x.Length
    modifies x
    ensures x[..] == Deinterleaved(old(x[..]), n0, rows, hadamard)
  {
    var tmp := new real[rows * n0];
    ghost var goal := Deinterleaved(x[..], n0, rows, hadamard);
    ghost var done: set<nat> := {};
    for i := 0 to rows
      invariant Partly(tmp[..], goal, done) && x[..] == old(x[..])
      invariant forall a: nat, j: nat :: a < i && j < n0 ==> Cell(Order(rows, hadamard, a), n0, j) in done
    {
      done := DeinterleaveBlock(x, tmp, n0, rows, hadamard, i, goal, done);
    }
    forall p: nat | p < tmp.Length ensures tmp[p] == goal[p] {
      RowsCover(n0, rows, hadamard, p);
    }
    CopyBack(x, tmp);
    assert x[..] == goal;
  }

  /** One block of interleave_hadamard. */
  method InterleaveBlock(x: array<real>, tmp: array<real>, n0: nat, rows: nat, hadamard: bool, i: nat,
                         ghost goal: Vec, ghost done0: set<nat>) returns (ghost done: set<nat>)
    requires tmp != x && i < rows && rows * n0 == tmp.Length <= x.Length
    requires goal == Interleaved(x[..], n0, rows, hadamard) && Partly(tmp[..], goal, done0)
    modifies tmp
    ensures Partly(tmp[..], goal, done) && done0 <= done
    ensures forall j: nat :: j < n0 ==> Cell(j, rows, i) in done
  {
    done := done0;
    for j := 0 to n0
      invariant Partly(tmp[..], goal, done) && done0 <= done
      invariant forall k: nat :: k < j ==> Cell(k, rows, i) in done
    {
      PutAt(n0, rows, hadamard, i, j);
      var p := Cell(j, rows, i);
      tmp[p] := x[Cell(Order(rows, hadamard, i), n0, j)];
      done := done + {p};
    }
  }

  /** interleave_hadamard */
  method Interleave(x: array<real>, n0: nat, rows: nat, hadamard: bool)
    requires rows > 0 && rows * n0 <= x.Length
    modifies x
    ensures x[..] == Interleaved(old(x[..]), n0, rows, hadamard)
  {
    var tmp := new real[rows * n0];
    ghost var goal := Interleaved(x[..], n0, rows, hadamard);
    ghost var done: set<nat> := {};
    for i := 0 to rows
      invariant Partly(tmp[..], goal, done) && x[..] == old(x[..])
      invariant forall a: nat, j: nat :: a < i && j < n0 ==> Cell(j, rows, a) in done
    {
      done := InterleaveBlock(x, tmp, n0, rows, hadamard, i, goal, done);
    }
    forall p: nat | p < tmp.Length ensures tmp[p] == goal[p] {
      var a, j := ColumnsCover(n0, rows, p);
      assert Cell(j, rows, a) in done;
    }
    CopyBack(x, tmp);
    assert x[..] == goal;
  }

  /** OPUS_COPY */
  method CopyBack(x: array<real>, tmp: array<real>)
    requires tmp != x && tmp.Length <= x.Length
    modifies x
    ensures forall p :: 0 <= p < x.Length ==> x[p] == if p < tmp.Length then tmp[p] else old(x[p])
  {
    for i := 0 to tmp.Length
      invariant forall p :: 0 <= p < x.Length ==> x[p] == if p < i then tmp[p] else old(x[p])
    {
      x[i] := tmp[i];
    }
  }
}
