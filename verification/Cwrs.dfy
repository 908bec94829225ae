/**
 Pulse-vector enumeration (RFC 6716, section 4.3.4.2; cwrs.c): integer vectors of dimension n whose absolute values
 sum to k, numbered from 0 to V(n, k) - 1.
 */
module Cwrs {
  import opened Arith

  /** U(n, k), with the extension to n = 0 that makes it symmetric. */
  function U(n: nat, k: nat): nat {
    if n == 0 then (if k == 0 then 1 else 0)
    else if k == 0 then 0
    else U(n - 1, k) + U(n, k - 1) + U(n - 1, k - 1)
  }

  /** The number of vectors of dimension n with k pulses. */
  function V(n: nat, k: nat): nat {
    U(n, k) + U(n, k + 1)
  }

  /** The number of pulses. */
  function Norm(y: seq<int>): nat {
    if y == [] then 0 else Abs(y[0]) + Norm(y[1..])
  }

  function Squares(y: seq<int>): nat {
    if y == [] then 0 else y[0] * y[0] + Squares(y[1..])
  }

  /** The index of a vector: what icwrs accumulates from the last element backwards. */
  function Index(y: seq<int>): nat
    requires |y| > 0
    decreases |y|
  {
    if |y| == 1 then (if y[0] < 0 then 1 else 0)
    else Index(y[1..]) + U(|y|, Norm(y[1..])) + if y[0] < 0 then U(|y|, Norm(y) + 1) else 0
  }

  /** The largest k' up to k with U(n, k') at most i: how many pulses are left after the first element. */
  function Rest(n: nat, k: nat, i: nat): (r: nat)
    requires n > 0
    ensures r <= k && U(n, r) <= i && (r < k ==> i < U(n, r + 1))
  {
    if U(n, k) <= i then k else Rest(n, k - 1, i)
  }

  /** The vector with index i. */
  function Pulses(n: nat, k: nat, i: nat): (y: seq<int>)
    requires n > 0 && i < V(n, k)
    ensures |y| == n
    decreases n
  {
    var neg := i >= U(n, k + 1);
    var i1 := if neg then i - U(n, k + 1) else i;
    var k1 := Rest(n, k, i1);
    var first := if neg then k1 - k else k - k1;
    if n == 1 then [if i >= 1 then 0 - k else k]
    else
      RestFits(n, k, i1);
      [first] + Pulses(n - 1, k1, i1 - U(n, k1))
  }

  /** The recurrence that builds a row from the one before it. */
  lemma NextInRow(n: nat, k: nat)
    requires n > 0
    ensures U(n, k + 1) == U(n, k) + V(n - 1, k)
  {
  }

  /** What is left of the index addresses the rest of the vector. */
  lemma RestFits(n: nat, k: nat, i: nat)
    requires n > 1 && i < U(n, k + 1)
    ensures i - U(n, Rest(n, k, i)) < V(n - 1, Rest(n, k, i))
  {
    NextInRow(n, Rest(n, k, i));
  }

  lemma {:induction false} Symmetric(n: nat, k: nat)
    ensures U(n, k) == U(k, n)
    decreases n + k
  {
    if n > 0 && k > 0 {
      Symmetric(n - 1, k);
      Symmetric(n, k - 1);
      Symmetric(n - 1, k - 1);
    }
  }

  lemma {:induction false} Monotone(n: nat, k: nat, k': nat)
    requires n > 0 && k <= k'
    ensures U(n, k) <= U(n, k')
    decreases k'
  {
    if k < k' {
      Monotone(n, k, k' - 1);
    }
  }

  /** Row 1 of the table: one vector less its sign. */
  lemma {:induction false} RowOne(k: nat)
    ensures U(1, k) == if k == 0 then 0 else 1
  {
    if k > 1 {
      RowOne(k - 1);
    }
  }

  lemma {:induction false} RowTwo(k: nat)
    ensures U(2, k) == if k == 0 then 0 else 2 * k - 1
  {
    RowOne(k);
    if k > 0 {
      RowOne(k - 1);
      RowTwo(k - 1);
    }
  }

  /** A choice of first element and of an index for the rest leaves the index in its half. */
  lemma StepFits(n: nat, k: nat, k1: nat, neg: bool, j: nat)
    requires n > 0 && k1 <= k && (neg ==> k1 < k) && j < V(n - 1, k1)
    ensures U(n, k1) + j < U(n, k1 + 1) <= if neg then U(n, k) else U(n, k + 1)
  {
    NextInRow(n, k1);
    Monotone(n, k1 + 1, if neg then k else k + 1);
  }

  /** The index addresses V(n, k) vectors; those with a negative first element come after the others. */
  lemma {:induction false} IndexFits(y: seq<int>)
    requires |y| > 0
    ensures Index(y) < V(|y|, Norm(y))
    ensures y[0] < 0 <==> Index(y) >= U(|y|, Norm(y) + 1)
    decreases |y|
  {
    if |y| == 1 {
      assert Norm(y[1..]) == 0;
      RowOne(Norm(y));
      RowOne(Norm(y) + 1);
    } else {
      IndexFits(y[1..]);
      StepFits(|y|, Norm(y), Norm(y[1..]), y[0] < 0, Index(y[1..]));
    }
  }

  /** Only one number of remaining pulses brackets a given index. */
  lemma RestUnique(n: nat, k: nat, i: nat, r: nat)
    requires n > 0 && r <= k && U(n, r) <= i < U(n, r + 1)
    ensures Rest(n, k, i) == r
  {
    var q := Rest(n, k, i);
    if q < r {
      Monotone(n, q + 1, r);
    } else if r < q {
      Monotone(n, r + 1, q);
    }
  }

  /** Decoding takes the first element off. */
  lemma PulsesStep(n: nat, k: nat, k1: nat, neg: bool, j: nat, i: nat)
    requires n > 1 && k1 <= k && (neg ==> k1 < k) && j < V(n - 1, k1)
    requires i == U(n, k1) + j + if neg then U(n, k + 1) else 0
    ensures i < V(n, k)
    ensures Pulses(n, k, i) == [if neg then k1 - k else k - k1] + Pulses(n - 1, k1, j)
  {
    StepFits(n, k, k1, neg, j);
    RestUnique(n, k, U(n, k1) + j, k1);
    PulsesAre(n, k, i, neg, U(n, k1) + j, k1, j);
  }

  /** The first element, by the sign and what is left. */
  lemma PulsesAre(n: nat, k: nat, i: nat, neg: bool, i1: nat, r: nat, j: nat)
    requires n > 1 && i < V(n, k) && neg == (i >= U(n, k + 1)) && i1 == if neg then i - U(n, k + 1) else i
    requires r == Rest(n, k, i1) && j == i1 - U(n, r) && j < V(n - 1, r)
    ensures Pulses(n, k, i) == [if neg then r - k else k - r] + Pulses(n - 1, r, j)
  {
  }

  /** Decoding the index of a vector gives the vector back. */
  lemma {:induction false} PulsesOfIndex(y: seq<int>)
    requires |y| > 0
    ensures Index(y) < V(|y|, Norm(y)) && Pulses(|y|, Norm(y), Index(y)) == y
    decreases |y|
  {
    IndexFits(y);
    if |y| == 1 {
      assert Norm(y[1..]) == 0;
      assert y == [y[0]];
    } else {
      PulsesOfIndex(y[1..]);
      PulsesOfCons(y, |y|, Norm(y), Norm(y[1..]), Index(y[1..]), Index(y));
    }
  }

  lemma PulsesOfCons(y: seq<int>, n: nat, k: nat, k1: nat, j: nat, i: nat)
    requires n == |y| > 1 && k == Norm(y) && k1 == Norm(y[1..]) && j == Index(y[1..]) && i == Index(y)
    requires j < V(n - 1, k1) && Pulses(n - 1, k1, j) == y[1..]
    ensures i < V(n, k) && Pulses(n, k, i) == y
  {
    IndexIs(y);
    PulsesStep(n, k, k1, y[0] < 0, j, i);
    assert y == [y[0]] + y[1..];
  }

  lemma IndexIs(y: seq<int>)
    requires |y| > 1
    ensures Norm(y) == Abs(y[0]) + Norm(y[1..])
    ensures Index(y) == Index(y[1..]) + U(|y|, Norm(y[1..])) + if y[0] < 0 then U(|y|, Norm(y) + 1) else 0
  {
  }

  /** How an index splits into a sign, a number of remaining pulses and an index for the rest. */
  lemma SplitIndex(n: nat, k: nat, i: nat) returns (neg: bool, k1: nat, j: nat)
    requires n > 1 && i < V(n, k)
    ensures k1 <= k && (neg ==> k1 < k) && j < V(n - 1, k1)
    ensures i == U(n, k1) + j + if neg then U(n, k + 1) else 0
  {
    neg := i >= U(n, k + 1);
    var i1 := if neg then i - U(n, k + 1) else i;
    k1 := Rest(n, k, i1);
    j := i1 - U(n, k1);
    RestFits(n, k, i1);
  }

  /** Putting an element in front of a vector. */
  lemma IndexCons(x: int, y: seq<int>, k1: nat, k: nat, z: seq<int>)
    requires |y| > 0 && k1 == Norm(y) && k == Abs(x) + k1 && z == [x] + y
    ensures Norm(z) == k
    ensures Index(z) == Index(y) + U(|z|, k1) + if x < 0 then U(|z|, k + 1) else 0
  {
    assert z[1..] == y;
  }

  /** Every index is the index of the vector it decodes to, which has exactly k pulses. */
  lemma {:induction false} IndexOfPulses(n: nat, k: nat, i: nat)
    requires n > 0 && i < V(n, k)
    ensures Norm(Pulses(n, k, i)) == k && Index(Pulses(n, k, i)) == i
    decreases n
  {
    if n == 1 {
      RowOne(k);
      RowOne(k + 1);
      SingleIndex(k, i);
    } else {
      var neg, k1, j := SplitIndex(n, k, i);
      PulsesStep(n, k, k1, neg, j, i);
      IndexOfPulses(n - 1, k1, j);
      IndexCons(if neg then k1 - k else k - k1, Pulses(n - 1, k1, j), k1, k, Pulses(n, k, i));
    }
  }

  lemma SingleIndex(k: nat, i: nat)
    requires i <= 1 && (k == 0 ==> i == 0)
    ensures var y := [if i >= 1 then 0 - k else k]; Norm(y) == k && Index(y) == i
  {
    var x: int := if i >= 1 then 0 - k else k;
    assert [x][1..] == [] && Norm([]) == 0;
  }

  // ----- The order of the vectors

  /** By the first element that differs: from the greatest down to zero, and then from the least up. */
  predicate Precedes(x: seq<int>, y: seq<int>)
    requires |x| == |y|
  {
    x != [] &&
    if x[0] == y[0] then Precedes(x[1..], y[1..])
    else if x[0] < 0 then x[0] < y[0] < 0
    else x[0] > y[0]
  }

  /** A vector's index is its rank in that order. */
  lemma {:induction false} IndexInOrder(x: seq<int>, y: seq<int>)
    requires |x| == |y| > 0 && Norm(x) == Norm(y)
    ensures Index(x) < Index(y) <==> Precedes(x, y)
    decreases |x|
  {
    if |x| == 1 {
      SingleOrder(x, y);
    } else {
      IndexIs(x);
      IndexIs(y);
      IndexFits(x);
      IndexFits(y);
      if x[0] == y[0] {
        IndexInOrder(x[1..], y[1..]);
      } else if (x[0] < 0) == (y[0] < 0) {
        RestInOrder(x[1..], y[1..], |x|);
        RestInOrder(y[1..], x[1..], |x|);
      }
    }
  }

  lemma SingleOrder(x: seq<int>, y: seq<int>)
    requires |x| == |y| == 1 && Norm(x) == Norm(y)
    ensures Index(x) < Index(y) <==> Precedes(x, y)
  {
    assert Norm(x[1..]) == 0 && Norm(y[1..]) == 0;
  }

  /** The fewer pulses are left after the first element, the smaller the index. */
  lemma RestInOrder(x: seq<int>, y: seq<int>, n: nat)
    requires |x| == |y| == n - 1 > 0
    ensures Norm(x) < Norm(y) ==> Index(x) + U(n, Norm(x)) < Index(y) + U(n, Norm(y))
  {
    if Norm(x) < Norm(y) {
      IndexFits(x);
      NextInRow(n, Norm(x));
      Monotone(n, Norm(x) + 1, Norm(y));
    }
  }
}
