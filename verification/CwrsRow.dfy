/** The other coder of cwrs.c (SMALL_FOOTPRINT): one row of U, moved up and down in place, instead of the table. */
module CwrsRow {
  import opened Arith
  import opened Cwrs
  import opened CwrsTable

  /** Entry j of the row above s that begins with x: unext's recurrence. */
  function NextAt(s: seq<int>, x: int, j: nat): int
    requires j < |s|
  {
    if j == 0 then x else s[j] + s[j - 1] + NextAt(s, x, j - 1)
  }

  /** Entry j of the row below s that begins with x: uprev's recurrence. */
  function PrevAt(s: seq<int>, x: int, j: nat): int
    requires j < |s|
  {
    if j == 0 then x else s[j] - s[j - 1] - PrevAt(s, x, j - 1)
  }

  function Next(s: seq<int>, x: int): (r: seq<int>)
    ensures |r| == |s| && forall j :: 0 <= j < |s| ==> r[j] == NextAt(s, x, j)
  {
    seq(|s|, j requires 0 <= j < |s| => NextAt(s, x, j))
  }

  function Prev(s: seq<int>, x: int): (r: seq<int>)
    ensures |r| == |s| && forall j :: 0 <= j < |s| ==> r[j] == PrevAt(s, x, j)
  {
    seq(|s|, j requires 0 <= j < |s| => PrevAt(s, x, j))
  }

  /** Row n of U, columns c to c + len - 1. */
  function URow(n: nat, c: nat, len: nat): (r: seq<int>)
    ensures |r| == len && forall j :: 0 <= j < len ==> r[j] == U(n, c + j)
  {
    seq(len, j requires 0 <= j < len => U(n, c + j))
  }

  /** Going up a row and down again, or down and up, changes nothing. */
  lemma {:induction false} PrevUndoesNext(s: seq<int>, x: int, j: nat)
    requires j < |s|
    ensures PrevAt(Next(s, x), s[0], j) == s[j]
  {
    if j > 0 {
      PrevUndoesNext(s, x, j - 1);
    }
  }

  lemma {:induction false} NextUndoesPrev(s: seq<int>, x: int, j: nat)
    requires j < |s|
    ensures NextAt(Prev(s, x), s[0], j) == s[j]
  {
    if j > 0 {
      NextUndoesPrev(s, x, j - 1);
    }
  }

  lemma UndoRows(s: seq<int>, x: int)
    requires s != []
    ensures Prev(Next(s, x), s[0]) == s && Next(Prev(s, x), s[0]) == s
  {
    forall j | 0 <= j < |s| ensures Prev(Next(s, x), s[0])[j] == s[j] && Next(Prev(s, x), s[0])[j] == s[j] {
      PrevUndoesNext(s, x, j);
      NextUndoesPrev(s, x, j);
    }
  }

  /** On rows of U the recurrences go to the neighbouring row. */
  lemma {:induction false} NextOfRow(n: nat, c: nat, len: nat, j: nat)
    requires j < len
    ensures NextAt(URow(n, c, len), U(n + 1, c), j) == U(n + 1, c + j)
  {
    if j > 0 {
      NextOfRow(n, c, len, j - 1);
      assert c + j - 1 == c + (j - 1);
    }
  }

  lemma NextRow(n: nat, c: nat, len: nat)
    ensures Next(URow(n, c, len), U(n + 1, c)) == URow(n + 1, c, len)
  {
    var up, next := URow(n + 1, c, len), Next(URow(n, c, len), U(n + 1, c));
    forall j | 0 <= j < len ensures next[j] == up[j] {
      NextOfRow(n, c, len, j);
    }
  }

  lemma PrevRow(n: nat, c: nat, len: nat)
    requires len > 0
    ensures Prev(URow(n + 1, c, len), U(n, c)) == URow(n, c, len)
  {
    NextRow(n, c, len);
    UndoRows(URow(n, c, len), U(n + 1, c));
  }

  /** unext, on the part of the row array that starts at `at` */
  method Unext(u: array<int>, at: nat, len: nat, ui0: int)
    requires 2 <= len && at + len <= u.Length
    modifies u
    ensures u[at..at + len] == Next(old(u[at..at + len]), ui0)
    ensures u[..at] == old(u[..at]) && u[at + len..] == old(u[at + len..])
  {
    ghost var s := u[at..at + len];
    var x := ui0;
    var j := 1;
    while j < len
      invariant 1 <= j <= len && x == NextAt(s, ui0, j - 1)
      invariant forall i :: 0 <= i < j - 1 ==> u[at + i] == NextAt(s, ui0, i)
      invariant forall i :: j - 1 <= i < len ==> u[at + i] == s[i]
      invariant u[..at] == old(u[..at]) && u[at + len..] == old(u[at + len..])
    {
      var y := u[at + j] + u[at + j - 1] + x;
      u[at + j - 1] := x;
      x := y;
      j := j + 1;
    }
    u[at + j - 1] := x;
  }

  /** uprev */
  method Uprev(u: array<int>, len: nat, ui0: int)
    requires 2 <= len <= u.Length
    modifies u
    ensures u[..len] == Prev(old(u[..len]), ui0) && u[len..] == old(u[len..])
  {
    ghost var s := u[..len];
    var x := ui0;
    var j := 1;
    while j < len
      invariant 1 <= j <= len && x == Prev(s, ui0)[j - 1]
      invariant u[..j - 1] == Prev(s, ui0)[..j - 1]
      invariant u[j - 1..] == old(u[j - 1..])
    {
      assert u[j - 1] == old(u[j - 1]) == s[j - 1] && u[j] == old(u[j]) == s[j];
      var y := u[j] - u[j - 1] - x;
      assert y == PrevAt(s, ui0, j);
      u[j - 1] := x;
      x := y;
      j := j + 1;
    }
    u[j - 1] := x;
  }

  /** ncwrs_urow: fills the row and returns V(n, k). */
  method NcwrsUrow(n: nat, k: nat, u: array<int>) returns (nc: int)
    requires n >= 2 && k > 0 && u.Length >= k + 2
    modifies u
    ensures u[..k + 2] == URow(n, 0, k + 2) && nc == V(n, k)
  {
    var len := k + 2;
    u[0], u[1] := 0, 1;
    var j := 2;
    while j < len
      invariant 2 <= j <= len && u[0] == 0 && u[1] == 1
      invariant forall i :: 2 <= i < j ==> u[i] == 2 * i - 1
    {
      u[j] := 2 * j - 1;
      j := j + 1;
    }
    forall i | 0 <= i < k + 1 ensures u[1..len][i] == URow(2, 1, k + 1)[i] {
      RowTwo(1 + i);
    }
    assert u[1..len] == URow(2, 1, k + 1);
    var m := 2;
    while m < n
      invariant 2 <= m <= n && u[0] == 0 && u[1..len] == URow(m, 1, k + 1)
    {
      NextRow(m, 1, k + 1);
      ColumnOne(m + 1);
      Unext(u, 1, k + 1, 1);
      assert u[0] == u[..1][0];
      m := m + 1;
    }
    assert u[1 + k - 1] == u[1..len][k - 1] && u[1 + k] == u[1..len][k];
    forall i | 0 <= i < len ensures u[..len][i] == URow(n, 0, len)[i] {
      if i > 0 {
        assert u[i] == u[1..len][i - 1];
      }
    }
    nc := u[k] + u[k + 1];
  }

  lemma {:induction false} ColumnOne(n: nat)
    requires n > 0
    ensures U(n, 1) == 1
  {
    Symmetric(n, 1);
    RowOne(n);
  }

  /** The start of icwrs: row 2 by its closed form. */
  method FillRowTwo(u: array<int>, len: nat)
    requires 1 <= len <= u.Length
    modifies u
    ensures u[..len] == URow(2, 0, len)
  {
    u[0] := 0;
    for j := 1 to len
      invariant u[0] == 0 && forall i :: 1 <= i < j ==> u[i] == 2 * i - 1
    {
      u[j] := 2 * j - 1;
    }
    ghost var row := URow(2, 0, len);
    forall i | 0 <= i < len ensures u[i] == row[i] {
      RowTwo(i);
    }
  }

  /** unext on a whole row. */
  method RowUp(u: array<int>, ghost n: nat, len: nat)
    requires 2 <= len <= u.Length && u[..len] == URow(n, 0, len)
    modifies u
    ensures u[..len] == URow(n + 1, 0, len)
  {
    NextRow(n, 0, len);
    assert u[0..0 + len] == u[..len];
    Unext(u, 0, len, 0);
    assert u[0..0 + len] == u[..len];
  }

  /** uprev on the part of the row that is still needed. */
  method RowDown(u: array<int>, ghost n: nat, ghost len0: nat, len: nat)
    requires n > 0 && 2 <= len <= len0 <= u.Length && u[..len0] == URow(n, 0, len0)
    modifies u
    ensures n > 1 ==> u[..len] == URow(n - 1, 0, len)
  {
    ghost var row := URow(n, 0, len);
    assert u[..len] == u[..len0][..len] == row;
    if n > 1 {
      PrevRow(n - 1, 0, len);
    }
    Uprev(u, len, 0);
  }

  /** icwrs, with the row of U built up in u as it goes; k is the number of pulses of y. */
  method IcwrsRow(y: seq<int>, k: nat, u: array<int>) returns (i: int, nc: int)
    requires |y| >= 2 && Norm(y) == k && u.Length >= k + 2
    modifies u
    ensures i == Index(y) && nc == V(|y|, k)
  {
    var n := |y|;
    FillRowTwo(u, k + 2);
    i := if y[n - 1] < 0 then 1 else 0;
    var have := Abs(y[n - 1]);
    LastIndex(y);
    var j := n - 2;
    i, have := AddElement(y, j, have, i, u, k);
    while j > 0
      invariant 0 <= j <= n - 2 && u[..k + 2] == URow(n - j, 0, k + 2)
      invariant i == Index(y[j..]) && have == Norm(y[j..]) <= k
    {
      RowUp(u, n - j, k + 2);
      j := j - 1;
      i, have := AddElement(y, j, have, i, u, k);
    }
    nc := RowTotal(u, n, k, have);
    assert y[0..] == y;
  }

  method RowTotal(u: array<int>, ghost n: nat, ghost k: nat, have: nat) returns (nc: int)
    requires u.Length >= k + 2 && u[..k + 2] == URow(n, 0, k + 2) && have <= k
    ensures nc == V(n, have)
  {
    assert u[have] == u[..k + 2][have] && u[have + 1] == u[..k + 2][have + 1];
    nc := u[have] + u[have + 1];
  }

  /** Adds element j to the index of the elements after it, given the row of U for both. */
  method AddElement(y: seq<int>, j: nat, have: nat, i: int, u: array<int>, ghost k: nat) returns (i': int, have': nat)
    requires j + 1 < |y| && Norm(y) == k && u.Length >= k + 2 && u[..k + 2] == URow(|y| - j, 0, k + 2)
    requires i == Index(y[j + 1..]) && have == Norm(y[j + 1..])
    ensures i' == Index(y[j..]) && have' == Norm(y[j..]) <= k
  {
    SuffixStep(y, j);
    assert u[have] == u[..k + 2][have];
    i' := i + u[have];
    have' := have + Abs(y[j]);
    assert u[have' + 1] == u[..k + 2][have' + 1];
    if y[j] < 0 {
      i' := i' + u[have' + 1];
    }
  }

  lemma LastIndex(y: seq<int>)
    requires |y| >= 2
    ensures var z := y[|y| - 1..]; Index(z) == (if y[|y| - 1] < 0 then 1 else 0) && Norm(z) == Abs(y[|y| - 1])
  {
    var z := y[|y| - 1..];
    assert z == [y[|y| - 1]] && z[1..] == [];
  }

  lemma SuffixStep(y: seq<int>, j: nat)
    requires j + 1 < |y|
    ensures Norm(y[j..]) == Abs(y[j]) + Norm(y[j + 1..]) <= Norm(y)
    ensures Index(y[j..]) == Index(y[j + 1..]) + U(|y| - j, Norm(y[j + 1..]))
                             + if y[j] < 0 then U(|y| - j, Norm(y[j..]) + 1) else 0
  {
    assert y[j..][1..] == y[j + 1..];
    SuffixNorm(y, j);
  }

  lemma {:induction false} SuffixNorm(y: seq<int>, j: nat)
    requires j <= |y|
    ensures Norm(y[j..]) <= Norm(y)
  {
    if j > 0 {
      SuffixNorm(y[1..], j - 1);
      assert y[1..][j - 1..] == y[j..];
    } else {
      assert y[0..] == y;
    }
  }

  /** The number of remaining pulses, found along the row. */
  method SearchRow(n: nat, k: nat, i: nat, u: array<int>) returns (r: nat)
    requires n > 0 && u.Length >= k + 1 && i < U(n, k + 1)
    requires forall c :: 0 <= c <= k ==> u[c] == U(n, c)
    ensures r == Rest(n, k, i)
  {
    r := k;
    var p := u[r];
    while p > i
      invariant r <= k && p == U(n, r) && i < U(n, r + 1)
      decreases r
    {
      r := r - 1;
      p := u[r];
    }
    RestUnique(n, k, i, r);
  }

  /** The body of the loop of cwrsi: an element, the pulses left, and the index left, given row n of U. */
  method RowElement(n: nat, k: nat, i: nat, u: array<int>) returns (x: int, k1: nat, i1: nat)
    requires n > 0 && i < V(n, k) && u.Length >= k + 2 && u[..k + 2] == URow(n, 0, k + 2)
    ensures k1 <= k
    ensures n > 1 ==> i1 < V(n - 1, k1) && Pulses(n, k, i) == [x] + Pulses(n - 1, k1, i1)
    ensures n == 1 ==> Pulses(n, k, i) == [x]
  {
    forall c | 0 <= c <= k + 1 ensures u[c] == U(n, c) {
      assert u[c] == u[..k + 2][c];
    }
    var p := u[k + 1];
    var neg := i >= p;
    var i0: nat := if neg then i - p else i;
    Half(n, k, i, p, i0);
    k1 := SearchRow(n, k, i0, u);
    i1 := i0 - u[k1];
    x := Signed(k - k1, neg);
    if n > 1 {
      Taken(n, k, i, p, i0, k1, u[k1], i1);
    } else {
      RowOne(k1);
      RowOne(k);
      RowOne(k + 1);
    }
  }

  /** The index i' of the last m elements, which have k' pulses, and row m of U for them. */
  ghost predicate Reading(m: nat, k': nat, i': nat, left: seq<int>, u: seq<int>) {
    if m == 0 then left == []
    else i' < V(m, k') && left == Pulses(m, k', i') && |u| >= k' + 2 && u[..k' + 2] == URow(m, 0, k' + 2)
  }

  /** One element. */
  method CwrsiEntry(m: nat, k': nat, i': nat, y: array<int>, j: nat, u: array<int>, yy: int, ghost left: seq<int>)
    returns (k1: nat, i1: nat, yy': int, ghost left': seq<int>)
    requires m > 0 && Reading(m, k', i', left, u[..]) && j < y.Length && y != u
    modifies y, u
    ensures Reading(m - 1, k1, i1, left', u[..])
    ensures y[..j + 1] + left' == old(y[..j]) + left && yy' + Squares(left') == yy + Squares(left)
  {
    var x;
    x, k1, i1 := RowElement(m, k', i', u);
    left' := if m > 1 then Pulses(m - 1, k1, i1) else [];
    assert left == [x] + left';
    yy' := yy + x * x;
    y[j] := x;
    RowDown(u, m, k' + 2, k1 + 2);
  }

  /** cwrsi, given row n of U in u, which is used up. */
  method CwrsiRow(n: nat, k: nat, i: nat, y: array<int>, u: array<int>) returns (yy: int)
    requires n > 0 && i < V(n, k) && y.Length == n && y != u
    requires u.Length >= k + 2 && u[..k + 2] == URow(n, 0, k + 2)
    modifies y, u
    ensures y[..] == Pulses(n, k, i) && yy == Squares(y[..])
  {
    var k': nat, i': nat, j := k, i, 0;
    yy := 0;
    ghost var goal := Pulses(n, k, i);
    ghost var left := goal;
    while j < n
      invariant 0 <= j <= n && Reading(n - j, k', i', left, u[..])
      invariant y[..j] + left == goal && yy + Squares(left) == Squares(goal)
    {
      k', i', yy, left := CwrsiEntry(n - j, k', i', y, j, u, yy, left);
      j := j + 1;
    }
    assert y[..n] == y[..];
  }
}
