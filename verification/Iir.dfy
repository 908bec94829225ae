/**
 The all-pole filter of celt_lpc.c, direct and unrolled by four over the correlation kernel of pitch.h, in exact
 arithmetic with the rounding of the fed-back output left abstract. Both compute one recurrence.
 */
module Iir {
  type Vec = seq<real>
  type Rounding = real -> real

  // ----- Sums of products

  /** den[0] z[p-1] + den[1] z[p-2] + ..., n terms: the filter's feedback at position p. */
  function Feedback(den: Vec, z: Vec, p: nat, n: nat): real
    requires n <= |den| && n <= p <= |z|
  {
    if n == 0 then 0.0 else Feedback(den, z, p, n - 1) + den[n - 1] * z[p - n]
  }

  /** x[0] y[k] + x[1] y[k+1] + ..., n terms. */
  function Corr(x: Vec, y: Vec, k: nat, n: nat): real
    requires n <= |x| && k + n <= |y|
  {
    if n == 0 then 0.0 else Corr(x, y, k, n - 1) + x[n - 1] * y[k + n - 1]
  }

  function Reverse(x: Vec): (y: Vec)
    ensures |y| == |x| && forall i :: 0 <= i < |x| ==> y[i] == x[|x| - 1 - i]
  {
    seq(|x|, i requires 0 <= i < |x| => x[|x| - 1 - i])
  }

  /** The last terms of a correlation with the reversed coefficients are the first of the feedback. */
  lemma {:induction false} CorrTail(den: Vec, y: Vec, k: nat, n: nat)
    requires n <= |den| && k + |den| <= |y|
    ensures Corr(Reverse(den), y, k, |den|) == Corr(Reverse(den), y, k, |den| - n) + Feedback(den, y, k + |den|, n)
  {
    if n > 0 {
      CorrTail(den, y, k, n - 1);
      var m := |den| - n;
      assert Reverse(den)[m] == den[n - 1] && k + |den| - n == k + m;
    }
  }

  lemma CorrIsFeedback(den: Vec, y: Vec, k: nat)
    requires k + |den| <= |y|
    ensures Corr(Reverse(den), y, k, |den|) == Feedback(den, y, k + |den|, |den|)
  {
    CorrTail(den, y, k, |den|);
  }

  lemma {:induction false} FeedbackNegated(den: Vec, y: Vec, z: Vec, p: nat, n: nat)
    requires n <= |den| && n <= p <= |y| && p <= |z| && forall i :: p - n <= i < p ==> y[i] == -z[i]
    ensures Feedback(den, y, p, n) == -Feedback(den, z, p, n)
  {
    if n > 0 {
      FeedbackNegated(den, y, z, p, n - 1);
      assert den[n - 1] * y[p - n] == -(den[n - 1] * z[p - n]);
    }
  }

  /** Filling in the last k samples, zero so far, adds their k terms. */
  lemma {:induction false} FeedbackPatched(den: Vec, y: Vec, z: Vec, p: nat, k: nat, n: nat)
    requires k <= n <= |den| && n <= p + k <= |y| == |z|
    requires forall i :: 0 <= i < p ==> y[i] == z[i]
    requires forall i :: p <= i < p + k ==> y[i] == 0.0
    ensures Feedback(den, z, p + k, n) == Feedback(den, y, p + k, n) + Feedback(den, z, p + k, k)
  {
    if n == k {
      FeedbackZero(den, y, p + k, k);
    } else {
      FeedbackPatched(den, y, z, p, k, n - 1);
    }
  }

  lemma {:induction false} FeedbackZero(den: Vec, y: Vec, p: nat, n: nat)
    requires n <= |den| && n <= p <= |y| && forall i :: p - n <= i < p ==> y[i] == 0.0
    ensures Feedback(den, y, p, n) == 0.0
  {
    if n > 0 {
      FeedbackZero(den, y, p, n - 1);
    }
  }

  // ----- The recurrence

  datatype Filter = Filter(x: Vec, den: Vec, mem: Vec, round: Rounding)

  predicate ValidFilter(f: Filter) {
    |f.den| == |f.mem|
  }

  /** The rounded past before sample i: the memory, oldest first, and then the outputs. */
  function Past(f: Filter, i: nat): (z: Vec)
    requires ValidFilter(f) && i <= |f.x|
    ensures |z| == |f.den| + i
    decreases i, 0
  {
    if i == 0 then Reverse(f.mem) else Past(f, i - 1) + [f.round(Output(f, i - 1))]
  }

  /** Output i: the input less the feedback of the past. */
  function Output(f: Filter, i: nat): real
    requires ValidFilter(f) && i < |f.x|
    decreases i, 1
  {
    f.x[i] - Feedback(f.den, Past(f, i), |f.den| + i, |f.den|)
  }

  lemma {:induction false} PastGrows(f: Filter, i: nat, j: nat, t: nat)
    requires ValidFilter(f) && i <= j <= |f.x| && t < |f.den| + i
    ensures Past(f, j)[t] == Past(f, i)[t]
  {
    if i < j {
      PastGrows(f, i, j - 1, t);
    }
  }

  // ----- The direct form

  /** The memory moves up by one. */
  method Shift(mem: array<real>)
    requires mem.Length > 0
    modifies mem
    ensures forall k :: 1 <= k < mem.Length ==> mem[k] == old(mem[k - 1])
  {
    var j := mem.Length - 1;
    while j >= 1
      invariant 0 <= j < mem.Length
      invariant forall k :: 0 <= k <= j ==> mem[k] == old(mem[k])
      invariant forall k :: j < k < mem.Length ==> mem[k] == old(mem[k - 1])
    {
      mem[j] := mem[j - 1];
      j := j - 1;
    }
  }

  /** One output from the input and the memory; z is the past the memory holds. */
  method Feed(x: real, den: Vec, mem: array<real>, ghost z: Vec) returns (sum: real)
    requires mem.Length == |den| <= |z| && forall j :: 0 <= j < |den| ==> mem[j] == z[|z| - 1 - j]
    ensures sum == x - Feedback(den, z, |z|, |den|)
  {
    sum := x;
    for j := 0 to |den|
      invariant sum == x - Feedback(den, z, |z|, j)
    {
      sum := sum - den[j] * mem[j];
    }
  }

  /** The memory holds the past before sample i. */
  ghost predicate Holds(f: Filter, mem: Vec, i: nat)
    requires ValidFilter(f) && i <= |f.x|
  {
    var z := Past(f, i);
    |mem| == |f.den| && forall j :: 0 <= j < |mem| ==> mem[j] == z[|z| - 1 - j]
  }

  /** The memory is the end of the past, latest first. */
  ghost predicate HeldIn(mem: Vec, z: Vec) {
    |mem| <= |z| && forall j :: 0 <= j < |mem| ==> mem[j] == z[|z| - 1 - j]
  }

  lemma HoldsStart(f: Filter)
    requires ValidFilter(f)
    ensures Holds(f, f.mem, 0)
  {
  }

  /** One output from the past before it, and the past after it. */
  ghost predicate Link(f: Filter, z: Vec, next: Vec, out: real, i: nat)
    requires i < |f.x|
  {
    |z| >= |f.den| && out == f.x[i] - Feedback(f.den, z, |z|, |f.den|) && next == z + [f.round(out)]
  }

  /** The recurrence, run: the past before every sample, and the outputs. */
  ghost predicate Course(f: Filter, pasts: seq<Vec>, outs: Vec) {
    && |outs| == |f.x| && |pasts| == |f.x| + 1
    && forall i: nat :: i < |f.x| ==> Link(f, pasts[i], pasts[i + 1], outs[i], i)
  }

  lemma RunCourse(f: Filter) returns (pasts: seq<Vec>, outs: Vec)
    requires ValidFilter(f)
    ensures Course(f, pasts, outs) && forall i: nat :: i < |f.x| ==> outs[i] == Output(f, i)
    ensures pasts[0] == Past(f, 0) && pasts[|f.x|] == Past(f, |f.x|)
  {
    pasts := seq(|f.x| + 1, i requires 0 <= i <= |f.x| => Past(f, i));
    outs := seq(|f.x|, i requires 0 <= i < |f.x| => Output(f, i));
  }

  /** One output, and the memory after it. */
  method IirOne(xi: real, den: Vec, mem: array<real>, round: Rounding, ghost f: Filter, ghost i: nat,
                ghost z: Vec, ghost next: Vec, ghost out: real) returns (sum: real)
    requires i < |f.x| && xi == f.x[i] && den == f.den && round == f.round && Link(f, z, next, out, i)
    requires mem.Length == |den| > 0 && HeldIn(mem[..], z)
    modifies mem
    ensures sum == out && HeldIn(mem[..], next)
  {
    sum := Feed(xi, den, mem, z);
    Shift(mem);
    mem[0] := round(sum);
  }

  method IirLoop(x: Vec, den: Vec, y: array<real>, mem: array<real>, round: Rounding,
                 ghost f: Filter, ghost pasts: seq<Vec>, ghost outs: Vec)
    requires y.Length == |x| && mem.Length == |den| > 0 && y != mem && Course(f, pasts, outs)
    requires x == f.x && den == f.den && round == f.round && HeldIn(mem[..], pasts[0])
    modifies y, mem
    ensures y[..] == outs && HeldIn(mem[..], pasts[|x|])
  {
    for i := 0 to |x|
      invariant HeldIn(mem[..], pasts[i])
      invariant forall k :: 0 <= k < i ==> y[k] == outs[k]
    {
      assert Link(f, pasts[i], pasts[i + 1], outs[i], i);
      var sum := IirOne(x[i], den, mem, round, f, i, pasts[i], pasts[i + 1], outs[i]);
      y[i] := sum;
    }
  }

  /** celt_iir under SMALL_FOOTPRINT. */
  method IirDirect(x: Vec, den: Vec, y: array<real>, mem: array<real>, round: Rounding)
    requires y.Length == |x| && mem.Length == |den| > 0 && y != mem
    modifies y, mem
    ensures var f := Filter(x, den, old(mem[..]), round);
      (forall i :: 0 <= i < |x| ==> y[i] == Output(f, i)) && Holds(f, mem[..], |x|)
  {
    ghost var f := Filter(x, den, mem[..], round);
    HoldsStart(f);
    ghost var pasts, outs := RunCourse(f);
    IirLoop(x, den, y, mem, round, f, pasts, outs);
    assert forall i :: 0 <= i < |x| ==> y[i] == y[..][i] == outs[i];
  }

  // ----- xcorr_kernel_c

  datatype Four = Four(a: real, b: real, c: real, d: real)

  /** The four sums after n terms. */
  ghost predicate Sums(x: Vec, y: Vec, base: nat, n: nat, s0: Four, s: Four)
    requires n <= |x| && base + n + 3 <= |y|
  {
    && s.a == s0.a + Corr(x, y, base, n) && s.b == s0.b + Corr(x, y, base + 1, n)
    && s.c == s0.c + Corr(x, y, base + 2, n) && s.d == s0.d + Corr(x, y, base + 3, n)
  }

  /** One term in each sum, from the four samples at hand. */
  method Accumulate(s: Four, x: Vec, n: nat, a: real, b: real, c: real, d: real,
                    ghost y: Vec, ghost base: nat, ghost s0: Four) returns (t: Four)
    requires n < |x| && base + n + 4 <= |y| && Sums(x, y, base, n, s0, s)
    requires a == y[base + n] && b == y[base + n + 1] && c == y[base + n + 2] && d == y[base + n + 3]
    ensures Sums(x, y, base, n + 1, s0, t)
  {
    var tmp := x[n];
    t := Four(PlusProduct(s.a, tmp, a), PlusProduct(s.b, tmp, b), PlusProduct(s.c, tmp, c), PlusProduct(s.d, tmp, d));
    CorrNext(x, y, base, n, s0.a, a);
    CorrNext(x, y, base + 1, n, s0.b, b);
    CorrNext(x, y, base + 2, n, s0.c, c);
    CorrNext(x, y, base + 3, n, s0.d, d);
  }

  function PlusProduct(s: real, x: real, y: real): real {
    s + x * y
  }

  lemma CorrNext(x: Vec, y: Vec, k: nat, n: nat, s: real, v: real)
    requires n < |x| && k + n < |y| && v == y[k + n]
    ensures PlusProduct(s + Corr(x, y, k, n), x[n], v) == s + Corr(x, y, k, n + 1)
  {
  }

  /**
   xcorr_kernel_c. The samples stay in four variables, each of which is refilled when it has been used last, so that
   every sample is read once; sum k is raised by the correlation at shift k.
   */
  method XcorrKernel(x: Vec, y: Vec, base: nat, s0: Four) returns (s: Four)
    requires |x| >= 3 && base + |x| + 3 <= |y|
    ensures Sums(x, y, base, |x|, s0, s)
  {
    var len := |x|;
    s := s0;
    var y0, y1, y2, y3 := y[base], y[base + 1], y[base + 2], 0.0;
    var j := 0;
    while j < len - 3
      invariant j % 4 == 0 && j <= len && Sums(x, y, base, j, s0, s)
      invariant y0 == y[base + j] && y1 == y[base + j + 1] && y2 == y[base + j + 2]
    {
      y3 := y[base + j + 3];
      s := Accumulate(s, x, j, y0, y1, y2, y3, y, base, s0);
      y0 := y[base + j + 4];
      s := Accumulate(s, x, j + 1, y1, y2, y3, y0, y, base, s0);
      y1 := y[base + j + 5];
      s := Accumulate(s, x, j + 2, y2, y3, y0, y1, y, base, s0);
      y2 := y[base + j + 6];
      s := Accumulate(s, x, j + 3, y3, y0, y1, y2, y, base, s0);
      j := j + 4;
    }
    if j < len {
      y3 := y[base + j + 3];
      s := Accumulate(s, x, j, y0, y1, y2, y3, y, base, s0);
    }
    if j + 1 < len {
      y0 := y[base + j + 4];
      s := Accumulate(s, x, j + 1, y1, y2, y3, y0, y, base, s0);
    }
    if j + 2 < len {
      y1 := y[base + j + 5];
      s := Accumulate(s, x, j + 2, y2, y3, y0, y1, y, base, s0);
    }
  }

  // ----- The unrolled form

  /** The negated past before sample i, and zeros above it. */
  ghost predicate Negated(f: Filter, y: Vec, i: nat)
    requires ValidFilter(f) && i <= |f.x|
  {
    && |y| == |f.den| + |f.x|
    && (forall t :: 0 <= t < |f.den| + i ==> y[t] == -Past(f, i)[t])
    && (forall t :: |f.den| + i <= t < |y| ==> y[t] == 0.0)
  }

  lemma NegatedNext(f: Filter, y: Vec, i: nat, v: real)
    requires ValidFilter(f) && i < |f.x| && Negated(f, y, i) && v == Output(f, i)
    ensures Negated(f, y[|f.den| + i := -f.round(v)], i + 1)
  {
  }

  /** An output k samples later, from the samples known before and the k new ones. */
  lemma Patched(f: Filter, y: Vec, z: Vec, i: nat, k: nat)
    requires ValidFilter(f) && i + k < |f.x| && k <= |f.den| && Negated(f, y, i) && Negated(f, z, i + k)
    requires forall t :: 0 <= t < |f.den| + i ==> y[t] == z[t]
    ensures Output(f, i + k) ==
      f.x[i + k] + Corr(Reverse(f.den), y, i + k, |f.den|) + Feedback(f.den, z, |f.den| + i + k, k)
  {
    var ord := |f.den|;
    CorrIsFeedback(f.den, y, i + k);
    FeedbackPatched(f.den, y, z, ord + i, k, ord);
    FeedbackNegated(f.den, z, Past(f, i + k), ord + i + k, ord);
  }

  /** What one, two and three new samples from p on feed back. */
  method PatchOne(den: Vec, y: array<real>, p: nat) returns (r: real)
    requires |den| >= 1 && p + 1 <= y.Length
    ensures r == Feedback(den, y[..], p + 1, 1)
  {
    assert Feedback(den, y[..], p + 1, 0) == 0.0;
    r := y[p] * den[0];
  }

  method PatchTwo(den: Vec, y: array<real>, p: nat) returns (r: real)
    requires |den| >= 2 && p + 2 <= y.Length
    ensures r == Feedback(den, y[..], p + 2, 2)
  {
    r := PatchOne(den, y, p + 1);
    r := r + y[p] * den[1];
  }

  method PatchThree(den: Vec, y: array<real>, p: nat) returns (r: real)
    requires |den| >= 3 && p + 3 <= y.Length
    ensures r == Feedback(den, y[..], p + 3, 3)
  {
    r := PatchTwo(den, y, p + 1);
    r := r + y[p] * den[2];
  }

  /** The outputs up to sample i are written, and their negated rounded values can be fed back. */
  ghost predicate Running(f: Filter, y: Vec, out: Vec, i: nat) {
    && ValidFilter(f) && i <= |f.x| == |out| && Negated(f, y, i)
    && forall k :: 0 <= k < i ==> out[k] == Output(f, k)
  }

  /** k of the four outputs from sample i on have been emitted; was is what the samples fed back were before. */
  ghost predicate Patching(f: Filter, was: Vec, y: Vec, out: Vec, i: nat, k: nat) {
    && Running(f, y, out, i + k) && k <= |f.den| && Negated(f, was, i)
    && forall t :: 0 <= t < |f.den| + i ==> was[t] == y[t]
  }

  /** A sum the kernel left, for the sample k after i. */
  ghost predicate Partial(f: Filter, was: Vec, i: nat, k: nat, sum: real) {
    && i + k < |f.x| && i + k + |f.den| <= |was|
    && sum == f.x[i + k] + Corr(Reverse(f.den), was, i + k, |f.den|)
  }

  /** The output it becomes when what the k new samples before it feed back is added. */
  method Patch(y: array<real>, out: array<real>, den: Vec, i: nat, k: nat, sum: real, ghost f: Filter, ghost was: Vec)
    returns (v: real)
    requires k <= 3 < |den| && f.den == den && Patching(f, was, y[..], out[..], i, k) && Partial(f, was, i, k, sum)
    ensures v == Output(f, i + k)
  {
    var patch := 0.0;
    if k == 1 {
      patch := PatchOne(den, y, |den| + i);
    } else if k == 2 {
      patch := PatchTwo(den, y, |den| + i);
    } else if k == 3 {
      patch := PatchThree(den, y, |den| + i);
    }
    Patched(f, was, y[..], i, k);
    v := sum + patch;
  }

  /** An output is written, and its rounded value fed back. */
  method Emit(y: array<real>, out: array<real>, i: nat, k: nat, v: real, round: Rounding, ghost f: Filter,
              ghost was: Vec)
    requires y != out && Patching(f, was, y[..], out[..], i, k) && i + k < |f.x| && k < |f.den|
    requires v == Output(f, i + k) && round == f.round
    modifies y, out
    ensures Patching(f, was, y[..], out[..], i, k + 1)
  {
    NegatedNext(f, y[..], i + k, v);
    y[y.Length - out.Length + i + k] := -round(v);
    out[i + k] := v;
  }

  method PatchAndEmit(y: array<real>, out: array<real>, den: Vec, i: nat, k: nat, sum: real, round: Rounding,
                      ghost f: Filter, ghost was: Vec)
    requires k <= 3 < |den| && y != out && f.den == den && round == f.round
    requires Patching(f, was, y[..], out[..], i, k) && Partial(f, was, i, k, sum)
    modifies y, out
    ensures Patching(f, was, y[..], out[..], i, k + 1)
  {
    var v := Patch(y, out, den, i, k, sum, f, was);
    Emit(y, out, i, k, v, round, f, was);
  }

  /** Four outputs, as if the filter were not recursive, each then patched up by the new ones before it. */
  method FourOutputs(x: Vec, den: Vec, rden: Vec, y: array<real>, out: array<real>, i: nat, round: Rounding,
                     ghost f: Filter)
    requires f.x == x && f.den == den && f.round == round && rden == Reverse(den)
    requires |den| >= 4 && i + 3 < |x| && y != out && Running(f, y[..], out[..], i)
    modifies y, out
    ensures Patching(f, old(y[..]), y[..], out[..], i, 4)
  {
    ghost var was := y[..];
    var sum := XcorrKernel(rden, y[..], i, Four(x[i], x[i + 1], x[i + 2], x[i + 3]));
    PatchTwice(y, out, den, i, 0, sum.a, sum.b, round, f, was);
    PatchTwice(y, out, den, i, 2, sum.c, sum.d, round, f, was);
  }

  method PatchTwice(y: array<real>, out: array<real>, den: Vec, i: nat, k: nat, sum0: real, sum1: real, round: Rounding,
                    ghost f: Filter, ghost was: Vec)
    requires y != out && k <= 2 && |den| >= 4 && f.den == den && f.round == round
    requires Patching(f, was, y[..], out[..], i, k) && Partial(f, was, i, k, sum0) && Partial(f, was, i, k + 1, sum1)
    modifies y, out
    ensures Patching(f, was, y[..], out[..], i, k + 2)
  {
    PatchAndEmit(y, out, den, i, k, sum0, round, f, was);
    PatchAndEmit(y, out, den, i, k + 1, sum1, round, f, was);
  }

  /** The reversed coefficients, and the negated memory with zeros above it. */
  method Arrange(den: Vec, mem: array<real>, n: nat, ghost f: Filter) returns (rden: Vec, y: array<real>)
    requires ValidFilter(f) && f.den == den && f.mem == mem[..] && |f.x| == n
    ensures rden == Reverse(den) && fresh(y) && Negated(f, y[..], 0)
  {
    var ord := |den|;
    var r := new real[ord];
    for i := 0 to ord
      invariant forall k :: 0 <= k < i ==> r[k] == den[ord - 1 - k]
    {
      r[i] := den[ord - i - 1];
    }
    rden := r[..];
    y := new real[n + ord];
    for i := 0 to ord
      invariant forall k :: 0 <= k < i ==> y[k] == -mem[ord - 1 - k]
    {
      y[i] := -mem[ord - i - 1];
    }
    for i := ord to n + ord
      invariant forall k :: 0 <= k < i ==> y[k] == if k < ord then -mem[ord - 1 - k] else 0.0
    {
      y[i] := 0.0;
    }
  }

  /** The groups of four, and where they end. */
  method Groups(x: Vec, den: Vec, rden: Vec, y: array<real>, out: array<real>, round: Rounding, ghost f: Filter)
    returns (i: nat)
    requires f.x == x && f.den == den && f.round == round && rden == Reverse(den) && ValidFilter(f)
    requires |den| >= 4 && y != out && out.Length == |x| && Negated(f, y[..], 0)
    modifies y, out
    ensures i == Whole(|x|) && Running(f, y[..], out[..], i)
  {
    i := 0;
    while i < |x| - 3
      invariant i % 4 == 0 && i <= |x| && Running(f, y[..], out[..], i)
    {
      FourOutputs(x, den, rden, y, out, i, round, f);
      i := i + 4;
    }
  }

  // ----- The samples left over when N is not a multiple of four

  function Whole(n: nat): (m: nat)
    ensures m <= n < m + 4
  {
    n - n % 4
  }

  /**
   The vector the source's last loop reads at sample i: the negated past before sample m, and above it the rounded
   outputs of the loop itself, which are not negated.
   */
  function LeftPast(f: Filter, m: nat, i: nat): (y: Vec)
    requires ValidFilter(f) && m <= i <= |f.x|
    ensures |y| == |f.den| + i
    decreases i, 0
  {
    if i == m then seq(|f.den| + m, t requires 0 <= t < |f.den| + m => -Past(f, m)[t])
    else LeftPast(f, m, i - 1) + [f.round(LeftOver(f, m, i - 1))]
  }

  /** What it computes: products with negated samples are subtracted. */
  function LeftOver(f: Filter, m: nat, i: nat): real
    requires ValidFilter(f) && m <= i < |f.x|
    decreases i, 1
  {
    f.x[i] - Feedback(f.den, LeftPast(f, m, i), |f.den| + i, |f.den|)
  }

  /** The outputs of the unrolled form. */
  function Unrolled(f: Filter, i: nat): real
    requires ValidFilter(f) && i < |f.x|
  {
    if i < Whole(|f.x|) then Output(f, i) else LeftOver(f, Whole(|f.x|), i)
  }

  /** The past before sample m, as seen from sample i, and nothing above it. */
  function OldPart(f: Filter, m: nat, i: nat): (z: Vec)
    requires ValidFilter(f) && m <= i <= |f.x|
    ensures |z| == |f.den| + i
  {
    seq(|f.den| + i, t requires 0 <= t < |f.den| + i => if t < |f.den| + m then Past(f, m)[t] else 0.0)
  }

  /** What it feeds back there. */
  function OldFeedback(f: Filter, m: nat, i: nat): real
    requires ValidFilter(f) && m <= i < |f.x|
  {
    Feedback(f.den, OldPart(f, m, i), |f.den| + i, |f.den|)
  }

  lemma {:induction false} FeedbackLinear(den: Vec, y: Vec, z: Vec, w: Vec, p: nat, n: nat)
    requires n <= |den| && n <= p && p <= |y| && p <= |z| && p <= |w|
    requires forall t :: p - n <= t < p ==> y[t] == z[t] - 2.0 * w[t]
    ensures Feedback(den, y, p, n) == Feedback(den, z, p, n) - 2.0 * Feedback(den, w, p, n)
  {
    if n > 0 {
      FeedbackLinear(den, y, z, w, p, n - 1);
      ProductLinear(den[n - 1], y[p - n], z[p - n], w[p - n]);
    }
  }

  lemma ProductLinear(d: real, y: real, z: real, w: real)
    requires y == z - 2.0 * w
    ensures d * y == d * z - 2.0 * (d * w)
  {
  }

  /** As long as the loop's outputs are right, it reads the past with its old part negated. */
  lemma {:induction false} LeftPastIs(f: Filter, m: nat, i: nat, t: nat)
    requires ValidFilter(f) && m <= i <= |f.x| && t < |f.den| + i
    requires forall k :: m <= k < i ==> LeftOver(f, m, k) == Output(f, k)
    ensures LeftPast(f, m, i)[t] == Past(f, i)[t] - 2.0 * OldPart(f, m, i)[t]
  {
    if i > m {
      if t < |f.den| + i - 1 {
        LeftPastIs(f, m, i - 1, t);
      }
    }
  }

  lemma LeftOverStep(f: Filter, m: nat, i: nat)
    requires ValidFilter(f) && m <= i < |f.x|
    requires forall k :: m <= k < i ==> LeftOver(f, m, k) == Output(f, k)
    ensures LeftOver(f, m, i) == Output(f, i) + 2.0 * OldFeedback(f, m, i)
  {
    forall t | 0 <= t < |f.den| + i ensures LeftPast(f, m, i)[t] == Past(f, i)[t] - 2.0 * OldPart(f, m, i)[t] {
      LeftPastIs(f, m, i, t);
    }
    FeedbackLinear(f.den, LeftPast(f, m, i), Past(f, i), OldPart(f, m, i), |f.den| + i, |f.den|);
  }

  /** The loop's outputs from m up to n are those of the recurrence. */
  ghost predicate Right(f: Filter, m: nat, n: nat)
    requires ValidFilter(f) && m <= n <= |f.x|
  {
    forall i :: m <= i < n ==> LeftOver(f, m, i) == Output(f, i)
  }

  /** The past from before m feeds nothing back from m up to n. */
  ghost predicate Silent(f: Filter, m: nat, n: nat)
    requires ValidFilter(f) && m <= n <= |f.x|
  {
    forall i :: m <= i < n ==> OldFeedback(f, m, i) == 0.0
  }

  /**
   Subtracting the negated feedback adds it: the outputs left over are those of the recurrence if and only if, at each
   of them, the past from before them feeds nothing back.
   */
  lemma {:induction false} LeftOverAgrees(f: Filter, m: nat, n: nat)
    requires ValidFilter(f) && m <= n <= |f.x|
    ensures Right(f, m, n) <==> Silent(f, m, n)
  {
    if n > m {
      var k := n - 1;
      LeftOverAgrees(f, m, k);
      if Right(f, m, k) {
        LeftOverStep(f, m, k);
      }
      assert Right(f, m, n) <==> Right(f, m, k) && LeftOver(f, m, k) == Output(f, k);
      assert Silent(f, m, n) <==> Silent(f, m, k) && OldFeedback(f, m, k) == 0.0;
    }
  }

  // ----- The whole filter

  /** One round of the source's last loop, on the vector z. */
  ghost predicate LeftLink(f: Filter, z: Vec, out: real, i: nat)
    requires i < |f.x|
  {
    && |z| == |f.den| + |f.x| && z[|f.den| + i] == f.round(out)
    && out == f.x[i] - Feedback(f.den, z[..|f.den| + i], |f.den| + i, |f.den|)
  }

  lemma {:induction false} LeftPastPrefix(f: Filter, m: nat, i: nat, n: nat)
    requires ValidFilter(f) && m <= i <= n <= |f.x|
    ensures LeftPast(f, m, n)[..|f.den| + i] == LeftPast(f, m, i)
    decreases n
  {
    if i < n {
      LeftPastPrefix(f, m, i, n - 1);
    }
  }

  lemma LeftLinked(f: Filter, m: nat, i: nat)
    requires ValidFilter(f) && m <= i < |f.x|
    ensures LeftLink(f, LeftPast(f, m, |f.x|), LeftOver(f, m, i), i)
  {
    LeftPastPrefix(f, m, i, |f.x|);
    LeftPastPrefix(f, m, i + 1, |f.x|);
    assert LeftPast(f, m, |f.x|)[|f.den| + i] == LeftPast(f, m, |f.x|)[..|f.den| + i + 1][|f.den| + i];
  }

  /** The source's last loop, along the vector z and the outputs outs. */
  method LeftLoop(x: Vec, den: Vec, rden: Vec, y: array<real>, out: array<real>, m: nat, round: Rounding,
                  ghost f: Filter, ghost z: Vec, ghost outs: Vec)
    requires f.x == x && f.den == den && f.round == round && rden == Reverse(den) && y != out
    requires m <= |x| == out.Length == |outs| && y.Length == |z| == |den| + |x| && y[..|den| + m] == z[..|den| + m]
    requires forall i: nat :: m <= i < |x| ==> LeftLink(f, z, outs[i], i)
    modifies y, out
    ensures forall i :: 0 <= i < m ==> out[i] == old(out[i])
    ensures forall i :: m <= i < |x| ==> out[i] == outs[i]
  {
    for i := m to |x|
      invariant y[..|den| + i] == z[..|den| + i]
      invariant forall k :: 0 <= k < m ==> out[k] == old(out[k])
      invariant forall k :: m <= k < i ==> out[k] == outs[k]
    {
      assert LeftLink(f, z, outs[i], i);
      var sum := LessProducts(x[i], den, rden, y, i, z[..|den| + i]);
      y[|den| + i] := round(sum);
      assert y[..|den| + i + 1] == y[..|den| + i] + [round(sum)] == z[..|den| + i + 1];
      out[i] := sum;
    }
  }

  method LeftOvers(x: Vec, den: Vec, rden: Vec, y: array<real>, out: array<real>, m: nat, round: Rounding,
                   ghost f: Filter)
    requires f.x == x && f.den == den && f.round == round && rden == Reverse(den) && ValidFilter(f) && y != out
    requires m <= |x| && Running(f, y[..], out[..], m)
    modifies y, out
    ensures forall i :: 0 <= i < m ==> out[i] == old(out[i])
    ensures forall i :: m <= i < |x| ==> out[i] == LeftOver(f, m, i)
  {
    ghost var z := LeftPast(f, m, |x|);
    ghost var outs := seq(|x|, i requires 0 <= i < |x| => if i < m then 0.0 else LeftOver(f, m, i));
    forall i: nat | m <= i < |x| ensures LeftLink(f, z, outs[i], i) {
      LeftLinked(f, m, i);
    }
    LeftPastPrefix(f, m, m, |x|);
    assert y[..|den| + m] == LeftPast(f, m, m);
    LeftLoop(x, den, rden, y, out, m, round, f, z, outs);
  }

  /** A sample less its products; z is what the vector holds up to it. */
  method LessProducts(xi: real, den: Vec, rden: Vec, y: array<real>, i: nat, ghost z: Vec) returns (sum: real)
    requires rden == Reverse(den) && |den| + i <= y.Length && z == y[..|den| + i]
    ensures sum == xi - Feedback(den, z, |den| + i, |den|)
  {
    sum := xi;
    for j := 0 to |den|
      invariant sum == xi - Corr(rden, z, i, j)
    {
      sum := sum - rden[j] * y[i + j];
    }
    CorrIsFeedback(den, z, i);
  }

  /** The outputs of celt_iir, unrolled by four, for any number of samples. */
  method IirOutputs(x: Vec, den: Vec, out: array<real>, mem: array<real>, round: Rounding)
    requires |den| % 4 == 0 && 4 <= |den| == mem.Length && out.Length == |x| && out != mem
    modifies out
    ensures var f := Filter(x, den, mem[..], round); forall i :: 0 <= i < |x| ==> out[i] == Unrolled(f, i)
  {
    ghost var f := Filter(x, den, mem[..], round);
    var rden, y := Arrange(den, mem, |x|, f);
    var m := Groups(x, den, rden, y, out, round, f);
    LeftOvers(x, den, rden, y, out, m, round, f);
  }

  /**
   celt_iir, unrolled by four. Where N is a multiple of four it gives the outputs of the direct form; the memory it
   leaves is the outputs before rounding, where the direct form leaves them rounded.
   */
  method IirUnrolled(x: Vec, den: Vec, out: array<real>, mem: array<real>, round: Rounding)
    requires |den| % 4 == 0 && 4 <= |den| <= |x|
    requires out.Length == |x| && mem.Length == |den| && out != mem
    modifies out, mem
    ensures var f := Filter(x, den, old(mem[..]), round);
      (forall i :: 0 <= i < |x| ==> out[i] == Unrolled(f, i)) && mem[..] == LastOutputs(f)
  {
    ghost var f := Filter(x, den, mem[..], round);
    IirOutputs(x, den, out, mem, round);
    label Filtered:
    ghost var z := LastOutputs(f);
    assert forall j :: 0 <= j < |den| ==> z[j] == out[|x| - 1 - j];
    for j := 0 to |den|
      invariant forall k :: 0 <= k < j ==> mem[k] == z[k]
      invariant out[..] == old@Filtered(out[..])
    {
      mem[j] := out[|x| - j - 1];
    }
  }

  // ----- The memory

  /** The last outputs of the unrolled form, latest first. */
  ghost function LastOutputs(f: Filter): (z: Vec)
    requires ValidFilter(f) && |f.den| <= |f.x|
    ensures |z| == |f.den|
  {
    seq(|f.den|, j requires 0 <= j < |f.den| => Unrolled(f, |f.x| - 1 - j))
  }

  lemma HeldRounded(f: Filter, mem: Vec, j: nat)
    requires ValidFilter(f) && |f.den| <= |f.x| && Holds(f, mem, |f.x|) && j < |f.den|
    ensures mem[j] == f.round(Output(f, |f.x| - 1 - j))
  {
    var i := |f.x| - 1 - j;
    PastGrows(f, i + 1, |f.x|, |f.den| + i);
    assert Past(f, i + 1)[|f.den| + i] == f.round(Output(f, i));
  }

  /** The memory of the direct form: its last outputs, rounded, latest first. */
  ghost function LastRounded(f: Filter): (z: Vec)
    requires ValidFilter(f) && |f.den| <= |f.x|
    ensures |z| == |f.den|
  {
    seq(|f.den|, j requires 0 <= j < |f.den| => f.round(Output(f, |f.x| - 1 - j)))
  }

  /**
   The direct form leaves its last outputs rounded in the memory, the unrolled form leaves its own as they are: the
   memories agree if and only if the ones, rounded, equal the others. For N a multiple of four that is, if and only if
   rounding leaves the last outputs unchanged.
   */
  lemma MemoriesAgree(f: Filter, mem: Vec)
    requires ValidFilter(f) && |f.den| <= |f.x| && Holds(f, mem, |f.x|)
    ensures mem == LastRounded(f)
    ensures mem == LastOutputs(f) <==> forall j :: 0 <= j < |f.den| ==> LastRounded(f)[j] == LastOutputs(f)[j]
  {
    forall j | 0 <= j < |f.den| ensures mem[j] == LastRounded(f)[j] {
      HeldRounded(f, mem, j);
    }
  }

  /** For N a multiple of four the unrolled form's outputs are those of the recurrence. */
  lemma WholeGroups(f: Filter, j: nat)
    requires ValidFilter(f) && |f.den| <= |f.x| && |f.x| % 4 == 0 && j < |f.den|
    ensures LastOutputs(f)[j] == Output(f, |f.x| - 1 - j)
    ensures LastRounded(f)[j] == f.round(LastOutputs(f)[j])
  {
  }

  // ----- Inputs for which they do not agree

  /** Five samples of silence after an impulse that the filter keeps sending back with its sign changed. */
  function Ringing(): Filter {
    Filter([0.0, 0.0, 0.0, 0.0, 0.0], [1.0, 0.0, 0.0, 0.0], [1.0, 0.0, 0.0, 0.0], (v: real) => v)
  }

  lemma RingingLast(f: Filter, z: Vec, i: nat)
    requires f.den == [1.0, 0.0, 0.0, 0.0] && |z| == 4 + i
    ensures Feedback(f.den, z, 4 + i, 4) == z[3 + i]
  {
    assert Feedback(f.den, z, 4 + i, 1) == Feedback(f.den, z, 4 + i, 0) + z[3 + i];
    assert Feedback(f.den, z, 4 + i, 2) == z[3 + i];
    assert Feedback(f.den, z, 4 + i, 3) == z[3 + i];
  }

  /** The recurrence alternates. */
  lemma {:induction false} RingingOutput(f: Filter, i: nat)
    requires f == Ringing() && i < 5
    ensures Output(f, i) == if i % 2 == 0 then -1.0 else 1.0
  {
    RingingLast(f, Past(f, i), i);
    if i > 0 {
      RingingOutput(f, i - 1);
    }
  }

  /** For the sample left over the unrolled form gives 1, the recurrence -1. */
  lemma LeftOverDiffers()
    ensures var f := Ringing(); Unrolled(f, 4) == 1.0 && Output(f, 4) == -1.0
  {
    var f := Ringing();
    RingingOutput(f, 3);
    RingingOutput(f, 4);
    RingingLast(f, LeftPast(f, 4, 4), 4);
    assert Past(f, 4)[7] == Output(f, 3);
  }

  /** One sample of a half, no feedback, and rounding down. */
  function Halving(): Filter {
    Filter([0.0, 0.0, 0.0, 0.5], [0.0, 0.0, 0.0, 0.0], [0.0, 0.0, 0.0, 0.0], (v: real) => v.Floor as real)
  }

  lemma {:induction false} NoFeedback(den: Vec, z: Vec, p: nat, n: nat)
    requires n <= |den| && n <= p <= |z| && forall k :: 0 <= k < |den| ==> den[k] == 0.0
    ensures Feedback(den, z, p, n) == 0.0
  {
    if n > 0 {
      NoFeedback(den, z, p, n - 1);
    }
  }

  /** The direct form leaves 0 at the head of the memory, the unrolled form 0.5. */
  lemma MemoriesDiffer(mem: Vec)
    requires Holds(Halving(), mem, 4)
    ensures mem[0] == 0.0 && LastOutputs(Halving())[0] == 0.5
  {
    var f := Halving();
    NoFeedback(f.den, Past(f, 3), 7, 4);
    assert Output(f, 3) == 0.5;
    HeldRounded(f, mem, 0);
    WholeGroups(f, 0);
  }
}
