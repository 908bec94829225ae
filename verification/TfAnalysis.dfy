/** The search of tf_analysis: the cheapest time-frequency resolution of every band, by Viterbi's algorithm. */
module TfAnalysis {
  import opened Arith
  import opened TfCoding

  /** What the search is given; metrics are in half steps, weighted by importance. */
  datatype Search = Search(metric: seq<int>, importance: seq<int>, lambda: int, transient: bool, lm: nat)

  predicate ValidSearch(p: Search) {
    |p.metric| > 0 && |p.importance| == |p.metric| && p.lm <= 3
  }

  /** The cost of a flag in a band by itself. */
  function Local(p: Search, select: bool, i: nat, flag: bool): int
    requires ValidSearch(p) && i < |p.metric|
  {
    p.importance[i] * Abs(p.metric[i] - 2 * TfTable(p.lm, p.transient, select, flag))
  }

  /** The cost of a flag in the first band: outside of transients a set flag counts as a change. */
  function First(p: Search, select: bool, flag: bool): int
    requires ValidSearch(p)
  {
    Local(p, select, 0, flag) + if flag && !p.transient then p.lambda else 0
  }

  /** What a sequence of flags costs: its bands, and lambda for every change. */
  function Cost(p: Search, select: bool, r: seq<bool>): int
    requires ValidSearch(p) && 0 < |r| <= |p.metric|
  {
    var i := |r| - 1;
    if i == 0 then First(p, select, r[0])
    else Cost(p, select, r[..i]) + (if r[i] != r[i - 1] then p.lambda else 0) + Local(p, select, i, r[i])
  }

  /** The least cost of the bands up to i with this flag in band i. */
  function Best(p: Search, select: bool, i: nat, flag: bool): int
    requires ValidSearch(p) && i < |p.metric|
  {
    if i == 0 then First(p, select, flag)
    else Min(Best(p, select, i - 1, flag), Best(p, select, i - 1, !flag) + p.lambda) + Local(p, select, i, flag)
  }

  function Least(p: Search, select: bool): int
    requires ValidSearch(p)
  {
    Min(Best(p, select, |p.metric| - 1, false), Best(p, select, |p.metric| - 1, true))
  }

  /** The flag before this one on a cheapest path; ties go to a set flag. */
  predicate From(p: Search, select: bool, i: nat, flag: bool)
    requires ValidSearch(p) && 0 < i < |p.metric|
  {
    var cost0 := Best(p, select, i - 1, false) + if flag then p.lambda else 0;
    var cost1 := Best(p, select, i - 1, true) + if flag then 0 else p.lambda;
    !(cost0 < cost1)
  }

  /** A band costs nothing exactly where the resolution change is what its metric asks for. */
  lemma FreeWhereMet(p: Search, select: bool, i: nat, flag: bool)
    requires ValidSearch(p) && i < |p.metric| && p.importance[i] > 0
    ensures Local(p, select, i, flag) >= 0
    ensures Local(p, select, i, flag) == 0 <==> p.metric[i] == 2 * TfTable(p.lm, p.transient, select, flag)
  {
    ZeroProduct(p.importance[i], Abs(p.metric[i] - 2 * TfTable(p.lm, p.transient, select, flag)));
  }

  lemma ZeroProduct(w: int, d: int)
    requires w > 0 && d >= 0
    ensures w * d >= 0 && (w * d == 0 <==> d == 0)
  {
  }

  /** How often the flags change, from a flag that is clear; a transient's first flag is free. */
  function Changes(p: Search, r: seq<bool>): nat {
    if r == [] then 0
    else Changes(p, r[..|r| - 1]) +
         if (if |r| == 1 then r[0] && !p.transient else r[|r| - 1] != r[|r| - 2]) then 1 else 0
  }

  /** What the bands cost each by itself. */
  function Locals(p: Search, select: bool, r: seq<bool>): int
    requires ValidSearch(p) && |r| <= |p.metric|
  {
    if r == [] then 0
    else Locals(p, select, r[..|r| - 1]) + Local(p, select, |r| - 1, r[|r| - 1])
  }

  /** The cost that is minimised: the bands', and lambda for every change. */
  lemma {:induction false} CostIs(p: Search, select: bool, r: seq<bool>)
    requires ValidSearch(p) && 0 < |r| <= |p.metric|
    ensures Cost(p, select, r) == Locals(p, select, r) + p.lambda * Changes(p, r)
    decreases |r|
  {
    if |r| > 1 {
      CostIs(p, select, r[..|r| - 1]);
      Distribute(p.lambda, Changes(p, r[..|r| - 1]), 1);
    } else {
      assert r[..0] == [];
    }
  }

  /** No sequence costs less than Best. */
  lemma {:induction false} BestIsLeast(p: Search, select: bool, r: seq<bool>)
    requires ValidSearch(p) && 0 < |r| <= |p.metric|
    ensures Best(p, select, |r| - 1, r[|r| - 1]) <= Cost(p, select, r)
    decreases |r|
  {
    if |r| > 1 {
      BestIsLeast(p, select, r[..|r| - 1]);
    }
  }

  /** The sequence leads from band to band by cheapest steps. */
  ghost predicate Cheapest(p: Search, select: bool, r: seq<bool>)
    requires ValidSearch(p)
  {
    |r| <= |p.metric| && forall i :: 0 < i < |r| ==> r[i - 1] == From(p, select, i, r[i])
  }

  lemma CheapestPrefix(p: Search, select: bool, r: seq<bool>, i: nat)
    requires ValidSearch(p) && Cheapest(p, select, r) && i <= |r|
    ensures Cheapest(p, select, r[..i])
  {
  }

  lemma StepCost(p: Search, select: bool, i: nat, before: bool, flag: bool)
    requires ValidSearch(p) && 0 < i < |p.metric| && before == From(p, select, i, flag)
    ensures Best(p, select, i, flag) == Best(p, select, i - 1, before)
              + (if flag != before then p.lambda else 0) + Local(p, select, i, flag)
  {
  }

  /** ... and then costs just Best. */
  lemma {:induction false} CheapestCosts(p: Search, select: bool, r: seq<bool>)
    requires ValidSearch(p) && |r| > 0 && Cheapest(p, select, r)
    ensures Cost(p, select, r) == Best(p, select, |r| - 1, r[|r| - 1])
    decreases |r|
  {
    if |r| > 1 {
      var i := |r| - 1;
      CheapestPrefix(p, select, r, i);
      CheapestCosts(p, select, r[..i]);
      StepCost(p, select, i, r[i - 1], r[i]);
    }
  }

  /** The flag of the last band. */
  predicate EndsSet(p: Search, select: bool)
    requires ValidSearch(p)
  {
    !(Best(p, select, |p.metric| - 1, false) < Best(p, select, |p.metric| - 1, true))
  }

  /** Least is the cost of some sequence and no more than that of any. */
  lemma LeastIsMinimum(p: Search, select: bool, r: seq<bool>)
    requires ValidSearch(p) && |r| == |p.metric|
    ensures Least(p, select) <= Cost(p, select, r)
    ensures Cheapest(p, select, r) && r[|r| - 1] == EndsSet(p, select) ==> Cost(p, select, r) == Least(p, select)
  {
    BestIsLeast(p, select, r);
    if Cheapest(p, select, r) {
      CheapestCosts(p, select, r);
    }
  }

  /** The first search: only the costs, for one tf_select. */
  method SearchCost(p: Search, select: bool) returns (cost: int)
    requires ValidSearch(p)
    ensures cost == Least(p, select)
  {
    var cost0 := First(p, select, false);
    var cost1 := First(p, select, true);
    for i := 1 to |p.metric|
      invariant cost0 == Best(p, select, i - 1, false) && cost1 == Best(p, select, i - 1, true)
    {
      var curr0 := Min(cost0, cost1 + p.lambda);
      var curr1 := Min(cost0 + p.lambda, cost1);
      cost0 := curr0 + Local(p, select, i, false);
      cost1 := curr1 + Local(p, select, i, true);
    }
    cost := Min(cost0, cost1);
  }

  /** The forward pass; the paths note where each cost came from. */
  method Forward(p: Search, select: bool, path0: array<bool>, path1: array<bool>) returns (cost0: int, cost1: int)
    requires ValidSearch(p) && path0 != path1 && path0.Length == path1.Length == |p.metric|
    modifies path0, path1
    ensures cost0 == Best(p, select, |p.metric| - 1, false) && cost1 == Best(p, select, |p.metric| - 1, true)
    ensures forall k :: 0 < k < |p.metric| ==>
      path0[k] == From(p, select, k, false) && path1[k] == From(p, select, k, true)
  {
    cost0 := First(p, select, false);
    cost1 := First(p, select, true);
    for i := 1 to |p.metric|
      invariant cost0 == Best(p, select, i - 1, false) && cost1 == Best(p, select, i - 1, true)
      invariant forall k :: 0 < k < i ==>
        path0[k] == From(p, select, k, false) && path1[k] == From(p, select, k, true)
    {
      var curr0, curr1;
      var from0, from1 := cost0, cost1 + p.lambda;
      if from0 < from1 {
        curr0 := from0;
        path0[i] := false;
      } else {
        curr0 := from1;
        path0[i] := true;
      }
      from0, from1 := cost0 + p.lambda, cost1;
      if from0 < from1 {
        curr1 := from0;
        path1[i] := false;
      } else {
        curr1 := from1;
        path1[i] := true;
      }
      cost0 := curr0 + Local(p, select, i, false);
      cost1 := curr1 + Local(p, select, i, true);
    }
  }

  /** The backward pass: the flags along a cheapest path. */
  method Backward(p: Search, select: bool, path0: array<bool>, path1: array<bool>, last: bool, tfRes: array<bool>)
    requires ValidSearch(p) && tfRes != path0 && tfRes != path1
    requires path0.Length == path1.Length == tfRes.Length == |p.metric|
    requires forall k :: 0 < k < |p.metric| ==>
      path0[k] == From(p, select, k, false) && path1[k] == From(p, select, k, true)
    modifies tfRes
    ensures tfRes[|p.metric| - 1] == last && Cheapest(p, select, tfRes[..])
  {
    var len := |p.metric|;
    tfRes[len - 1] := last;
    var i := len - 1;
    while i > 0
      invariant 0 <= i < len && tfRes[len - 1] == last
      invariant forall k :: i < k < len ==> tfRes[k - 1] == From(p, select, k, tfRes[k])
    {
      i := i - 1;
      tfRes[i] := if tfRes[i + 1] then path1[i + 1] else path0[i + 1];
    }
  }

  /**
   The end of tf_analysis. The flags found cost no more than any others, and tf_select is set exactly for transients
   whose cheapest flags with it cost strictly less than without.
   */
  method Analyse(p: Search, tfRes: array<bool>) returns (select: bool)
    requires ValidSearch(p) && tfRes.Length == |p.metric|
    modifies tfRes
    ensures select == (p.transient && Least(p, true) < Least(p, false))
    ensures Cost(p, select, tfRes[..]) == Least(p, select)
    ensures forall r: seq<bool> :: |r| == |p.metric| ==> Cost(p, select, tfRes[..]) <= Cost(p, select, r)
    ensures p.transient ==>
      forall s: bool, r: seq<bool> :: |r| == |p.metric| ==> Cost(p, select, tfRes[..]) <= Cost(p, s, r)
  {
    var selcost0 := SearchCost(p, false);
    var selcost1 := SearchCost(p, true);
    select := selcost1 < selcost0 && p.transient;
    var path0, path1 := new bool[|p.metric|], new bool[|p.metric|];
    var cost0, cost1 := Forward(p, select, path0, path1);
    Backward(p, select, path0, path1, !(cost0 < cost1), tfRes);
    LeastIsMinimum(p, select, tfRes[..]);
    forall s: bool, r: seq<bool> | |r| == |p.metric| && (s == select || p.transient)
      ensures Cost(p, select, tfRes[..]) <= Cost(p, s, r)
    {
      LeastIsMinimum(p, s, r);
    }
  }
}
