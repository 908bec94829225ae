/**
 The bound behind the assertions of laplace.c: for every decay up to 11456, the limit its comment states, the
 decaying part of the distribution ends early enough to leave a tail, whatever the probability of zero.

 In exact arithmetic the part after magnitude i would cost 2 f / (1 - decay / 16384) frequencies, and two more a
 level for the guaranteed minimum; rounding down gives some back. The proof bounds the excess by 30: two for each
 level down to a small frequency, and below that by evaluation, for eight ranges of the decay.
 */
module LaplaceTail {
  import opened Arith
  import opened Laplace

  /** What the decaying part takes up from frequency f on. */
  function Cost(f: nat, decay: nat): nat
    requires decay < 16384
  {
    if f == 0 then 0 else 2 * (f + 1) + Cost(Decayed(f, decay), decay)
  }

  lemma {:induction false} TailStartCost(w: Level, decay: nat)
    requires decay < 16384
    ensures TailStart(w, decay) == w.fl + Cost(w.f, decay)
    decreases w.f
  {
    if w.f > 0 {
      TailStartCost(NextLevel(w, decay), decay);
    }
  }

  /** The decayed frequency, for a given product. */
  lemma DecayedIs(f: nat, d: nat, x: int)
    requires d < 16384 && x == 2 * f * d
    ensures Decayed(f, d) == x / 32768 && 32768 * Decayed(f, d) <= x
  {
  }

  lemma DecayedMonotone(f: nat, g: nat, d: nat, e: nat)
    requires f <= g && d <= e < 16384
    ensures Decayed(f, d) <= Decayed(g, e)
  {
    MulMonotone(2 * f, d, e);
    MulMonotone(e, 2 * f, 2 * g);
  }

  lemma {:induction false} CostMonotone(f: nat, g: nat, d: nat, e: nat)
    requires f <= g && d <= e < 16384
    ensures Cost(f, d) <= Cost(g, e)
    decreases f
  {
    if f > 0 {
      DecayedMonotone(f, g, d, e);
      CostMonotone(Decayed(f, d), Decayed(g, e), d, e);
    }
  }

  /** The cost exceeds the exact one by no more than m. */
  predicate Within(f: nat, cost: int, decay: nat, m: int) {
    (16384 - decay) * (cost - m) <= 32768 * f
  }

  lemma CornerWithin(g: nat, cost: int, most: int, d: nat, lo: nat, m: int)
    requires cost <= most && lo <= d < 16384 && Within(g, most, lo, m)
    ensures Within(g, cost, d, m)
  {
    MulMonotone(16384 - d, cost - m, most - m);
    if most - m > 0 {
      MulMonotone(most - m, 16384 - d, 16384 - lo);
    } else {
      MulMonotone(16384 - d, most - m, 0);
    }
  }

  /** Each level adds at most two to the excess. */
  lemma LevelWithin(f: nat, d: nat, g: nat, c: nat, m: int)
    requires d < 16384 && g == Decayed(f, d) && Within(g, c, d, m)
    ensures Within(f, 2 * (f + 1) + c, d, m + 2)
  {
    DecayedIs(f, d, 2 * f * d);
    AddLevel(f, d, g, c, m, 2 * f * d);
  }

  lemma AddLevel(f: nat, d: nat, g: nat, c: int, m: int, x: int)
    requires 32768 * g <= x == 2 * f * d && Within(g, c, d, m)
    ensures Within(f, 2 * (f + 1) + c, d, m + 2)
  {
    Distribute(16384 - d, 2 * f, c - m);
    Distribute(2 * f, 16384 - d, d);
    assert 2 * (f + 1) + c - (m + 2) == 2 * f + (c - m);
  }

  lemma WithinWeaken(f: nat, cost: int, d: nat, m: int, m': int)
    requires d <= 16384 && m <= m' && Within(f, cost, d, m)
    ensures Within(f, cost, d, m')
  {
    MulMonotone(16384 - d, cost - m', cost - m);
  }

  /** Whether n levels of decay bring f down to base or less. */
  predicate Reaches(f: nat, base: nat, hi: nat, n: nat) {
    f * Power(hi, n) < (base + 1) * Power(16384, n)
  }

  function Power(b: nat, n: nat): nat
    decreases n, b
  {
    if n == 0 then 1 else b * Power(b, n - 1)
  }

  lemma LevelReaches(f: nat, d: nat, base: nat, hi: nat, n: nat)
    requires n > 0 && Reaches(f, base, hi, n) && d <= hi < 16384
    ensures Reaches(Decayed(f, d), base, hi, n - 1)
  {
    DecayedMonotone(f, f, d, hi);
    DecayedIs(f, hi, 2 * f * hi);
    ScaleDown(f, Decayed(f, d), base, hi, Power(hi, n - 1), Power(16384, n - 1));
  }

  lemma ScaleDown(f: nat, g: nat, base: nat, hi: nat, x: nat, y: nat)
    requires 16384 * g <= f * hi && f * (hi * x) < (base + 1) * (16384 * y)
    ensures g * x < (base + 1) * y
  {
    MulMonotone(x, 16384 * g, f * hi);
    assert x * (16384 * g) == 16384 * (g * x);
    assert x * (f * hi) == f * (hi * x);
    assert (base + 1) * (16384 * y) == 16384 * ((base + 1) * y);
  }

  /** The worst corner of a range of decays: every frequency up to base is within 30, those from l on within m. */
  ghost predicate Corner(l: nat, base: nat, lo: nat, hi: nat, m: int)
    requires hi < 16384
  {
    forall f: nat :: f <= base ==> Within(f, Cost(f, hi), lo, if f < l then 30 else m)
  }

  lemma {:induction false} ReachesWithin(f: nat, d: nat, l: nat, base: nat, lo: nat, hi: nat, m: int, n: nat)
    requires lo <= d <= hi < 16384 && Corner(l, base, lo, hi, m)
    requires l <= f && Reaches(f, base, hi, n) && l <= Decayed(base + 1, lo)
    ensures Within(f, Cost(f, d), d, m + 2 * n)
    decreases n
  {
    if f <= base {
      CostMonotone(f, f, d, hi);
      CornerWithin(f, Cost(f, d), Cost(f, hi), d, lo, m);
      WithinWeaken(f, Cost(f, d), d, m, m + 2 * n);
    } else {
      var g := Decayed(f, d);
      DecayedMonotone(base + 1, f, lo, d);
      LevelReaches(f, d, base, hi, n);
      ReachesWithin(g, d, l, base, lo, hi, m, n - 1);
      LevelWithin(f, d, g, Cost(g, d), m + 2 * (n - 1));
    }
  }

  /** A range of decays: evaluated up to base, which every first frequency reaches in n levels. */
  lemma RangeFits(fs0: nat, d: nat, l: nat, base: nat, lo: nat, hi: nat, m: int, n: nat)
    requires 0 < fs0 <= 32736 && lo <= d <= hi < 16384
    requires Corner(l, base, lo, hi, m) && l <= base && l <= Decayed(base + 1, lo) && m + 2 * n <= 30
    requires Reaches((16384 - lo) * 32735 / 32768, base, hi, n)
    ensures TailFits(fs0, d)
  {
    FirstBound(32736 - fs0, 16384 - d, 16384 - lo);
    MulMonotone(Power(hi, n), Freq1(fs0, d), (16384 - lo) * 32735 / 32768);
    FreqFits(fs0, d, l, base, lo, hi, m, n, Freq1(fs0, d));
  }

  lemma FreqFits(fs0: nat, d: nat, l: nat, base: nat, lo: nat, hi: nat, m: int, n: nat, f: nat)
    requires 0 < fs0 <= 32736 && lo <= d <= hi < 16384 && f == Freq1(fs0, d)
    requires Corner(l, base, lo, hi, m) && l <= base && l <= Decayed(base + 1, lo) && m + 2 * n <= 30
    requires Reaches(f, base, hi, n)
    ensures TailFits(fs0, d)
  {
    if f < l {
      CostMonotone(f, f, d, hi);
      CornerWithin(f, Cost(f, d), Cost(f, hi), d, lo, 30);
    } else {
      ReachesWithin(f, d, l, base, lo, hi, m, n);
      WithinWeaken(f, Cost(f, d), d, m + 2 * n, 30);
    }
    ExcessFits(Cost(f, d), f, 16384 - d, 32736 - fs0);
    TailStartCost(First(fs0, d), d);
  }

  lemma FirstBound(ft: nat, q: nat, most: nat)
    requires ft <= 32735 && q <= most
    ensures Scaled(ft, q) <= most * 32735 / 32768
  {
    MulMonotone(q, ft, 32735);
  }

  lemma ExcessFits(c: nat, f: nat, q: nat, ft: nat)
    requires q > 0 && f == Scaled(ft, q) && q * (c - 30) <= 32768 * f
    ensures c <= ft + 30
  {
    Distribute(q, ft, 1);
    if c - 30 > ft {
      MulMonotone(q, ft + 1, c - 30);
    }
  }

  // ----- Eight ranges of decays, each evaluated at its greatest

  /** A table of costs is right at f. */
  predicate StepOf(costs: nat -> int, hi: nat, f: nat) {
    costs(f) == 2 * (f + 1) + costs(2 * hi * f / 32768)
  }

  /** The table gives the costs for a decay, up to base; in a range of decays up to it none exceeds what is allowed. */
  ghost predicate Tabulated(costs: nat -> int, l: nat, base: nat, lo: nat, hi: nat, m: int)
    requires hi < 16384
  {
    && costs(0) == 0 && (forall f: nat :: 0 < f <= base ==> StepOf(costs, hi, f))
    && (forall f: nat :: f <= base ==> Within(f, costs(f), lo, if f < l then 30 else m))
  }

  lemma {:induction false} Evaluate(costs: nat -> int, base: nat, hi: nat, f: nat)
    requires hi < 16384 && costs(0) == 0 && (forall f: nat :: 0 < f <= base ==> StepOf(costs, hi, f)) && f <= base
    ensures Cost(f, hi) == costs(f)
  {
    if f > 0 {
      DecayedIs(f, hi, 2 * f * hi);
      assert 2 * f * hi == 2 * hi * f && StepOf(costs, hi, f);
      Evaluate(costs, base, hi, Decayed(f, hi));
    }
  }

  lemma TableFits(costs: nat -> int, fs0: nat, d: nat, l: nat, base: nat, lo: nat, hi: nat, m: int, n: nat)
    requires 0 < fs0 <= 32736 && lo <= d <= hi < 16384
    requires Tabulated(costs, l, base, lo, hi, m) && l <= base && l <= Decayed(base + 1, lo) && m + 2 * n <= 30
    requires Reaches((16384 - lo) * 32735 / 32768, base, hi, n)
    ensures TailFits(fs0, d)
  {
    forall f: nat | f <= base ensures Within(f, Cost(f, hi), lo, if f < l then 30 else m) {
      Evaluate(costs, base, hi, f);
    }
    RangeFits(fs0, d, l, base, lo, hi, m, n);
  }

  lemma Levels7116()
    ensures Reaches((16384 - 0) * 32735 / 32768, 0, 7116, 12)
  {
  }

  lemma Range7116(fs0: nat, d: nat)
    requires 0 < fs0 <= 32736 && 0 <= d <= 7116
    ensures TailFits(fs0, d)
  {
    var costs := (f: nat) => 0;
    assert Tabulated(costs, 0, 0, 0, 7116, 0);
    Levels7116();
    TableFits(costs, fs0, d, 0, 0, 0, 7116, 0, 12);
  }

  function Costs9102(f: nat): int {
    if f == 0 then 0 else if f == 1 then 4 else if f == 2 then 10 else if f == 3 then 12 else
    if f == 4 then 20 else if f == 5 then 22 else if f == 6 then 26 else 28
  }

  lemma Step9102(f: nat)
    requires 0 < f <= 7
    ensures Costs9102(f) == 2 * (f + 1) + Costs9102(18204 * f / 32768)
  {
  }

  lemma Levels9102()
    ensures Reaches((16384 - 7117) * 32735 / 32768, 7, 9102, 12)
  {
  }

  lemma Range9102(fs0: nat, d: nat)
    requires 0 < fs0 <= 32736 && 7117 <= d <= 9102
    ensures TailFits(fs0, d)
  {
    var costs := (f: nat) => Costs9102(f);
    forall f: nat | 0 < f <= 7 ensures StepOf(costs, 9102, f) {
      Step9102(f);
    }
    assert Tabulated(costs, 3, 7, 7117, 9102, 6);
    Levels9102();
    TableFits(costs, fs0, d, 3, 7, 7117, 9102, 6, 12);
  }

  function Costs9830(f: nat): int {
    if f == 0 then 0 else if f == 1 then 4 else if f == 2 then 10 else if f == 3 then 12 else
    if f == 4 then 20 else 22
  }

  lemma Step9830(f: nat)
    requires 0 < f <= 5
    ensures Costs9830(f) == 2 * (f + 1) + Costs9830(19660 * f / 32768)
  {
  }

  lemma Levels9830()
    ensures Reaches((16384 - 9103) * 32735 / 32768, 5, 9830, 14)
  {
  }

  lemma Range9830(fs0: nat, d: nat)
    requires 0 < fs0 <= 32736 && 9103 <= d <= 9830
    ensures TailFits(fs0, d)
  {
    var costs := (f: nat) => Costs9830(f);
    forall f: nat | 0 < f <= 5 ensures StepOf(costs, 9830, f) {
      Step9830(f);
    }
    assert Tabulated(costs, 3, 5, 9103, 9830, 2);
    Levels9830();
    TableFits(costs, fs0, d, 3, 5, 9103, 9830, 2, 14);
  }

  function Costs10376(f: nat): int {
    if f == 0 then 0 else if f == 1 then 4 else if f == 2 then 10 else if f == 3 then 12 else
    if f == 4 then 20 else if f == 5 then 24 else 26
  }

  lemma Step10376(f: nat)
    requires 0 < f <= 6
    ensures Costs10376(f) == 2 * (f + 1) + Costs10376(20752 * f / 32768)
  {
  }

  lemma Levels10376()
    ensures Reaches((16384 - 9831) * 32735 / 32768, 6, 10376, 15)
  {
    assert Power(10376, 6) == 1247899982016401985765376;
    assert Power(16384, 6) == 19342813113834066795298816;
    assert Power(10376, 12) == 1557254365116536399483022958383511596928520421376;
    assert Power(16384, 12) == 374144419156711147060143317175368453031918731001856;
  }

  lemma Range10376(fs0: nat, d: nat)
    requires 0 < fs0 <= 32736 && 9831 <= d <= 10376
    ensures TailFits(fs0, d)
  {
    var costs := (f: nat) => Costs10376(f);
    forall f: nat | 0 < f <= 6 ensures StepOf(costs, 10376, f) {
      Step10376(f);
    }
    assert Tabulated(costs, 4, 6, 9831, 10376, 0);
    Levels10376();
    TableFits(costs, fs0, d, 4, 6, 9831, 10376, 0, 15);
  }

  function Costs10922(f: nat): int {
    if f == 0 then 0 else if f == 1 then 4 else if f == 2 then 10 else if f == 3 then 12 else
    if f == 4 then 20 else if f == 5 then 24 else if f == 6 then 26 else if f == 7 then 36 else
    if f == 8 then 42 else if f == 9 then 44 else if f == 10 then 48 else if f == 11 then 60 else
    if f == 12 then 62 else 70
  }

  lemma Step10922(f: nat)
    requires 0 < f <= 13
    ensures Costs10922(f) == 2 * (f + 1) + Costs10922(21844 * f / 32768)
  {
  }

  lemma Levels10922()
    ensures Reaches((16384 - 10377) * 32735 / 32768, 13, 10922, 15)
  {
  }

  lemma Range10922(fs0: nat, d: nat)
    requires 0 < fs0 <= 32736 && 10377 <= d <= 10922
    ensures TailFits(fs0, d)
  {
    var costs := (f: nat) => Costs10922(f);
    forall f: nat | 0 < f <= 13 ensures StepOf(costs, 10922, f) {
      Step10922(f);
    }
    assert Tabulated(costs, 8, 13, 10377, 10922, 0);
    Levels10922();
    TableFits(costs, fs0, d, 8, 13, 10377, 10922, 0, 15);
  }

  function Costs10989(f: nat): int {
    if f == 0 then 0 else if f == 1 then 4 else if f == 2 then 10 else if f == 3 then 18 else
    if f == 4 then 20 else if f == 5 then 30 else if f == 6 then 34 else if f == 7 then 36 else
    if f == 8 then 48 else if f == 9 then 54 else if f == 10 then 56 else if f == 11 then 60 else
    if f == 12 then 74 else if f == 13 then 76 else if f == 14 then 84 else if f == 15 then 88 else
    if f == 16 then 90 else if f == 17 then 96 else if f == 18 then 112 else if f == 19 then 114 else
    if f == 20 then 118 else if f == 21 then 128 else if f == 22 then 130 else if f == 23 then 136 else
    if f == 24 then 140 else if f == 25 then 142 else if f == 26 then 150 else if f == 27 then 168 else
    if f == 28 then 170 else if f == 29 then 174 else if f == 30 then 180 else if f == 31 then 182 else
    if f == 32 then 194 else if f == 33 then 198 else if f == 34 then 200 else if f == 35 then 208 else
    if f == 36 then 214 else if f == 37 then 216 else if f == 38 then 220 else if f == 39 then 230 else
    if f == 40 then 232 else if f == 41 then 252 else if f == 42 then 256 else if f == 43 then 258 else
    if f == 44 then 264 else 272
  }

  lemma Step10989(f: nat)
    requires 0 < f <= 45
    ensures Costs10989(f) == 2 * (f + 1) + Costs10989(21978 * f / 32768)
  {
  }

  lemma Levels10989()
    ensures Reaches((16384 - 10923) * 32735 / 32768, 45, 10989, 12)
  {
  }

  lemma Range10989(fs0: nat, d: nat)
    requires 0 < fs0 <= 32736 && 10923 <= d <= 10989
    ensures TailFits(fs0, d)
  {
    var costs := (f: nat) => Costs10989(f);
    forall f: nat | 0 < f <= 45 ensures StepOf(costs, 10989, f) {
      Step10989(f);
    }
    assert Tabulated(costs, 30, 45, 10923, 10989, 6);
    Levels10989();
    TableFits(costs, fs0, d, 30, 45, 10923, 10989, 6, 12);
  }

  function Costs11216(f: nat): int {
    if f == 0 then 0 else if f == 1 then 4 else if f == 2 then 10 else if f == 3 then 18 else
    if f == 4 then 20 else if f == 5 then 30 else if f == 6 then 34 else if f == 7 then 36 else
    if f == 8 then 48 else if f == 9 then 54 else if f == 10 then 56 else if f == 11 then 60 else
    if f == 12 then 74 else if f == 13 then 76 else if f == 14 then 84 else if f == 15 then 88 else
    if f == 16 then 90 else if f == 17 then 96 else if f == 18 then 112 else if f == 19 then 116 else
    if f == 20 then 118 else if f == 21 then 128 else if f == 22 then 134 else if f == 23 then 136 else
    if f == 24 then 140 else if f == 25 then 148 else if f == 26 then 150 else if f == 27 then 168 else
    if f == 28 then 174 else if f == 29 then 176 else if f == 30 then 180 else if f == 31 then 192 else
    if f == 32 then 194 else if f == 33 then 202 else if f == 34 then 206 else if f == 35 then 208 else
    if f == 36 then 214 else if f == 37 then 224 else if f == 38 then 228 else 230
  }

  lemma Step11216(f: nat)
    requires 0 < f <= 39
    ensures Costs11216(f) == 2 * (f + 1) + Costs11216(22432 * f / 32768)
  {
  }

  lemma Levels11216()
    ensures Reaches((16384 - 10990) * 32735 / 32768, 39, 11216, 13)
  {
  }

  lemma Range11216(fs0: nat, d: nat)
    requires 0 < fs0 <= 32736 && 10990 <= d <= 11216
    ensures TailFits(fs0, d)
  {
    var costs := (f: nat) => Costs11216(f);
    forall f: nat | 0 < f <= 39 ensures StepOf(costs, 11216, f) {
      Step11216(f);
    }
    assert Tabulated(costs, 26, 39, 10990, 11216, 4);
    Levels11216();
    TableFits(costs, fs0, d, 26, 39, 10990, 11216, 4, 13);
  }

  function Costs11456(f: nat): int {
    if f == 0 then 0 else if f == 1 then 4 else if f == 2 then 10 else if f == 3 then 18 else
    if f == 4 then 20 else if f == 5 then 30 else if f == 6 then 34 else if f == 7 then 36 else
    if f == 8 then 48 else if f == 9 then 54 else if f == 10 then 56 else if f == 11 then 60 else
    if f == 12 then 74 else if f == 13 then 82 else if f == 14 then 84 else if f == 15 then 88 else
    if f == 16 then 94 else if f == 17 then 96 else if f == 18 then 112 else if f == 19 then 122 else
    if f == 20 then 124 else if f == 21 then 128 else if f == 22 then 134 else if f == 23 then 142 else
    if f == 24 then 144 else if f == 25 then 148 else if f == 26 then 166 else if f == 27 then 168 else
    if f == 28 then 180 else if f == 29 then 184 else if f == 30 then 186 else if f == 31 then 192 else
    if f == 32 then 200 else if f == 33 then 210 else if f == 34 then 212 else if f == 35 then 216 else
    if f == 36 then 222 else if f == 37 then 224 else if f == 38 then 244 else if f == 39 then 248 else
    if f == 40 then 250 else if f == 41 then 264 else if f == 42 then 270 else if f == 43 then 274 else
    if f == 44 then 276 else if f == 45 then 284 else if f == 46 then 294 else if f == 47 then 296 else
    if f == 48 then 308 else 312
  }

  lemma Step11456(f: nat)
    requires 0 < f <= 49
    ensures Costs11456(f) == 2 * (f + 1) + Costs11456(22912 * f / 32768)
  {
  }

  lemma Levels11456()
    ensures Reaches((16384 - 11217) * 32735 / 32768, 49, 11456, 13)
  {
  }

  lemma Range11456(fs0: nat, d: nat)
    requires 0 < fs0 <= 32736 && 11217 <= d <= 11456
    ensures TailFits(fs0, d)
  {
    var costs := (f: nat) => Costs11456(f);
    forall f: nat | 0 < f <= 49 ensures StepOf(costs, 11456, f) {
      Step11456(f);
    }
    assert Tabulated(costs, 34, 49, 11217, 11456, 4);
    Levels11456();
    TableFits(costs, fs0, d, 34, 49, 11217, 11456, 4, 13);
  }

  /** The bound, for every probability of zero and every decay the coder is called with. */
  lemma TailAlwaysFits(fs0: nat, decay: nat)
    requires 0 < fs0 <= 32736 && decay <= 11456
    ensures TailFits(fs0, decay)
  {
    if decay <= 7116 {
      Range7116(fs0, decay);
    } else if decay <= 9102 {
      Range9102(fs0, decay);
    } else if decay <= 9830 {
      Range9830(fs0, decay);
    } else if decay <= 10376 {
      Range10376(fs0, decay);
    } else if decay <= 10922 {
      Range10922(fs0, decay);
    } else if decay <= 10989 {
      Range10989(fs0, decay);
    } else if decay <= 11216 {
      Range11216(fs0, decay);
    } else {
      Range11456(fs0, decay);
    }
  }
}
