/**
 Which bands the last pass of the fine energy serves, told from the bands' fine bits and priorities alone: first those
 of priority 0, from the lowest band up, then those of priority 1, while a bit for every channel is left.
 */
module FineLast {
  import opened Arith
  import opened CoarseSpec
  import opened FineSpec

  /** How many bands below i want one more bit and bear the priority. */
  function Wanting(f: Frame, priority: int, i: nat): nat
    requires ValidFrame(f) && f.start <= i <= f.end
  {
    if i == f.start then 0
    else Wanting(f, priority, i - 1) + if f.fine[i - 1] < 8 && f.priority[i - 1] == priority then 1 else 0
  }

  /** How many bands the bits left can serve. */
  function Turns(left: int, channels: nat): nat
    requires channels > 0
  {
    if left < 0 then 0 else left / channels
  }

  /** How many bands below i have another energy in t than in s, by their first channel. */
  function Moved(f: Frame, s: Tuning, t: Tuning, i: nat): nat
    requires Fits(f, s) && Fits(f, t) && f.start <= i <= f.end
  {
    if i == f.start then 0
    else Moved(f, s, t, i - 1) +
         if s.levels[Slot(i - 1, 0, f.nb)] != t.levels[Slot(i - 1, 0, f.nb)] then 1 else 0
  }

  /** After the turns of w bands another is left exactly if there are more. */
  lemma TurnLeft(left: int, channels: nat, w: nat)
    requires 1 <= channels <= 2
    ensures left - channels * Min(Turns(left, channels), w) >= channels <==> w < Turns(left, channels)
  {
    if channels == 1 {
      assert channels * Min(Turns(left, channels), w) == Min(Turns(left, channels), w);
    } else {
      assert channels * Min(Turns(left, channels), w) == 2 * Min(Turns(left, channels), w);
    }
  }

  lemma TurnTaken(channels: nat, w: nat, turns: nat)
    ensures channels * Min(turns, w + 1) == channels * Min(turns, w) + if w < turns then channels else 0
  {
  }

  /** A round serves the bands that want a bit, in order, while its turns last. */
  lemma {:induction false} RoundLeft(f: Frame, priority: int, i: nat, r: Rest)
    requires Fits(f, r.s) && f.start <= i <= f.end
    ensures LastTo(f, priority, i, r).left ==
            r.left - f.channels * Min(Turns(r.left, f.channels), Wanting(f, priority, i))
  {
    if i > f.start {
      RoundLeft(f, priority, i - 1, r);
      RoundNext(f, priority, i - 1, r, Turns(r.left, f.channels), Wanting(f, priority, i - 1));
    }
  }

  lemma RoundNext(f: Frame, priority: int, i: nat, r: Rest, turns: nat, w: nat)
    requires Fits(f, r.s) && f.start <= i < f.end && turns == Turns(r.left, f.channels) && w == Wanting(f, priority, i)
    requires LastTo(f, priority, i, r).left == r.left - f.channels * Min(turns, w)
    ensures LastTo(f, priority, i + 1, r).left == r.left - f.channels * Min(turns, Wanting(f, priority, i + 1))
  {
    TurnLeft(r.left, f.channels, w);
    TurnTaken(f.channels, w, turns);
  }

  lemma RoundServes(f: Frame, priority: int, j: nat, r: Rest)
    requires Fits(f, r.s) && f.start <= j < f.end
    ensures Served(f, priority, j, r) <==>
            f.fine[j] < 8 && f.priority[j] == priority && Wanting(f, priority, j) < Turns(r.left, f.channels)
  {
    RoundLeft(f, priority, j, r);
    TurnLeft(r.left, f.channels, Wanting(f, priority, j));
  }

  lemma SecondTurns(f: Frame, r: Rest)
    requires Fits(f, r.s)
    ensures var t, n := Turns(r.left, f.channels), Wanting(f, 0, f.end);
      Turns(LastTo(f, 0, f.end, r).left, f.channels) == if n < t then t - n else 0
  {
    RoundLeft(f, 0, f.end, r);
    TurnsAfter(r.left, f.channels, Wanting(f, 0, f.end));
  }

  lemma TurnsAfter(left: int, channels: nat, n: nat)
    requires 1 <= channels <= 2
    ensures var t := Turns(left, channels);
      Turns(left - channels * Min(t, n), channels) == if n < t then t - n else 0
  {
    var t := Turns(left, channels);
    if channels == 1 {
      assert channels * Min(t, n) == Min(t, n);
    } else {
      assert channels * Min(t, n) == 2 * Min(t, n);
    }
  }

  /** The bands that are served: those that want a bit and come early enough, by priority and then by number. */
  predicate InTurn(f: Frame, left: int, j: nat)
    requires ValidFrame(f) && f.start <= j < f.end
  {
    && f.fine[j] < 8
    && (|| (f.priority[j] == 0 && Wanting(f, 0, j) < Turns(left, f.channels))
        || (f.priority[j] == 1 && Wanting(f, 0, f.end) + Wanting(f, 1, j) < Turns(left, f.channels)))
  }

  /** The energy after the last bit: half of what is left up or down, as the error says. */
  function Nudged(level: real, e: real, n: nat): real {
    if e < 0.0 then level - Unit(n + 2) else level + Unit(n + 2)
  }

  lemma NudgedIs(e: real, n: nat)
    requires n < 14
    ensures HalfMiddle(HalfOf(e), n) == Nudged(0.0, e, n)
  {
    FractionIs(n + 1, 14);
    UnitNext(n + 1);
    HalfUnit(e, Unit(n + 1), Unit(n + 2));
  }

  lemma HalfUnit(e: real, u: real, v: real)
    requires v == u / 2.0
    ensures HalfMiddleOf(HalfOf(e), u) == if e < 0.0 then -v else v
  {
  }

  /** The last pass nudges every channel of the bands whose turn comes, and no other energy. */
  lemma LastLevels(f: Frame, r: Rest, j: nat, d: nat)
    requires Fits(f, r.s) && InFrame(f, j, d)
    ensures var k := Slot(j, d, f.nb);
      Finalised(f, r).s.levels[k] ==
      if InTurn(f, r.left, j) then Nudged(r.s.levels[k], r.s.error[k], f.fine[j]) else r.s.levels[k]
  {
    var k, b := Slot(j, d, f.nb), LastTo(f, 0, f.end, r);
    LastErrors(f, 0, f.end, r, j, d);
    LastErrors(f, 1, f.end, b, j, d);
    LastSum(f, 0, f.end, r);
    LastSum(f, 1, f.end, b);
    RoundServes(f, 0, j, r);
    RoundServes(f, 1, j, b);
    SecondTurns(f, r);
    if f.fine[j] < 8 {
      NudgedIs(r.s.error[k], f.fine[j]);
      UnitInverse(f.fine[j] + 2);
    }
  }

  /** A band that wants a bit in the first round goes without only if no band of the second round gets one. */
  lemma FirstRoundFirst(f: Frame, r: Rest, j: nat, d: nat, i: nat, c: nat)
    requires Fits(f, r.s) && InFrame(f, j, d) && InFrame(f, i, c)
    requires f.fine[j] < 8 && f.priority[j] == 0 && f.priority[i] == 1
    requires Finalised(f, r).s.levels[Slot(j, d, f.nb)] == r.s.levels[Slot(j, d, f.nb)]
    ensures Finalised(f, r).s.levels[Slot(i, c, f.nb)] == r.s.levels[Slot(i, c, f.nb)]
  {
    LastLevels(f, r, j, d);
    LastLevels(f, r, i, c);
    UnitInverse(f.fine[j] + 2);
    WantingGrows(f, 0, j + 1, f.end);
  }

  lemma {:induction false} WantingGrows(f: Frame, priority: int, i: nat, j: nat)
    requires ValidFrame(f) && f.start <= i <= j <= f.end
    ensures Wanting(f, priority, i) <= Wanting(f, priority, j)
    decreases j
  {
    if i < j {
      WantingGrows(f, priority, i, j - 1);
    }
  }

  /** As many bands as can be served are served. */
  lemma MovedInAll(f: Frame, r: Rest)
    requires Fits(f, r.s)
    ensures Moved(f, r.s, Finalised(f, r).s, f.end) ==
            Min(Turns(r.left, f.channels), Wanting(f, 0, f.end) + Wanting(f, 1, f.end))
  {
    MovedBelow(f, r, Finalised(f, r).s, f.end, Turns(r.left, f.channels), Wanting(f, 0, f.end));
  }

  lemma {:induction false} MovedBelow(f: Frame, r: Rest, t: Tuning, i: nat, turns: nat, first: nat)
    requires Fits(f, r.s) && Fits(f, t) && f.start <= i <= f.end && t == Finalised(f, r).s
    requires turns == Turns(r.left, f.channels) && first == Wanting(f, 0, f.end)
    ensures Moved(f, r.s, t, i) == Min(turns, Wanting(f, 0, i)) + Min(Less(turns, first), Wanting(f, 1, i))
  {
    if i > f.start {
      MovedBelow(f, r, t, i - 1, turns, first);
      LastLevels(f, r, i - 1, 0);
      UnitInverse(f.fine[i - 1] + 2);
    }
  }

  function Less(a: nat, b: nat): nat {
    if b < a then a - b else 0
  }
}
