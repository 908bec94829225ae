/** What the trim does to the levels of the allocator: it tilts them towards the low bands or towards the high ones. */
module RateTilt {
  import opened Arith
  import opened RateSpec

  /** The coefficients of band j in all channels, times the bands above it, at the frame size: eight times the tilt. */
  function Lever(f: Frame, j: nat): (l: nat)
    requires ValidFrame(f) && j < f.end
  {
    MulMonotone(f.channels, 0, Width(f, j));
    MulMonotone(f.channels * Width(f, j), 0, f.end - 1 - j);
    MulMonotone(f.channels * Width(f, j) * (f.end - 1 - j), 0, Pow2(f.lm));
    f.channels * Width(f, j) * (f.end - 1 - j) * Pow2(f.lm)
  }

  /** A trim of one more. */
  function Tilted(f: Frame): Frame {
    f.(trim := f.trim + 1)
  }

  /** The tilt is an eighth of the lever for every unit of trim above 5 + lm, rounded down. */
  lemma TrimOffsetIs(f: Frame, j: nat)
    requires ValidFrame(f) && j < f.end
    ensures var one := Width(f, j) * Pow2(f.lm) == 1;
      TrimOffset(f, j) == Lever(f, j) * (f.trim - 5 - f.lm) / 8 - if one then 8 * f.channels else 0
  {
    var a, t, e, p := f.channels * Width(f, j), f.trim - 5 - f.lm, f.end - 1 - j, Pow2(f.lm);
    Pow2Times8(f.lm);
    Rearrange(a, t, e, p);
    EighthOf64(a * e * p * t);
  }

  lemma Pow2Times8(n: nat)
    ensures Pow2(n + 3) == 8 * Pow2(n)
  {
    assert Pow2(n + 3) == 2 * Pow2(n + 2) && Pow2(n + 2) == 2 * Pow2(n + 1);
  }

  lemma Rearrange(a: int, t: int, e: int, p: int)
    ensures a * t * e * (8 * p) == 8 * (a * e * p * t)
  {
    assert a * t * e == a * e * t;
    assert a * e * t * (8 * p) == 8 * (a * e * t * p);
    assert a * e * t * p == a * e * p * t;
  }

  lemma EighthOf64(x: int)
    ensures 8 * x / 64 == x / 8
  {
  }

  /** What row `row` has for band j before it is tilted. */
  function Untilted(f: Frame, row: nat, j: nat): int
    requires ValidFrame(f) && row < |f.mode.allocVectors| && j < f.end
  {
    f.channels * (f.mode.eBands[j + 1] - f.mode.eBands[j]) * f.mode.allocVectors[row][j] * Pow2(f.lm) / 4
  }

  lemma Same(f: Frame, row: nat, j: nat)
    requires ValidFrame(f) && row < |f.mode.allocVectors| && j < f.end
    ensures Untilted(f, row, j) == Grade(f.channels * Width(f, j), f.mode.allocVectors[row][j], Pow2(f.lm)) >= 0
    ensures Untilted(Tilted(f), row, j) == Untilted(f, row, j) && Lever(Tilted(f), j) == Lever(f, j)
  {
  }

  lemma Gain(f: Frame, j: nat)
    requires ValidFrame(f) && j < f.end
    ensures var d := TrimOffset(Tilted(f), j) - TrimOffset(f, j); d >= 0 && -8 < 8 * d - Lever(f, j) < 8
    ensures j == f.end - 1 ==> TrimOffset(Tilted(f), j) == TrimOffset(f, j)
  {
    var l, t := Lever(f, j), f.trim - 5 - f.lm;
    TrimOffsetIs(f, j);
    TrimOffsetIs(Tilted(f), j);
    assert Lever(Tilted(f), j) == l;
    Distribute(l, t, 1);
    NextEighth(l * t, l);
  }

  lemma NextEighth(x: int, l: nat)
    ensures var d := (x + l) / 8 - x / 8; d >= 0 && -8 < 8 * d - l < 8
  {
  }

  /** A greater trim gives every band at least as much on every row, and the top band the same. */
  lemma TiltRaises(f: Frame, row: nat, j: nat)
    requires ValidFrame(f) && row < |f.mode.allocVectors| && j < f.end
    ensures RowLevels(f, row)[j] <= RowLevels(Tilted(f), row)[j]
    ensures j == f.end - 1 ==> RowLevels(f, row)[j] == RowLevels(Tilted(f), row)[j]
  {
    Same(f, row, j);
    Gain(f, j);
  }

  /**
   Where the lesser trim leaves a band more than its boost, a unit of trim is worth an eighth of a bit for every eight
   coefficients, counted once for each band above, up to rounding: low bands gain more than high ones.
   */
  lemma TiltGain(f: Frame, row: nat, j: nat)
    requires ValidFrame(f) && row < |f.mode.allocVectors| && j < f.end && RowLevels(f, row)[j] > f.offsets[j]
    ensures -8 < 8 * (RowLevels(Tilted(f), row)[j] - RowLevels(f, row)[j])
                 - f.channels * (f.mode.eBands[j + 1] - f.mode.eBands[j]) * (f.end - 1 - j) * Pow2(f.lm) < 8
  {
    Same(f, row, j);
    Gain(f, j);
  }

  /**
   With a trim of 5 + lm a row is what its entries say, plus the boost; a single coefficient gets a bit less for every
   channel, but not less than nothing.
   */
  lemma NeutralTrim(f: Frame, row: nat, j: nat)
    requires ValidFrame(f) && row < |f.mode.allocVectors| && j < f.end && f.trim == 5 + f.lm
    ensures var bits := f.channels * (f.mode.eBands[j + 1] - f.mode.eBands[j]) * f.mode.allocVectors[row][j]
                        * Pow2(f.lm) / 4;
      RowLevels(f, row)[j] == f.offsets[j] +
      if (f.mode.eBands[j + 1] - f.mode.eBands[j]) * Pow2(f.lm) > 1 then bits else Max(0, bits - 8 * f.channels)
  {
    Same(f, row, j);
    TrimOffsetIs(f, j);
    MulMonotone(Width(f, j), 1, Pow2(f.lm));
  }

  /**
   From its lower level a band rises by even steps, of which there are 64, to its level in the next row, boost included;
   above the last row the cap stands in, tilted like a row. No level falls.
   */
  lemma StepsReachNextRow(f: Frame, row: nat, j: nat)
    requires ValidFrame(f) && row < |f.mode.allocVectors| && j < f.end
    ensures var low, cap := LowLevels(f, row)[j], f.cap[j];
      At(low, Steps(f, row)[j], 64) ==
      Max(low, if row + 1 < |f.mode.allocVectors| then RowLevels(f, row + 1)[j]
               else f.offsets[j] + if cap == 0 then 0 else Max(0, cap + TrimOffset(f, j)))
  {
  }
}
