/** The value one timer tick of a hold computes (src/app/page.tsx:47-51).

    A hold that starts at progress `startProgress` closes the whole remaining
    distance to 100 within one fixed window of `Duration` milliseconds,
    measured from the start of that hold. Progress is a percentage; it is
    modelled over `real`, so every fact below is exact (JavaScript's doubles
    may round). */
module Progress {

  /** TRANSFORMATION_DURATION: milliseconds a hold needs to close the remaining distance. */
  const Duration: real := 2000.0

  /** Progress at which an animal counts as transformed. */
  const Full: real := 100.0

  function Min(a: real, b: real): real
  {
    if a <= b then a else b
  }

  /** The tick value `min(100, startProgress + (elapsed / 2000) * (100 - startProgress))`. */
  function NewProgress(startProgress: real, elapsed: real): (r: real)
    ensures r <= Full
  {
    Min(Full, startProgress + (elapsed / Duration) * (Full - startProgress))
  }

  /** The fraction of a hold's window that `elapsed` milliseconds use up, capped at 1. */
  function Fraction(elapsed: real): (f: real)
    requires 0.0 <= elapsed
    ensures 0.0 <= f <= 1.0
    ensures f == 1.0 <==> elapsed >= Duration
  {
    if elapsed >= Duration then 1.0 else elapsed / Duration
  }

  lemma ScaleBetween(x: real, d: real)
    requires 0.0 <= x <= 1.0 && 0.0 <= d
    ensures 0.0 <= x * d <= d
  {
  }

  /** The tick value is the start progress plus the used-up fraction of the
      remaining distance: a linear interpolation from `startProgress` to 100. */
  lemma NewProgressIsInterpolation(startProgress: real, elapsed: real)
    requires 0.0 <= startProgress <= Full && 0.0 <= elapsed
    ensures NewProgress(startProgress, elapsed)
            == startProgress + Fraction(elapsed) * (Full - startProgress)
  {
    var d := Full - startProgress;
    if elapsed >= Duration {
      assert (elapsed / Duration) * d >= 1.0 * d by {
        assert elapsed / Duration >= 1.0;
      }
    }
  }

  /** A tick never leaves [startProgress, 100]: progress stays a percentage and
      a hold never lowers it. */
  lemma NewProgressInRange(startProgress: real, elapsed: real)
    requires 0.0 <= startProgress <= Full && 0.0 <= elapsed
    ensures 0.0 <= startProgress <= NewProgress(startProgress, elapsed) <= Full
  {
    NewProgressIsInterpolation(startProgress, elapsed);
    ScaleBetween(Fraction(elapsed), Full - startProgress);
  }

  /** Within one hold the tick value never decreases as time passes. */
  lemma NewProgressMonotone(startProgress: real, elapsed: real, later: real)
    requires 0.0 <= startProgress <= Full && 0.0 <= elapsed <= later
    ensures NewProgress(startProgress, elapsed) <= NewProgress(startProgress, later)
  {
    calc {
      NewProgress(startProgress, elapsed);
    == { NewProgressIsInterpolation(startProgress, elapsed); }
      startProgress + Fraction(elapsed) * (Full - startProgress);
    <= { FractionMonotone(elapsed, later);
         ScaleMonotone(Fraction(elapsed), Fraction(later), Full - startProgress); }
      startProgress + Fraction(later) * (Full - startProgress);
    == { NewProgressIsInterpolation(startProgress, later); }
      NewProgress(startProgress, later);
    }
  }

  lemma FractionMonotone(elapsed: real, later: real)
    requires 0.0 <= elapsed <= later
    ensures Fraction(elapsed) <= Fraction(later)
  {
    if later < Duration {
      assert elapsed / Duration <= later / Duration;
    }
  }

  /** Once a hold has lasted `Duration`, the tick value is exactly 100,
      whatever the start progress was. */
  lemma CompleteAfterDuration(startProgress: real, elapsed: real)
    requires 0.0 <= startProgress <= Full && Duration <= elapsed
    ensures NewProgress(startProgress, elapsed) == Full
  {
    NewProgressIsInterpolation(startProgress, elapsed);
  }

  /** A hold that starts below 100 completes exactly when `Duration` has
      elapsed: not earlier, and (by the lemma above) not later. */
  lemma CompleteExactlyAtDuration(startProgress: real, elapsed: real)
    requires 0.0 <= startProgress < Full && 0.0 <= elapsed
    ensures NewProgress(startProgress, elapsed) == Full <==> elapsed >= Duration
  {
    NewProgressIsInterpolation(startProgress, elapsed);
    var d := Full - startProgress;
    if elapsed < Duration {
      assert Fraction(elapsed) * d < 1.0 * d;
    }
  }

  /** Within the window, the distance still to go is the hold's starting
      distance scaled by the unused part of the window. */
  lemma RemainingAfterHold(startProgress: real, elapsed: real)
    requires 0.0 <= startProgress <= Full && 0.0 <= elapsed <= Duration
    ensures Full - NewProgress(startProgress, elapsed)
            == (Full - startProgress) * (1.0 - elapsed / Duration)
  {
    NewProgressIsInterpolation(startProgress, elapsed);
    assert Fraction(elapsed) == elapsed / Duration;
  }

  /** Progress after a series of holds of the given lengths (in milliseconds),
      each released before or at completion and started from where the
      previous one left off. */
  function AfterHolds(startProgress: real, holds: seq<real>): real
    decreases |holds|
  {
    if holds == [] then startProgress
    else AfterHolds(NewProgress(startProgress, holds[0]), holds[1..])
  }

  /** Total time held over a series of holds. */
  function TotalHeld(holds: seq<real>): real
  {
    if holds == [] then 0.0 else holds[0] + TotalHeld(holds[1..])
  }

  /** Part of the remaining distance that survives a series of holds: each
      hold keeps the unused part of its own window. */
  function Surviving(holds: seq<real>): real
  {
    if holds == [] then 1.0 else (1.0 - holds[0] / Duration) * Surviving(holds[1..])
  }

  ghost predicate WithinWindows(holds: seq<real>)
  {
    forall i :: 0 <= i < |holds| ==> 0.0 <= holds[i] <= Duration
  }

  /** After any series of holds progress is still in [startProgress, 100]. */
  lemma {:induction false} AfterHoldsInRange(startProgress: real, holds: seq<real>)
    requires 0.0 <= startProgress <= Full
    requires forall i :: 0 <= i < |holds| ==> 0.0 <= holds[i]
    ensures startProgress <= AfterHolds(startProgress, holds) <= Full
    decreases |holds|
  {
    if holds != [] {
      NewProgressInRange(startProgress, holds[0]);
      AfterHoldsInRange(NewProgress(startProgress, holds[0]), holds[1..]);
    }
  }

  lemma WithinWindowsTail(holds: seq<real>)
    requires holds != [] && WithinWindows(holds)
    ensures 0.0 <= holds[0] <= Duration && WithinWindows(holds[1..])
  {
    forall i | 0 <= i < |holds[1..]| ensures 0.0 <= holds[1..][i] <= Duration {
      assert holds[1..][i] == holds[i + 1];
    }
  }

  lemma MulMonotone(d: real, x: real, y: real)
    requires 0.0 <= d && x <= y
    ensures d * x <= d * y
  {
  }

  lemma ScaleMonotone(x: real, y: real, d: real)
    requires 0.0 <= d && x <= y
    ensures x * d <= y * d
  {
  }

  lemma MulAssociative(a: real, b: real, c: real)
    ensures (a * b) * c == a * (b * c)
  {
  }

  lemma KeepTimesRest(keep: real, rest: real, restUsed: real)
    requires 0.0 <= keep <= 1.0 && 0.0 <= restUsed && 1.0 - restUsed <= rest
    ensures keep - restUsed <= keep * rest
  {
    calc {
      keep - restUsed;
    <= { MulMonotone(restUsed, keep, 1.0); }
      keep - keep * restUsed;
    ==
      keep * (1.0 - restUsed);
    <= { MulMonotone(keep, 1.0 - restUsed, rest); }
      keep * rest;
    }
  }

  /** Each hold rescales to the remaining distance, so the remaining distance
      after a series of holds is the product of the unused window parts. */
  lemma {:induction false} RemainingAfterHolds(startProgress: real, holds: seq<real>)
    requires 0.0 <= startProgress <= Full && WithinWindows(holds)
    ensures Full - AfterHolds(startProgress, holds) == (Full - startProgress) * Surviving(holds)
    decreases |holds|
  {
    if holds != [] {
      var next := NewProgress(startProgress, holds[0]);
      var keep := 1.0 - holds[0] / Duration;
      var rest := Surviving(holds[1..]);
      assert Full - next == (Full - startProgress) * keep by {
        WithinWindowsTail(holds);
        RemainingAfterHold(startProgress, holds[0]);
      }
      assert Full - AfterHolds(next, holds[1..]) == (Full - next) * rest by {
        WithinWindowsTail(holds);
        NewProgressInRange(startProgress, holds[0]);
        RemainingAfterHolds(next, holds[1..]);
      }
      assert Surviving(holds) == keep * rest;
      RescaleRemaining(Full - startProgress, Full - next, keep, rest, Full - AfterHolds(next, holds[1..]));
    }
  }

  /** A distance scaled by `keep` and then by `rest` is scaled by their product. */
  lemma RescaleRemaining(before: real, middle: real, keep: real, rest: real, after: real)
    requires middle == before * keep && after == middle * rest
    ensures after == before * (keep * rest)
  {
    MulAssociative(before, keep, rest);
  }

  lemma {:induction false} TotalHeldNonNegative(holds: seq<real>)
    requires WithinWindows(holds)
    ensures 0.0 <= TotalHeld(holds)
    decreases |holds|
  {
    if holds != [] {
      WithinWindowsTail(holds);
      TotalHeldNonNegative(holds[1..]);
    }
  }

  /** The unused window parts multiply to at least one minus the total held
      time's share of one window. */
  lemma {:induction false} SurvivingAtLeast(holds: seq<real>)
    requires WithinWindows(holds)
    ensures 0.0 <= Surviving(holds)
    ensures 1.0 - TotalHeld(holds) / Duration <= Surviving(holds)
    decreases |holds|
  {
    if holds != [] {
      WithinWindowsTail(holds);
      SurvivingAtLeast(holds[1..]);
      TotalHeldNonNegative(holds[1..]);
      var keep := 1.0 - holds[0] / Duration;
      var rest := Surviving(holds[1..]);
      var restUsed := TotalHeld(holds[1..]) / Duration;
      assert Surviving(holds) == keep * rest;
      MulMonotone(rest, 0.0, keep);
      KeepTimesRest(keep, rest, restUsed);
      assert TotalHeld(holds) / Duration == holds[0] / Duration + restUsed;
    }
  }

  lemma ChoppedWithinOneWindow(startProgress: real, holds: seq<real>)
    requires 0.0 <= startProgress <= Full && WithinWindows(holds)
    requires 0.0 <= TotalHeld(holds) <= Duration
    ensures Full - NewProgress(startProgress, TotalHeld(holds))
            <= Full - AfterHolds(startProgress, holds)
  {
    var total := TotalHeld(holds);
    calc {
      Full - AfterHolds(startProgress, holds);
    == { RemainingAfterHolds(startProgress, holds); }
      (Full - startProgress) * Surviving(holds);
    >= { SurvivingAtLeast(holds);
         MulMonotone(Full - startProgress, 1.0 - total / Duration, Surviving(holds)); }
      (Full - startProgress) * (1.0 - total / Duration);
    == { RemainingAfterHold(startProgress, total); }
      Full - NewProgress(startProgress, total);
    }
  }

  /** Helper for `ChoppedHoldsNoFaster`: no single hold of a series is
      longer than the whole series. */
  lemma {:induction false} HoldsAtMostTotal(holds: seq<real>)
    requires forall i :: 0 <= i < |holds| ==> 0.0 <= holds[i]
    ensures 0.0 <= TotalHeld(holds)
    ensures forall i :: 0 <= i < |holds| ==> holds[i] <= TotalHeld(holds)
    decreases |holds|
  {
    if holds != [] {
      var tail := holds[1..];
      assert forall i :: 0 <= i < |tail| ==> tail[i] == holds[i + 1];
      HoldsAtMostTotal(tail);
      forall i | 0 <= i < |holds| ensures holds[i] <= TotalHeld(holds) {
        if i > 0 {
          assert holds[i] == tail[i - 1];
        }
      }
    }
  }

  /** Splitting a hold never makes it faster: a series of holds ends at or
      below one uninterrupted hold of the same total length. Holds may be of
      any length, including a last one that runs past its window. */
  lemma ChoppedHoldsNoFaster(startProgress: real, holds: seq<real>)
    requires 0.0 <= startProgress <= Full
    requires forall i :: 0 <= i < |holds| ==> 0.0 <= holds[i]
    ensures AfterHolds(startProgress, holds) <= NewProgress(startProgress, TotalHeld(holds))
  {
    var total := TotalHeld(holds);
    HoldsAtMostTotal(holds);
    if total <= Duration {
      assert WithinWindows(holds);
      ChoppedWithinOneWindow(startProgress, holds);
    } else {
      AfterHoldsInRange(startProgress, holds);
      CompleteAfterDuration(startProgress, total);
    }
  }

  /** A one-second hold followed by one whose last tick lands 10 ms past its
      window ends at 100, as one 3010 ms hold does. */
  lemma CompletingHoldPastItsWindow()
    ensures AfterHolds(0.0, [1000.0, 2010.0]) == Full
    ensures AfterHolds(0.0, [1000.0, 2010.0]) <= NewProgress(0.0, TotalHeld([1000.0, 2010.0]))
  {
    assert [1000.0, 2010.0][1..] == [2010.0];
    assert [2010.0][1..] == [];
    CompleteAfterDuration(50.0, 2010.0);
    ChoppedHoldsNoFaster(0.0, [1000.0, 2010.0]);
  }

  /** Two one-second holds from 0 reach 50 and then 75; one two-second hold
      reaches 100. */
  lemma TwoShortHoldsReachThreeQuarters()
    ensures NewProgress(0.0, 1000.0) == 50.0
    ensures NewProgress(50.0, 1000.0) == 75.0
    ensures AfterHolds(0.0, [1000.0, 1000.0]) == 75.0
    ensures AfterHolds(0.0, [2000.0]) == Full
  {
    assert [1000.0, 1000.0][1..] == [1000.0];
    assert [1000.0][1..] == [];
    assert [2000.0][1..] == [];
  }
}
