/** The largest fall from an earlier high, in percent: one pass with a running peak against the definition over
    all pairs of moments. */
module Drawdown {
  import opened Basics

  /** The fall from one equity to a later one, in percent of the earlier. */
  function Fall(earlier: real, later: real): real
    requires earlier > 0.0
  {
    (earlier - later) / earlier * 100.0
  }

  ghost predicate IsFall(equities: seq<real>, i: int, j: int, fall: real) {
    0 <= i <= j < |equities| && equities[i] > 0.0 && fall == Fall(equities[i], equities[j])
  }

  ghost predicate HasFall(equities: seq<real>, fall: real) {
    exists i, j :: IsFall(equities, i, j, fall)
  }

  /** No fall between two moments is larger, and it is one of them, or nothing when no equity is positive. */
  ghost predicate IsLargestFall(equities: seq<real>, maximum: real) {
    && (forall i, j | 0 <= i <= j < |equities| && equities[i] > 0.0 :: Fall(equities[i], equities[j]) <= maximum)
    && (if forall e | e in equities :: e <= 0.0 then maximum == 0.0 else HasFall(equities, maximum))
  }

  lemma {:induction false} Sign(x: real, c: real)
    requires c > 0.0
    ensures x >= 0.0 <==> x * c >= 0.0
    ensures x <= 0.0 <==> x * c <= 0.0
  {
  }

  /** Multiplying by a positive number reflects the order. */
  lemma {:induction false} Cancel(a: real, b: real, c: real)
    requires c > 0.0
    ensures a <= b <==> a * c <= b * c
  {
    assert (b - a) * c == b * c - a * c;
    Sign(b - a, c);
  }

  lemma {:induction false} FallIs(earlier: real, later: real)
    requires earlier > 0.0
    ensures Fall(earlier, later) == (1.0 - later / earlier) * 100.0
  {
    var q, f := later / earlier, (earlier - later) / earlier;
    assert q * earlier == later && f * earlier == earlier - later;
    assert (1.0 - q) * earlier == earlier - later;
    Cancel(f, 1.0 - q, earlier);
    Cancel(1.0 - q, f, earlier);
  }

  /** Divided by more, a number that is not negative gets no larger and a negative one no smaller. */
  lemma {:induction false} DividedByMore(x: real, low: real, high: real)
    requires 0.0 < low <= high
    ensures x >= 0.0 ==> x / high <= x / low
    ensures x <= 0.0 ==> x / low <= x / high
  {
    var a, b := x / low, x / high;
    assert a * low == x && b * high == x;
    Sign(b, high);
    assert b * high == b * low + b * (high - low);
    if low < high {
      Sign(b, high - low);
    }
    Cancel(b, a, low);
    Cancel(a, b, low);
  }

  /** A higher start falls further to the same place. */
  lemma {:induction false} HigherStartFallsFurther(earlier: real, peak: real, later: real)
    requires 0.0 < earlier <= peak && later >= 0.0
    ensures Fall(earlier, later) <= Fall(peak, later)
  {
    FallIs(earlier, later);
    FallIs(peak, later);
    hide Fall;
    DividedByMore(later, earlier, peak);
  }

  /** To a debt, a lower start falls further. */
  lemma {:induction false} LowerStartFallsFurther(low: real, earlier: real, debt: real)
    requires 0.0 < low <= earlier && debt < 0.0
    ensures Fall(earlier, debt) <= Fall(low, debt)
  {
    FallIs(low, debt);
    FallIs(earlier, debt);
    hide Fall;
    DividedByMore(debt, low, earlier);
  }

  lemma {:induction false} FallIsPercentage(earlier: real, later: real)
    requires earlier > 0.0
    ensures later >= 0.0 ==> Fall(earlier, later) <= 100.0
    ensures later <= earlier ==> 0.0 <= Fall(earlier, later)
    ensures Fall(earlier, earlier) == 0.0
  {
    FallIs(earlier, later);
    NoFall(earlier);
    hide Fall;
    var q := later / earlier;
    assert q * earlier == later;
    Sign(q, earlier);
    Cancel(q, 1.0, earlier);
  }

  lemma {:induction false} NoFall(equity: real)
    requires equity > 0.0
    ensures Fall(equity, equity) == 0.0
  {
  }

  // ---- One pass --------------------------------------------------------------------------------------------------

  /** The highest equity so far, or zero. */
  function Peak(equities: seq<real>): real {
    if equities == [] then 0.0 else Max(Peak(equities[..|equities| - 1]), equities[|equities| - 1])
  }

  /** The largest fall from the peak of its moment. */
  function PeakFall(equities: seq<real>): real {
    if equities == [] then 0.0
    else
      var before, peak := PeakFall(equities[..|equities| - 1]), Peak(equities);
      if peak > 0.0 then Max(before, Fall(peak, equities[|equities| - 1])) else before
  }

  /** _max_drawdown_pct. On equities that are never negative it is the largest fall over all pairs of moments, and
      a percentage. */
  method MaxDrawdownPct(equities: seq<real>) returns (maximum: real)
    ensures maximum == PeakFall(equities)
    ensures DebtFree(equities) ==> IsLargestFall(equities, maximum) && 0.0 <= maximum <= 100.0
  {
    hide Fall;
    var peak := 0.0;
    maximum := 0.0;
    for k := 0 to |equities|
      invariant peak == Peak(equities[..k]) && maximum == PeakFall(equities[..k])
    {
      assert equities[..k + 1][..k] == equities[..k];
      peak := Max(peak, equities[k]);
      if peak > 0.0 {
        maximum := Max(maximum, Fall(peak, equities[k]));
      }
    }
    assert equities[..|equities|] == equities;
    if DebtFree(equities) {
      assert forall j: nat | j < |equities| :: equities[j] in equities;
      LargestIffDebtsCovered(equities);
      PeakFallIsPercentage(equities);
    }
  }

  // ---- Against all pairs -------------------------------------------------------------------------------------------

  lemma {:induction false} PeakIsHighest(equities: seq<real>)
    ensures Peak(equities) >= 0.0 && forall e | e in equities :: e <= Peak(equities)
    ensures Peak(equities) > 0.0 ==> Peak(equities) in equities
  {
    if equities != [] {
      PeakIsHighest(equities[..|equities| - 1]);
      assert equities == equities[..|equities| - 1] + [equities[|equities| - 1]];
    }
  }

  ghost predicate DebtFree(equities: seq<real>) {
    forall e | e in equities :: e >= 0.0
  }

  lemma {:induction false} PeakFallIsPercentage(equities: seq<real>)
    ensures 0.0 <= PeakFall(equities)
    ensures DebtFree(equities) ==> PeakFall(equities) <= 100.0
  {
    if equities != [] {
      hide Fall;
      var front, last := equities[..|equities| - 1], equities[|equities| - 1];
      assert equities == front + [last];
      PeakFallIsPercentage(front);
      PeakIsHighest(equities);
      if DebtFree(equities) {
        assert last in equities;
        forall e | e in front
          ensures e >= 0.0
        {
          assert e in equities;
        }
      }
      if Peak(equities) > 0.0 {
        FallIsPercentage(Peak(equities), last);
      }
    }
  }

  lemma {:induction false} PeakFallCovers(equities: seq<real>, j: nat)
    requires j < |equities| && Peak(equities[..j + 1]) > 0.0
    ensures Fall(Peak(equities[..j + 1]), equities[j]) <= PeakFall(equities)
  {
    hide Fall;
    var front := equities[..|equities| - 1];
    if j == |front| {
      assert equities[..j + 1] == equities;
    } else {
      assert front[..j + 1] == equities[..j + 1];
      PeakFallCovers(front, j);
    }
  }

  /** The result is a fall between two moments, or nothing when no equity is positive. */
  lemma {:induction false} PeakFallIsAFall(equities: seq<real>)
    ensures if forall e | e in equities :: e <= 0.0 then PeakFall(equities) == 0.0
            else HasFall(equities, PeakFall(equities))
  {
    if equities != [] {
      hide Fall;
      var front, last := equities[..|equities| - 1], equities[|equities| - 1];
      assert equities == front + [last];
      PeakFallIsAFall(front);
      PeakIsHighest(equities);
      PeakIsHighest(front);
      if Peak(equities) > 0.0 {
        var i :| 0 <= i < |equities| && equities[i] == Peak(equities);
        assert IsFall(equities, i, |front|, Fall(Peak(equities), last));
        if PeakFall(equities) != Fall(Peak(equities), last) {
          EarlierFall(front, last);
        }
      }
    }
  }

  lemma {:induction false} EarlierFall(front: seq<real>, last: real)
    requires Peak(front + [last]) > 0.0 && PeakFall(front + [last]) != Fall(Peak(front + [last]), last)
    requires if forall e | e in front :: e <= 0.0 then PeakFall(front) == 0.0 else HasFall(front, PeakFall(front))
    ensures HasFall(front + [last], PeakFall(front + [last]))
  {
    hide Fall;
    var all := front + [last];
    assert all[..|front|] == front;
    PeakIsHighest(front);
    PeakIsHighest(all);
    FallIsPercentage(Peak(all), last);
    assert exists e :: e in front && e > 0.0;
    var a, b :| IsFall(front, a, b, PeakFall(front));
    assert IsFall(all, a, b, PeakFall(front));
  }

  /** The lowest positive equity so far. */
  function LowestPositive(equities: seq<real>): Option<real> {
    if equities == [] then None
    else
      var low, last := LowestPositive(equities[..|equities| - 1]), equities[|equities| - 1];
      if last > 0.0 && (low.None? || last < low.value) then Some(last) else low
  }

  lemma {:induction false} LowestIsLowest(equities: seq<real>)
    ensures var low := LowestPositive(equities);
            if low.Some? then
              low.value in equities && low.value > 0.0 && forall e | e in equities && e > 0.0 :: low.value <= e
            else
              forall e | e in equities :: e <= 0.0
  {
    if equities != [] {
      LowestIsLowest(equities[..|equities| - 1]);
      assert equities == equities[..|equities| - 1] + [equities[|equities| - 1]];
    }
  }

  /** The fall to the moment j from the lowest positive equity before it is not above the result. */
  ghost predicate CoversDebt(equities: seq<real>, j: nat)
    requires j < |equities|
  {
    LowestIsLowest(equities[..j + 1]);
    match LowestPositive(equities[..j + 1])
    case None => true
    case Some(low) => Fall(low, equities[j]) <= PeakFall(equities)
  }

  /** A step: the result is the largest fall if and only if it covers every debt. */
  lemma {:induction false} LargestIffDebtsCovered(equities: seq<real>)
    ensures IsLargestFall(equities, PeakFall(equities))
            <==> forall j: nat | j < |equities| && equities[j] < 0.0 :: CoversDebt(equities, j)
  {
    hide Fall, PeakFall, Peak, LowestPositive;
    PeakFallIsAFall(equities);
    forall j: nat | j < |equities|
      ensures equities[j] >= 0.0 || CoversDebt(equities, j)
              <==> forall i | 0 <= i <= j && equities[i] > 0.0 :: Fall(equities[i], equities[j]) <= PeakFall(equities)
    {
      FallsToOneMoment(equities, j);
    }
  }

  lemma {:induction false} FallsToOneMoment(equities: seq<real>, j: nat)
    requires j < |equities|
    ensures equities[j] >= 0.0 || CoversDebt(equities, j)
            <==> forall i | 0 <= i <= j && equities[i] > 0.0 :: Fall(equities[i], equities[j]) <= PeakFall(equities)
  {
    hide Fall, PeakFall, Peak, LowestPositive;
    var seen := equities[..j + 1];
    LowestIsLowest(seen);
    PeakIsHighest(seen);
    forall i | 0 <= i <= j && equities[i] > 0.0
      ensures equities[j] >= 0.0 || CoversDebt(equities, j) ==> Fall(equities[i], equities[j]) <= PeakFall(equities)
    {
      assert seen[i] in seen;
      if equities[j] >= 0.0 {
        PeakFallCovers(equities, j);
        HigherStartFallsFurther(equities[i], Peak(seen), equities[j]);
      } else {
        LowerStartFallsFurther(LowestPositive(seen).value, equities[i], equities[j]);
      }
    }
    if LowestPositive(seen).Some? {
      var i :| 0 <= i < |seen| && seen[i] == LowestPositive(seen).value;
      assert equities[i] == seen[i];
    }
  }

  // ---- Exactly when the running peak finds it -----------------------------------------------------------------

  /** A negative equity after a positive one. */
  predicate DebtAt(equities: seq<real>, j: int) {
    0 <= j < |equities| && equities[j] < 0.0 && LowestPositive(equities[..j + 1]).Some?
  }

  /** The fall to a debt from its worst start, the lowest positive equity before it. */
  function WorstFall(equities: seq<real>, j: int): real
    requires DebtAt(equities, j)
  {
    LowestIsLowest(equities[..j + 1]);
    Fall(LowestPositive(equities[..j + 1]).value, equities[j])
  }

  /** All positive equities up to k are equal: no rise or fall among them yet. */
  ghost predicate LevelUntil(equities: seq<real>, k: int) {
    forall i, j | 0 <= i < j <= k && j < |equities| && equities[i] > 0.0 && equities[j] > 0.0 ::
      equities[i] == equities[j]
  }

  /** Debt k comes while all positive equities are level, and no debt has a larger worst fall. */
  ghost predicate WorstBeforeRise(equities: seq<real>, k: int) {
    && DebtAt(equities, k) && LevelUntil(equities, k)
    && forall j | DebtAt(equities, j) :: WorstFall(equities, j) <= WorstFall(equities, k)
  }

  /** Only a debt falls by more than everything. */
  lemma {:induction false} DebtFallsBeyondAll(earlier: real, later: real)
    requires earlier > 0.0
    ensures Fall(earlier, later) > 100.0 <==> later < 0.0
  {
    FallIs(earlier, later);
    hide Fall;
    var q := later / earlier;
    assert q * earlier == later;
    Sign(q, earlier);
  }

  /** To a debt, only an equal start falls as far. */
  lemma {:induction false} SameFallSameStart(low: real, high: real, debt: real)
    requires 0.0 < low <= high && debt < 0.0 && Fall(low, debt) <= Fall(high, debt)
    ensures low == high
  {
    FallIs(low, debt);
    FallIs(high, debt);
    hide Fall;
    var a, b := debt / low, debt / high;
    assert a * low == debt && b * high == debt;
    Cancel(b, a, low);
    assert b * (high - low) == debt - b * low;
    Sign(b, high);
    if low < high {
      Sign(b, high - low);
    }
  }

  /** The lowest positive equity is the peak exactly when all positive equities are level. */
  lemma {:induction false} LevelIffLowestIsPeak(equities: seq<real>, k: int)
    requires DebtAt(equities, k)
    ensures LevelUntil(equities, k) <==> LowestPositive(equities[..k + 1]).value == Peak(equities[..k + 1])
    ensures 0.0 < LowestPositive(equities[..k + 1]).value <= Peak(equities[..k + 1])
  {
    hide LowestPositive, Peak;
    var seen := equities[..k + 1];
    LowestIsLowest(seen);
    PeakIsHighest(seen);
    var i :| 0 <= i < |seen| && seen[i] == LowestPositive(seen).value;
    var j :| 0 <= j < |seen| && seen[j] == Peak(seen);
    assert equities[i] == seen[i] && equities[j] == seen[j];
    forall x | 0 <= x <= k && equities[x] > 0.0
      ensures LowestPositive(seen).value <= equities[x] <= Peak(seen)
    {
      assert seen[x] in seen;
    }
  }

  /** A result above zero is the fall from the peak of some moment. */
  lemma {:induction false} PeakFallIsAttained(equities: seq<real>) returns (m: nat)
    requires PeakFall(equities) > 0.0
    ensures m < |equities| && Peak(equities[..m + 1]) > 0.0
    ensures Fall(Peak(equities[..m + 1]), equities[m]) == PeakFall(equities)
  {
    hide Fall;
    var front := equities[..|equities| - 1];
    assert equities[..|equities|] == equities;
    if PeakFall(equities) == PeakFall(front) {
      m := PeakFallIsAttained(front);
      assert front[..m + 1] == equities[..m + 1];
    } else {
      m := |front|;
    }
  }

  /** When every debt is covered, the debt the result falls to comes while the positive equities are level. */
  lemma {:induction false} CoveredDebtsStartLevel(equities: seq<real>, d: int) returns (k: int)
    requires IsLargestFall(equities, PeakFall(equities)) && DebtAt(equities, d)
    ensures WorstBeforeRise(equities, k)
  {
    hide Fall, PeakFall, Peak, LowestPositive, IsLargestFall;
    LargestIffDebtsCovered(equities);
    forall j | DebtAt(equities, j)
      ensures WorstFall(equities, j) <= PeakFall(equities)
    {
      assert CoversDebt(equities, j);
    }
    LowestIsLowest(equities[..d + 1]);
    DebtFallsBeyondAll(LowestPositive(equities[..d + 1]).value, equities[d]);
    var m := PeakFallIsAttained(equities);
    var seen := equities[..m + 1];
    DebtFallsBeyondAll(Peak(seen), equities[m]);
    PeakIsHighest(seen);
    LowestIsLowest(seen);
    LevelIffLowestIsPeak(equities, m);
    SameFallSameStart(LowestPositive(seen).value, Peak(seen), equities[m]);
    k := m;
  }

  lemma {:induction false} LevelDebtIsCovered(equities: seq<real>, k: int)
    requires WorstBeforeRise(equities, k)
    ensures IsLargestFall(equities, PeakFall(equities))
  {
    hide Fall, PeakFall, Peak, LowestPositive, IsLargestFall;
    LevelIffLowestIsPeak(equities, k);
    PeakFallCovers(equities, k);
    forall j: nat | j < |equities| && equities[j] < 0.0
      ensures CoversDebt(equities, j)
    {
      if DebtAt(equities, j) {
        assert WorstFall(equities, j) <= WorstFall(equities, k);
      }
    }
    LargestIffDebtsCovered(equities);
  }

  /** The running peak finds the largest fall over all pairs if and only if there is no debt after a positive equity,
      or the debt with the worst fall comes while all positive equities before it are equal. A debt falls furthest
      from the lowest positive start, so once they differ its fall from the peak is too small, and no fall to an
      equity that is not negative makes up for it. */
  lemma {:induction false} PeakFallIsLargestIff(equities: seq<real>)
    ensures IsLargestFall(equities, PeakFall(equities))
            <==> (forall j :: !DebtAt(equities, j)) || exists k :: WorstBeforeRise(equities, k)
  {
    hide Fall, PeakFall, Peak, LowestPositive, IsLargestFall, WorstBeforeRise;
    if exists k :: WorstBeforeRise(equities, k) {
      var k :| WorstBeforeRise(equities, k);
      LevelDebtIsCovered(equities, k);
    } else if forall j :: !DebtAt(equities, j) {
      forall j: nat | j < |equities| && equities[j] < 0.0
        ensures CoversDebt(equities, j)
      {
        assert !DebtAt(equities, j);
      }
      LargestIffDebtsCovered(equities);
    } else if IsLargestFall(equities, PeakFall(equities)) {
      var d :| DebtAt(equities, d);
      var k := CoveredDebtsStartLevel(equities, d);
      assert false;
    }
  }

  /** A debt after a rise: from the peak of 2 it is a fall of 150%, from the first equity of 1 one of 200%. */
  lemma {:induction false} DebtAfterARiseIsMissed()
    ensures PeakFall([1.0, 2.0, -1.0]) == 150.0 && !IsLargestFall([1.0, 2.0, -1.0], PeakFall([1.0, 2.0, -1.0]))
  {
    var s := [1.0, 2.0, -1.0];
    assert s[..2] == [1.0, 2.0] && s[..2][..1] == [1.0] && s[..2][..1][..0] == [];
    assert Peak([1.0]) == 1.0 && Peak([1.0, 2.0]) == 2.0 && Peak(s) == 2.0;
    assert PeakFall([1.0]) == 0.0 && PeakFall([1.0, 2.0]) == 0.0;
    assert Fall(2.0, -1.0) == 150.0 && Fall(1.0, -1.0) == 200.0;
    assert Fall(s[0], s[2]) == 200.0;
  }
}
