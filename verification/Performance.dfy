/** Peak-to-trough drawdown of the equity curve (app/services/performance_service.py)
    and its relation to the kill switch's own loss (app/services/risk_service.py). */
module Performance {
  import opened Money

  /** Percentage lost going from `peak` to `value`. */
  function Decline(peak: real, value: real): real
    requires peak != 0.0
  {
    (peak - value) / peak * 100.0
  }

  datatype Walk = Walk(peak: Option<real>, worst: real)

  function Visit(w: Walk, value: real): Walk {
    var peak := if w.peak.None? || value > w.peak.value then value else w.peak.value;
    Walk(Some(peak), if peak != 0.0 then Min(w.worst, (value - peak) / peak * 100.0) else w.worst)
  }

  function WalkOf(values: seq<real>): (w: Walk)
    ensures values != [] ==> w.peak.Some?
  {
    if values == [] then Walk(None, 0.0) else Visit(WalkOf(values[..|values| - 1]), values[|values| - 1])
  }

  /** `_max_drawdown_pct` before its 4-place rounding. */
  method MaxDrawdownPct(values: seq<real>) returns (loss: real)
    ensures loss == Abs(WalkOf(values).worst)
  {
    var peak: Option<real> := None;
    var worst := 0.0;
    for i := 0 to |values|
      invariant Walk(peak, worst) == WalkOf(values[..i])
    {
      assert values[..i + 1][..i] == values[..i];
      if peak.None? || values[i] > peak.value {
        peak := Some(values[i]);
      }
      if peak.value != 0.0 {
        worst := Min(worst, (values[i] - peak.value) / peak.value * 100.0);
      }
    }
    assert values[..|values|] == values;
    loss := Abs(worst);
  }

  // ---- Against the pairwise definition ---------------------------------------------------

  ghost predicate Nonnegative(values: seq<real>) {
    forall i :: 0 <= i < |values| ==> values[i] >= 0.0
  }

  /** Loss between two dates, earlier first. */
  ghost predicate IsDecline(values: seq<real>, i: nat, j: nat, loss: real) {
    i <= j < |values| && values[i] > 0.0 && loss == Decline(values[i], values[j])
  }

  /** The largest decline over every ordered pair of dates; 0 when there is none. */
  ghost predicate IsMaxDrawdown(values: seq<real>, loss: real) {
    && (forall i, j :: 0 <= i <= j < |values| && values[i] > 0.0 ==> Decline(values[i], values[j]) <= loss)
    && ((exists i, j :: IsDecline(values, i, j, loss))
        || (loss == 0.0 && forall i :: 0 <= i < |values| ==> values[i] <= 0.0))
  }

  lemma DeclineIs(peak: real, value: real)
    requires peak > 0.0
    ensures Decline(peak, value) == 100.0 - value / peak * 100.0
    ensures (value - peak) / peak * 100.0 == -Decline(peak, value)
    ensures Decline(peak, peak) == 0.0
  {
    RatioBound(value, peak, 0.0);
    RatioIs(peak - value, peak, 1.0 - value / peak);
    RatioIs(value - peak, peak, value / peak - 1.0);
  }

  /** A higher peak makes the decline to the same value larger. */
  lemma DeclineGrows(a: real, b: real, value: real)
    requires 0.0 < a <= b && value >= 0.0
    ensures Decline(a, value) <= Decline(b, value) <= 100.0
    ensures value > 0.0 ==> Decline(b, value) < 100.0
  {
    DeclineIs(a, value);
    DeclineIs(b, value);
    var q := value / b;
    RatioBound(value, b, 0.0);
    assert q * a <= q * b;
    RatioBound(value, a, q);
  }

  /** The peak is the running maximum. */
  lemma {:induction false} PeakIsMaximum(values: seq<real>)
    requires values != []
    ensures var p := WalkOf(values).peak;
      && p.Some?
      && (forall i :: 0 <= i < |values| ==> values[i] <= p.value)
      && (exists i :: 0 <= i < |values| && values[i] == p.value)
  {
    var n := |values| - 1;
    if n > 0 {
      PeakIsMaximum(values[..n]);
      var p := WalkOf(values[..n]).peak.value;
      var i :| 0 <= i < n && values[..n][i] == p;
      assert values[i] == p;
      assert forall k :: 0 <= k < n ==> values[k] == values[..n][k];
      assert values[n] == WalkOf(values).peak.value || values[i] == WalkOf(values).peak.value;
    } else {
      assert values[..0] == [];
      assert values[0] == WalkOf(values).peak.value;
    }
  }

  /** Below zero it is the lower peak that loses the larger share. */
  lemma DeclineFalls(a: real, b: real, value: real)
    requires 0.0 < a <= b && value < 0.0
    ensures Decline(a, value) >= Decline(b, value)
    ensures a < b ==> Decline(a, value) > Decline(b, value)
  {
    DeclineIs(a, value);
    DeclineIs(b, value);
    var q := value / b;
    RatioBound(value, b, 0.0);
    RatioBound(value, a, q);
    if a < b {
      assert q < 0.0;
      assert q * a > q * b;
      RatioIs(value, a, value / a);
      assert value / a != q;
    }
  }

  /** The walk never turns its worst loss positive, whatever the sign of the values. */
  lemma {:induction false} WorstIsNotPositive(values: seq<real>)
    ensures WalkOf(values).worst <= 0.0
  {
    if values == [] {
    } else {
      WorstIsNotPositive(values[..|values| - 1]);
    }
  }

  lemma NegativePeakLosesNothing(peak: real, value: real)
    requires value <= peak < 0.0
    ensures (value - peak) / peak * 100.0 >= 0.0
  {
    RatioBound(peak - value, -peak, 0.0);
    RatioIs(value - peak, peak, (peak - value) / -peak);
  }

  /** One more value: the worst loss becomes the larger of the old one and the decline from the peak;
      a peak that is not positive counts for nothing. */
  lemma LastStep(values: seq<real>)
    requires values != []
    ensures var peak, before := WalkOf(values).peak, WalkOf(values[..|values| - 1]).worst;
      && peak.Some?
      && (peak.value > 0.0 ==> -WalkOf(values).worst == Max(-before, Decline(peak.value, values[|values| - 1])))
      && (peak.value <= 0.0 ==> WalkOf(values).worst == before)
  {
    var before := values[..|values| - 1];
    WorstIsNotPositive(before);
    assert WalkOf(values) == Visit(WalkOf(before), values[|values| - 1]);
    hide WalkOf;
    OneVisit(WalkOf(before), values[|values| - 1]);
  }

  lemma OneVisit(w: Walk, value: real)
    requires w.worst <= 0.0
    ensures var v := Visit(w, value);
      && v.peak.Some?
      && (v.peak.value > 0.0 ==> -v.worst == Max(-w.worst, Decline(v.peak.value, value)))
      && (v.peak.value <= 0.0 ==> v.worst == w.worst)
  {
    var peak := Visit(w, value).peak.value;
    if peak > 0.0 {
      DeclineIs(peak, value);
      hide Decline;
    } else if peak < 0.0 {
      NegativePeakLosesNothing(peak, value);
    }
  }

  /** Every decline to a value that is not negative is within the reported loss. */
  lemma {:induction false} LossBoundsEveryPair(values: seq<real>, i: nat, j: nat)
    requires i <= j < |values| && values[i] > 0.0 && values[j] >= 0.0
    ensures Decline(values[i], values[j]) <= -WalkOf(values).worst
  {
    hide Decline, WalkOf;
    LastStep(values);
    PeakIsMaximum(values);
    var peak := WalkOf(values).peak.value;
    assert values[i] <= peak;
    if j == |values| - 1 {
      DeclineGrows(values[i], peak, values[j]);
    } else {
      LossBoundsEveryPair(values[..|values| - 1], i, j);
    }
  }

  /** The reported loss is a real decline of the series. */
  lemma {:induction false} LossIsAttained(values: seq<real>) returns (i: nat, j: nat)
    ensures IsDecline(values, i, j, -WalkOf(values).worst)
         || (WalkOf(values).worst == 0.0 && forall k :: 0 <= k < |values| ==> values[k] <= 0.0)
  {
    hide Decline;
    i, j := 0, 0;
    if values == [] {
    } else {
      var n := |values| - 1;
      LastStep(values);
      PeakIsMaximum(values);
      hide WalkOf;
      var peak := WalkOf(values).peak.value;
      i, j := LossIsAttained(values[..n]);
      var before := WalkOf(values[..n]).worst;
      if peak > 0.0 && WalkOf(values).worst != before {
        var k :| 0 <= k < |values| && values[k] == peak;
        i, j := k, n;
      } else if peak > 0.0 && !IsDecline(values[..n], i, j, -before) {
        assert forall k :: 0 <= k < n ==> values[k] == values[..n][k];
        DeclineIs(values[n], values[n]);
        i, j := n, n;
      }
    }
  }

  // ---- When one pass is enough --------------------------------------------------------------------

  /** Date by date: with a positive peak behind it, the loop's decline at a date is the largest decline
      ending there exactly when the value is not negative or the peak is the only positive value so far. */
  lemma PeakIsTheWorstStartExactlyWhen(values: seq<real>)
    requires values != [] && WalkOf(values).peak.Some? && WalkOf(values).peak.value > 0.0
    ensures var p, last := WalkOf(values).peak.value, values[|values| - 1];
      (forall i :: 0 <= i < |values| && values[i] > 0.0 ==> Decline(values[i], last) <= Decline(p, last))
      <==> last >= 0.0 || forall i :: 0 <= i < |values| && values[i] > 0.0 ==> values[i] == p
  {
    PeakIsMaximum(values);
    hide WalkOf, Decline;
    var p, last := WalkOf(values).peak.value, values[|values| - 1];
    forall i | 0 <= i < |values| && values[i] > 0.0
      ensures last >= 0.0 ==> Decline(values[i], last) <= Decline(p, last)
      ensures last < 0.0 && values[i] < p ==> Decline(values[i], last) > Decline(p, last)
    {
      if last >= 0.0 {
        DeclineGrows(values[i], p, last);
      } else {
        DeclineFalls(values[i], p, last);
      }
    }
  }

  /** The least positive value, if any. */
  function LeastPositive(values: seq<real>): (least: Option<real>)
    ensures least.Some? ==> least.value > 0.0
  {
    if values == [] then None
    else
      var least, last := LeastPositive(values[..|values| - 1]), values[|values| - 1];
      if last > 0.0 && (least.None? || last < least.value) then Some(last) else least
  }

  lemma {:induction false} LeastPositiveIs(values: seq<real>)
    ensures var least := LeastPositive(values);
      && (least.Some? ==> exists i :: 0 <= i < |values| && values[i] == least.value)
      && (forall i :: 0 <= i < |values| && values[i] > 0.0 ==> least.Some? && least.value <= values[i])
  {
    if values == [] {
    } else {
      var n := |values| - 1;
      LeastPositiveIs(values[..n]);
      assert forall k :: 0 <= k < n ==> values[..n][k] == values[k];
      if LeastPositive(values[..n]).Some? {
        var i :| 0 <= i < n && values[..n][i] == LeastPositive(values[..n]).value;
        assert values[i] == LeastPositive(values[..n]).value;
      }
      if LeastPositive(values).Some? && LeastPositive(values) != LeastPositive(values[..n]) {
        assert values[n] == LeastPositive(values).value;
      }
    }
  }

  /** The running peak at a date. */
  function PeakAt(values: seq<real>, k: nat): real
    requires k < |values|
  {
    WalkOf(values[..k + 1]).peak.value
  }

  /** The date's decline from a positive running peak is at least `depth`. */
  ghost predicate FallsFromPeak(values: seq<real>, k: nat, depth: real)
    requires k < |values|
  {
    PeakAt(values, k) > 0.0 && Decline(PeakAt(values, k), values[k]) >= depth
  }

  /** A negative value after a positive one. */
  predicate Sinks(values: seq<real>, j: nat)
    requires j < |values|
  {
    values[j] < 0.0 && LeastPositive(values[..j + 1]).Some?
  }

  /** Its fall from the least positive value before it. */
  function Depth(values: seq<real>, j: nat): real
    requires j < |values| && Sinks(values, j)
  {
    Decline(LeastPositive(values[..j + 1]).value, values[j])
  }

  /** Every value that sinks below zero is matched by a date that falls at least as deep from its running
      peak. */
  ghost predicate PeaksCoverTheFalls(values: seq<real>) {
    forall j: nat :: j < |values| && Sinks(values, j) ==>
      exists k: nat :: k < |values| && FallsFromPeak(values, k, Depth(values, j))
  }

  /** Every decline from a running peak is within the reported loss. */
  lemma {:induction false} PeakFallsAreWithin(values: seq<real>, k: nat)
    requires k < |values| && PeakAt(values, k) > 0.0
    ensures Decline(PeakAt(values, k), values[k]) <= -WalkOf(values).worst
  {
    hide Decline;
    LastStep(values);
    var n := |values| - 1;
    if k == n {
      assert values[..k + 1] == values;
    } else {
      assert values[..n][..k + 1] == values[..k + 1];
      PeakFallsAreWithin(values[..n], k);
    }
  }

  /** And a reported loss is such a decline. */
  lemma {:induction false} LossIsAPeakFall(values: seq<real>) returns (k: nat)
    requires WalkOf(values).worst < 0.0
    ensures k < |values| && FallsFromPeak(values, k, -WalkOf(values).worst)
  {
    hide Decline;
    LastStep(values);
    var n := |values| - 1;
    if WalkOf(values).worst == WalkOf(values[..n]).worst {
      k := LossIsAPeakFall(values[..n]);
      assert values[..n][..k + 1] == values[..k + 1];
    } else {
      k := n;
      assert values[..k + 1] == values;
    }
  }

  lemma SinkingIsDeep(values: seq<real>, j: nat)
    requires j < |values| && Sinks(values, j)
    ensures Depth(values, j) > 100.0
  {
    var least := LeastPositive(values[..j + 1]).value;
    DeclineIs(least, values[j]);
    RatioBound(-values[j], least, 0.0);
    RatioIs(values[j], least, -(-values[j] / least));
  }

  /** So the falls below zero are covered by peak falls exactly when they are within the reported loss. */
  lemma CoveredIsWithin(values: seq<real>)
    ensures PeaksCoverTheFalls(values) <==>
            forall j: nat :: j < |values| && Sinks(values, j) ==> Depth(values, j) <= -WalkOf(values).worst
  {
    hide WalkOf, PeakAt, Sinks, Depth, Decline;
    WorstIsNotPositive(values);
    forall j: nat | j < |values| && Sinks(values, j)
      ensures (exists k: nat :: k < |values| && FallsFromPeak(values, k, Depth(values, j)))
              <==> Depth(values, j) <= -WalkOf(values).worst
    {
      SinkingIsDeep(values, j);
      if k: nat :| k < |values| && FallsFromPeak(values, k, Depth(values, j)) {
        PeakFallsAreWithin(values, k);
      }
      if Depth(values, j) <= -WalkOf(values).worst {
        var k := LossIsAPeakFall(values);
        assert FallsFromPeak(values, k, Depth(values, j));
      }
    }
  }

  /** Over every series the one-pass loop computes the pairwise maximum exactly when each value below zero
      falls no further from the least positive value before it than some date falls from its running
      peak. */
  lemma OnePassIsPairwiseExactlyWhen(values: seq<real>)
    ensures IsMaxDrawdown(values, Abs(WalkOf(values).worst)) <==> PeaksCoverTheFalls(values)
  {
    hide Decline, WalkOf, LeastPositive, PeaksCoverTheFalls;
    WorstIsNotPositive(values);
    CoveredIsWithin(values);
    var loss := Abs(WalkOf(values).worst);
    var a, b := LossIsAttained(values);
    if PeaksCoverTheFalls(values) {
      forall i, j | 0 <= i <= j < |values| && values[i] > 0.0 ensures Decline(values[i], values[j]) <= loss {
        if values[j] >= 0.0 {
          LossBoundsEveryPair(values, i, j);
        } else {
          LeastPositiveIs(values[..j + 1]);
          assert values[..j + 1][i] == values[i];
          assert Sinks(values, j);
          DeclineFalls(LeastPositive(values[..j + 1]).value, values[i], values[j]);
        }
      }
    }
    if IsMaxDrawdown(values, loss) {
      forall j: nat | j < |values| && Sinks(values, j) ensures Depth(values, j) <= loss {
        LeastPositiveIs(values[..j + 1]);
        var i :| 0 <= i < j + 1 && values[..j + 1][i] == LeastPositive(values[..j + 1]).value;
        assert values[i] == LeastPositive(values[..j + 1]).value;
      }
    }
  }

  /** So it does on every series without a negative value, and reports at most 100, less than 100 when
      every value is positive. */
  lemma NonnegativeSeriesArePairwise(values: seq<real>)
    requires Nonnegative(values)
    ensures IsMaxDrawdown(values, Abs(WalkOf(values).worst))
    ensures Abs(WalkOf(values).worst) <= 100.0
    ensures (forall k :: 0 <= k < |values| ==> values[k] > 0.0) ==> Abs(WalkOf(values).worst) < 100.0
  {
    hide Decline, WalkOf, LeastPositive;
    OnePassIsPairwiseExactlyWhen(values);
    WorstIsNotPositive(values);
    var i, j := LossIsAttained(values);
    if IsDecline(values, i, j, -WalkOf(values).worst) {
      DeclineGrows(values[i], values[i], values[j]);
    }
  }

  /** Otherwise it can miss it: measured from the highest peak, 2 to -1 is a loss of 150%, but 1 to -1
      is one of 200%. A negative value alone does no harm. */
  lemma NegativeValuesCanBreakIt()
    ensures Abs(WalkOf([1.0, 2.0, -1.0]).worst) == 150.0 && Decline(1.0, -1.0) == 200.0
    ensures !IsMaxDrawdown([1.0, 2.0, -1.0], 150.0)
    ensures Abs(WalkOf([2.0, -1.0]).worst) == 150.0 && IsMaxDrawdown([2.0, -1.0], 150.0)
  {
    var v := [1.0, 2.0, -1.0];
    assert v[..2] == [1.0, 2.0] && [1.0, 2.0][..1] == [1.0] && [1.0][..0] == [];
    assert WalkOf([1.0]) == Walk(Some(1.0), 0.0);
    assert WalkOf([1.0, 2.0]) == Walk(Some(2.0), 0.0);
    assert v[0] == 1.0 && v[2] == -1.0;
    var u := [2.0, -1.0];
    assert u[..1] == [2.0] && [2.0][..0] == [];
    assert WalkOf([2.0]) == Walk(Some(2.0), 0.0);
    assert Decline(2.0, -1.0) == 150.0 && Decline(2.0, 2.0) == 0.0;
    assert u[0] == 2.0 && u[1] == -1.0;
    assert IsDecline(u, 0, 1, 150.0);
  }

  // ---- Beside the kill switch -----------------------------------------------------------------

  /** The signed daily change `RiskService.status` compares with the limit. */
  function DailyChange(opening: real, current: real): real {
    if opening != 0.0 then (current - opening) / opening * 100.0 else 0.0
  }

  /** A window of the equity curve holding today's opening snapshot and ending at the current mark. */
  ghost predicate Window(values: seq<real>, today: nat, opening: real, current: real) {
    today < |values| && values[today] == opening && values[|values| - 1] == current
  }

  ghost predicate ReportCovers(values: seq<real>, opening: real, current: real) {
    Abs(WalkOf(values).worst) >= -DailyChange(opening, current)
  }

  /** Neither mark is negative, or the kill switch sees no loss anyway. */
  predicate Coverable(opening: real, current: real) {
    || (opening >= 0.0 && current >= 0.0)
    || opening == 0.0
    || (opening < 0.0 && current <= opening)
  }

  lemma CoverableIsCovered(values: seq<real>, today: nat, opening: real, current: real)
    requires Window(values, today, opening, current) && Coverable(opening, current)
    ensures ReportCovers(values, opening, current)
  {
    hide WalkOf;
    WorstIsNotPositive(values);
    if opening > 0.0 {
      DeclineIs(opening, current);
      LossBoundsEveryPair(values, today, |values| - 1);
    } else if opening < 0.0 {
      NegativePeakLosesNothing(opening, current);
    }
  }

  /** A higher peak in between hides part of a fall below zero. */
  lemma FallBelowZeroIsHidden(opening: real, current: real)
    requires opening > 0.0 > current
    ensures !ReportCovers([opening, 2.0 * opening, current], opening, current)
  {
    var peak := 2.0 * opening;
    var v := [opening, peak, current];
    assert v[..2] == [opening, peak] && [opening, peak][..1] == [opening] && [opening][..0] == [];
    DeclineIs(opening, opening);
    DeclineIs(peak, peak);
    DeclineIs(peak, current);
    DeclineIs(opening, current);
    DeclineFalls(opening, peak, current);
    RatioBound(current, peak, 0.0);
    hide Decline;
    assert WalkOf([opening]) == Walk(Some(opening), 0.0);
    assert WalkOf([opening, peak]) == Walk(Some(peak), 0.0);
  }

  /** A rise from a negative opening reads as a loss, but is no decline. */
  lemma RiseFromBelowReadsAsLoss(opening: real, current: real)
    requires opening < 0.0 && opening < current
    ensures !ReportCovers([opening, current], opening, current)
  {
    var v := [opening, current];
    assert v[..1] == [opening] && [opening][..0] == [];
    NegativePeakLosesNothing(opening, opening);
    assert WalkOf([opening]) == Walk(Some(opening), 0.0);
    RatioBound(current - opening, -opening, 0.0);
    RatioIs(current - opening, opening, -((current - opening) / -opening));
    if current != 0.0 {
      assert (current - current) / current == 0.0;
    }
  }

  /** Whatever else a window holds, its report shows at least the loss the kill switch acts on exactly
      when the opening and current equity are not negative, or the kill switch sees no loss. */
  lemma ReportCoversKillSwitchLossExactlyWhen(opening: real, current: real)
    ensures (forall values, today :: Window(values, today, opening, current) ==> ReportCovers(values, opening, current))
            <==> Coverable(opening, current)
  {
    hide WalkOf, ReportCovers, DailyChange;
    if Coverable(opening, current) {
      forall values, today | Window(values, today, opening, current) ensures ReportCovers(values, opening, current) {
        CoverableIsCovered(values, today, opening, current);
      }
    } else if opening > 0.0 {
      FallBelowZeroIsHidden(opening, current);
      assert Window([opening, 2.0 * opening, current], 0, opening, current);
    } else {
      RiseFromBelowReadsAsLoss(opening, current);
      assert Window([opening, current], 0, opening, current);
    }
  }
}
