/** Forward and reverse DCF (app/services/valuation_service.py): the bisection
    inverts the five-year valuation polynomial, and exactly when it does not. */
module Valuation {
  import opened Money

  // ---- The valuation both methods loop over ---------------------------------------

  function Pow(x: real, n: nat): real {
    if n == 0 then 1.0 else Pow(x, n - 1) * x
  }

  /** Cash flow after n years of growth g. */
  function Fcf(start: real, g: real, n: nat): real {
    if n == 0 then start else Scale(Fcf(start, g, n - 1), 1.0 + g)
  }

  function Discounted(flow: real, factor: real): real
    requires factor != 0.0
  {
    flow / factor
  }

  lemma {:induction false} PowPositive(x: real, n: nat)
    requires x > 0.0
    ensures Pow(x, n) > 0.0
  {
    if n == 0 {
    } else {
      PowPositive(x, n - 1);
    }
  }

  /** A discount rate and a terminal growth the clamps can produce. */
  datatype Rates = Rates(wacc: real, terminal: real) {
    predicate Valid() {
      wacc >= 0.04 && wacc - terminal >= 0.005
    }
  }

  function ClampRates(waccPct: real, terminalPct: real): (r: Rates)
    ensures r.Valid()
    ensures terminalPct > -100.0 ==> r.terminal > -1.0
  {
    var wacc := Max(0.04, waccPct / 100.0);
    Rates(wacc, Min(wacc - 0.005, terminalPct / 100.0))
  }

  /** The rates asked for, in numbers: a discount rate of at least 4%, a terminal growth at least half a
      point below it, and otherwise exactly as given. */
  lemma RatesAre(waccPct: real, terminalPct: real)
    ensures var r := ClampRates(waccPct, terminalPct);
      && (waccPct >= 4.0 ==> r.wacc == waccPct / 100.0) && (waccPct < 4.0 ==> r.wacc == 0.04)
      && (terminalPct <= waccPct - 0.5 ==> r.terminal == terminalPct / 100.0)
      && (terminalPct >= 3.5 && terminalPct >= waccPct - 0.5 ==> r.terminal == r.wacc - 0.005)
      && (terminalPct <= 3.5 ==> r.terminal == terminalPct / 100.0)
  {
  }

  function PresentValue(start: real, g: real, r: Rates, n: nat): real
    requires r.Valid()
  {
    if n == 0 then 0.0
    else
      PowPositive(1.0 + r.wacc, n);
      PresentValue(start, g, r, n - 1) + Discounted(Fcf(start, g, n), Pow(1.0 + r.wacc, n))
  }

  /** Gordon growth terminal value, then discounted five years. */
  function TerminalValue(flow: real, r: Rates): real
    requires r.Valid()
  {
    Discounted(Scale(flow, 1.0 + r.terminal), r.wacc - r.terminal)
  }

  function Ev(start: real, g: real, r: Rates): real
    requires r.Valid()
  {
    PowPositive(1.0 + r.wacc, 5);
    PresentValue(start, g, r, 5) + Discounted(TerminalValue(Fcf(start, g, 5), r), Pow(1.0 + r.wacc, 5))
  }

  function FairValue(equity: real, shares: real): real {
    Max(0.01, equity / Max(1.0, shares))
  }

  /** Equity per share, with at least one share and at least one cent. */
  lemma FairValueIs(equity: real, shares: real)
    ensures shares >= 1.0 ==>
      FairValue(equity, shares) == if equity / shares >= 0.01 then equity / shares else 0.01
    ensures shares < 1.0 ==> FairValue(equity, shares) == if equity >= 0.01 then equity else 0.01
  {
    assert equity / 1.0 == equity;
  }

  /** Each year's cash flow is the year before's, grown once. */
  lemma FcfIs(start: real, g: real, n: nat)
    ensures Fcf(start, g, n + 1) == Fcf(start, g, n) * (1.0 + g) && Fcf(start, g, 0) == start
  {
  }

  // ---- The two methods ---------------------------------------------------------------

  datatype Scenario = Scenario(projected: seq<real>, terminalValue: real, enterpriseValue: real,
                               equityValue: real, fairValue: real)

  method CalculateDcf(shares: real, debt: real, cash: real, baseFcf: real,
                      growthPct: real, waccPct: real, terminalPct: real) returns (s: Scenario)
    ensures |s.projected| == 5 && forall k :: 0 <= k < 5 ==> s.projected[k] == Fcf(baseFcf, growthPct / 100.0, k + 1)
    ensures s.enterpriseValue == Ev(baseFcf, growthPct / 100.0, ClampRates(waccPct, terminalPct))
    ensures waccPct >= 4.0 && terminalPct <= waccPct - 0.5 ==>
      s.enterpriseValue == WorthAhead(baseFcf, growthPct / 100.0, Rates(waccPct / 100.0, terminalPct / 100.0), 5)
    ensures waccPct >= 4.0 && terminalPct > waccPct - 0.5 ==>
      s.enterpriseValue == WorthAhead(baseFcf, growthPct / 100.0, Rates(waccPct / 100.0, (waccPct - 0.5) / 100.0), 5)
    ensures waccPct < 4.0 && terminalPct <= 3.5 ==>
      s.enterpriseValue == WorthAhead(baseFcf, growthPct / 100.0, Rates(0.04, terminalPct / 100.0), 5)
    ensures waccPct < 4.0 && terminalPct > 3.5 ==>
      s.enterpriseValue == WorthAhead(baseFcf, growthPct / 100.0, Rates(0.04, 0.035), 5)
    ensures s.projected[0] == baseFcf * (1.0 + growthPct / 100.0)
    ensures forall k :: 0 <= k < 4 ==> s.projected[k + 1] == s.projected[k] * (1.0 + growthPct / 100.0)
    ensures s.terminalValue == TerminalValue(s.projected[4], ClampRates(waccPct, terminalPct))
    ensures s.equityValue == s.enterpriseValue + cash - debt
    ensures s.fairValue == FairValue(s.equityValue, shares)
    ensures shares >= 1.0 && s.equityValue / shares >= 0.01 ==> s.fairValue == s.equityValue / shares
  {
    hide Discounted, FairValue, Pow, TerminalValue, WorthAhead, ClampRates, Scale;
    var r := ClampRates(waccPct, terminalPct);
    WorthIs(baseFcf, growthPct / 100.0, waccPct, terminalPct);
    var growth := growthPct / 100.0;
    var projected: seq<real> := [];
    var pv := 0.0;
    var fcf := baseFcf;
    for yr := 1 to 6
      invariant fcf == Fcf(baseFcf, growth, yr - 1)
      invariant pv == PresentValue(baseFcf, growth, r, yr - 1)
      invariant |projected| == yr - 1 && forall k :: 0 <= k < yr - 1 ==> projected[k] == Fcf(baseFcf, growth, k + 1)
    {
      fcf := Scale(fcf, 1.0 + growth);
      projected := projected + [fcf];
      PowPositive(1.0 + r.wacc, yr);
      pv := pv + Discounted(fcf, Pow(1.0 + r.wacc, yr));
    }
    var terminalValue := TerminalValue(fcf, r);
    PowPositive(1.0 + r.wacc, 5);
    var ev := pv + Discounted(terminalValue, Pow(1.0 + r.wacc, 5));
    var equity := ev + cash - debt;
    s := Scenario(projected, terminalValue, ev, equity, FairValue(equity, shares));
    FairValueIs(equity, shares);
    ProjectionGrows(projected, baseFcf, growth);
  }

  lemma ProjectionGrows(projected: seq<real>, start: real, g: real)
    requires |projected| == 5 && forall k :: 0 <= k < 5 ==> projected[k] == Fcf(start, g, k + 1)
    ensures projected[0] == start * (1.0 + g)
    ensures forall k :: 0 <= k < 4 ==> projected[k + 1] == projected[k] * (1.0 + g)
  {
    FcfIs(start, g, 0);
    forall k | 0 <= k < 4 ensures projected[k + 1] == projected[k] * (1.0 + g) {
      FcfIs(start, g, k + 1);
    }
  }

  /** The enterprise value in the rates asked for: as given from 4% up and half a point apart, else at the
      nearest rates that are. */
  lemma WorthIs(baseFcf: real, g: real, waccPct: real, terminalPct: real)
    ensures var ev := Ev(baseFcf, g, ClampRates(waccPct, terminalPct));
      && (waccPct >= 4.0 && terminalPct <= waccPct - 0.5 ==>
            ev == WorthAhead(baseFcf, g, Rates(waccPct / 100.0, terminalPct / 100.0), 5))
      && (waccPct >= 4.0 && terminalPct > waccPct - 0.5 ==>
            ev == WorthAhead(baseFcf, g, Rates(waccPct / 100.0, (waccPct - 0.5) / 100.0), 5))
      && (waccPct < 4.0 && terminalPct <= 3.5 ==>
            ev == WorthAhead(baseFcf, g, Rates(0.04, terminalPct / 100.0), 5))
      && (waccPct < 4.0 && terminalPct > 3.5 ==>
            ev == WorthAhead(baseFcf, g, Rates(0.04, 0.035), 5))
  {
    RatesAre(waccPct, terminalPct);
    EvRollsBack(baseFcf, g, ClampRates(waccPct, terminalPct));
    hide Ev, WorthAhead, TerminalValue;
  }

  /** n bisection passes over [low, high]; the answer is the last midpoint tried. */
  function Bisect(start: real, r: Rates, target: real, low: real, high: real, n: nat, last: real): real
    requires r.Valid()
    decreases n
  {
    if n == 0 then last
    else
      var mid := (low + high) / 2.0;
      if Ev(start, mid, r) < target then Bisect(start, r, target, mid, high, n - 1, mid)
      else Bisect(start, r, target, low, mid, n - 1, mid)
  }

  function TargetEv(price: real, shares: real, debt: real, cash: real): real {
    price * shares + debt - cash
  }

  function Solve(start: real, r: Rates, target: real): real
    requires r.Valid()
  {
    Bisect(start, r, target, -0.5, 1.0, 50, 0.10)
  }

  method CalculateReverseDcf(price: real, shares: real, debt: real, cash: real, baseFcf: real,
                             waccPct: real, terminalPct: real) returns (impliedG: real)
    ensures impliedG == Solve(baseFcf, ClampRates(waccPct, terminalPct), price * shares + debt - cash)
    ensures waccPct >= 4.0 && terminalPct <= waccPct - 0.5 ==>
      impliedG == Solve(baseFcf, Rates(waccPct / 100.0, terminalPct / 100.0), price * shares + debt - cash)
    ensures waccPct >= 4.0 && terminalPct > waccPct - 0.5 ==>
      impliedG == Solve(baseFcf, Rates(waccPct / 100.0, (waccPct - 0.5) / 100.0), price * shares + debt - cash)
    ensures waccPct < 4.0 && terminalPct <= 3.5 ==>
      impliedG == Solve(baseFcf, Rates(0.04, terminalPct / 100.0), price * shares + debt - cash)
    ensures waccPct < 4.0 && terminalPct > 3.5 ==>
      impliedG == Solve(baseFcf, Rates(0.04, 0.035), price * shares + debt - cash)
  {
    var targetEv := price * shares + debt - cash;
    hide Discounted, TerminalValue;
    RatesAre(waccPct, terminalPct);
    var low, high := -0.5, 1.0;
    impliedG := 0.10;
    var r := ClampRates(waccPct, terminalPct);
    for i := 0 to 50
      invariant Bisect(baseFcf, r, targetEv, low, high, 50 - i, impliedG) == Solve(baseFcf, r, targetEv)
    {
      var mid := (low + high) / 2.0;
      var pv := 0.0;
      var fcf := baseFcf;
      for yr := 1 to 6
        invariant fcf == Fcf(baseFcf, mid, yr - 1)
        invariant pv == PresentValue(baseFcf, mid, r, yr - 1)
      {
        fcf := Scale(fcf, 1.0 + mid);
        PowPositive(1.0 + r.wacc, yr);
        pv := pv + Discounted(fcf, Pow(1.0 + r.wacc, yr));
      }
      PowPositive(1.0 + r.wacc, 5);
      var ev := pv + Discounted(TerminalValue(fcf, r), Pow(1.0 + r.wacc, 5));
      if ev < targetEv {
        low := mid;
      } else {
        high := mid;
      }
      impliedG := mid;
    }
  }

  // ---- What the value means --------------------------------------------------------------

  /** The worth of a business n years before its terminal year: next year's cash flow and next
      year's worth, discounted one year. */
  function WorthAhead(flow: real, g: real, r: Rates, n: nat): real
    requires r.Valid()
    decreases n
  {
    if n == 0 then TerminalValue(flow, r)
    else
      var next := Scale(flow, 1.0 + g);
      Discounted(next + WorthAhead(next, g, r, n - 1), 1.0 + r.wacc)
  }

  lemma DiscountAdds(a: real, b: real, factor: real)
    requires factor > 0.0
    ensures Discounted(a + b, factor) == Discounted(a, factor) + Discounted(b, factor)
    ensures Discounted(0.0, factor) == 0.0
  {
  }

  lemma DiscountTwice(flow: real, a: real, b: real, both: real)
    requires a > 0.0 && b > 0.0 && both > 0.0 && both == a * b
    ensures Discounted(flow, both) == Discounted(Discounted(flow, a), b)
  {
    var q := flow / a / b;
    assert flow / a == q * b;
    assert flow == flow / a * a;
    assert q * (a * b) == q * b * a;
    RatioIs(flow, both, q);
  }

  lemma {:induction false} FcfAYearOn(start: real, g: real, n: nat)
    ensures Fcf(start, g, n + 1) == Fcf(Scale(start, 1.0 + g), g, n)
  {
    hide Scale;
    if n == 0 {
    } else {
      FcfAYearOn(start, g, n - 1);
    }
  }

  /** Discounting n + 1 years is discounting n years and then once more. */
  lemma FlowAYearOn(flow: real, r: Rates, n: nat)
    requires r.Valid()
    ensures Pow(1.0 + r.wacc, n) > 0.0 && Pow(1.0 + r.wacc, n + 1) > 0.0
    ensures Discounted(flow, Pow(1.0 + r.wacc, n + 1)) ==
            Discounted(Discounted(flow, Pow(1.0 + r.wacc, n)), 1.0 + r.wacc)
  {
    hide Discounted;
    var x := 1.0 + r.wacc;
    PowPositive(x, n);
    PowPositive(x, n + 1);
    DiscountTwice(flow, Pow(x, n), x, Pow(x, n + 1));
  }

  lemma {:induction false} PresentValueAYearOn(start: real, g: real, r: Rates, n: nat)
    requires r.Valid()
    ensures var next := Scale(start, 1.0 + g);
      PresentValue(start, g, r, n + 1) == Discounted(next + PresentValue(next, g, r, n), 1.0 + r.wacc)
  {
    hide Discounted, Scale;
    var next, factor := Scale(start, 1.0 + g), 1.0 + r.wacc;
    FlowAYearOn(Fcf(start, g, n + 1), r, n);
    FcfAYearOn(start, g, n);
    DiscountAdds(next, 0.0, factor);
    if n == 0 {
      assert Pow(factor, 1) == factor;
      assert Fcf(start, g, 1) == next;
    } else {
      PresentValueAYearOn(start, g, r, n - 1);
      DiscountAdds(next + PresentValue(next, g, r, n - 1), Discounted(Fcf(next, g, n), Pow(factor, n)), factor);
    }
  }

  lemma {:induction false} WorthIsSummed(start: real, g: real, r: Rates, n: nat)
    requires r.Valid()
    ensures Pow(1.0 + r.wacc, n) > 0.0
    ensures WorthAhead(start, g, r, n) ==
            PresentValue(start, g, r, n) + Discounted(TerminalValue(Fcf(start, g, n), r), Pow(1.0 + r.wacc, n))
    decreases n
  {
    hide Discounted, Scale, TerminalValue;
    PowPositive(1.0 + r.wacc, n);
    if n == 0 {
      DiscountByOne(TerminalValue(start, r));
    } else {
      var next, factor := Scale(start, 1.0 + g), 1.0 + r.wacc;
      var terminal := TerminalValue(Fcf(start, g, n), r);
      WorthIsSummed(next, g, r, n - 1);
      FlowAYearOn(terminal, r, n - 1);
      FcfAYearOn(start, g, n - 1);
      PresentValueAYearOn(start, g, r, n - 1);
      DiscountAdds(next + PresentValue(next, g, r, n - 1), Discounted(terminal, Pow(factor, n - 1)), factor);
    }
  }

  lemma DiscountByOne(flow: real)
    ensures Discounted(flow, 1.0) == flow
  {
  }

  /** The enterprise value the loop sums is the value rolled back year by year, from a terminal
      value that is worth its own next flow and itself a year on: a perpetuity. */
  lemma EvRollsBack(start: real, g: real, r: Rates)
    requires r.Valid()
    ensures Ev(start, g, r) == WorthAhead(start, g, r, 5)
    ensures forall flow :: TerminalValue(flow, r) ==
              Discounted(Scale(flow, 1.0 + r.terminal) + Scale(TerminalValue(flow, r), 1.0 + r.terminal), 1.0 + r.wacc)
  {
    WorthIsSummed(start, g, r, 5);
    hide WorthAhead, PresentValue;
    forall flow: real ensures TerminalValue(flow, r) ==
      Discounted(Scale(flow, 1.0 + r.terminal) + Scale(TerminalValue(flow, r), 1.0 + r.terminal), 1.0 + r.wacc)
    {
      Perpetuity(Scale(flow, 1.0 + r.terminal), r);
    }
  }

  lemma Perpetuity(flow: real, r: Rates)
    requires r.Valid()
    ensures var v := Discounted(flow, r.wacc - r.terminal);
            v == Discounted(flow + Scale(v, 1.0 + r.terminal), 1.0 + r.wacc)
  {
    var v := flow / (r.wacc - r.terminal);
    RatioBound(flow, r.wacc - r.terminal, 0.0);
    assert v * (r.wacc - r.terminal) == v * r.wacc - v * r.terminal;
    assert v * (1.0 + r.wacc) == v + v * r.wacc;
    assert v * (1.0 + r.terminal) == v + v * r.terminal;
    RatioIs(flow + Scale(v, 1.0 + r.terminal), 1.0 + r.wacc, v);
  }

  // ---- Monotonicity ---------------------------------------------------------------------

  lemma ScaleGrowsBoth(a: real, b: real, x: real, y: real)
    requires 0.0 < a <= b && 0.0 < x < y
    ensures 0.0 < Scale(a, x) < Scale(b, y)
  {
    assert a * x < a * y;
    assert a * y <= b * y;
  }

  lemma DiscountGrows(a: real, b: real, factor: real)
    requires a < b && factor > 0.0
    ensures Discounted(a, factor) < Discounted(b, factor)
  {
    RatioBound(a, factor, b / factor);
    RatioBound(b, factor, b / factor);
  }

  lemma {:induction false} FcfGrows(start: real, g: real, h: real, n: nat)
    requires start > 0.0 && -1.0 < g < h
    ensures 0.0 < Fcf(start, g, n) <= Fcf(start, h, n)
    ensures n > 0 ==> Fcf(start, g, n) < Fcf(start, h, n)
  {
    hide Scale;
    if n == 0 {
    } else {
      FcfGrows(start, g, h, n - 1);
      ScaleGrowsBoth(Fcf(start, g, n - 1), Fcf(start, h, n - 1), 1.0 + g, 1.0 + h);
    }
  }

  lemma {:induction false} PresentValueGrows(start: real, g: real, h: real, r: Rates, n: nat)
    requires start > 0.0 && -1.0 < g < h && r.Valid()
    ensures PresentValue(start, g, r, n) <= PresentValue(start, h, r, n)
  {
    hide Discounted, Fcf, Pow;
    if n == 0 {
    } else {
      PresentValueGrows(start, g, h, r, n - 1);
      FcfGrows(start, g, h, n);
      PowPositive(1.0 + r.wacc, n);
      DiscountGrows(Fcf(start, g, n), Fcf(start, h, n), Pow(1.0 + r.wacc, n));
    }
  }

  lemma TerminalGrows(a: real, b: real, r: Rates)
    requires a < b && r.Valid() && r.terminal > -1.0
    ensures TerminalValue(a, r) < TerminalValue(b, r)
  {
    hide Scale, Discounted;
    ScaleGrows(a, b, 1.0 + r.terminal);
    DiscountGrows(Scale(a, 1.0 + r.terminal), Scale(b, 1.0 + r.terminal), r.wacc - r.terminal);
  }

  /** Enterprise value is strictly increasing in the growth rate. */
  lemma EvGrows(start: real, g: real, h: real, r: Rates)
    requires start > 0.0 && -1.0 < g < h && r.Valid() && r.terminal > -1.0
    ensures Ev(start, g, r) < Ev(start, h, r)
  {
    hide Discounted, Fcf, Pow, TerminalValue, PresentValue;
    PresentValueGrows(start, g, h, r, 5);
    FcfGrows(start, g, h, 5);
    TerminalGrows(Fcf(start, g, 5), Fcf(start, h, 5), r);
    PowPositive(1.0 + r.wacc, 5);
    DiscountGrows(TerminalValue(Fcf(start, g, 5), r), TerminalValue(Fcf(start, h, 5), r), Pow(1.0 + r.wacc, 5));
  }

  // ---- The discount rate -----------------------------------------------------------------------

  lemma DiscountFalls(flow: real, a: real, b: real)
    requires flow > 0.0 && 0.0 < a < b
    ensures Discounted(flow, b) < Discounted(flow, a)
  {
    RatioBound(flow, b, 0.0);
    RatioExceeds(flow, a, b, flow / b);
  }

  lemma RatioExceeds(flow: real, a: real, b: real, q: real)
    requires q > 0.0 && q * b == flow && 0.0 < a < b
    ensures flow / a > q
  {
    ProductGrows(q, q, a, b);
    RatioBound(flow, a, q);
    RatioIsNot(flow, a, q);
  }

  lemma ProductGrows(p: real, q: real, x: real, y: real)
    requires 0.0 < p <= q && 0.0 < x < y
    ensures p * x < q * y
  {
    assert p * x < p * y;
    assert p * y <= q * y;
  }

  lemma RatioIsNot(x: real, y: real, q: real)
    requires y > 0.0 && q * y < x
    ensures x / y != q
  {
    assert x / y * y == x;
  }

  lemma {:induction false} PowGrows(x: real, y: real, n: nat)
    requires 0.0 < x < y
    ensures Pow(x, n) <= Pow(y, n) && (n > 0 ==> Pow(x, n) < Pow(y, n))
  {
    if n == 0 {
    } else {
      PowGrows(x, y, n - 1);
      PowPositive(x, n - 1);
      ProductGrows(Pow(x, n - 1), Pow(y, n - 1), x, y);
    }
  }

  lemma {:induction false} FcfPositive(start: real, g: real, n: nat)
    requires start > 0.0 && g > -1.0
    ensures Fcf(start, g, n) > 0.0
  {
    if n == 0 {
    } else {
      FcfPositive(start, g, n - 1);
      ScaleGrows(0.0, Fcf(start, g, n - 1), 1.0 + g);
    }
  }

  lemma {:induction false} PresentValueFalls(start: real, g: real, low: Rates, high: Rates, n: nat)
    requires start > 0.0 && g > -1.0 && low.Valid() && high.Valid() && low.wacc < high.wacc
    ensures PresentValue(start, g, high, n) <= PresentValue(start, g, low, n)
    ensures n > 0 ==> PresentValue(start, g, high, n) < PresentValue(start, g, low, n)
  {
    hide Discounted, Fcf, Pow;
    if n == 0 {
    } else {
      PresentValueFalls(start, g, low, high, n - 1);
      FcfPositive(start, g, n);
      PowPositive(1.0 + low.wacc, n);
      PowPositive(1.0 + high.wacc, n);
      PowGrows(1.0 + low.wacc, 1.0 + high.wacc, n);
      DiscountFalls(Fcf(start, g, n), Pow(1.0 + low.wacc, n), Pow(1.0 + high.wacc, n));
    }
  }

  /** A higher discount rate makes every positive cash flow worth less. */
  lemma EvFalls(start: real, g: real, low: Rates, high: Rates)
    requires start > 0.0 && g > -1.0 && low.Valid() && high.Valid()
    requires low.wacc < high.wacc && low.terminal == high.terminal > -1.0
    ensures Ev(start, g, high) < Ev(start, g, low)
  {
    var flow := Fcf(start, g, 5);
    FcfPositive(start, g, 5);
    PresentValueFalls(start, g, low, high, 5);
    TerminalFalls(flow, low, high);
    PowPositive(1.0 + low.wacc, 5);
    PowPositive(1.0 + high.wacc, 5);
    PowGrows(1.0 + low.wacc, 1.0 + high.wacc, 5);
    hide Discounted, Fcf, Pow, PresentValue, TerminalValue;
    DiscountGrows(TerminalValue(flow, high), TerminalValue(flow, low), Pow(1.0 + low.wacc, 5));
    DiscountFalls(TerminalValue(flow, high), Pow(1.0 + low.wacc, 5), Pow(1.0 + high.wacc, 5));
  }

  lemma TerminalFalls(flow: real, low: Rates, high: Rates)
    requires flow > 0.0 && low.Valid() && high.Valid() && low.wacc < high.wacc && low.terminal == high.terminal > -1.0
    ensures 0.0 < TerminalValue(flow, high) < TerminalValue(flow, low)
  {
    ScaleGrows(0.0, flow, 1.0 + low.terminal);
    ScaleAdds(0.0, 0.0, 1.0 + low.terminal);
    hide Scale;
    RatioBound(Scale(flow, 1.0 + high.terminal), high.wacc - high.terminal, 0.0);
    hide Discounted;
    DiscountFalls(Scale(flow, 1.0 + low.terminal), low.wacc - low.terminal, high.wacc - high.terminal);
    PositiveDiscount(Scale(flow, 1.0 + high.terminal), high.wacc - high.terminal);
  }

  lemma PositiveDiscount(flow: real, factor: real)
    requires flow > 0.0 && factor > 0.0
    ensures Discounted(flow, factor) > 0.0
  {
    RatioBound(flow, factor, 0.0);
  }

  /** In the terms asked for: from 4% up, with a terminal growth that stays half a point below, the
      enterprise value strictly falls as the discount rate rises. */
  lemma HigherWaccIsWorthLess(baseFcf: real, growthPct: real, lowPct: real, highPct: real, terminalPct: real)
    requires baseFcf > 0.0 && growthPct > -100.0 && terminalPct > -100.0
    requires 4.0 <= lowPct < highPct && terminalPct <= lowPct - 0.5
    ensures Ev(baseFcf, growthPct / 100.0, ClampRates(highPct, terminalPct)) <
            Ev(baseFcf, growthPct / 100.0, ClampRates(lowPct, terminalPct))
  {
    RatesAre(lowPct, terminalPct);
    RatesAre(highPct, terminalPct);
    EvFalls(baseFcf, growthPct / 100.0, ClampRates(lowPct, terminalPct), ClampRates(highPct, terminalPct));
  }

  lemma {:induction false} BisectStaysInside(start: real, r: Rates, target: real,
                                             low: real, high: real, n: nat, last: real)
    requires r.Valid() && low <= last <= high
    ensures low <= Bisect(start, r, target, low, high, n, last) <= high
    decreases n
  {
    hide Ev;
    if n == 0 {
    } else {
      var mid := (low + high) / 2.0;
      BisectStaysInside(start, r, target, mid, high, n - 1, mid);
      BisectStaysInside(start, r, target, low, mid, n - 1, mid);
    }
  }

  /** Where every growth is worth less, the search for one target goes no lower. */
  lemma {:induction false} BisectRises(start: real, low: Rates, high: Rates, target: real,
                                       a: real, b: real, n: nat, last: real)
    requires start > 0.0 && low.Valid() && high.Valid()
    requires low.wacc < high.wacc && low.terminal == high.terminal > -1.0
    requires -1.0 < a <= last <= b
    ensures Bisect(start, low, target, a, b, n, last) <= Bisect(start, high, target, a, b, n, last)
    decreases n
  {
    hide Ev;
    if n == 0 {
    } else {
      var mid := (a + b) / 2.0;
      EvFalls(start, mid, low, high);
      BisectRises(start, low, high, target, mid, b, n - 1, mid);
      BisectRises(start, low, high, target, a, mid, n - 1, mid);
      BisectStaysInside(start, low, target, a, mid, n - 1, mid);
      BisectStaysInside(start, high, target, mid, b, n - 1, mid);
    }
  }

  /** So the growth implied by a price never falls when the discount rate rises. */
  lemma HigherWaccImpliesMoreGrowth(baseFcf: real, target: real, lowPct: real, highPct: real, terminalPct: real)
    requires baseFcf > 0.0 && terminalPct > -100.0
    requires 4.0 <= lowPct < highPct && terminalPct <= lowPct - 0.5
    ensures Solve(baseFcf, ClampRates(lowPct, terminalPct), target) <=
            Solve(baseFcf, ClampRates(highPct, terminalPct), target)
  {
    RatesAre(lowPct, terminalPct);
    RatesAre(highPct, terminalPct);
    hide Bisect, ClampRates;
    var low, high := ClampRates(lowPct, terminalPct), ClampRates(highPct, terminalPct);
    BisectRises(baseFcf, low, high, target, -0.5, 1.0, 50, 0.10);
  }

  lemma {:induction false} FcfNegates(start: real, g: real, n: nat)
    ensures Fcf(-start, g, n) == -Fcf(start, g, n)
  {
    if n == 0 {
    } else {
      FcfNegates(start, g, n - 1);
      assert Scale(-Fcf(start, g, n - 1), 1.0 + g) == -Scale(Fcf(start, g, n - 1), 1.0 + g);
    }
  }

  lemma DiscountNegates(flow: real, factor: real)
    requires factor > 0.0
    ensures Discounted(-flow, factor) == -Discounted(flow, factor)
  {
  }

  lemma {:induction false} PresentValueNegates(start: real, g: real, r: Rates, n: nat)
    requires r.Valid()
    ensures PresentValue(-start, g, r, n) == -PresentValue(start, g, r, n)
  {
    hide Discounted, Fcf, Pow;
    if n == 0 {
    } else {
      PresentValueNegates(start, g, r, n - 1);
      FcfNegates(start, g, n);
      PowPositive(1.0 + r.wacc, n);
      DiscountNegates(Fcf(start, g, n), Pow(1.0 + r.wacc, n));
    }
  }

  lemma TerminalNegates(flow: real, r: Rates)
    requires r.Valid()
    ensures TerminalValue(-flow, r) == -TerminalValue(flow, r)
  {
    assert Scale(-flow, 1.0 + r.terminal) == -Scale(flow, 1.0 + r.terminal);
    DiscountNegates(Scale(flow, 1.0 + r.terminal), r.wacc - r.terminal);
  }

  lemma EvNegates(start: real, g: real, r: Rates)
    requires r.Valid()
    ensures Ev(-start, g, r) == -Ev(start, g, r)
  {
    hide Discounted, Fcf, Pow, TerminalValue, PresentValue;
    PresentValueNegates(start, g, r, 5);
    FcfNegates(start, g, 5);
    TerminalNegates(Fcf(start, g, 5), r);
    PowPositive(1.0 + r.wacc, 5);
    DiscountNegates(TerminalValue(Fcf(start, g, 5), r), Pow(1.0 + r.wacc, 5));
  }

  // ---- The bisection -----------------------------------------------------------------------

  function Clamp(g: real, low: real, high: real): real {
    if g < low then low else if g > high then high else g
  }

  /** x halved n times. */
  function Halved(x: real, n: nat): real
    decreases n
  {
    if n == 0 then x else Halved(x / 2.0, n - 1)
  }

  /** 1.5 / 2^50. */
  const TOLERANCE: real := 1.5 / 1125899906842624.0

  lemma {:induction false} HalvedIs(x: real, n: nat, power: int)
    requires power == Power2(n)
    ensures Halved(x, n) * power as real == x
    decreases n
  {
    if n == 0 {
    } else {
      HalvedIs(x / 2.0, n - 1, Power2(n - 1));
    }
  }

  function Power2(n: nat): int {
    if n == 0 then 1 else 2 * Power2(n - 1)
  }

  lemma ToleranceIsHalved()
    ensures Halved(1.5, 50) == TOLERANCE && Halved(0.75, 49) == TOLERANCE
  {
    assert Power2(10) == 1024 && Power2(20) == 1048576 && Power2(30) == 1073741824;
    assert Power2(40) == 1099511627776 && Power2(50) == 1125899906842624;
    HalvedIs(1.5, 50, 1125899906842624);
  }

  /** On [low, high] the test `ev < target` says "below g". */
  ghost predicate Splits(start: real, r: Rates, target: real, low: real, high: real, g: real)
    requires r.Valid()
  {
    forall m :: low <= m <= high ==> (Ev(start, m, r) < target <==> m < g)
  }

  /** After n passes the last midpoint is within (high - low) / 2^n of the split, or of the
      end of the bracket nearest to it. */
  lemma {:induction false} BisectConverges(start: real, r: Rates, target: real, low: real, high: real,
                                           n: nat, last: real, g: real)
    requires r.Valid() && n > 0 && low <= high && Splits(start, r, target, low, high, g)
    ensures Abs(Bisect(start, r, target, low, high, n, last) - Clamp(g, low, high)) <= Halved(high - low, n)
    decreases n
  {
    hide Ev;
    var mid := (low + high) / 2.0;
    assert Ev(start, mid, r) < target <==> mid < g;
    if n > 1 {
      if mid < g {
        BisectConverges(start, r, target, mid, high, n - 1, mid, g);
        assert high - mid == (high - low) / 2.0;
      } else {
        BisectConverges(start, r, target, low, mid, n - 1, mid, g);
        assert mid - low == (high - low) / 2.0;
      }
    } else {
      assert Halved((high - low) / 2.0, 0) == (high - low) / 2.0;
      assert Bisect(start, r, target, mid, high, 0, mid) == Bisect(start, r, target, low, mid, 0, mid) == mid;
    }
  }

  lemma SolveConverges(start: real, r: Rates, target: real, g: real)
    requires r.Valid() && Splits(start, r, target, -0.5, 1.0, g)
    ensures Abs(Solve(start, r, target) - Clamp(g, -0.5, 1.0)) <= TOLERANCE
  {
    hide Ev, Bisect;
    BisectConverges(start, r, target, -0.5, 1.0, 50, 0.10, g);
    ToleranceIsHalved();
  }

  /** With positive cash flow the solver recovers the growth behind an enterprise value,
      clamped to its bracket. */
  lemma SolverInvertsEv(start: real, r: Rates, g: real)
    requires start > 0.0 && g > -1.0 && r.Valid() && r.terminal > -1.0
    ensures Abs(Solve(start, r, Ev(start, g, r)) - Clamp(g, -0.5, 1.0)) <= TOLERANCE
  {
    hide Ev, Solve;
    forall m | -0.5 <= m <= 1.0 ensures Ev(start, m, r) < Ev(start, g, r) <==> m < g {
      if m < g {
        EvGrows(start, m, g, r);
      } else if g < m {
        EvGrows(start, g, m, r);
      }
    }
    SolveConverges(start, r, Ev(start, g, r), g);
  }

  /** Targets no growth in the bracket can justify saturate at its ends. */
  lemma SolverSaturates(start: real, r: Rates, target: real)
    requires start > 0.0 && r.Valid() && r.terminal > -1.0
    ensures target <= Ev(start, -0.5, r) ==> Abs(Solve(start, r, target) + 0.5) <= TOLERANCE
    ensures target > Ev(start, 1.0, r) ==> Abs(Solve(start, r, target) - 1.0) <= TOLERANCE
  {
    hide Ev, Solve;
    forall m | -0.5 <= m <= 1.0 ensures Ev(start, -0.5, r) <= Ev(start, m, r) <= Ev(start, 1.0, r) {
      if -0.5 < m {
        EvGrows(start, -0.5, m, r);
      }
      if m < 1.0 {
        EvGrows(start, m, 1.0, r);
      }
    }
    if target <= Ev(start, -0.5, r) {
      SolveConverges(start, r, target, -0.5);
    }
    if target > Ev(start, 1.0, r) {
      SolveConverges(start, r, target, 2.0);
    }
  }

  /** With negative cash flow the value falls as growth rises and the search runs the wrong
      way: it ends at 100% for every growth below its first midpoint and at -50% for the rest. */
  lemma NegativeCashFlowMisleadsTheSolver(start: real, r: Rates, g: real)
    requires start < 0.0 && g > -1.0 && r.Valid() && r.terminal > -1.0
    ensures Abs(Solve(start, r, Ev(start, g, r)) - (if g < 0.25 then 1.0 else -0.5)) <= TOLERANCE
  {
    hide Ev, Solve;
    var target := Ev(start, g, r);
    forall m | -0.5 <= m <= 1.0 ensures Ev(start, m, r) < target <==> g < m {
      EvNegates(-start, m, r);
      EvNegates(-start, g, r);
      if m < g {
        EvGrows(-start, m, g, r);
      } else if g < m {
        EvGrows(-start, g, m, r);
      }
    }
    ToleranceIsHalved();
    FirstPass(start, r, target);
    if g < 0.25 {
      BisectConverges(start, r, target, 0.25, 1.0, 49, 0.25, 2.0);
    } else {
      BisectConverges(start, r, target, -0.5, 0.25, 49, 0.25, -0.5);
    }
  }

  /** With no cash flow at all every growth is worth nothing and the search falls to -50%. */
  lemma ZeroCashFlowFallsToTheFloor(r: Rates, g: real)
    requires r.Valid()
    ensures Abs(Solve(0.0, r, Ev(0.0, g, r)) + 0.5) <= TOLERANCE
  {
    hide Ev, Solve;
    forall m ensures Ev(0.0, m, r) == 0.0 {
      EvNegates(0.0, m, r);
    }
    SolveConverges(0.0, r, Ev(0.0, g, r), -0.5);
  }

  lemma FirstPass(start: real, r: Rates, target: real)
    requires r.Valid()
    ensures Solve(start, r, target) ==
            if Ev(start, 0.25, r) < target then Bisect(start, r, target, 0.25, 1.0, 49, 0.25)
            else Bisect(start, r, target, -0.5, 0.25, 49, 0.25)
  {
    hide Ev;
    assert (-0.5 + 1.0) / 2.0 == 0.25;
  }

  // ---- The round trip ------------------------------------------------------------------------

  /** The fair value leads back to its own enterprise value exactly when it was neither
      floored at one cent nor divided by more shares than there are. */
  lemma TargetIsRecoveredExactlyWhen(ev: real, shares: real, debt: real, cash: real)
    ensures var equity := ev + cash - debt;
      TargetEv(FairValue(equity, shares), shares, debt, cash) == ev
      <==> (shares >= 1.0 && equity >= 0.01 * shares) || equity == 0.01 * shares
  {
    var equity := ev + cash - debt;
    if shares >= 1.0 {
      RatioBound(equity, shares, 0.01);
    } else {
      assert equity / 1.0 == equity;
      if equity >= 0.01 {
        ScaleGrows(shares, 1.0, equity);
      }
    }
  }

  // ---- And no other target will do ----------------------------------------------------------------

  /** One plus the lower growth is (1 - d) times one plus the higher. */
  ghost predicate Lowered(g: real, h: real, d: real) {
    -1.0 < h && 0.0 <= d <= 0.2 && 1.0 + h == Scale(1.0 + g, 1.0 - d)
  }

  lemma LossesAdd(f: real, kept: real, d: real)
    requires f >= 0.0 && 0.0 <= kept <= 1.0 && 0.0 <= d
    ensures Scale(Scale(f, kept), 1.0 - d) >= Scale(f, kept - d)
  {
    assert f * kept * (1.0 - d) - f * (kept - d) == f * (d * (1.0 - kept));
    assert d * (1.0 - kept) >= 0.0;
  }

  /** Each year of slightly lower growth costs at most the fraction d. */
  lemma {:induction false} FcfLowered(start: real, g: real, h: real, d: real, n: nat)
    requires start > 0.0 && g > -1.0 && Lowered(g, h, d) && n <= 5
    ensures 0.0 <= Fcf(start, g, n)
    ensures Fcf(start, h, n) >= Scale(Fcf(start, g, n), 1.0 - n as real * d)
  {
    hide Scale;
    if n == 0 {
      ScaleByOne(start);
    } else {
      FcfLowered(start, g, h, d, n - 1);
      var f, kept := Fcf(start, g, n - 1), 1.0 - (n - 1) as real * d;
      var next := Fcf(start, g, n);
      ScaleKeepsOrder(0.0, f, 1.0 + g);
      ScaleAdds(0.0, 0.0, 1.0 + g);
      ScaleKeepsOrder(Scale(f, kept), Fcf(start, h, n - 1), 1.0 + h);
      LowerOnce(f, kept, g, h, d);
      YearsLost(n - 1, d);
      LossesAdd(next, kept, d);
    }
  }

  lemma YearsLost(n: nat, d: real)
    requires n <= 4 && 0.0 <= d <= 0.2
    ensures 0.0 <= 1.0 - n as real * d <= 1.0
    ensures 1.0 - (n + 1) as real * d == 1.0 - n as real * d - d
  {
    assert 0.0 <= n as real * d <= 4.0 * d;
    assert (n + 1) as real * d == n as real * d + d;
  }

  lemma ScaleByOne(x: real)
    ensures Scale(x, 1.0) == x
  {
  }

  lemma ScaleKeepsOrder(a: real, b: real, factor: real)
    requires a <= b && factor >= 0.0
    ensures Scale(a, factor) <= Scale(b, factor)
  {
  }

  lemma LowerOnce(f: real, kept: real, g: real, h: real, d: real)
    requires 1.0 + h == Scale(1.0 + g, 1.0 - d)
    ensures Scale(Scale(f, kept), 1.0 + h) == Scale(Scale(Scale(f, 1.0 + g), kept), 1.0 - d)
  {
    var x, y := 1.0 + g, 1.0 - d;
    assert f * kept * (x * y) == f * x * kept * y;
  }

  lemma DiscountScales(x: real, c: real, factor: real)
    requires factor > 0.0
    ensures Discounted(Scale(x, c), factor) == Scale(Discounted(x, factor), c)
  {
    var q := x / factor;
    assert q * factor == x;
    assert q * c * factor == x * c;
    RatioIs(x * c, factor, q * c);
  }

  lemma DiscountKeepsOrder(a: real, b: real, factor: real)
    requires a <= b && factor > 0.0
    ensures Discounted(a, factor) <= Discounted(b, factor)
  {
    if a < b {
      DiscountGrows(a, b, factor);
    }
  }

  lemma FlowLowered(start: real, g: real, h: real, d: real, n: nat)
    requires start > 0.0 && g > -1.0 && Lowered(g, h, d) && n <= 5
    ensures Fcf(start, h, n) >= Scale(Fcf(start, g, n), 1.0 - 5.0 * d)
  {
    hide Fcf;
    FcfLowered(start, g, h, d, n);
    assert n as real * d <= 5.0 * d;
    ScaleSmaller(Fcf(start, g, n), 1.0 - 5.0 * d, 1.0 - n as real * d);
  }

  lemma ScaleSmaller(x: real, a: real, b: real)
    requires x >= 0.0 && a <= b
    ensures Scale(x, a) <= Scale(x, b)
  {
  }

  lemma {:induction false} PresentValueLowered(start: real, g: real, h: real, d: real, r: Rates, n: nat)
    requires start > 0.0 && g > -1.0 && Lowered(g, h, d) && n <= 5 && r.Valid()
    ensures PresentValue(start, h, r, n) >= Scale(PresentValue(start, g, r, n), 1.0 - 5.0 * d)
  {
    hide Discounted, Fcf, Pow, Scale, Lowered;
    var c := 1.0 - 5.0 * d;
    if n == 0 {
      ScaleAdds(0.0, 0.0, c);
    } else {
      PresentValueLowered(start, g, h, d, r, n - 1);
      FlowLowered(start, g, h, d, n);
      PowPositive(1.0 + r.wacc, n);
      var factor := Pow(1.0 + r.wacc, n);
      DiscountScales(Fcf(start, g, n), c, factor);
      DiscountKeepsOrder(Scale(Fcf(start, g, n), c), Fcf(start, h, n), factor);
      ScaleAdds(PresentValue(start, g, r, n - 1), Discounted(Fcf(start, g, n), factor), c);
    }
  }

  lemma TerminalLowered(a: real, b: real, c: real, r: Rates)
    requires b >= Scale(a, c) && r.Valid() && r.terminal > -1.0
    ensures TerminalValue(b, r) >= Scale(TerminalValue(a, r), c)
  {
    var k := 1.0 + r.terminal;
    ScaleKeepsOrder(Scale(a, c), b, k);
    assert a * c * k == a * k * c;
    assert Scale(Scale(a, c), k) == Scale(Scale(a, k), c);
    hide Scale, Discounted;
    DiscountScales(Scale(a, k), c, r.wacc - r.terminal);
    DiscountKeepsOrder(Scale(Scale(a, c), k), Scale(b, k), r.wacc - r.terminal);
  }

  /** A growth lower by the fraction d keeps all but 5 d of the value: enterprise value does not jump. */
  lemma EvLowered(start: real, g: real, h: real, d: real, r: Rates)
    requires start > 0.0 && g > -1.0 && Lowered(g, h, d) && r.Valid() && r.terminal > -1.0
    ensures Ev(start, h, r) >= Scale(Ev(start, g, r), 1.0 - 5.0 * d)
  {
    hide Discounted, Fcf, Pow, TerminalValue, PresentValue, Scale, Lowered;
    var c := 1.0 - 5.0 * d;
    PresentValueLowered(start, g, h, d, r, 5);
    FlowLowered(start, g, h, d, 5);
    TerminalLowered(Fcf(start, g, 5), Fcf(start, h, 5), c, r);
    PowPositive(1.0 + r.wacc, 5);
    var factor := Pow(1.0 + r.wacc, 5);
    DiscountScales(TerminalValue(Fcf(start, g, 5), r), c, factor);
    DiscountKeepsOrder(Scale(TerminalValue(Fcf(start, g, 5), r), c), TerminalValue(Fcf(start, h, 5), r), factor);
    ScaleAdds(PresentValue(start, g, r, 5), Discounted(TerminalValue(Fcf(start, g, 5), r), factor), c);
  }

  /** A loss of five times the fraction that fits the gap stays above the target. */
  lemma SmallDrop(value: real, target: real, d: real)
    requires target < value && 0.0 <= d && (value > 0.0 ==> Scale(d, 5.0 * value) <= value - target)
    ensures Scale(value, 1.0 - 5.0 * d) >= target
  {
    DropIs(value, d);
    if value <= 0.0 {
      ScaleKeepsOrder(0.0, d, -5.0 * value);
      DropSign(value, d);
    }
  }

  lemma DropIs(value: real, d: real)
    ensures Scale(value, 1.0 - 5.0 * d) == value - Scale(d, 5.0 * value)
  {
    assert value * (1.0 - 5.0 * d) == value - d * (5.0 * value);
  }

  lemma DropSign(value: real, d: real)
    ensures Scale(d, -5.0 * value) == -Scale(d, 5.0 * value)
    ensures Scale(0.0, -5.0 * value) == 0.0
  {
  }

  /** Lowering g by a small enough fraction stays inside the bracket. */
  lemma SmallMove(g: real, d: real) returns (h: real)
    requires -0.5 < g && 0.0 < d <= 0.2 && Scale(d, 1.0 + g) <= g + 0.5
    ensures Lowered(g, h, d) && -0.5 <= h < g
  {
    h := Scale(1.0 + g, 1.0 - d) - 1.0;
    assert (1.0 + g) * (1.0 - d) == 1.0 + g - d * (1.0 + g);
    ScaleGrows(0.0, d, 1.0 + g);
    ScaleAdds(0.0, 0.0, 1.0 + g);
  }

  /** A fraction small enough to stay in the bracket and above the target. */
  lemma SmallStep(value: real, target: real, g: real) returns (d: real, h: real)
    requires target < value && -0.5 < g
    ensures Lowered(g, h, d) && -0.5 <= h < g
    ensures Scale(value, 1.0 - 5.0 * d) >= target
  {
    var room := (g + 0.5) / (1.0 + g);
    RatioBound(g + 0.5, 1.0 + g, 0.0);
    assert Scale(room, 1.0 + g) == g + 0.5;
    var gap := 1.0;
    if value > 0.0 {
      gap := (value - target) / (5.0 * value);
      RatioBound(value - target, 5.0 * value, 0.0);
      assert Scale(gap, 5.0 * value) == value - target;
    }
    hide Scale, Lowered;
    d := Min(0.2, Min(room, gap));
    ScaleKeepsOrder(d, room, 1.0 + g);
    h := SmallMove(g, d);
    if value > 0.0 {
      ScaleKeepsOrder(d, gap, 5.0 * value);
    }
    SmallDrop(value, target, d);
  }

  /** With positive cash flow the search tells its midpoints apart at g exactly when the target is the
      value of g; the lower end of the bracket, which every smaller target saturates at, aside. */
  lemma SplitsExactlyAtItsValue(start: real, r: Rates, target: real, g: real)
    requires start > 0.0 && -0.5 < g <= 1.0 && r.Valid() && r.terminal > -1.0
    ensures Splits(start, r, target, -0.5, 1.0, g) <==> target == Ev(start, g, r)
  {
    hide Ev;
    if target == Ev(start, g, r) {
      forall m | -0.5 <= m <= 1.0 ensures Ev(start, m, r) < target <==> m < g {
        if m < g {
          EvGrows(start, m, g, r);
        } else if g < m {
          EvGrows(start, g, m, r);
        }
      }
    } else if target < Ev(start, g, r) {
      var d, h := SmallStep(Ev(start, g, r), target, g);
      EvLowered(start, g, h, d, r);
      assert !(Ev(start, h, r) < target) && h < g;
    } else {
      assert Ev(start, g, r) < target;
    }
  }

  /** So for positive cash flow and any growth inside the bracket, feeding the fair value back makes the
      solver search for that very growth exactly when the fair value was neither floored at one cent nor
      divided by more shares than there are (or hit the floor exactly). */
  lemma SolverSearchesForGrowthExactlyWhen(shares: real, debt: real, cash: real, baseFcf: real, g: real, r: Rates)
    requires baseFcf > 0.0 && -0.5 < g <= 1.0 && r.Valid() && r.terminal > -1.0
    ensures var equity := Ev(baseFcf, g, r) + cash - debt;
      Splits(baseFcf, r, TargetEv(FairValue(equity, shares), shares, debt, cash), -0.5, 1.0, g)
      <==> (shares >= 1.0 && equity >= 0.01 * shares) || equity == 0.01 * shares
  {
    hide Ev, FairValue, TargetEv, Splits;
    var equity := Ev(baseFcf, g, r) + cash - debt;
    SplitsExactlyAtItsValue(baseFcf, r, TargetEv(FairValue(equity, shares), shares, debt, cash), g);
    TargetIsRecoveredExactlyWhen(Ev(baseFcf, g, r), shares, debt, cash);
  }

  /** Feeding the unrounded fair value for growth g to the reverse solver returns g. */
  lemma ReverseUndoesForward(shares: real, debt: real, cash: real, baseFcf: real,
                             growthPct: real, waccPct: real, terminalPct: real)
    requires baseFcf > 0.0 && growthPct > -100.0 && terminalPct > -100.0
    requires var r := ClampRates(waccPct, terminalPct);
             shares >= 1.0 && Ev(baseFcf, growthPct / 100.0, r) + cash - debt >= 0.01 * shares
    ensures var r := ClampRates(waccPct, terminalPct);
      var g := growthPct / 100.0;
      var price := FairValue(Ev(baseFcf, g, r) + cash - debt, shares);
      Abs(Solve(baseFcf, r, TargetEv(price, shares, debt, cash)) - Clamp(g, -0.5, 1.0)) <= TOLERANCE
  {
    var r := ClampRates(waccPct, terminalPct);
    var g := growthPct / 100.0;
    hide Ev, Solve, FairValue, TargetEv, ClampRates;
    TargetIsRecoveredExactlyWhen(Ev(baseFcf, g, r), shares, debt, cash);
    SolverInvertsEv(baseFcf, r, g);
  }
}
