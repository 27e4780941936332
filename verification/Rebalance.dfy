/** Target allocations and the trades suggested to reach them
    (app/services/rebalance_service.py, app/models/rebalance.py). */
module Rebalance {
  import opened Money

  datatype Target = Target(symbol: string, weight: real)

  datatype Side = BuySide | SellSide

  /** `exact` and `notional` are the amounts before their 8- and 2-place roundings. */
  datatype Action = Action(symbol: string, side: Side, exact: real, quantity: real, notional: real)

  datatype Refusal = NoActivePosition

  type Holdings = map<string, real>

  function WeightOf(t: Target): real {
    t.weight
  }

  function TargetSymbols(targets: seq<Target>): set<string> {
    set t | t in targets :: t.symbol
  }

  /** The request validator: positive weights, distinct symbols, exactly 100%. */
  predicate ValidRequest(targets: seq<Target>) {
    && targets != []
    && (forall i :: 0 <= i < |targets| ==> 0.0 < targets[i].weight <= 100.0)
    && (forall i, j :: 0 <= i < j < |targets| ==> targets[i].symbol != targets[j].symbol)
    && Total(targets, WeightOf) == 100.0
  }

  /** `targets.get(symbol, ZERO)` on the dictionary built from the list. */
  function TargetOf(targets: seq<Target>, symbol: string): real {
    if targets == [] then 0.0
    else
      var t := targets[|targets| - 1];
      if t.symbol == symbol then t.weight else TargetOf(targets[..|targets| - 1], symbol)
  }

  function Held(h: Holdings, symbol: string): real {
    if symbol in h then h[symbol] else 0.0
  }

  function ValueOf(h: Holdings, price: string -> real): string -> real {
    s => Scale(Held(h, s), price(s))
  }

  /** Every symbol held or targeted. */
  function Universe(h: Holdings, targets: seq<Target>): set<string> {
    h.Keys + TargetSymbols(targets)
  }

  ghost function TotalValue(h: Holdings, targets: seq<Target>, price: string -> real): real {
    SumOver(Universe(h, targets), ValueOf(h, price))
  }

  /** Money to add to (or take from) one symbol, given the portfolio's total. */
  function Delta(h: Holdings, targets: seq<Target>, price: string -> real, total: real, symbol: string): real {
    Scale(TargetOf(targets, symbol), total / 100.0) - Scale(Held(h, symbol), price(symbol))
  }

  function ActionFor(symbol: string, delta: real, price: real): Action
    requires price != 0.0
  {
    var exact := Abs(delta) / price;
    Action(symbol, if delta > 0.0 then BuySide else SellSide, exact, Round8(exact), Abs(delta))
  }

  ghost predicate PricesPositive(price: string -> real) {
    forall s :: price(s) > 0.0
  }

  /** One action for each symbol off its target, none for the others. */
  ghost predicate IsPlan(h: Holdings, targets: seq<Target>, price: string -> real, actions: seq<Action>)
    requires PricesPositive(price)
  {
    var total := TotalValue(h, targets, price);
    && (forall i :: 0 <= i < |actions| ==>
          var s := actions[i].symbol;
          && s in Universe(h, targets) && Delta(h, targets, price, total, s) != 0.0
          && actions[i] == ActionFor(s, Delta(h, targets, price, total, s), price(s)))
    && (forall s :: s in Universe(h, targets) && Delta(h, targets, price, total, s) != 0.0 ==>
          exists i :: 0 <= i < |actions| && actions[i].symbol == s)
    && (forall i, j :: 0 <= i < j < |actions| ==> actions[i].symbol != actions[j].symbol)
  }

  method Plan(h: Holdings, targets: seq<Target>, price: string -> real) returns (r: Result<seq<Action>, Refusal>)
    requires PricesPositive(price)
    ensures r.Err? <==> TotalValue(h, targets, price) <= 0.0
    ensures r.Err? <==> SumOver(h.Keys, ValueOf(h, price)) <= 0.0
    ensures r.Ok? ==> IsPlan(h, targets, price, r.value)
  {
    var symbols := Universe(h, targets);
    var total := SumValues(h, symbols, price);
    HoldingsAreTheTotal(h, targets, price);
    if total <= 0.0 {
      return Err(NoActivePosition);
    }
    var actions: seq<Action> := [];
    var todo := symbols;
    while todo != {}
      invariant todo <= symbols
      invariant forall i :: 0 <= i < |actions| ==>
          var s := actions[i].symbol;
          && s in symbols - todo && Delta(h, targets, price, total, s) != 0.0
          && actions[i] == ActionFor(s, Delta(h, targets, price, total, s), price(s))
      invariant forall s :: s in symbols - todo && Delta(h, targets, price, total, s) != 0.0 ==>
          exists i :: 0 <= i < |actions| && actions[i].symbol == s
      invariant forall i, j :: 0 <= i < j < |actions| ==> actions[i].symbol != actions[j].symbol
    {
      hide Delta, Round8;
      var s :| s in todo;
      todo := todo - {s};
      var delta := Delta(h, targets, price, total, s);
      if delta != 0.0 {
        ghost var before := actions;
        actions := actions + [ActionFor(s, delta, price(s))];
        assert actions[|before|].symbol == s;
        assert forall i :: 0 <= i < |before| ==> actions[i] == before[i];
      }
    }
    r := Ok(actions);
  }

  /** Targets that are not held add nothing: the portfolio's total is the value of its holdings. */
  lemma HoldingsAreTheTotal(h: Holdings, targets: seq<Target>, price: string -> real)
    ensures TotalValue(h, targets, price) == SumOver(h.Keys, ValueOf(h, price))
  {
    forall s | s in Universe(h, targets) - h.Keys ensures ValueOf(h, price)(s) == 0.0 {
      ScaleAdds(0.0, 0.0, price(s));
    }
    SumOverWiden(h.Keys, Universe(h, targets), ValueOf(h, price));
  }

  method SumValues(h: Holdings, symbols: set<string>, price: string -> real) returns (total: real)
    ensures total == SumOver(symbols, ValueOf(h, price))
  {
    total := 0.0;
    var todo := symbols;
    while todo != {}
      invariant todo <= symbols
      invariant total + SumOver(todo, ValueOf(h, price)) == SumOver(symbols, ValueOf(h, price))
    {
      var s :| s in todo;
      SumOverRemove(todo, s, ValueOf(h, price));
      total := total + ValueOf(h, price)(s);
      todo := todo - {s};
    }
  }

  // ---- Weights add up ------------------------------------------------------------------

  ghost function Weights(targets: seq<Target>): string -> real {
    s => TargetOf(targets, s)
  }

  lemma {:induction false} Untargeted(targets: seq<Target>, symbol: string)
    ensures symbol !in TargetSymbols(targets) ==> TargetOf(targets, symbol) == 0.0
    ensures symbol in TargetSymbols(targets) ==> exists i :: 0 <= i < |targets| && targets[i].symbol == symbol
  {
    if targets == [] {
    } else {
      var n := |targets| - 1;
      Untargeted(targets[..n], symbol);
      assert targets[n] in targets;
      assert forall t :: t in targets[..n] ==> t in targets;
      assert targets == targets[..n] + [targets[n]];
      if symbol in TargetSymbols(targets) {
        var t :| t in targets && t.symbol == symbol;
        var i :| 0 <= i < |targets| && targets[i] == t;
      }
    }
  }

  lemma {:induction false} WeightsAddUp(targets: seq<Target>, symbols: set<string>)
    requires forall i, j :: 0 <= i < j < |targets| ==> targets[i].symbol != targets[j].symbol
    requires TargetSymbols(targets) <= symbols
    ensures SumOver(symbols, Weights(targets)) == Total(targets, WeightOf)
  {
    if targets == [] {
      SumOverZero(symbols, Weights(targets));
    } else {
      var n := |targets| - 1;
      var before := targets[..n];
      assert forall t :: t in before ==> t in targets;
      assert targets[n] in targets;
      WeightsAddUp(before, symbols);
      Untargeted(before, targets[n].symbol);
      SumOverChange(symbols, targets[n].symbol, Weights(before), Weights(targets));
    }
  }

  // ---- Conservation and fixpoint -------------------------------------------------------

  ghost function Deltas(h: Holdings, targets: seq<Target>, price: string -> real, total: real): string -> real {
    s => Delta(h, targets, price, total, s)
  }

  ghost function Goals(targets: seq<Target>, total: real): string -> real {
    s => Scale(TargetOf(targets, s), total / 100.0)
  }

  lemma GoalsAddUp(targets: seq<Target>, symbols: set<string>, total: real)
    requires ValidRequest(targets) && TargetSymbols(targets) <= symbols
    ensures SumOver(symbols, Goals(targets, total)) == total
  {
    WeightsAddUp(targets, symbols);
    SumOverScaled(symbols, Weights(targets), Goals(targets, total), total / 100.0);
  }

  /** The suggested trades move money between symbols but create none. */
  lemma DeltasCancel(h: Holdings, targets: seq<Target>, price: string -> real)
    requires ValidRequest(targets)
    ensures SumOver(Universe(h, targets), Deltas(h, targets, price, TotalValue(h, targets, price))) == 0.0
  {
    hide Scale;
    var symbols, total := Universe(h, targets), TotalValue(h, targets, price);
    GoalsAddUp(targets, symbols, total);
    SumOverPlus(symbols, Deltas(h, targets, price, total), ValueOf(h, price), Goals(targets, total));
  }

  ghost predicate Active(h: Holdings) {
    forall s :: s in h ==> h[s] > 0.0
  }

  ghost function SignedUnits(a: Action): real {
    if a.side == BuySide then a.exact else -a.exact
  }

  /** The holdings after trading one symbol's unrounded delta at its price. */
  ghost function After(h: Holdings, targets: seq<Target>, price: string -> real, total: real, s: string): real
    requires PricesPositive(price)
  {
    var delta := Delta(h, targets, price, total, s);
    Held(h, s) + if delta == 0.0 then 0.0 else SignedUnits(ActionFor(s, delta, price(s)))
  }

  ghost function Rebalanced(h: Holdings, targets: seq<Target>, price: string -> real): Holdings
    requires PricesPositive(price)
  {
    var total := TotalValue(h, targets, price);
    map s | s in Universe(h, targets) && After(h, targets, price, total, s) > 0.0 :: After(h, targets, price, total, s)
  }

  lemma SignedUnitsBuyDelta(s: string, delta: real, price: real)
    requires price > 0.0
    ensures Scale(SignedUnits(ActionFor(s, delta, price)), price) == delta
  {
    RatioBound(Abs(delta), price, 0.0);
    assert Scale(-(Abs(delta) / price), price) == -Scale(Abs(delta) / price, price);
  }

  /** Each symbol ends at its target value. */
  lemma ReachesTarget(h: Holdings, targets: seq<Target>, price: string -> real, total: real, s: string)
    requires PricesPositive(price) && Active(h) && ValidRequest(targets) && total > 0.0
    ensures Scale(After(h, targets, price, total, s), price(s)) == Scale(TargetOf(targets, s), total / 100.0)
    ensures After(h, targets, price, total, s) >= 0.0
  {
    var delta := Delta(h, targets, price, total, s);
    var goal := Scale(TargetOf(targets, s), total / 100.0);
    SignedUnitsBuyDelta(s, delta, price(s));
    var units := if delta == 0.0 then 0.0 else SignedUnits(ActionFor(s, delta, price(s)));
    assert Scale(Held(h, s) + units, price(s)) == Scale(Held(h, s), price(s)) + Scale(units, price(s)) by {
      ScaleAdds(Held(h, s), units, price(s));
    }
    TargetNonnegative(targets, s);
    NonnegativeUnits(After(h, targets, price, total, s), price(s), TargetOf(targets, s), total);
  }

  lemma {:induction false} TargetNonnegative(targets: seq<Target>, s: string)
    requires forall i :: 0 <= i < |targets| ==> 0.0 < targets[i].weight
    ensures TargetOf(targets, s) >= 0.0
  {
    if targets == [] {
    } else {
      TargetNonnegative(targets[..|targets| - 1], s);
    }
  }

  lemma NonnegativeUnits(units: real, price: real, weight: real, total: real)
    requires price > 0.0 && weight >= 0.0 && total > 0.0
    requires Scale(units, price) == Scale(weight, total / 100.0)
    ensures units >= 0.0
  {
    if weight > 0.0 {
      ScaleGrows(0.0, weight, total / 100.0);
    }
    if units < 0.0 {
      ScaleGrows(units, 0.0, price);
    }
  }

  /** No sale asks for more than is held, rounded to 8 places or not. */
  lemma SellsFitTheHolding(h: Holdings, targets: seq<Target>, price: string -> real, total: real, s: string)
    requires PricesPositive(price) && Active(h) && ValidRequest(targets) && total > 0.0
    requires Delta(h, targets, price, total, s) < 0.0
    ensures var a := ActionFor(s, Delta(h, targets, price, total, s), price(s));
      && a.side == SellSide && a.exact <= Held(h, s)
      && (OnGrid(Held(h, s)) ==> a.quantity <= Held(h, s))
  {
    hide Delta, Round8;
    ReachesTarget(h, targets, price, total, s);
    var a := ActionFor(s, Delta(h, targets, price, total, s), price(s));
    if OnGrid(Held(h, s)) {
      Round8StaysBelow(a.exact, Held(h, s));
    }
  }

  lemma ScaleStaysWithin(error: real, bound: real, price: real)
    requires price > 0.0 && Abs(error) <= bound
    ensures Abs(Scale(error, price)) <= Scale(bound, price)
  {
    assert (bound - error) * price >= 0.0;
    assert (bound + error) * price >= 0.0;
  }

  /** Rounding a leg to 8 places misprices it by at most half a unit in the eighth place. */
  lemma RoundingMovesALegByHalfAUnit(s: string, delta: real, price: real)
    requires price > 0.0
    ensures var a := ActionFor(s, delta, price);
            Abs(Scale(a.quantity, price) - a.notional) <= Scale(0.000000005, price)
  {
    var exact := Abs(delta) / price;
    RatioBound(Abs(delta), price, 0.0);
    Round8Error(exact);
    hide Round8;
    ScaleAdds(exact, Round8(exact) - exact, price);
    ScaleStaysWithin(Round8(exact) - exact, 0.000000005, price);
  }

  lemma RebalancedHolds(h: Holdings, targets: seq<Target>, price: string -> real, s: string)
    requires PricesPositive(price) && Active(h) && ValidRequest(targets) && TotalValue(h, targets, price) > 0.0
    ensures Held(Rebalanced(h, targets, price), s) == After(h, targets, price, TotalValue(h, targets, price), s)
    ensures ValueOf(Rebalanced(h, targets, price), price)(s) == Goals(targets, TotalValue(h, targets, price))(s)
  {
    hide SumOver, Round8;
    var total := TotalValue(h, targets, price);
    ReachesTarget(h, targets, price, total, s);
    if s !in Universe(h, targets) {
      Untargeted(targets, s);
      ScaleAdds(0.0, 0.0, total / 100.0);
      ScaleAdds(0.0, 0.0, price(s));
    }
  }

  /** Applying the unrounded plan keeps the total and reaches every target, so planning again
      suggests nothing. */
  lemma RebalancingIsAFixpoint(h: Holdings, targets: seq<Target>, price: string -> real)
    requires PricesPositive(price) && Active(h) && ValidRequest(targets) && TotalValue(h, targets, price) > 0.0
    ensures var now := Rebalanced(h, targets, price);
      && TotalValue(now, targets, price) == TotalValue(h, targets, price)
      && (forall s :: ValueOf(now, price)(s) == Goals(targets, TotalValue(h, targets, price))(s))
      && (forall s :: Delta(now, targets, price, TotalValue(now, targets, price), s) == 0.0)
      && IsPlan(now, targets, price, [])
  {
    hide SumOver, Scale, Round8, After;
    var now, total := Rebalanced(h, targets, price), TotalValue(h, targets, price);
    forall s ensures ValueOf(now, price)(s) == Goals(targets, total)(s) {
      RebalancedHolds(h, targets, price, s);
    }
    var symbols := Universe(now, targets);
    SumOverSame(symbols, ValueOf(now, price), Goals(targets, total));
    GoalsAddUp(targets, symbols, total);
    assert TotalValue(now, targets, price) == total;
    forall s ensures Delta(now, targets, price, total, s) == 0.0 {
      assert Delta(now, targets, price, total, s) == Goals(targets, total)(s) - ValueOf(now, price)(s);
    }
  }

  // ---- Trading the plan -----------------------------------------------------------------------

  /** The holdings after trading a list of actions one by one, unrounded. */
  ghost function Traded(h: Holdings, actions: seq<Action>): Holdings {
    if actions == [] then h
    else
      var before, a := Traded(h, actions[..|actions| - 1]), actions[|actions| - 1];
      before[a.symbol := Held(before, a.symbol) + SignedUnits(a)]
  }

  ghost predicate DistinctActions(actions: seq<Action>) {
    forall i, j :: 0 <= i < j < |actions| ==> actions[i].symbol != actions[j].symbol
  }

  lemma {:induction false} TradedHolds(h: Holdings, actions: seq<Action>, s: string)
    requires DistinctActions(actions)
    ensures (forall i :: 0 <= i < |actions| ==> actions[i].symbol != s) ==> Held(Traded(h, actions), s) == Held(h, s)
    ensures forall i :: 0 <= i < |actions| && actions[i].symbol == s ==>
              Held(Traded(h, actions), s) == Held(h, s) + SignedUnits(actions[i])
    ensures s in Traded(h, actions) <==> s in h || exists i :: 0 <= i < |actions| && actions[i].symbol == s
  {
    if actions == [] {
    } else {
      var before := actions[..|actions| - 1];
      TradedHolds(h, before, s);
      assert forall i :: 0 <= i < |before| ==> before[i] == actions[i];
      hide SignedUnits;
    }
  }

  lemma UnlistedIsOnTarget(h: Holdings, targets: seq<Target>, price: string -> real, total: real, s: string)
    ensures s !in Universe(h, targets) ==> Delta(h, targets, price, total, s) == 0.0
  {
    if s !in Universe(h, targets) {
      Untargeted(targets, s);
      ScaleAdds(0.0, 0.0, total / 100.0);
      ScaleAdds(0.0, 0.0, price(s));
    }
  }

  /** Trading the list does to each symbol what its own action does. */
  lemma TradedIsAfter(h: Holdings, targets: seq<Target>, price: string -> real, actions: seq<Action>, s: string)
    requires PricesPositive(price) && IsPlan(h, targets, price, actions)
    ensures Held(Traded(h, actions), s) == After(h, targets, price, TotalValue(h, targets, price), s)
  {
    var total := TotalValue(h, targets, price);
    TradedHolds(h, actions, s);
    UnlistedIsOnTarget(h, targets, price, total, s);
    hide TotalValue, Traded, SignedUnits, ActionFor, Scale, Delta, Held, Universe;
    if Delta(h, targets, price, total, s) != 0.0 {
      var i :| 0 <= i < |actions| && actions[i].symbol == s;
      assert actions[i] == ActionFor(s, Delta(h, targets, price, total, s), price(s));
    }
  }

  /** A symbol on its target needs no action; any other ends there. */
  lemma TradedReachesTarget(h: Holdings, targets: seq<Target>, price: string -> real, actions: seq<Action>, s: string)
    requires PricesPositive(price) && Active(h) && ValidRequest(targets) && TotalValue(h, targets, price) > 0.0
    requires IsPlan(h, targets, price, actions)
    ensures ValueOf(Traded(h, actions), price)(s) == Goals(targets, TotalValue(h, targets, price))(s)
  {
    hide TotalValue, Traded, After, Held, IsPlan, ValidRequest, Scale;
    TradedIsAfter(h, targets, price, actions, s);
    ReachesTarget(h, targets, price, TotalValue(h, targets, price), s);
  }

  lemma {:induction false} TargetIsItsWeight(targets: seq<Target>, i: nat)
    requires i < |targets|
    requires forall j, k :: 0 <= j < k < |targets| ==> targets[j].symbol != targets[k].symbol
    ensures TargetOf(targets, targets[i].symbol) == targets[i].weight
  {
    if i == |targets| - 1 {
    } else {
      TargetIsItsWeight(targets[..|targets| - 1], i);
    }
  }

  /** Trading the plan, whatever was held and whatever was asked for: the value of the holdings is the same
      before and after, each target holds its share of it, and nothing else holds any. */
  lemma TradingKeepsTheValue(h: Holdings, targets: seq<Target>, price: string -> real, actions: seq<Action>)
    requires PricesPositive(price) && Active(h) && ValidRequest(targets) && SumOver(h.Keys, ValueOf(h, price)) > 0.0
    requires IsPlan(h, targets, price, actions)
    ensures var now, total := Traded(h, actions), SumOver(h.Keys, ValueOf(h, price));
      && SumOver(now.Keys, ValueOf(now, price)) == total
      && (forall i :: 0 <= i < |targets| ==>
            Scale(Held(now, targets[i].symbol), price(targets[i].symbol)) == Scale(targets[i].weight, total / 100.0))
      && (forall s :: (forall i :: 0 <= i < |targets| ==> targets[i].symbol != s) ==> Held(now, s) == 0.0)
  {
    HoldingsAreTheTotal(h, targets, price);
    var now, total := Traded(h, actions), TotalValue(h, targets, price);
    hide TotalValue, Traded, Scale;
    forall s ensures ValueOf(now, price)(s) == Goals(targets, total)(s) {
      TradedReachesTarget(h, targets, price, actions, s);
    }
    forall i | 0 <= i < |targets|
      ensures ValueOf(now, price)(targets[i].symbol) == Scale(targets[i].weight, total / 100.0)
    {
      TargetIsItsWeight(targets, i);
    }
    forall s | forall i :: 0 <= i < |targets| ==> targets[i].symbol != s ensures Held(now, s) == 0.0 {
      assert s !in TargetSymbols(targets);
      Untargeted(targets, s);
      ScaleAdds(0.0, 0.0, total / 100.0);
      assert ValueOf(now, price)(s) == Goals(targets, total)(s) == 0.0;
      WorthlessIsNothing(Held(now, s), price(s));
    }
    TradedValue(h, targets, price, actions);
  }

  lemma WorthlessIsNothing(units: real, price: real)
    requires price > 0.0 && Scale(units, price) == 0.0
    ensures units == 0.0
  {
    if units > 0.0 {
      ScaleGrows(0.0, units, price);
    } else if units < 0.0 {
      ScaleGrows(units, 0.0, price);
    }
  }

  lemma TradedValue(h: Holdings, targets: seq<Target>, price: string -> real, actions: seq<Action>)
    requires PricesPositive(price) && Active(h) && ValidRequest(targets) && TotalValue(h, targets, price) > 0.0
    requires IsPlan(h, targets, price, actions)
    ensures var now := Traded(h, actions);
      SumOver(now.Keys, ValueOf(now, price)) == TotalValue(h, targets, price)
  {
    var now, total := Traded(h, actions), TotalValue(h, targets, price);
    hide TotalValue, Traded, Scale;
    var all := now.Keys + TargetSymbols(targets);
    forall s ensures ValueOf(now, price)(s) == Goals(targets, total)(s) {
      TradedReachesTarget(h, targets, price, actions, s);
    }
    forall s | s in all - now.Keys ensures ValueOf(now, price)(s) == 0.0 {
      ScaleAdds(0.0, 0.0, price(s));
    }
    SumOverWiden(now.Keys, all, ValueOf(now, price));
    SumOverSame(all, ValueOf(now, price), Goals(targets, total));
    GoalsAddUp(targets, all, total);
  }

  /** Every holding that is no target is sold whole, by one action. */
  lemma OtherHoldingsAreSold(h: Holdings, targets: seq<Target>, price: string -> real, actions: seq<Action>, s: string)
    requires PricesPositive(price) && IsPlan(h, targets, price, actions) && s in h && h[s] > 0.0
    requires forall i :: 0 <= i < |targets| ==> targets[i].symbol != s
    ensures exists i ::
      && 0 <= i < |actions| && actions[i].symbol == s && actions[i].side == SellSide && actions[i].exact == h[s]
      && forall j :: 0 <= j < |actions| && actions[j].symbol == s ==> j == i
  {
    var total := TotalValue(h, targets, price);
    var delta := Delta(h, targets, price, total, s);
    Untargeted(targets, s);
    ScaleAdds(0.0, 0.0, total / 100.0);
    ScaleGrows(0.0, h[s], price(s));
    ScaleAdds(0.0, 0.0, price(s));
    assert delta == -Scale(h[s], price(s)) && delta < 0.0;
    RatioIs(Scale(h[s], price(s)), price(s), h[s]);
    hide Scale, TotalValue, Round8;
    var i :| 0 <= i < |actions| && actions[i].symbol == s;
    assert actions[i] == ActionFor(s, delta, price(s));
  }
}
