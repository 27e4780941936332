/** What the kill switch measures as equity (app/services/risk_service.py): the market value of the open
    holdings plus the realized profit (app/services/portfolio_service.py), without the cash that bought
    the one or came from the other. */
module Equity {
  import opened Money
  import opened Portfolio
  import RiskHalt

  /** Market value of a holding. */
  ghost function Marked(s: Slot, price: real): real {
    s.qty * price
  }

  /** What a holding cost. */
  ghost function OpenCost(s: Slot): real {
    s.qty * s.avg
  }

  /** One symbol's part of the equity: market value plus realized profit. */
  ghost function EquityAt(ledger: seq<Tx>, price: string -> real): string -> real {
    s => Marked(SlotOf(ledger, s), price(s)) + SlotOf(ledger, s).realized
  }

  /** What trading one symbol has brought: proceeds and market value, less purchases. */
  ghost function ResultAt(ledger: seq<Tx>, price: string -> real): string -> real {
    s => MatchedProceeds(ledger, s) - Purchases(ledger, s) + Marked(SlotOf(ledger, s), price(s))
  }

  ghost function CostAt(ledger: seq<Tx>): string -> real {
    s => OpenCost(SlotOf(ledger, s))
  }

  /** The account's figures, over every symbol of its ledger. */
  ghost function AccountEquity(ledger: seq<Tx>, price: string -> real): real {
    SumOver(Symbols(ledger), EquityAt(ledger, price))
  }

  ghost function TradingResult(ledger: seq<Tx>, price: string -> real): real {
    SumOver(Symbols(ledger), ResultAt(ledger, price))
  }

  ghost function TotalOpenCost(ledger: seq<Tx>): real {
    SumOver(Symbols(ledger), CostAt(ledger))
  }

  lemma BookValueIsCost(s: Slot)
    ensures BookValue(s) == OpenCost(s) - s.realized
  {
  }

  /** Over every ledger, oversells included, equity is the trading result plus the open cost. */
  lemma EquityIsResultPlusOpenCost(ledger: seq<Tx>, price: string -> real)
    requires ValidLedger(ledger)
    ensures AccountEquity(ledger, price) == TradingResult(ledger, price) + TotalOpenCost(ledger)
  {
    hide SlotOf, Marked, OpenCost, BookValue, Purchases, MatchedProceeds;
    var result, cost := ResultAt(ledger, price), CostAt(ledger);
    forall s ensures EquityAt(ledger, price)(s) == result(s) + cost(s) {
      AverageCostBalances(ledger, s);
      BookValueIsCost(SlotOf(ledger, s));
    }
    SumOverPlus(Symbols(ledger), result, cost, EquityAt(ledger, price));
  }

  /** So a day's change of equity is the day's trading result exactly when the open cost is unchanged: what
      is sold lowers it, what is bought raises it, at any price. */
  lemma ChangeIsResultExactlyWhen(opening: seq<Tx>, openPrice: string -> real, now: seq<Tx>, price: string -> real)
    requires ValidLedger(opening) && ValidLedger(now)
    ensures AccountEquity(now, price) - AccountEquity(opening, openPrice) ==
            TradingResult(now, price) - TradingResult(opening, openPrice) + TotalOpenCost(now) - TotalOpenCost(opening)
    ensures AccountEquity(now, price) - AccountEquity(opening, openPrice) ==
            TradingResult(now, price) - TradingResult(opening, openPrice)
            <==> TotalOpenCost(now) == TotalOpenCost(opening)
  {
    hide AccountEquity, TradingResult, TotalOpenCost;
    EquityIsResultPlusOpenCost(opening, openPrice);
    EquityIsResultPlusOpenCost(now, price);
  }

  /** The kill switch on a day's ledger and marks. */
  ghost predicate HaltedAt(limit: real, opening: seq<Tx>, openPrice: string -> real,
                           now: seq<Tx>, price: string -> real)
  {
    RiskHalt.HaltsForLoss(limit, AccountEquity(opening, openPrice), AccountEquity(now, price))
  }

  // ---- Two days it misreads -------------------------------------------------------------------

  lemma OneSymbol(ledger: seq<Tx>, price: string -> real)
    requires ledger != [] && forall i :: 0 <= i < |ledger| ==> ledger[i].symbol == "A"
    ensures AccountEquity(ledger, price) == EquityAt(ledger, price)("A")
    ensures TradingResult(ledger, price) == ResultAt(ledger, price)("A")
  {
    assert ledger[0].symbol in Symbols(ledger);
    assert Symbols(ledger) == {"A"};
    OneSummand("A", EquityAt(ledger, price));
    OneSummand("A", ResultAt(ledger, price));
  }

  lemma OneSummand(s: string, f: string -> real)
    ensures SumOver({s}, f) == f(s)
  {
    SumOverRemove({s}, s, f);
    assert {s} - {s} == {};
  }

  /** A hundred units bought at ten. */
  function Held(at: Stamp): seq<Tx> {
    [Tx(0, "A", Buy, 100.0, 10.0, at)]
  }

  lemma HeldIs(at: Stamp)
    ensures SlotOf(Held(at), "A") == Slot(100.0, 10.0, 0.0)
    ensures Purchases(Held(at), "A") == 1000.0 && MatchedProceeds(Held(at), "A") == 0.0
  {
    var l := Held(at);
    assert l[..0] == [];
  }

  lemma SoldOutIs(at: Stamp)
    ensures var l := Held(at) + [Tx(0, "A", Sell, 100.0, 10.0, at)];
      SlotOf(l, "A") == Slot(0.0, 0.0, 0.0) && Purchases(l, "A") == 1000.0 && MatchedProceeds(l, "A") == 1000.0
  {
    var l := Held(at) + [Tx(0, "A", Sell, 100.0, 10.0, at)];
    HeldIs(at);
    assert l[..1] == Held(at);
    hide Held;
  }

  lemma BoughtMoreIs(at: Stamp)
    ensures var l := Held(at) + [Tx(0, "A", Buy, 100.0, 5.0, at)];
      SlotOf(l, "A") == Slot(200.0, 7.5, 0.0) && Purchases(l, "A") == 1500.0 && MatchedProceeds(l, "A") == 0.0
  {
    var l := Held(at) + [Tx(0, "A", Buy, 100.0, 5.0, at)];
    HeldIs(at);
    assert l[..1] == Held(at);
    hide Held;
  }

  lemma FiguresOf(ledger: seq<Tx>, price: string -> real, slot: Slot, spent: real, got: real)
    requires ledger != [] && forall i :: 0 <= i < |ledger| ==> ledger[i].symbol == "A"
    requires SlotOf(ledger, "A") == slot && Purchases(ledger, "A") == spent && MatchedProceeds(ledger, "A") == got
    ensures AccountEquity(ledger, price) == Marked(slot, price("A")) + slot.realized
    ensures TradingResult(ledger, price) == got - spent + Marked(slot, price("A"))
  {
    OneSymbol(ledger, price);
    hide SlotOf, Purchases, MatchedProceeds, Marked, AccountEquity, TradingResult;
  }

  /** Selling out at cost loses nothing, and halts the account at any limit up to 100%. */
  lemma SellingOutHalts(limit: real, at: Stamp, price: string -> real)
    requires 0.0 < limit <= 100.0 && price("A") == 10.0
    ensures var now := Held(at) + [Tx(0, "A", Sell, 100.0, 10.0, at)];
      && TradingResult(now, price) == TradingResult(Held(at), price) == 0.0
      && HaltedAt(limit, Held(at), price, now, price)
  {
    var now := Held(at) + [Tx(0, "A", Sell, 100.0, 10.0, at)];
    HeldIs(at);
    SoldOutIs(at);
    hide SlotOf, Purchases, MatchedProceeds, AccountEquity, TradingResult;
    FiguresOf(Held(at), price, Slot(100.0, 10.0, 0.0), 1000.0, 0.0);
    FiguresOf(now, price, Slot(0.0, 0.0, 0.0), 1000.0, 1000.0);
    ShareOfThousand(limit);
    RiskHalt.LossTestFollowsTheOpening(limit, 1000.0, 0.0);
  }

  lemma ShareOfThousand(limit: real)
    requires 0.0 < limit
    ensures 0.0 < Scale(limit / 100.0, 1000.0)
    ensures limit <= 100.0 ==> Scale(limit / 100.0, 1000.0) <= 1000.0
  {
  }

  /** Buying more at half the price hides a loss of half the account: no limit halts it. */
  lemma BuyingHidesALoss(limit: real, at: Stamp, openPrice: string -> real, price: string -> real)
    requires limit > 0.0 && openPrice("A") == 10.0 && price("A") == 5.0
    ensures var now := Held(at) + [Tx(0, "A", Buy, 100.0, 5.0, at)];
      && AccountEquity(Held(at), openPrice) == 1000.0
      && TradingResult(now, price) == TradingResult(Held(at), openPrice) - 500.0
      && !HaltedAt(limit, Held(at), openPrice, now, price)
  {
    var now := Held(at) + [Tx(0, "A", Buy, 100.0, 5.0, at)];
    HeldIs(at);
    BoughtMoreIs(at);
    hide SlotOf, Purchases, MatchedProceeds, AccountEquity, TradingResult;
    FiguresOf(Held(at), openPrice, Slot(100.0, 10.0, 0.0), 1000.0, 0.0);
    FiguresOf(now, price, Slot(200.0, 7.5, 0.0), 1500.0, 0.0);
    ShareOfThousand(limit);
    RiskHalt.LossTestFollowsTheOpening(limit, 1000.0, 1000.0);
  }
}
