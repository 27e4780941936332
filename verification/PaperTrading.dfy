/** The paper-trading account (app/services/paper_trading_service.py): cash, fills,
    fees and slippage, as a mutable account and as a step function over its runs. */
module PaperTrading {
  import opened Money
  import opened Text

  datatype Side = BuySide | SellSide

  datatype Fill = Fill(symbol: string, side: Side, quantity: real, reference: real, price: real, fee: real)

  datatype Refusal = BuyingPower | Oversell

  /** Slippage and fee in basis points. */
  datatype Terms = Terms(slippage: real, fee: real)

  datatype Account = Account(starting: real, cash: real, fills: seq<Fill>)

  datatype Op =
    | Execute(symbol: string, side: Side, quantity: real, quote: real)
    | Reset(starting: real)

  // ---- One order -----------------------------------------------------------------

  function BasisPoints(x: real, bps: real): real {
    x * bps / 10000.0
  }

  function FillPrice(t: Terms, side: Side, quote: real): real {
    quote * (1.0 + (if side == BuySide then t.slippage else -t.slippage) / 10000.0)
  }

  function Notional(t: Terms, side: Side, quote: real, quantity: real): real {
    FillPrice(t, side, quote) * quantity
  }

  function Fee(t: Terms, side: Side, quote: real, quantity: real): real {
    BasisPoints(Notional(t, side, quote, quantity), t.fee)
  }

  function FillOf(t: Terms, op: Op): Fill
    requires op.Execute?
  {
    Fill(op.symbol, op.side, op.quantity, op.quote, FillPrice(t, op.side, op.quote),
         Fee(t, op.side, op.quote, op.quantity))
  }

  /** What an order moves, in numbers: slippage raises a purchase price and lowers a sale price, and the fee
      is taken on the slipped amount. */
  lemma OrderIs(t: Terms, side: Side, quote: real, quantity: real)
    ensures var price := quote * (1.0 + t.slippage / 10000.0);
      side == BuySide ==>
        && FillPrice(t, side, quote) == price && Notional(t, side, quote, quantity) == price * quantity
        && Fee(t, side, quote, quantity) == price * quantity * t.fee / 10000.0
    ensures var price := quote * (1.0 - t.slippage / 10000.0);
      side == SellSide ==>
        && FillPrice(t, side, quote) == price && Notional(t, side, quote, quantity) == price * quantity
        && Fee(t, side, quote, quantity) == price * quantity * t.fee / 10000.0
  {
    assert -t.slippage / 10000.0 == -(t.slippage / 10000.0);
  }

  function Units1(f: Fill): real {
    if f.side == BuySide then f.quantity else -f.quantity
  }

  /** Units held of a symbol: `_quantity` over every fill. */
  function Net(fills: seq<Fill>, symbol: string): real {
    if fills == [] then 0.0
    else
      var f := fills[|fills| - 1];
      Net(fills[..|fills| - 1], symbol) + if f.symbol == symbol then Units1(f) else 0.0
  }

  function Refused(t: Terms, a: Account, op: Op): Option<Refusal>
    requires op.Execute?
  {
    var notional := Notional(t, op.side, op.quote, op.quantity);
    if op.side == BuySide then
      if notional + Fee(t, op.side, op.quote, op.quantity) > a.cash then Some(BuyingPower) else None
    else
      if op.quantity > Net(a.fills, op.symbol) then Some(Oversell) else None
  }

  /** What a request does to the account; a refused order changes nothing. */
  function Step(t: Terms, a: Account, op: Op): Account {
    match op
    case Reset(starting) => Account(starting, starting, [])
    case Execute(symbol, side, quantity, quote) =>
      if Refused(t, a, op).Some? then a
      else
        var notional, fee := Notional(t, side, quote, quantity), Fee(t, side, quote, quantity);
        Account(a.starting,
                if side == BuySide then a.cash - (notional + fee) else a.cash + (notional - fee),
                a.fills + [FillOf(t, op)])
  }

  function Run(t: Terms, a: Account, ops: seq<Op>): Account {
    if ops == [] then a else Step(t, Run(t, a, ops[..|ops| - 1]), ops[|ops| - 1])
  }

  // ---- The mutable account --------------------------------------------------------

  class PaperAccount {
    const terms: Terms
    var starting: real
    var cash: real
    var fills: seq<Fill>

    ghost function View(): Account
      reads this
    {
      Account(starting, cash, fills)
    }

    constructor (terms: Terms)
      ensures this.terms == terms && View() == Account(100000.0, 100000.0, [])
    {
      this.terms := terms;
      starting, cash, fills := 100000.0, 100000.0, [];
    }

    method ResetTo(startingCash: real)
      modifies this
      ensures View() == Step(terms, old(View()), Reset(startingCash))
    {
      starting := startingCash;
      cash := startingCash;
      fills := [];
    }

    /** `_quantity`: the running total over the symbol's fills. */
    method Quantity(rawSymbol: string) returns (total: real)
      ensures total == Net(fills, Ticker(rawSymbol))
    {
      var symbol := Ticker(rawSymbol);
      total := 0.0;
      for i := 0 to |fills|
        invariant total == Net(fills[..i], symbol)
      {
        assert fills[..i + 1][..i] == fills[..i];
        if fills[i].symbol == symbol {
          total := total + Units1(fills[i]);
        }
      }
      assert fills[..|fills|] == fills;
    }

    method ExecuteOrder(rawSymbol: string, side: Side, quantity: real, quote: real) returns (r: Result<(), Refusal>)
      modifies this
      ensures View() == Step(terms, old(View()), Execute(Ticker(rawSymbol), side, quantity, quote))
      ensures var why := Refused(terms, old(View()), Execute(Ticker(rawSymbol), side, quantity, quote));
              if why.Some? then r == Err(why.value) else r == Ok(())
      ensures side == BuySide ==>
        var price := quote * (1.0 + terms.slippage / 10000.0);
        var fee := price * quantity * terms.fee / 10000.0;
        && (r.Ok? <==> price * quantity + fee <= old(cash))
        && (r.Ok? ==> cash == old(cash) - (price * quantity + fee))
        && (r.Ok? ==> fills == old(fills) + [Fill(Ticker(rawSymbol), BuySide, quantity, quote, price, fee)])
      ensures side == SellSide ==>
        var price := quote * (1.0 - terms.slippage / 10000.0);
        var fee := price * quantity * terms.fee / 10000.0;
        && (r.Ok? <==> quantity <= Net(old(fills), Ticker(rawSymbol)))
        && (r.Ok? ==> cash == old(cash) + (price * quantity - fee))
        && (r.Ok? ==> fills == old(fills) + [Fill(Ticker(rawSymbol), SellSide, quantity, quote, price, fee)])
    {
      OrderIs(terms, side, quote, quantity);
      hide FillPrice, Notional, Fee, Ticker;
      var price := FillPrice(terms, side, quote);
      var notional := Notional(terms, side, quote, quantity);
      var fee := Fee(terms, side, quote, quantity);
      if side == BuySide {
        if notional + fee > cash {
          return Err(BuyingPower);
        }
        cash := cash - (notional + fee);
      } else {
        var held := Quantity(rawSymbol);
        if quantity > held {
          return Err(Oversell);
        }
        cash := cash + (notional - fee);
      }
      fills := fills + [Fill(Ticker(rawSymbol), side, quantity, quote, price, fee)];
      r := Ok(());
    }
  }

  // ---- Realized profit --------------------------------------------------------------

  datatype Slot = Slot(quantity: real, cost: real, realized: real)

  const NO_SLOT := Slot(0.0, 0.0, 0.0)

  function ApplyFill(s: Slot, f: Fill): Slot {
    if f.side == BuySide then
      var total := s.quantity * s.cost + f.quantity * f.price + f.fee;
      var quantity := s.quantity + f.quantity;
      Slot(quantity, if quantity != 0.0 then total / quantity else 0.0, s.realized)
    else
      var realized := s.realized + ((f.price - s.cost) * f.quantity - f.fee);
      var quantity := s.quantity - f.quantity;
      Slot(quantity, if quantity == 0.0 then 0.0 else s.cost, realized)
  }

  function SlotOf(fills: seq<Fill>, symbol: string): Slot {
    if fills == [] then NO_SLOT
    else
      var before := SlotOf(fills[..|fills| - 1], symbol);
      var f := fills[|fills| - 1];
      if f.symbol == symbol then ApplyFill(before, f) else before
  }

  lemma SaleKeepsTheCost(s: Slot, f: Fill)
    ensures f.side == BuySide ==> ApplyFill(s, f).realized == s.realized
    ensures f.side == SellSide ==>
      ApplyFill(s, f).realized == s.realized + ((f.price - s.cost) * f.quantity - f.fee)
    ensures f.side == SellSide ==> ApplyFill(s, f).cost == if s.quantity == f.quantity then 0.0 else s.cost
  {
  }

  /** A purchase realizes nothing; a sale realizes its margin over the cost, less the fee, and leaves the
      cost of what remains alone. */
  lemma SalesKeepTheCost(fills: seq<Fill>, f: Fill)
    ensures var before, after := SlotOf(fills, f.symbol), SlotOf(fills + [f], f.symbol);
      && (f.side == BuySide ==> after.realized == before.realized)
      && (f.side == SellSide ==>
            after.realized == before.realized + ((f.price - before.cost) * f.quantity - f.fee))
      && (f.side == SellSide ==> after.cost == if before.quantity == f.quantity then 0.0 else before.cost)
  {
    hide ApplyFill;
    SaleKeepsTheCost(SlotOf(fills, f.symbol), f);
    assert (fills + [f])[..|fills|] == fills;
  }

  ghost function Symbols(fills: seq<Fill>): set<string> {
    set i | 0 <= i < |fills| :: fills[i].symbol
  }

  ghost function RealizedOf(fills: seq<Fill>): string -> real {
    s => SlotOf(fills, s).realized
  }

  lemma SymbolsGrow(fills: seq<Fill>, f: Fill)
    ensures Symbols(fills + [f]) == Symbols(fills) + {f.symbol}
  {
    var more := fills + [f];
    assert more[|fills|] == f;
    assert forall i :: 0 <= i < |fills| ==> more[i] == fills[i];
    forall s | s in Symbols(fills) ensures s in Symbols(more) {
      var i :| 0 <= i < |fills| && fills[i].symbol == s;
      assert more[i].symbol == s;
    }
  }

  lemma {:induction false} AbsentSlot(fills: seq<Fill>, symbol: string)
    ensures symbol !in Symbols(fills) ==> SlotOf(fills, symbol) == NO_SLOT && Net(fills, symbol) == 0.0
  {
    if fills == [] {
    } else {
      var n := |fills| - 1;
      AbsentSlot(fills[..n], symbol);
      SymbolsGrow(fills[..n], fills[n]);
      assert fills == fills[..n] + [fills[n]];
    }
  }

  /** `_realized_pnl`: one dictionary entry per symbol, mutated fill by fill, then summed. */
  method RealizedPnl(fills: seq<Fill>) returns (total: real)
    ensures total == SumOver(Symbols(fills), RealizedOf(fills))
  {
    var state: map<string, Slot> := map[];
    for i := 0 to |fills|
      invariant state.Keys == Symbols(fills[..i])
      invariant forall s :: s in state ==> state[s] == SlotOf(fills[..i], s)
    {
      hide ApplyFill;
      var f := fills[i];
      assert fills[..i + 1] == fills[..i] + [f] && fills[..i + 1][..i] == fills[..i];
      SymbolsGrow(fills[..i], f);
      AbsentSlot(fills[..i], f.symbol);
      var slot := if f.symbol in state then state[f.symbol] else NO_SLOT;
      state := state[f.symbol := ApplyFill(slot, f)];
    }
    assert fills[..|fills|] == fills;
    total := 0.0;
    var todo := state.Keys;
    while todo != {}
      invariant todo <= state.Keys
      invariant total + SumOver(todo, RealizedOf(fills)) == SumOver(state.Keys, RealizedOf(fills))
    {
      var s :| s in todo;
      SumOverRemove(todo, s, RealizedOf(fills));
      total := total + state[s].realized;
      todo := todo - {s};
    }
  }

  // ---- The account law -----------------------------------------------------------------

  ghost predicate FairTerms(t: Terms) {
    0.0 <= t.slippage < 10000.0 && 0.0 <= t.fee < 10000.0
  }

  ghost predicate FairOp(op: Op) {
    match op
    case Execute(_, _, quantity, quote) => quantity > 0.0 && quote > 0.0
    case Reset(starting) => starting > 0.0
  }

  /** Cost of what one symbol still holds, less what it has realized. */
  ghost function Book(s: Slot): real {
    s.quantity * s.cost - s.realized
  }

  ghost function BookOf(fills: seq<Fill>): string -> real {
    s => Book(SlotOf(fills, s))
  }

  ghost function CostOf(fills: seq<Fill>): string -> real {
    s => SlotOf(fills, s).quantity * SlotOf(fills, s).cost
  }

  ghost predicate Lawful(a: Account) {
    && a.cash >= 0.0
    && (forall s :: Net(a.fills, s) >= 0.0)
    && a.cash + SumOver(Symbols(a.fills), BookOf(a.fills)) == a.starting
  }

  /** What a fill takes out of cash. */
  ghost function Outlay(f: Fill): real {
    if f.side == BuySide then f.price * f.quantity + f.fee else -(f.price * f.quantity - f.fee)
  }

  lemma ApplyFillBooksTheOutlay(s: Slot, f: Fill)
    requires s.quantity >= 0.0 && f.quantity > 0.0
    ensures Book(ApplyFill(s, f)) == Book(s) + Outlay(f)
  {
    if f.side == SellSide {
      assert (s.quantity - f.quantity) * s.cost == s.quantity * s.cost - f.quantity * s.cost;
      assert (f.price - s.cost) * f.quantity == f.price * f.quantity - s.cost * f.quantity;
    }
  }

  lemma {:induction false} SlotHoldsNet(fills: seq<Fill>, symbol: string)
    ensures SlotOf(fills, symbol).quantity == Net(fills, symbol)
  {
    if fills == [] {
    } else {
      SlotHoldsNet(fills[..|fills| - 1], symbol);
    }
  }

  lemma PriceIsPositive(t: Terms, side: Side, quote: real)
    requires FairTerms(t) && quote > 0.0
    ensures FillPrice(t, side, quote) > 0.0
  {
    Product(quote, 1.0 + (if side == BuySide then t.slippage else -t.slippage) / 10000.0);
  }

  lemma NotionalIsPositive(t: Terms, side: Side, quote: real, quantity: real)
    requires FairTerms(t) && quote > 0.0 && quantity > 0.0
    ensures Notional(t, side, quote, quantity) > 0.0
  {
    hide FillPrice;
    PriceIsPositive(t, side, quote);
    Product(FillPrice(t, side, quote), quantity);
  }

  lemma PricesArePositive(t: Terms, side: Side, quote: real, quantity: real)
    requires FairTerms(t) && quote > 0.0 && quantity > 0.0
    ensures 0.0 <= Fee(t, side, quote, quantity) <= Notional(t, side, quote, quantity)
  {
    hide Notional, BasisPoints;
    NotionalIsPositive(t, side, quote, quantity);
    Share(Notional(t, side, quote, quantity), t.fee);
  }

  lemma Product(x: real, y: real)
    requires x > 0.0 && y > 0.0
    ensures x * y > 0.0
  {
  }

  lemma Share(x: real, bps: real)
    requires x >= 0.0 && 0.0 <= bps <= 10000.0
    ensures 0.0 <= BasisPoints(x, bps) <= x
  {
    assert x * bps <= x * 10000.0;
  }

  /** Booking one fill moves the sum over all symbols by that fill's outlay. */
  lemma BookSumMoves(fills: seq<Fill>, f: Fill)
    requires Net(fills, f.symbol) >= 0.0 && f.quantity > 0.0
    ensures SumOver(Symbols(fills + [f]), BookOf(fills + [f])) ==
            SumOver(Symbols(fills), BookOf(fills)) + Outlay(f)
  {
    hide ApplyFill, Book, Outlay;
    var more := fills + [f];
    assert more[..|fills|] == fills;
    SymbolsGrow(fills, f);
    forall s | s in Symbols(more) - Symbols(fills) ensures BookOf(fills)(s) == 0.0 {
      AbsentSlot(fills, s);
      EmptyBook();
    }
    SumOverWiden(Symbols(fills), Symbols(more), BookOf(fills));
    SumOverChange(Symbols(more), f.symbol, BookOf(fills), BookOf(more));
    SlotHoldsNet(fills, f.symbol);
    ApplyFillBooksTheOutlay(SlotOf(fills, f.symbol), f);
  }

  lemma EmptyBook()
    ensures Book(NO_SLOT) == 0.0
  {
  }

  lemma OutlayIsCashMoved(t: Terms, op: Op)
    requires op.Execute?
    ensures Outlay(FillOf(t, op)) ==
            if op.side == BuySide
            then Notional(t, op.side, op.quote, op.quantity) + Fee(t, op.side, op.quote, op.quantity)
            else -(Notional(t, op.side, op.quote, op.quantity) - Fee(t, op.side, op.quote, op.quantity))
  {
  }

  lemma NetGrows(fills: seq<Fill>, f: Fill, s: string)
    ensures Net(fills + [f], s) == Net(fills, s) + if f.symbol == s then Units1(f) else 0.0
  {
    assert (fills + [f])[..|fills|] == fills;
  }

  /** Every request keeps cash and positions nonnegative and the books balanced. */
  lemma StepKeepsLaw(t: Terms, a: Account, op: Op)
    requires FairTerms(t) && FairOp(op) && Lawful(a)
    ensures Lawful(Step(t, a, op))
  {
    hide FillPrice, Notional, Fee, Outlay, Book;
    if op.Reset? {
      assert Symbols([]) == {};
    } else if Refused(t, a, op).None? {
      var f := FillOf(t, op);
      PricesArePositive(t, op.side, op.quote, op.quantity);
      BookSumMoves(a.fills, f);
      OutlayIsCashMoved(t, op);
      forall s ensures Net(a.fills + [f], s) >= 0.0 {
        NetGrows(a.fills, f, s);
      }
    }
  }

  /** The paper law over every run of orders and resets. */
  lemma {:induction false} RunsKeepLaw(t: Terms, a: Account, ops: seq<Op>)
    requires FairTerms(t) && Lawful(a)
    requires forall i :: 0 <= i < |ops| ==> FairOp(ops[i])
    ensures Lawful(Run(t, a, ops))
  {
    hide Lawful, Step;
    if ops == [] {
    } else {
      RunsKeepLaw(t, a, ops[..|ops| - 1]);
      StepKeepsLaw(t, Run(t, a, ops[..|ops| - 1]), ops[|ops| - 1]);
    }
  }

  lemma FreshAccountIsLawful(starting: real)
    requires starting >= 0.0
    ensures Lawful(Account(starting, starting, []))
  {
    assert Symbols([]) == {};
  }

  /** The law in the account's own terms: cash plus open cost is the starting cash plus
      the realized profit of the full fill history. */
  lemma CashCostAndProfitBalance(t: Terms, starting: real, ops: seq<Op>)
    requires FairTerms(t) && starting >= 0.0
    requires forall i :: 0 <= i < |ops| ==> FairOp(ops[i])
    ensures var a := Run(t, Account(starting, starting, []), ops);
      && a.cash >= 0.0
      && (forall s :: SlotOf(a.fills, s).quantity >= 0.0)
      && a.cash + SumOver(Symbols(a.fills), CostOf(a.fills))
         == a.starting + SumOver(Symbols(a.fills), RealizedOf(a.fills))
  {
    FreshAccountIsLawful(starting);
    RunsKeepLaw(t, Account(starting, starting, []), ops);
    var a := Run(t, Account(starting, starting, []), ops);
    hide Run, SlotOf;
    SumOverPlus(Symbols(a.fills), BookOf(a.fills), RealizedOf(a.fills), CostOf(a.fills));
    forall s ensures SlotOf(a.fills, s).quantity >= 0.0 {
      SlotHoldsNet(a.fills, s);
    }
  }

  // ---- Wealth at a constant quote ----------------------------------------------------------

  ghost function Worth(units: real, quote: real): real {
    units * quote
  }

  lemma WorthAdds(a: real, b: real, quote: real)
    ensures Worth(a + b, quote) == Worth(a, quote) + Worth(b, quote)
    ensures Worth(0.0, quote) == 0.0
    ensures Worth(-a, quote) == -Worth(a, quote)
  {
    assert (a + b) * quote == a * quote + b * quote;
  }

  ghost function ValueAt(fills: seq<Fill>, quotes: string -> real): string -> real {
    s => Worth(Net(fills, s), quotes(s))
  }

  ghost function Wealth(a: Account, quotes: string -> real): real {
    a.cash + SumOver(Symbols(a.fills), ValueAt(a.fills, quotes))
  }

  ghost function Slip(t: Terms, op: Op): real
    requires op.Execute?
  {
    BasisPoints(Worth(op.quantity, op.quote), t.slippage)
  }

  /** What an accepted order costs: slippage on the quoted value, plus the fee. */
  ghost function Friction(t: Terms, op: Op): real
    requires op.Execute?
  {
    Slip(t, op) + Fee(t, op.side, op.quote, op.quantity)
  }

  lemma SlippageOnly(t: Terms, op: Op)
    requires op.Execute?
    ensures Notional(t, op.side, op.quote, op.quantity) ==
            Worth(op.quantity, op.quote) + if op.side == BuySide then Slip(t, op) else -Slip(t, op)
  {
    var slip := (if op.side == BuySide then t.slippage else -t.slippage) / 10000.0;
    Factored(op.quote, slip, op.quantity);
    assert Worth(op.quantity, op.quote) * slip == if op.side == BuySide then Slip(t, op) else -Slip(t, op);
  }

  lemma Factored(quote: real, slip: real, quantity: real)
    ensures quote * (1.0 + slip) * quantity == Worth(quantity, quote) + Worth(quantity, quote) * slip
  {
    assert quote * (1.0 + slip) == quote + quote * slip;
    assert quote * slip * quantity == Worth(quantity, quote) * slip;
  }

  lemma FrictionIsNonnegative(t: Terms, op: Op)
    requires FairTerms(t) && FairOp(op) && op.Execute?
    ensures Friction(t, op) >= 0.0
  {
    hide Fee, FillPrice, Notional;
    PricesArePositive(t, op.side, op.quote, op.quantity);
    Product(op.quantity, op.quote);
    Share(Worth(op.quantity, op.quote), t.slippage);
  }

  lemma ValueSumMoves(fills: seq<Fill>, f: Fill, quotes: string -> real)
    ensures SumOver(Symbols(fills + [f]), ValueAt(fills + [f], quotes)) ==
            SumOver(Symbols(fills), ValueAt(fills, quotes)) + Worth(Units1(f), quotes(f.symbol))
  {
    hide Worth, Net;
    var more := fills + [f];
    SymbolsGrow(fills, f);
    forall s | s in Symbols(more) - Symbols(fills) ensures ValueAt(fills, quotes)(s) == 0.0 {
      AbsentSlot(fills, s);
      WorthAdds(0.0, 0.0, quotes(s));
    }
    SumOverWiden(Symbols(fills), Symbols(more), ValueAt(fills, quotes));
    forall s ensures s != f.symbol ==> ValueAt(fills, quotes)(s) == ValueAt(more, quotes)(s) {
      NetGrows(fills, f, s);
    }
    NetGrows(fills, f, f.symbol);
    hide Symbols;
    SumOverChange(Symbols(more), f.symbol, ValueAt(fills, quotes), ValueAt(more, quotes));
    WorthAdds(Net(fills, f.symbol), Units1(f), quotes(f.symbol));
  }

  /** At constant quotes an accepted order loses exactly its friction, which is never negative. */
  lemma OrderCostsItsFriction(t: Terms, a: Account, op: Op, quotes: string -> real)
    requires FairTerms(t) && FairOp(op) && op.Execute? && op.quote == quotes(op.symbol)
    ensures Friction(t, op) >= 0.0
    ensures Wealth(Step(t, a, op), quotes) ==
            Wealth(a, quotes) - if Refused(t, a, op).None? then Friction(t, op) else 0.0
  {
    hide Fee, FillPrice, Notional, Worth, Slip;
    FrictionIsNonnegative(t, op);
    if Refused(t, a, op).None? {
      SlippageOnly(t, op);
      ValueSumMoves(a.fills, FillOf(t, op), quotes);
      WorthAdds(op.quantity, 0.0, op.quote);
    }
  }

  /** At constant quotes no run of orders ever raises cash plus holdings. */
  lemma {:induction false} TradingNeverGains(t: Terms, a: Account, ops: seq<Op>, quotes: string -> real)
    requires FairTerms(t)
    requires forall i :: 0 <= i < |ops| ==> FairOp(ops[i]) && ops[i].Execute? && ops[i].quote == quotes(ops[i].symbol)
    ensures Wealth(Run(t, a, ops), quotes) <= Wealth(a, quotes)
  {
    hide Wealth, Friction, Step;
    if ops == [] {
    } else {
      var before := ops[..|ops| - 1];
      TradingNeverGains(t, a, before, quotes);
      OrderCostsItsFriction(t, Run(t, a, before), ops[|ops| - 1], quotes);
    }
  }
}
