/** Conservation across the three accountings of one ledger: FIFO lots, LIFO lots
    and average cost (tax_lot_service.py beside portfolio_service.py). */
module LotLaws {
  import opened Money
  import opened Portfolio
  import opened TaxLots

  function LotQty(lot: Lot): real { lot.quantity }

  function LotValue(lot: Lot): real { lot.quantity * lot.cost }

  function SliceQty(s: Slice): real { s.quantity }

  function Cost1(s: Slice): real { s.cost }

  function Proceeds1(s: Slice): real { s.proceeds }

  ghost predicate Nonneg(lots: seq<Lot>) {
    forall i :: 0 <= i < |lots| ==> lots[i].quantity >= 0.0
  }

  ghost predicate Positive(lots: seq<Lot>) {
    forall i :: 0 <= i < |lots| ==> lots[i].quantity > 0.0
  }

  ghost predicate PositiveSlices(slices: seq<Slice>) {
    forall s :: s in slices ==> s.quantity > 0.0
  }

  /** No entry was stored as nothing. */
  ghost predicate PositiveLedger(ledger: seq<Tx>) {
    forall i :: 0 <= i < |ledger| ==> ledger[i].quantity > 0.0
  }

  // ---- One sale ------------------------------------------------------------------

  /** The part of a lot's value that `used` units carry away. */
  ghost function Carried(lot: Lot, used: real): real {
    used * lot.cost
  }

  lemma LotSplits(lot: Lot, used: real)
    ensures LotValue(lot.(quantity := lot.quantity - used)) == LotValue(lot) - Carried(lot, used)
    ensures used == lot.quantity ==> LotValue(lot) == Carried(lot, used)
  {
    assert (lot.quantity - used) * lot.cost == lot.quantity * lot.cost - used * lot.cost;
  }

  lemma ShrunkTotals(lots: seq<Lot>, used: real, how: Method)
    requires lots != [] && Nonneg(lots)
    requires 0.0 <= used <= lots[Head(lots, how)].quantity
    ensures var now := Shrunk(lots, used, how);
      && Nonneg(now) && (Positive(lots) ==> Positive(now))
      && Total(now, LotQty) == Total(lots, LotQty) - used
      && Total(now, LotValue) == Total(lots, LotValue) - Carried(lots[Head(lots, how)], used)
  {
    hide LotValue, Carried;
    var i := Head(lots, how);
    var now := Shrunk(lots, used, how);
    TotalAt(lots, i, LotQty);
    TotalAt(lots, i, LotValue);
    LotSplits(lots[i], used);
    if lots[i].quantity - used == 0.0 {
      assert now == lots[..i] + lots[i + 1..];
      TotalConcat(lots[..i], lots[i + 1..], LotQty);
      TotalConcat(lots[..i], lots[i + 1..], LotValue);
    } else {
      TotalAt(now, i, LotQty);
      TotalAt(now, i, LotValue);
      assert now[..i] == lots[..i] && now[i + 1..] == lots[i + 1..];
    }
  }

  lemma {:induction false} TotalNonneg(lots: seq<Lot>)
    requires Nonneg(lots)
    ensures Total(lots, LotQty) >= 0.0
    ensures forall i :: 0 <= i < |lots| ==> Total(lots, LotQty) >= lots[i].quantity
  {
    if lots == [] {
    } else {
      TotalNonneg(lots[..|lots| - 1]);
    }
  }

  ghost predicate SaleConserves(lots: seq<Lot>, c: Book, quantity: real, price: real)
    requires c.Book?
  {
    && Nonneg(c.lots) && (Positive(lots) ==> Positive(c.lots) && PositiveSlices(c.slices))
    && Total(c.lots, LotQty) == Total(lots, LotQty) - quantity
    && Total(c.slices, SliceQty) == quantity
    && Total(c.slices, Cost1) == Total(lots, LotValue) - Total(c.lots, LotValue)
    && Total(c.slices, Proceeds1) == quantity * price
  }

  /** A sale faults exactly when it exceeds the open lots; otherwise units, cost and
      proceeds move from the lots to the slices without loss. */
  lemma {:induction false} ConsumeConserves(lots: seq<Lot>, sale: Tx, remaining: real, how: Method)
    requires Nonneg(lots) && remaining >= 0.0
    ensures Consume(lots, sale, remaining, how).Book? <==> remaining <= Total(lots, LotQty)
    ensures remaining <= Total(lots, LotQty) ==>
              SaleConserves(lots, Consume(lots, sale, remaining, how), remaining, sale.price)
    decreases if remaining <= 0.0 then 0 else |lots| + 1
  {
    hide Consume, SliceOf, Shrunk, SaleConserves, Total;
    ConsumeUnfold(lots, sale, remaining, how);
    TotalNonneg(lots);
    SaleOfNothing(lots, sale.price);
    if remaining > 0.0 && lots != [] {
      var used := Used(lots, remaining, how);
      var now := Shrunk(lots, used, how);
      ShrunkTotals(lots, used, how);
      PassShrinks(lots, remaining, how);
      ConsumeConserves(now, sale, remaining - used, how);
      var rest := Consume(now, sale, remaining - used, how);
      if rest.Book? {
        PassConserves(lots, sale, remaining, how, rest);
      }
    } else {
      EmptyHoldsNothing();
    }
  }

  lemma EmptyHoldsNothing()
    ensures Total([], LotQty) == 0.0
  {
  }

  lemma PassConserves(lots: seq<Lot>, sale: Tx, remaining: real, how: Method, rest: Book)
    requires lots != [] && Nonneg(lots) && remaining > 0.0 && rest.Book?
    requires var used := Used(lots, remaining, how);
             SaleConserves(Shrunk(lots, used, how), rest, remaining - used, sale.price)
    ensures var used := Used(lots, remaining, how);
            SaleConserves(lots, After([SliceOf(lots[Head(lots, how)], sale, used)], rest), remaining, sale.price)
  {
    hide SliceOf, LotValue, Carried, Shrunk, Total;
    var used := Used(lots, remaining, how);
    ShrunkTotals(lots, used, how);
    OneMoreSlice(lots[Head(lots, how)], sale, used, remaining, rest.slices);
  }

  lemma PassShrinks(lots: seq<Lot>, remaining: real, how: Method)
    requires lots != [] && remaining > 0.0
    ensures var used := Used(lots, remaining, how);
            remaining - used <= 0.0 || |Shrunk(lots, used, how)| < |lots|
  {
  }

  lemma SaleOfNothing(lots: seq<Lot>, price: real)
    requires Nonneg(lots)
    ensures SaleConserves(lots, Book(lots, []), 0.0, price)
  {
  }

  lemma OneMoreSlice(lot: Lot, sale: Tx, used: real, remaining: real, slices: seq<Slice>)
    ensures var all := [SliceOf(lot, sale, used)] + slices;
      && SliceOf(lot, sale, used).quantity == used
      && Total(all, SliceQty) == used + Total(slices, SliceQty)
      && Total(all, Cost1) == Carried(lot, used) + Total(slices, Cost1)
      && (Total(slices, Proceeds1) == (remaining - used) * sale.price ==>
            Total(all, Proceeds1) == remaining * sale.price)
  {
    var slice := SliceOf(lot, sale, used);
    TotalOne(slice, SliceQty);
    TotalOne(slice, Cost1);
    TotalOne(slice, Proceeds1);
    TotalConcat([slice], slices, SliceQty);
    TotalConcat([slice], slices, Cost1);
    TotalConcat([slice], slices, Proceeds1);
  }

  // ---- A whole ledger --------------------------------------------------------------

  ghost predicate Balanced(ledger: seq<Tx>, symbol: string, b: Book)
    requires b.Book?
  {
    && Nonneg(b.lots) && (PositiveLedger(ledger) ==> Positive(b.lots) && PositiveSlices(b.slices))
    && Total(b.lots, LotQty) == Signed(ledger, symbol)
    && Total(b.slices, Gain1) - Total(b.lots, LotValue) == SaleProceeds(ledger, symbol) - Purchases(ledger, symbol)
  }

  lemma PositiveLedgerGrows(before: seq<Tx>, tx: Tx)
    ensures PositiveLedger(before + [tx]) <==> PositiveLedger(before) && tx.quantity > 0.0
  {
    assert forall i :: 0 <= i < |before| ==> (before + [tx])[i] == before[i];
    assert (before + [tx])[|before|] == tx;
  }

  lemma {:induction false} GainIsProceedsLessCost(slices: seq<Slice>)
    ensures Total(slices, Gain1) == Total(slices, Proceeds1) - Total(slices, Cost1)
  {
    if slices == [] {
    } else {
      GainIsProceedsLessCost(slices[..|slices| - 1]);
    }
  }

  lemma BuyLotValue(tx: Tx)
    ensures LotValue(BuyLot(tx)) == Paid(tx)
  {
  }

  lemma SaleFaceValue(tx: Tx)
    ensures Paid(tx) == tx.quantity * tx.price
  {
  }

  lemma BuyBalances(before: seq<Tx>, tx: Tx, b: Book)
    requires b.Book? && Balanced(before, tx.symbol, b) && tx.action == Buy && tx.quantity >= 0.0
    ensures Balanced(before + [tx], tx.symbol, Book(b.lots + [BuyLot(tx)], b.slices))
    ensures Signed(before + [tx], tx.symbol) >= 0.0
  {
    hide LotValue, Paid, Gain1, Total;
    var now := before + [tx];
    assert now[..|now| - 1] == before;
    PositiveLedgerGrows(before, tx);
    TotalNonneg(b.lots);
    BuyLotValue(tx);
    TotalOne(BuyLot(tx), LotQty);
    TotalOne(BuyLot(tx), LotValue);
    TotalConcat(b.lots, [BuyLot(tx)], LotQty);
    TotalConcat(b.lots, [BuyLot(tx)], LotValue);
  }

  lemma SaleBalances(before: seq<Tx>, tx: Tx, b: Book, c: Book)
    requires b.Book? && Balanced(before, tx.symbol, b) && tx.action == Sell
    requires c.Book? && SaleConserves(b.lots, c, tx.quantity, tx.price)
    ensures Balanced(before + [tx], tx.symbol, Book(c.lots, b.slices + c.slices))
  {
    hide LotValue, Paid, Gain1, Total;
    var now := before + [tx];
    assert now[..|now| - 1] == before;
    PositiveLedgerGrows(before, tx);
    SaleFaceValue(tx);
    TotalConcat(b.slices, c.slices, Gain1);
    GainIsProceedsLessCost(c.slices);
  }

  lemma StepBalances(before: seq<Tx>, tx: Tx, b: Book, how: Method)
    requires b.Book? && Balanced(before, tx.symbol, b) && tx.quantity >= 0.0
    ensures StepBook(b, tx, how).Book? <==> Signed(before + [tx], tx.symbol) >= 0.0
    ensures StepBook(b, tx, how).Book? ==> Balanced(before + [tx], tx.symbol, StepBook(b, tx, how))
  {
    if tx.action == Buy {
      BuyBalances(before, tx, b);
    } else {
      hide Consume, SaleConserves, Purchases, SaleProceeds;
      ConsumeConserves(b.lots, tx, tx.quantity, how);
      var c := Consume(b.lots, tx, tx.quantity, how);
      assert (before + [tx])[..|before|] == before;
      if c.Book? {
        SaleBalances(before, tx, b, c);
      }
    }
  }

  /** The lot engine completes exactly when no prefix oversells, and then balances. */
  lemma {:induction false} LotsBalance(ledger: seq<Tx>, symbol: string, how: Method)
    requires ValidLedger(ledger)
    ensures BookOf(ledger, symbol, how).Book? <==> NoOversell(ledger, symbol)
    ensures BookOf(ledger, symbol, how).Book? ==> Balanced(ledger, symbol, BookOf(ledger, symbol, how))
  {
    hide StepBook, Balanced, Signed1;
    if ledger == [] {
      EmptyBalanced(symbol);
    } else {
      var before := ledger[..|ledger| - 1];
      var tx := ledger[|ledger| - 1];
      assert before + [tx] == ledger;
      LotsBalance(before, symbol, how);
      var b := BookOf(before, symbol, how);
      if b.Broken? {
        if NoOversell(ledger, symbol) {
          NoOversellPrefix(ledger, symbol);
        }
        StepBroken(tx, how);
      } else {
        NoOversellExtends(before, tx, symbol);
        if tx.symbol == symbol {
          StepBalances(before, tx, b, how);
        } else {
          OtherSymbolBalances(before, tx, symbol, b);
        }
      }
    }
  }

  lemma EmptyBalanced(symbol: string)
    ensures Balanced([], symbol, Book([], []))
  {
  }

  lemma StepBroken(tx: Tx, how: Method)
    ensures StepBook(Broken, tx, how) == Broken
  {
  }

  lemma OtherSymbolBalances(before: seq<Tx>, tx: Tx, symbol: string, b: Book)
    requires b.Book? && tx.symbol != symbol && Balanced(before, symbol, b)
    ensures Balanced(before + [tx], symbol, b) && Signed(before + [tx], symbol) >= 0.0
  {
    assert (before + [tx])[..|before|] == before;
    PositiveLedgerGrows(before, tx);
    TotalNonneg(b.lots);
  }

  /** Every symbol of a report completes exactly when none oversells. */
  lemma ReportFaultsExactlyOnOversell(ledger: seq<Tx>, how: Method)
    requires ValidLedger(ledger)
    ensures Faulty(ledger, how) <==> exists s :: s in Symbols(ledger) && !NoOversell(ledger, s)
  {
    forall s ensures BookOf(ledger, s, how).Book? <==> NoOversell(ledger, s) {
      LotsBalance(ledger, s, how);
    }
  }

  /** FIFO, LIFO and average cost obey one law on every ledger with no oversold prefix,
      and realize the same total whenever the position is flat. */
  lemma ThreeAccountingsAgree(ledger: seq<Tx>, symbol: string)
    requires ValidLedger(ledger) && NoOversell(ledger, symbol)
    ensures var slot := SlotOf(ledger, symbol);
      var fifo, lifo := BookOf(ledger, symbol, FIFO), BookOf(ledger, symbol, LIFO);
      && fifo.Book? && lifo.Book?
      && Total(fifo.lots, LotQty) == Total(lifo.lots, LotQty) == slot.qty
      && Total(fifo.slices, Gain1) - Total(fifo.lots, LotValue)
         == Total(lifo.slices, Gain1) - Total(lifo.lots, LotValue)
         == slot.realized - slot.qty * slot.avg
         == SaleProceeds(ledger, symbol) - Purchases(ledger, symbol)
      && (slot.qty == 0.0 ==>
            Total(fifo.slices, Gain1) == Total(lifo.slices, Gain1) == slot.realized)
  {
    hide SlotOf, BookOf, LotValue, Gain1, BookValue, Purchases, SaleProceeds, MatchedProceeds, Signed, Total;
    LotsBalance(ledger, symbol, FIFO);
    LotsBalance(ledger, symbol, LIFO);
    AverageCostBalances(ledger, symbol);
    MatchedInFull(ledger, symbol);
    ClampsExactlyOnOversell(ledger, symbol);
    BookValueIs(SlotOf(ledger, symbol));
    if SlotOf(ledger, symbol).qty == 0.0 {
      FlatHasNoValue(BookOf(ledger, symbol, FIFO).lots);
      FlatHasNoValue(BookOf(ledger, symbol, LIFO).lots);
    }
  }

  lemma BookValueIs(s: Slot)
    ensures BookValue(s) == s.qty * s.avg - s.realized
    ensures s.qty == 0.0 ==> BookValue(s) == -s.realized
  {
  }

  lemma {:induction false} FlatHasNoValue(lots: seq<Lot>)
    requires Nonneg(lots) && Total(lots, LotQty) == 0.0
    ensures Total(lots, LotValue) == 0.0
  {
    if lots == [] {
    } else {
      TotalNonneg(lots);
      TotalNonneg(lots[..|lots| - 1]);
      FlatHasNoValue(lots[..|lots| - 1]);
    }
  }

  lemma EarlySaleOversells(sale: Tx, buy: Tx)
    requires sale.symbol == buy.symbol && sale.action == Sell && sale.quantity > 0.0
    ensures !NoOversell([sale, buy], sale.symbol) && sale.symbol in Symbols([sale, buy])
  {
    var ledger := [sale, buy];
    assert ledger[..1] == [sale] && [sale][..0] == [];
    assert ledger[0] == sale;
    assert Signed([sale], sale.symbol) == -sale.quantity;
  }

  lemma EarlySaleIsDropped(sale: Tx, buy: Tx)
    requires sale.symbol == buy.symbol && sale.action == Sell && buy.action == Buy
    requires sale.quantity == 1.0 && buy.quantity == 1.0
    ensures Dropped([sale, buy], sale.symbol) == 1.0 && SlotOf([sale, buy], sale.symbol).qty == 1.0
  {
    var ledger := [sale, buy];
    assert ledger[..1] == [sale] && [sale][..0] == [];
    assert SlotOf([], sale.symbol) == EMPTY_SLOT;
    assert SlotOf([sale], sale.symbol).qty == 0.0;
    assert Dropped([sale], sale.symbol) == 1.0;
  }

  /** A sale booked before its purchase is such a prefix: the report fails under either method, while
      average cost drops the unit and carries on. */
  lemma SaleBeforePurchaseFails(how: Method, at: Stamp)
    ensures var ledger := [Tx(0, "A", Sell, 1.0, 5.0, at), Tx(0, "A", Buy, 1.0, 4.0, at)];
      && Faulty(ledger, how)
      && Dropped(ledger, "A") == 1.0 && SlotOf(ledger, "A").qty == 1.0
  {
    var sale, buy := Tx(0, "A", Sell, 1.0, 5.0, at), Tx(0, "A", Buy, 1.0, 4.0, at);
    EarlySaleOversells(sale, buy);
    EarlySaleIsDropped(sale, buy);
    hide Dropped, SlotOf, NoOversell, Faulty;
    ReportFaultsExactlyOnOversell([sale, buy], how);
  }

  // ---- Yearly reports ----------------------------------------------------------------

  /** The per-year reports partition the realized list: a slice is in the report of its own
      year as often as it was realized, and in no other. */
  lemma {:induction false} YearsPartition(slices: seq<Slice>, year: int, s: Slice)
    ensures multiset(InYear(slices, year))[s] == if s.sold.year == year then multiset(slices)[s] else 0
  {
    if slices == [] {
    } else {
      var n := |slices| - 1;
      YearsPartition(slices[..n], year, s);
      assert slices == slices[..n] + [slices[n]];
    }
  }

  /** Summed over any set of years that covers the sales, the reports give the whole list's total, of
      exact gains and of listed ones. */
  lemma {:induction false} YearlyGainsAddUp(slices: seq<Slice>, years: set<int>, gain: Slice -> real)
    requires forall s :: s in slices ==> s.sold.year in years
    ensures SumOver(years, y => Total(InYear(slices, y), gain)) == Total(slices, gain)
  {
    var f := y => Total(InYear(slices, y), gain);
    if slices == [] {
      SumOverZero(years, f);
    } else {
      var n := |slices| - 1;
      var g := y => Total(InYear(slices[..n], y), gain);
      YearlyGainsAddUp(slices[..n], years, gain);
      var last := slices[n];
      forall y ensures f(y) == g(y) + if y == last.sold.year then gain(last) else 0.0 {
        TotalOne(last, gain);
        TotalConcat(InYear(slices[..n], y), [last], gain);
      }
      SumOverChange(years, last.sold.year, g, f);
      SumOverSame(years, g, y => Total(InYear(slices[..n], y), gain));
    }
    SumOverSame(years, f, y => Total(InYear(slices, y), gain));
  }

  /** The report's short and long totals add up to the listed gains, and miss the exact gain by at most
      half a cent per slice. */
  lemma {:induction false} TermsAddUp(slices: seq<Slice>)
    ensures GainOf(slices, Short) + GainOf(slices, Long) == Total(slices, Listed)
    ensures Abs(Total(slices, Listed) - Total(slices, Gain1)) <= 0.005 * |slices| as real
  {
    hide Gain1, Round2;
    if slices == [] {
    } else {
      TermsAddUp(slices[..|slices| - 1]);
      Round2Error(Gain1(slices[|slices| - 1]));
    }
  }

  // ---- Where a slice comes from ----------------------------------------------------------------

  /** Some purchase of the symbol in the ledger has this stamp and price. */
  ghost predicate BoughtAt(ledger: seq<Tx>, symbol: string, at: Stamp, price: real) {
    exists i :: 0 <= i < |ledger| && ledger[i].symbol == symbol && ledger[i].action == Buy
                && ledger[i].at == at && ledger[i].price == price
  }

  ghost predicate LotsComeFrom(lots: seq<Lot>, ledger: seq<Tx>, symbol: string) {
    forall i :: 0 <= i < |lots| ==> BoughtAt(ledger, symbol, lots[i].acquired, lots[i].cost)
  }

  lemma BoughtStays(before: seq<Tx>, tx: Tx, symbol: string, at: Stamp, price: real)
    ensures BoughtAt(before, symbol, at, price) ==> BoughtAt(before + [tx], symbol, at, price)
    ensures tx.symbol == symbol && tx.action == Buy ==> BoughtAt(before + [tx], symbol, tx.at, tx.price)
  {
    var now := before + [tx];
    assert now[|before|] == tx;
    if BoughtAt(before, symbol, at, price) {
      var i :| 0 <= i < |before| && before[i].symbol == symbol && before[i].action == Buy
               && before[i].at == at && before[i].price == price;
      assert now[i] == before[i];
    }
  }

  /** Every slice of a sale matches one of the lots it met, and every lot left is one of them. */
  lemma {:induction false} ConsumeKeepsStamps(lots: seq<Lot>, sale: Tx, remaining: real, how: Method,
                                              ledger: seq<Tx>, symbol: string)
    requires LotsComeFrom(lots, ledger, symbol)
    ensures var c := Consume(lots, sale, remaining, how);
      c.Book? ==>
        && LotsComeFrom(c.lots, ledger, symbol)
        && forall s :: s in c.slices ==>
             s.sold == sale.at && exists price :: BoughtAt(ledger, symbol, s.acquired, price)
    decreases if remaining <= 0.0 then 0 else |lots| + 1
  {
    hide Consume, BoughtAt;
    ConsumeUnfold(lots, sale, remaining, how);
    if remaining <= 0.0 || lots == [] {
    } else {
      var used := Used(lots, remaining, how);
      PassShrinks(lots, remaining, how);
      var lot := lots[Head(lots, how)];
      assert BoughtAt(ledger, symbol, lot.acquired, lot.cost);
      ShrunkKeepsStamps(lots, used, how, ledger, symbol);
      hide Shrunk;
      ConsumeKeepsStamps(Shrunk(lots, used, how), sale, remaining - used, how, ledger, symbol);
    }
  }

  lemma ShrunkKeepsStamps(lots: seq<Lot>, used: real, how: Method, ledger: seq<Tx>, symbol: string)
    requires lots != [] && LotsComeFrom(lots, ledger, symbol)
    ensures LotsComeFrom(Shrunk(lots, used, how), ledger, symbol)
  {
    hide BoughtAt;
  }

  ghost predicate SliceComesFrom(s: Slice, ledger: seq<Tx>) {
    && (exists price :: BoughtAt(ledger, s.symbol, s.acquired, price))
    && exists j :: 0 <= j < |ledger| &&
         ledger[j].symbol == s.symbol && ledger[j].action == Sell && ledger[j].at == s.sold
  }

  lemma {:induction false} LotsAreBought(ledger: seq<Tx>, symbol: string, how: Method)
    ensures BookOf(ledger, symbol, how).Book? ==> LotsComeFrom(BookOf(ledger, symbol, how).lots, ledger, symbol)
  {
    if ledger == [] {
    } else {
      var before, tx := ledger[..|ledger| - 1], ledger[|ledger| - 1];
      assert ledger == before + [tx];
      LotsAreBought(before, symbol, how);
      var b := BookOf(before, symbol, how);
      hide Consume, BoughtAt;
      if b.Book? {
        forall i | 0 <= i < |b.lots| ensures BoughtAt(ledger, symbol, b.lots[i].acquired, b.lots[i].cost) {
          BoughtStays(before, tx, symbol, b.lots[i].acquired, b.lots[i].cost);
        }
        BoughtStays(before, tx, symbol, tx.at, tx.price);
        ConsumeKeepsStamps(b.lots, tx, tx.quantity, how, ledger, symbol);
      }
    }
  }

  lemma SliceStays(s: Slice, before: seq<Tx>, tx: Tx)
    requires SliceComesFrom(s, before)
    ensures SliceComesFrom(s, before + [tx])
  {
    var price :| BoughtAt(before, s.symbol, s.acquired, price);
    BoughtStays(before, tx, s.symbol, s.acquired, price);
    var j :| 0 <= j < |before| && before[j].symbol == s.symbol && before[j].action == Sell && before[j].at == s.sold;
    assert (before + [tx])[j] == before[j];
  }

  /** Every realized slice carries the stamp of a purchase of its symbol and of a sale of it. */
  lemma {:induction false} SlicesComeFromTheLedger(ledger: seq<Tx>, how: Method)
    ensures forall s :: s in AllSlices(ledger, how) ==> SliceComesFrom(s, ledger)
  {
    if ledger == [] {
    } else {
      var before, tx := ledger[..|ledger| - 1], ledger[|ledger| - 1];
      assert ledger == before + [tx];
      SlicesComeFromTheLedger(before, how);
      forall s | s in AllSlices(before, how) ensures SliceComesFrom(s, ledger) {
        SliceStays(s, before, tx);
      }
      NewSlicesComeFrom(before, tx, how);
    }
  }

  lemma NewSlicesComeFrom(before: seq<Tx>, tx: Tx, how: Method)
    ensures forall s :: s in SlicesOf(before, tx, how) ==> SliceComesFrom(s, before + [tx])
  {
    hide BookOf, Consume, BoughtAt;
    var now, b := before + [tx], BookOf(before, tx.symbol, how);
    assert now[|before|] == tx;
    if tx.action == Sell && b.Book? {
      LotsAreBought(before, tx.symbol, how);
      forall i | 0 <= i < |b.lots| ensures BoughtAt(now, tx.symbol, b.lots[i].acquired, b.lots[i].cost) {
        BoughtStays(before, tx, tx.symbol, b.lots[i].acquired, b.lots[i].cost);
      }
      ConsumeKeepsStamps(b.lots, tx, tx.quantity, how, now, tx.symbol);
      ConsumeStaysInSymbol(b.lots, tx, tx.quantity, how);
    }
  }

  /** So a ledger whose sales all come within 365 days of every purchase of their symbol has no long-term
      gain in any year's report. */
  lemma QuickSalesAreShort(ledger: seq<Tx>, how: Method, year: int)
    requires forall i, j :: 0 <= i < |ledger| && 0 <= j < |ledger| && ledger[i].symbol == ledger[j].symbol
                            && ledger[i].action == Buy && ledger[j].action == Sell ==>
                              ledger[j].at.day <= ledger[i].at.day + 365
    ensures var report := InYear(AllSlices(ledger, how), year);
      Total(report, LongGain) == 0.0 && Total(report, ShortGain) == Total(report, Listed)
  {
    SlicesComeFromTheLedger(ledger, how);
    var report := InYear(AllSlices(ledger, how), year);
    forall s | s in report ensures s.sold.day <= s.acquired.day + 365 {
      InYearIsPart(AllSlices(ledger, how), year);
      assert SliceComesFrom(s, ledger);
    }
    hide AllSlices, InYear;
    AllShort(report);
  }

  lemma {:induction false} InYearIsPart(slices: seq<Slice>, year: int)
    ensures forall s :: s in InYear(slices, year) ==> s in slices
  {
    if slices == [] {
    } else {
      InYearIsPart(slices[..|slices| - 1], year);
    }
  }

  lemma {:induction false} AllShort(slices: seq<Slice>)
    requires forall s :: s in slices ==> s.sold.day <= s.acquired.day + 365
    ensures Total(slices, LongGain) == 0.0 && Total(slices, ShortGain) == Total(slices, Listed)
  {
    hide Listed;
    if slices == [] {
    } else {
      assert slices[|slices| - 1] in slices && forall s :: s in slices[..|slices| - 1] ==> s in slices;
      AllShort(slices[..|slices| - 1]);
    }
  }

  function OfSymbol(slices: seq<Slice>, symbol: string): seq<Slice> {
    if slices == [] then []
    else
      var rest := OfSymbol(slices[..|slices| - 1], symbol);
      var s := slices[|slices| - 1];
      if s.symbol == symbol then rest + [s] else rest
  }

  lemma {:induction false} OfSymbolAppend(a: seq<Slice>, b: seq<Slice>, symbol: string)
    ensures OfSymbol(a + b, symbol) == OfSymbol(a, symbol) + OfSymbol(b, symbol)
  {
    if b == [] {
      assert a + b == a;
    } else {
      var n := |b| - 1;
      OfSymbolAppend(a, b[..n], symbol);
      assert (a + b)[..|a + b| - 1] == a + b[..n];
    }
  }

  lemma {:induction false} OneSymbolOnly(slices: seq<Slice>, owner: string, symbol: string)
    requires forall s :: s in slices ==> s.symbol == owner
    ensures OfSymbol(slices, symbol) == if owner == symbol then slices else []
  {
    if slices == [] {
    } else {
      var n := |slices| - 1;
      OneSymbolOnly(slices[..n], owner, symbol);
      assert slices == slices[..n] + [slices[n]];
    }
  }

  lemma SliceBelongsToItsSale(lot: Lot, sale: Tx, used: real)
    ensures SliceOf(lot, sale, used).symbol == sale.symbol && SliceOf(lot, sale, used).sold == sale.at
  {
  }

  lemma {:induction false} ConsumeStaysInSymbol(lots: seq<Lot>, sale: Tx, remaining: real, how: Method)
    ensures var c := Consume(lots, sale, remaining, how);
            c.Book? ==> forall s :: s in c.slices ==> s.symbol == sale.symbol && s.sold == sale.at
    decreases if remaining <= 0.0 then 0 else |lots| + 1
  {
    hide Consume, Shrunk;
    ConsumeUnfold(lots, sale, remaining, how);
    if remaining > 0.0 && lots != [] {
      var used := Used(lots, remaining, how);
      PassShrinks(lots, remaining, how);
      ConsumeStaysInSymbol(Shrunk(lots, used, how), sale, remaining - used, how);
      SliceBelongsToItsSale(lots[Head(lots, how)], sale, used);
      hide SliceOf;
    }
  }

  /** The one realized list of a report, restricted to a symbol, is that symbol's own list. */
  lemma {:induction false} ReportSeparatesSymbols(ledger: seq<Tx>, symbol: string, how: Method)
    requires forall s :: BookOf(ledger, s, how).Book?
    ensures OfSymbol(AllSlices(ledger, how), symbol) == BookOf(ledger, symbol, how).slices
  {
    if ledger == [] {
    } else {
      hide Consume;
      var before := ledger[..|ledger| - 1];
      var tx := ledger[|ledger| - 1];
      forall s ensures BookOf(before, s, how).Book? {
        if BookOf(before, s, how).Broken? {
          BrokenStays(ledger, |ledger| - 1, s, how);
        }
      }
      ReportSeparatesSymbols(before, symbol, how);
      var mine := SlicesOf(before, tx, how);
      OfSymbolAppend(AllSlices(before, how), mine, symbol);
      ConsumeStaysInSymbol(BookOf(before, tx.symbol, how).lots, tx, tx.quantity, how);
      OneSymbolOnly(mine, tx.symbol, symbol);
      assert BookOf(ledger, tx.symbol, how).Book?;
    }
  }
}
