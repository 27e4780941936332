/** FIFO against an independent definition: lay the purchases end to end on a line.
    What has been sold is the segment up to the total sold; the open lots are what
    is left of each purchase, and a sale realizes exactly the pieces it covers. */
module FifoLine {
  import opened Money
  import opened Portfolio
  import opened TaxLots
  import opened LotLaws

  /** Every purchase of a symbol, in ledger order; one stored as nothing takes no room on the line. */
  function Buys(ledger: seq<Tx>, symbol: string): seq<Lot> {
    if ledger == [] then []
    else
      var rest := Buys(ledger[..|ledger| - 1], symbol);
      var tx := ledger[|ledger| - 1];
      if tx.symbol == symbol && tx.action == Buy && tx.quantity > 0.0 then rest + [BuyLot(tx)] else rest
  }

  function Sold(ledger: seq<Tx>, symbol: string): real {
    if ledger == [] then 0.0
    else
      var tx := ledger[|ledger| - 1];
      Sold(ledger[..|ledger| - 1], symbol) + if tx.symbol == symbol && tx.action == Sell then tx.quantity else 0.0
  }

  /** The purchases, the first one starting at `start`, cut to the line beyond `from`. */
  function Cut(buys: seq<Lot>, start: real, from: real): seq<Lot> {
    if buys == [] then []
    else
      var end := start + buys[0].quantity;
      var rest := Cut(buys[1..], end, from);
      if end <= from then rest
      else [buys[0].(quantity := end - Max(start, from))] + rest
  }

  /** The pieces of the purchases that lie in [a, b), in order, realized by `sale`. */
  function Covered(buys: seq<Lot>, start: real, a: real, b: real, sale: Tx): seq<Slice> {
    if buys == [] then []
    else
      var end := start + buys[0].quantity;
      var lo, hi := Max(start, a), Min(end, b);
      var rest := Covered(buys[1..], end, a, b, sale);
      if lo < hi then [SliceOf(buys[0], sale, hi - lo)] + rest else rest
  }

  /** What the sales of a ledger cover, against the line of ALL purchases `buys`. */
  function LineSlices(buys: seq<Lot>, ledger: seq<Tx>, symbol: string): seq<Slice> {
    if ledger == [] then []
    else
      var before := ledger[..|ledger| - 1];
      var tx := ledger[|ledger| - 1];
      var rest := LineSlices(buys, before, symbol);
      if tx.symbol == symbol && tx.action == Sell then
        var from := Sold(before, symbol);
        rest + Covered(buys, 0.0, from, from + tx.quantity, tx)
      else rest
  }

  // ---- One sale on the line ------------------------------------------------------------

  function Reach(buys: seq<Lot>, start: real): real {
    if buys == [] then start else Reach(buys[1..], start + buys[0].quantity)
  }

  /** A cut at or before the start of the list leaves it whole, wherever it lies. */
  lemma {:induction false} CutBefore(buys: seq<Lot>, start: real, a: real, b: real)
    requires Positive(buys) && a <= start && b <= start
    ensures Cut(buys, start, a) == Cut(buys, start, b)
  {
    if buys == [] {
    } else {
      CutBefore(buys[1..], start + buys[0].quantity, a, b);
    }
  }

  lemma {:induction false} CoveredBefore(buys: seq<Lot>, start: real, a: real, b: real, sale: Tx)
    requires Positive(buys) && (b <= start || b <= a)
    ensures Covered(buys, start, a, b, sale) == []
  {
    hide SliceOf;
    if buys == [] {
    } else {
      CoveredBefore(buys[1..], start + buys[0].quantity, a, b, sale);
    }
  }

  lemma {:induction false} CoveredFrom(buys: seq<Lot>, start: real, a: real, c: real, b: real, sale: Tx)
    requires Positive(buys) && a <= start && c <= start
    ensures Covered(buys, start, a, b, sale) == Covered(buys, start, c, b, sale)
  {
    hide SliceOf;
    if buys == [] {
    } else {
      CoveredFrom(buys[1..], start + buys[0].quantity, a, c, b, sale);
    }
  }

  /** Consuming the line from `a` to `b` moves the cut and realizes the pieces between. */
  lemma {:induction false} ConsumeMovesTheCut(buys: seq<Lot>, start: real, a: real, b: real, sale: Tx)
    requires Positive(buys) && start <= a <= b <= Reach(buys, start)
    ensures Consume(Cut(buys, start, a), sale, b - a, FIFO) ==
            Book(Cut(buys, start, b), Covered(buys, start, a, b, sale))
  {
    hide Consume, SliceOf;
    var lots := Cut(buys, start, a);
    ConsumeUnfold(lots, sale, b - a, FIFO);
    if a == b {
      CoveredBefore(buys, start, a, b, sale);
    } else {
      var end := start + buys[0].quantity;
      var tail := buys[1..];
      if end <= a {
        ConsumeMovesTheCut(tail, end, a, b, sale);
      } else if b < end {
        CutBefore(tail, end, a, b);
        CoveredBefore(tail, end, a, b, sale);
        LastPass(lots, sale, b - a);
        SliceIgnoresQuantity(buys[0], end - a, sale, b - a);
        assert [SliceOf(buys[0], sale, b - a)] + [] == [SliceOf(buys[0], sale, b - a)];
      } else {
        FullLot(lots, sale, b - a);
        SliceIgnoresQuantity(buys[0], end - a, sale, end - a);
        CutBefore(tail, end, a, end);
        CoveredFrom(tail, end, a, end, b, sale);
        ConsumeMovesTheCut(tail, end, end, b, sale);
      }
    }
  }

  lemma SliceIgnoresQuantity(lot: Lot, left: real, sale: Tx, used: real)
    ensures SliceOf(lot.(quantity := left), sale, used) == SliceOf(lot, sale, used)
  {
  }

  /** A sale smaller than the first lot ends there. */
  lemma LastPass(lots: seq<Lot>, sale: Tx, q: real)
    requires lots != [] && 0.0 < q < lots[0].quantity
    ensures Consume(lots, sale, q, FIFO) ==
            Book([lots[0].(quantity := lots[0].quantity - q)] + lots[1..], [SliceOf(lots[0], sale, q)])
  {
    hide SliceOf;
    ConsumeUnfold(lots, sale, q, FIFO);
    ConsumeUnfold(Shrunk(lots, q, FIFO), sale, 0.0, FIFO);
  }

  /** A sale at least as large as the first lot uses it up and goes on. */
  lemma FullLot(lots: seq<Lot>, sale: Tx, q: real)
    requires lots != [] && 0.0 < lots[0].quantity <= q
    ensures Consume(lots, sale, q, FIFO) ==
            After([SliceOf(lots[0], sale, lots[0].quantity)], Consume(lots[1..], sale, q - lots[0].quantity, FIFO))
  {
    hide SliceOf;
    ConsumeUnfold(lots, sale, q, FIFO);
    assert Without(lots, 0) == lots[1..];
  }

  // ---- A whole ledger on the line ---------------------------------------------------------

  lemma {:induction false} ReachAppend(buys: seq<Lot>, lot: Lot, start: real)
    ensures Reach(buys + [lot], start) == Reach(buys, start) + lot.quantity
  {
    if buys == [] {
    } else {
      assert (buys + [lot])[1..] == buys[1..] + [lot];
      ReachAppend(buys[1..], lot, start + buys[0].quantity);
    }
  }

  /** A purchase laid beyond the cut is open in full. */
  lemma {:induction false} CutAppend(buys: seq<Lot>, lot: Lot, start: real, from: real)
    requires Positive(buys) && lot.quantity > 0.0 && from <= Reach(buys, start)
    ensures Cut(buys + [lot], start, from) == Cut(buys, start, from) + [lot]
  {
    if buys == [] {
      assert (buys + [lot])[1..] == [];
    } else {
      assert (buys + [lot])[1..] == buys[1..] + [lot];
      CutAppend(buys[1..], lot, start + buys[0].quantity, from);
    }
  }

  /** A purchase laid beyond `b` is not touched by what lies before `b`. */
  lemma {:induction false} CoveredAppend(buys: seq<Lot>, lot: Lot, start: real, a: real, b: real, sale: Tx)
    requires b <= Reach(buys, start)
    ensures Covered(buys + [lot], start, a, b, sale) == Covered(buys, start, a, b, sale)
  {
    hide SliceOf;
    if buys == [] {
      assert (buys + [lot])[1..] == [];
    } else {
      assert (buys + [lot])[1..] == buys[1..] + [lot];
      CoveredAppend(buys[1..], lot, start + buys[0].quantity, a, b, sale);
    }
  }

  lemma {:induction false} LineIsBoughtAndSold(ledger: seq<Tx>, symbol: string)
    requires ValidLedger(ledger)
    ensures Positive(Buys(ledger, symbol))
    ensures Reach(Buys(ledger, symbol), 0.0) - Sold(ledger, symbol) == Signed(ledger, symbol)
    ensures Sold(ledger, symbol) >= 0.0
  {
    if ledger == [] {
    } else {
      var before := ledger[..|ledger| - 1];
      LineIsBoughtAndSold(before, symbol);
      ReachAppend(Buys(before, symbol), BuyLot(ledger[|ledger| - 1]), 0.0);
    }
  }

  /** Later purchases do not change what the earlier sales covered. */
  lemma {:induction false} LineSlicesAppend(buys: seq<Lot>, lot: Lot, ledger: seq<Tx>, symbol: string)
    requires ValidLedger(ledger) && Sold(ledger, symbol) <= Reach(buys, 0.0)
    ensures LineSlices(buys + [lot], ledger, symbol) == LineSlices(buys, ledger, symbol)
  {
    if ledger == [] {
    } else {
      var before := ledger[..|ledger| - 1];
      var tx := ledger[|ledger| - 1];
      LineSlicesAppend(buys, lot, before, symbol);
      var from := Sold(before, symbol);
      if tx.symbol == symbol && tx.action == Sell {
        CoveredAppend(buys, lot, 0.0, from, from + tx.quantity, tx);
      }
    }
  }

  // ---- Lots of nothing -----------------------------------------------------------------------

  /** The lots the report shows as open (`lot.quantity > ZERO`). */
  function Shown(lots: seq<Lot>): seq<Lot> {
    if lots == [] then []
    else (if lots[0].quantity > 0.0 then [lots[0]] else []) + Shown(lots[1..])
  }

  function ShownSlices(slices: seq<Slice>): seq<Slice> {
    if slices == [] then []
    else (if slices[0].quantity > 0.0 then [slices[0]] else []) + ShownSlices(slices[1..])
  }

  lemma {:induction false} ShownAppend(lots: seq<Lot>, lot: Lot)
    ensures Shown(lots + [lot]) == Shown(lots) + if lot.quantity > 0.0 then [lot] else []
  {
    if lots == [] {
      assert (lots + [lot])[1..] == [];
    } else {
      assert (lots + [lot])[1..] == lots[1..] + [lot];
      ShownAppend(lots[1..], lot);
    }
  }

  lemma {:induction false} ShownSlicesConcat(a: seq<Slice>, b: seq<Slice>)
    ensures ShownSlices(a + b) == ShownSlices(a) + ShownSlices(b)
  {
    if a == [] {
      assert a + b == b;
    } else {
      assert (a + b)[1..] == a[1..] + b;
      ShownSlicesConcat(a[1..], b);
    }
  }

  lemma {:induction false} PositiveLotsAreShown(lots: seq<Lot>)
    requires Positive(lots)
    ensures Shown(lots) == lots
  {
    if lots == [] {
    } else {
      PositiveLotsAreShown(lots[1..]);
      assert lots == [lots[0]] + lots[1..];
    }
  }

  lemma {:induction false} PositiveSlicesAreShown(slices: seq<Slice>)
    requires PositiveSlices(slices)
    ensures ShownSlices(slices) == slices
  {
    if slices == [] {
    } else {
      assert slices[0] in slices && forall s :: s in slices[1..] ==> s in slices;
      PositiveSlicesAreShown(slices[1..]);
      assert slices == [slices[0]] + slices[1..];
    }
  }

  /** A book as the report shows it. */
  function ShownBook(b: Book): Book {
    if b.Broken? then Broken else Book(Shown(b.lots), ShownSlices(b.slices))
  }

  lemma ShownAfter(s: Slice, c: Book)
    ensures ShownBook(After([s], c)) == After(if s.quantity > 0.0 then [s] else [], ShownBook(c))
  {
    if c.Book? {
      assert ([s] + c.slices)[1..] == c.slices;
    }
  }

  lemma ShownAfterAll(slices: seq<Slice>, c: Book)
    ensures ShownBook(After(slices, c)) == After(ShownSlices(slices), ShownBook(c))
  {
    if c.Book? {
      ShownSlicesConcat(slices, c.slices);
    }
  }

  lemma AfterNothing(b: Book)
    ensures After([], b) == b
  {
    if b.Book? {
      assert [] + b.slices == b.slices;
    }
  }

  /** A sale meets lots of nothing on its way, pops them, and realizes nothing from them. */
  lemma EmptyLotIsPopped(lots: seq<Lot>, sale: Tx, q: real)
    requires lots != [] && lots[0].quantity == 0.0 && q > 0.0
    ensures Consume(lots, sale, q, FIFO) == After([SliceOf(lots[0], sale, 0.0)], Consume(lots[1..], sale, q, FIFO))
  {
    hide SliceOf;
    ConsumeUnfold(lots, sale, q, FIFO);
    assert Without(lots, 0) == lots[1..];
  }

  lemma SliceQuantity(lot: Lot, sale: Tx, used: real)
    ensures SliceOf(lot, sale, used).quantity == used
  {
  }

  /** So a FIFO sale does the same to the lots shown as to all of them. */
  lemma {:induction false} ConsumeIgnoresEmptyLots(lots: seq<Lot>, sale: Tx, q: real)
    requires Nonneg(lots) && q >= 0.0
    ensures Consume(Shown(lots), sale, q, FIFO) == ShownBook(Consume(lots, sale, q, FIFO))
  {
    hide Consume, SliceOf, After;
    ConsumeUnfold(lots, sale, q, FIFO);
    ConsumeUnfold(Shown(lots), sale, q, FIFO);
    if q == 0.0 {
      assert ShownSlices([]) == [];
    } else if lots == [] {
    } else {
      var lot, tail := lots[0], lots[1..];
      ConsumeIgnoresEmptyLots(tail, sale, q);
      if lot.quantity == 0.0 {
        EmptyLotIsPopped(lots, sale, q);
        SliceQuantity(lot, sale, 0.0);
        ShownAfter(SliceOf(lot, sale, 0.0), Consume(tail, sale, q, FIFO));
        AfterNothing(ShownBook(Consume(tail, sale, q, FIFO)));
        assert Shown(lots) == Shown(tail);
      } else {
        assert Shown(lots) == [lot] + Shown(tail) && Shown(lots)[1..] == Shown(tail);
        if q < lot.quantity {
          LastPass(lots, sale, q);
          LastPass(Shown(lots), sale, q);
          SliceQuantity(lot, sale, q);
          OneSliceShown(lot, tail, sale, q);
        } else {
          FullLot(lots, sale, q);
          FullLot(Shown(lots), sale, q);
          SliceQuantity(lot, sale, lot.quantity);
          ConsumeIgnoresEmptyLots(tail, sale, q - lot.quantity);
          ShownAfter(SliceOf(lot, sale, lot.quantity), Consume(tail, sale, q - lot.quantity, FIFO));
        }
      }
    }
  }

  lemma OneSliceShown(lot: Lot, tail: seq<Lot>, sale: Tx, q: real)
    requires 0.0 < q < lot.quantity
    ensures ShownBook(Book([lot.(quantity := lot.quantity - q)] + tail, [SliceOf(lot, sale, q)])) ==
            Book([lot.(quantity := lot.quantity - q)] + Shown(tail), [SliceOf(lot, sale, q)])
  {
    var left, s := lot.(quantity := lot.quantity - q), SliceOf(lot, sale, q);
    assert s.quantity == q && left.quantity > 0.0;
    hide SliceOf;
    assert ([left] + tail)[0] == left && ([left] + tail)[1..] == tail;
    assert [s][0] == s && [s][1..] == [];
    assert Shown([left] + tail) == [left] + Shown(tail);
    assert ShownSlices([s]) == [s] + ShownSlices([]);
  }

  // ---- The theorem -----------------------------------------------------------------------------

  ghost predicate OnTheLine(ledger: seq<Tx>, symbol: string) {
    ShownBook(BookOf(ledger, symbol, FIFO)) ==
    Book(Cut(Buys(ledger, symbol), 0.0, Sold(ledger, symbol)), LineSlices(Buys(ledger, symbol), ledger, symbol))
  }

  lemma BuyStaysOnTheLine(before: seq<Tx>, tx: Tx)
    requires ValidLedger(before) && tx.action == Buy && tx.quantity >= 0.0
    requires OnTheLine(before, tx.symbol) && Signed(before, tx.symbol) >= 0.0
    ensures OnTheLine(before + [tx], tx.symbol)
  {
    var symbol := tx.symbol;
    var b := BookOf(before, symbol, FIFO);
    assert (before + [tx])[..|before|] == before;
    var buys, sold := Buys(before, symbol), Sold(before, symbol);
    LineIsBoughtAndSold(before, symbol);
    hide Cut, Covered, Reach, Consume;
    ShownAppend(b.lots, BuyLot(tx));
    if tx.quantity > 0.0 {
      CutAppend(buys, BuyLot(tx), 0.0, sold);
      LineSlicesAppend(buys, BuyLot(tx), before, symbol);
    } else {
      assert Shown(b.lots) + [] == Shown(b.lots);
    }
  }

  /** What a sale adds to each of the functions over the ledger. */
  lemma SaleUnfolds(before: seq<Tx>, tx: Tx, buys: seq<Lot>)
    requires tx.action == Sell && BookOf(before, tx.symbol, FIFO).Book?
    ensures var now, symbol := before + [tx], tx.symbol;
      var b, sold := BookOf(before, symbol, FIFO), Sold(before, symbol);
      && BookOf(now, symbol, FIFO) == After(b.slices, Consume(b.lots, tx, tx.quantity, FIFO))
      && Buys(now, symbol) == Buys(before, symbol) && Sold(now, symbol) == sold + tx.quantity
      && Signed(now, symbol) == Signed(before, symbol) - tx.quantity
      && LineSlices(buys, now, symbol) ==
           LineSlices(buys, before, symbol) + Covered(buys, 0.0, sold, sold + tx.quantity, tx)
  {
    hide Cut, Covered, Consume;
    assert (before + [tx])[..|before|] == before;
  }

  lemma ShownParts(b: Book)
    ensures b.Book? ==> ShownBook(b) == Book(Shown(b.lots), ShownSlices(b.slices))
  {
  }

  /** A sale on the line, whatever ledger led there. */
  lemma SaleOnTheLine(b: Book, buys: seq<Lot>, sold: real, tx: Tx, covered: seq<Slice>)
    requires Positive(buys) && tx.quantity >= 0.0 && 0.0 <= sold && sold + tx.quantity <= Reach(buys, 0.0)
    requires b.Book? && Nonneg(b.lots) && Shown(b.lots) == Cut(buys, 0.0, sold) && ShownSlices(b.slices) == covered
    ensures ShownBook(After(b.slices, Consume(b.lots, tx, tx.quantity, FIFO))) ==
            Book(Cut(buys, 0.0, sold + tx.quantity), covered + Covered(buys, 0.0, sold, sold + tx.quantity, tx))
  {
    hide Cut, Covered, Reach, Consume, Shown, ShownSlices, ShownBook, Positive, Nonneg;
    ConsumeMovesTheCut(buys, 0.0, sold, sold + tx.quantity, tx);
    assert sold + tx.quantity - sold == tx.quantity;
    ConsumeIgnoresEmptyLots(b.lots, tx, tx.quantity);
    ShownAfterAll(b.slices, Consume(b.lots, tx, tx.quantity, FIFO));
  }

  lemma SaleStaysOnTheLine(before: seq<Tx>, tx: Tx)
    requires ValidLedger(before) && tx.action == Sell && tx.quantity >= 0.0
    requires OnTheLine(before, tx.symbol) && Signed(before + [tx], tx.symbol) >= 0.0
    requires BookOf(before, tx.symbol, FIFO).Book? && Nonneg(BookOf(before, tx.symbol, FIFO).lots)
    ensures OnTheLine(before + [tx], tx.symbol)
  {
    hide Cut, Covered, Reach, Consume, BookOf, Buys, Sold, LineSlices, Signed, ValidLedger, Positive, Nonneg, ShownBook;
    var symbol := tx.symbol;
    var buys, sold := Buys(before, symbol), Sold(before, symbol);
    LineIsBoughtAndSold(before, symbol);
    SaleUnfolds(before, tx, buys);
    ShownParts(BookOf(before, symbol, FIFO));
    SaleOnTheLine(BookOf(before, symbol, FIFO), buys, sold, tx, LineSlices(buys, before, symbol));
  }

  lemma EmptyLine(symbol: string)
    ensures OnTheLine([], symbol)
  {
  }

  lemma OtherSymbolStaysOnTheLine(before: seq<Tx>, tx: Tx, symbol: string)
    requires OnTheLine(before, symbol) && tx.symbol != symbol
    ensures OnTheLine(before + [tx], symbol)
  {
    assert (before + [tx])[..|before|] == before;
  }

  /** After any ledger with no oversold prefix the open FIFO lots the report shows are the purchases cut
      to [total sold, total bought), and what it realizes is what the sales cover, slice by slice. Only
      entries stored as nothing can leave anything else in the book. */
  lemma {:induction false} FifoCutsTheLine(ledger: seq<Tx>, symbol: string)
    requires ValidLedger(ledger) && NoOversell(ledger, symbol)
    ensures BookOf(ledger, symbol, FIFO).Book? && OnTheLine(ledger, symbol)
    ensures PositiveLedger(ledger) ==>
              ShownBook(BookOf(ledger, symbol, FIFO)) == BookOf(ledger, symbol, FIFO)
  {
    hide OnTheLine, Signed, Balanced;
    LotsBalance(ledger, symbol, FIFO);
    BookIsShown(ledger, symbol);
    if ledger == [] {
      EmptyLine(symbol);
    } else {
      var before := ledger[..|ledger| - 1];
      var tx := ledger[|ledger| - 1];
      NoOversellPrefix(ledger, symbol);
      FifoCutsTheLine(before, symbol);
      LotsBalance(before, symbol, FIFO);
      assert before + [tx] == ledger && ledger[..|before|] == before && ledger[..|ledger|] == ledger;
      hide BookOf, ValidLedger;
      if tx.symbol != symbol {
        OtherSymbolStaysOnTheLine(before, tx, symbol);
      } else if tx.action == Buy {
        assert Signed(ledger[..|before|], symbol) >= 0.0;
        BuyStaysOnTheLine(before, tx);
      } else {
        assert Signed(ledger[..|ledger|], symbol) >= 0.0;
        BalancedIsNonneg(before, symbol);
        SaleStaysOnTheLine(before, tx);
      }
    }
  }

  lemma BalancedIsNonneg(ledger: seq<Tx>, symbol: string)
    requires BookOf(ledger, symbol, FIFO).Book? && Balanced(ledger, symbol, BookOf(ledger, symbol, FIFO))
    ensures Nonneg(BookOf(ledger, symbol, FIFO).lots)
  {
  }

  lemma BookIsShown(ledger: seq<Tx>, symbol: string)
    requires BookOf(ledger, symbol, FIFO).Book? && Balanced(ledger, symbol, BookOf(ledger, symbol, FIFO))
    ensures PositiveLedger(ledger) ==> ShownBook(BookOf(ledger, symbol, FIFO)) == BookOf(ledger, symbol, FIFO)
  {
    if PositiveLedger(ledger) {
      PositiveLotsAreShown(BookOf(ledger, symbol, FIFO).lots);
      PositiveSlicesAreShown(BookOf(ledger, symbol, FIFO).slices);
    }
  }
}
