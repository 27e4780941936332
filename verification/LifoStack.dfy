/** LIFO against an independent definition: pile the open lots on a stack, oldest at the bottom. A sale
    takes the pile down to what is left of its height, and realizes what lay above, top first
    (app/services/tax_lot_service.py). */
module LifoStack {
  import opened Money
  import opened Portfolio
  import opened TaxLots
  import opened LotLaws
  import opened FifoLine

  function Height(lots: seq<Lot>): real {
    Total(lots, LotQty)
  }

  /** The part of the pile below a height. */
  function Below(lots: seq<Lot>, h: real): seq<Lot> {
    if lots == [] then []
    else
      var under, top := lots[..|lots| - 1], lots[|lots| - 1];
      if Height(under) + top.quantity <= h then lots
      else if Height(under) < h then under + [top.(quantity := h - Height(under))]
      else Below(under, h)
  }

  /** What lies above it, top first, as `sale` realizes it. */
  function Above(lots: seq<Lot>, h: real, sale: Tx): seq<Slice> {
    if lots == [] then []
    else
      var under, top := lots[..|lots| - 1], lots[|lots| - 1];
      if Height(under) + top.quantity <= h then []
      else if Height(under) < h then [SliceOf(top, sale, Height(under) + top.quantity - h)]
      else [SliceOf(top, sale, top.quantity)] + Above(under, h, sale)
  }

  lemma NothingSold(lots: seq<Lot>, sale: Tx)
    ensures Below(lots, Height(lots)) == lots && Above(lots, Height(lots), sale) == []
    ensures Consume(lots, sale, 0.0, LIFO) == Book(lots, [])
  {
    ConsumeUnfold(lots, sale, 0.0, LIFO);
  }

  /** A sale smaller than the newest lot ends there. */
  lemma TopLotIsCut(under: seq<Lot>, top: Lot, sale: Tx, q: real)
    requires 0.0 < q < top.quantity
    ensures Consume(under + [top], sale, q, LIFO) ==
            Book(under + [top.(quantity := top.quantity - q)], [SliceOf(top, sale, q)])
  {
    hide SliceOf;
    var lots := under + [top];
    ConsumeUnfold(lots, sale, q, LIFO);
    assert Shrunk(lots, q, LIFO) == under + [top.(quantity := top.quantity - q)];
    ConsumeUnfold(Shrunk(lots, q, LIFO), sale, 0.0, LIFO);
  }

  /** A sale at least as large as the newest lot uses it up and goes on below. */
  lemma TopLotIsTaken(under: seq<Lot>, top: Lot, sale: Tx, q: real)
    requires 0.0 <= top.quantity <= q && q > 0.0
    ensures Consume(under + [top], sale, q, LIFO) ==
            After([SliceOf(top, sale, top.quantity)], Consume(under, sale, q - top.quantity, LIFO))
  {
    hide SliceOf;
    var lots := under + [top];
    ConsumeUnfold(lots, sale, q, LIFO);
    assert Without(lots, |under|) == under;
  }

  /** A LIFO sale takes the pile down by its quantity. */
  lemma {:induction false} ConsumeTakesTheTop(lots: seq<Lot>, sale: Tx, q: real)
    requires Positive(lots) && 0.0 <= q <= Height(lots)
    ensures Consume(lots, sale, q, LIFO) == Book(Below(lots, Height(lots) - q), Above(lots, Height(lots) - q, sale))
  {
    hide Consume, SliceOf;
    if lots == [] || q == 0.0 {
      NothingSold(lots, sale);
    } else {
      var under, top := lots[..|lots| - 1], lots[|lots| - 1];
      assert lots == under + [top] && Height(lots) == Height(under) + top.quantity;
      if q < top.quantity {
        TopLotIsCut(under, top, sale, q);
      } else {
        TopLotIsTaken(under, top, sale, q);
        ConsumeTakesTheTop(under, sale, q - top.quantity);
        assert Height(under) - (q - top.quantity) == Height(lots) - q;
      }
    }
  }

  // ---- Lots of nothing -------------------------------------------------------------------------

  lemma HeightGrows(under: seq<Lot>, top: Lot)
    ensures Height(under + [top]) == Height(under) + top.quantity
  {
    TotalConcat(under, [top], LotQty);
    TotalOne(top, LotQty);
  }

  lemma ShownNothingHasNoHeight()
    ensures Shown([]) == [] && Height([]) == 0.0
  {
  }

  lemma {:induction false} ShownHeight(lots: seq<Lot>)
    requires Nonneg(lots)
    ensures Height(Shown(lots)) == Height(lots) && Positive(Shown(lots))
  {
    hide Shown, Height;
    ShownNothingHasNoHeight();
    if lots == [] {
    } else {
      var under, top := lots[..|lots| - 1], lots[|lots| - 1];
      ShownHeight(under);
      assert lots == under + [top];
      ShownAppend(under, top);
      HeightGrows(under, top);
      if top.quantity > 0.0 {
        HeightGrows(Shown(under), top);
      } else {
        assert Shown(under) + [] == Shown(under);
      }
    }
  }

  lemma OneShown(s: Slice)
    ensures ShownSlices([s]) == if s.quantity > 0.0 then [s] else []
  {
    assert [s][1..] == [];
  }

  /** A sale that ends in the newest lot, with and without lots of nothing below. */
  lemma CutIsShown(under: seq<Lot>, top: Lot, sale: Tx, q: real)
    requires 0.0 < q < top.quantity
    ensures Consume(Shown(under) + [top], sale, q, LIFO) == ShownBook(Consume(under + [top], sale, q, LIFO))
  {
    hide Consume, SliceOf, Shown, ShownSlices;
    TopLotIsCut(under, top, sale, q);
    TopLotIsCut(Shown(under), top, sale, q);
    SliceQuantity(top, sale, q);
    OneShown(SliceOf(top, sale, q));
    ShownAppend(under, top.(quantity := top.quantity - q));
  }

  /** A sale that uses the newest lot up. */
  lemma TakenIsShown(under: seq<Lot>, top: Lot, sale: Tx, q: real)
    requires 0.0 < top.quantity <= q
    requires Consume(Shown(under), sale, q - top.quantity, LIFO) ==
             ShownBook(Consume(under, sale, q - top.quantity, LIFO))
    ensures Consume(Shown(under) + [top], sale, q, LIFO) == ShownBook(Consume(under + [top], sale, q, LIFO))
  {
    hide Consume, SliceOf, Shown, ShownSlices, ShownBook, After;
    TopLotIsTaken(under, top, sale, q);
    TopLotIsTaken(Shown(under), top, sale, q);
    SliceQuantity(top, sale, top.quantity);
    ShownAfter(SliceOf(top, sale, top.quantity), Consume(under, sale, q - top.quantity, LIFO));
  }

  /** A newest lot of nothing is popped on the way. */
  lemma NothingIsTaken(under: seq<Lot>, top: Lot, sale: Tx, q: real)
    requires top.quantity == 0.0 && q > 0.0
    requires Consume(Shown(under), sale, q, LIFO) == ShownBook(Consume(under, sale, q, LIFO))
    ensures Consume(Shown(under), sale, q, LIFO) == ShownBook(Consume(under + [top], sale, q, LIFO))
  {
    hide Consume, SliceOf, Shown, ShownSlices, ShownBook, After;
    TopLotIsTaken(under, top, sale, q);
    SliceQuantity(top, sale, top.quantity);
    assert q - top.quantity == q;
    ShownAfter(SliceOf(top, sale, top.quantity), Consume(under, sale, q, LIFO));
    AfterNothing(ShownBook(Consume(under, sale, q, LIFO)));
  }

  /** A LIFO sale, too, does the same to the lots shown as to all of them. */
  lemma {:induction false} NewestFirstIgnoresEmptyLots(lots: seq<Lot>, sale: Tx, q: real)
    requires Nonneg(lots) && q >= 0.0
    ensures Consume(Shown(lots), sale, q, LIFO) == ShownBook(Consume(lots, sale, q, LIFO))
  {
    hide Consume, SliceOf, After, Shown;
    if lots == [] || q == 0.0 {
      ConsumeUnfold(lots, sale, q, LIFO);
      ConsumeUnfold(Shown(lots), sale, q, LIFO);
      ShownNothingHasNoHeight();
    } else {
      hide ShownBook;
      var under, top := lots[..|lots| - 1], lots[|lots| - 1];
      assert lots == under + [top];
      ShownAppend(under, top);
      if q < top.quantity {
        CutIsShown(under, top, sale, q);
      } else {
        NewestFirstIgnoresEmptyLots(under, sale, q - top.quantity);
        if top.quantity > 0.0 {
          TakenIsShown(under, top, sale, q);
        } else {
          assert Shown(under) + [] == Shown(under);
          NothingIsTaken(under, top, sale, q);
        }
      }
    }
  }

  // ---- A whole ledger ----------------------------------------------------------------------------

  /** After any ledger, a LIFO sale that does not oversell takes the lots shown down by its quantity, newest
      first, and realizes what lay above. */
  lemma LifoTakesTheNewest(before: seq<Tx>, tx: Tx)
    requires ValidLedger(before) && NoOversell(before, tx.symbol) && tx.action == Sell
    requires 0.0 <= tx.quantity <= Signed(before, tx.symbol)
    ensures BookOf(before, tx.symbol, LIFO).Book?
    ensures var b := BookOf(before, tx.symbol, LIFO);
      var h := Height(Shown(b.lots)) - tx.quantity;
      ShownBook(BookOf(before + [tx], tx.symbol, LIFO)) ==
      Book(Below(Shown(b.lots), h), ShownSlices(b.slices) + Above(Shown(b.lots), h, tx))
  {
    hide Consume, Below, Above, Signed, Shown, ShownSlices;
    LotsBalance(before, tx.symbol, LIFO);
    var b := BookOf(before, tx.symbol, LIFO);
    ShownHeight(b.lots);
    NewestFirstIgnoresEmptyLots(b.lots, tx, tx.quantity);
    ConsumeTakesTheTop(Shown(b.lots), tx, tx.quantity);
    assert (before + [tx])[..|before|] == before;
    ShownAfterAll(b.slices, Consume(b.lots, tx, tx.quantity, LIFO));
  }
}
