/** The tax-lot engine (app/services/tax_lot_service.py): FIFO and LIFO consumption of lots that
    shrink and go in place, and the yearly report over a whole ledger. */
module TaxLots {
  import opened Money
  import opened Portfolio

  datatype Method = FIFO | LIFO

  datatype Term = Short | Long

  datatype Lot = Lot(symbol: string, acquired: Stamp, quantity: real, cost: real)

  /** One realized slice; `cost` and `proceeds` are the unrounded totals. */
  datatype Slice = Slice(symbol: string, acquired: Stamp, sold: Stamp, quantity: real, cost: real, proceeds: real)

  /** A sale that meets an empty lot list indexes past its end. */
  datatype Fault = IndexError

  function SliceOf(lot: Lot, sale: Tx, used: real): Slice {
    Slice(sale.symbol, lot.acquired, sale.at, used, used * lot.cost, used * sale.price)
  }

  function TermOf(s: Slice): Term {
    if s.sold.day - s.acquired.day > 365 then Long else Short
  }

  function Gain1(s: Slice): real {
    s.proceeds - s.cost
  }

  /** The gain as the report lists it, rounded slice by slice. */
  function Listed(s: Slice): real {
    Round2(Gain1(s))
  }

  // ---- Consuming one sale ------------------------------------------------------

  /** Lots left and slices realized, or the fault. */
  datatype Book = Book(lots: seq<Lot>, slices: seq<Slice>) | Broken

  function Head(lots: seq<Lot>, how: Method): nat
    requires lots != []
  {
    if how == FIFO then 0 else |lots| - 1
  }

  function Without(lots: seq<Lot>, i: nat): seq<Lot>
    requires i < |lots|
  {
    lots[..i] + lots[i + 1..]
  }

  function After(slices: seq<Slice>, b: Book): Book {
    if b.Broken? then Broken else Book(b.lots, slices + b.slices)
  }

  /** The units one pass takes from the lot the method picks. */
  function Used(lots: seq<Lot>, remaining: real, how: Method): real
    requires lots != []
  {
    Min(remaining, lots[Head(lots, how)].quantity)
  }

  /** The lot list after one pass: the picked lot shrunk, or popped at zero. */
  function Shrunk(lots: seq<Lot>, used: real, how: Method): seq<Lot>
    requires lots != []
  {
    var i := Head(lots, how);
    var left := lots[i].quantity - used;
    if left == 0.0 then Without(lots, i) else lots[i := lots[i].(quantity := left)]
  }

  /** Consuming a sale; each pass finishes the sale or removes a lot. */
  function Consume(lots: seq<Lot>, sale: Tx, remaining: real, how: Method): Book
    decreases if remaining <= 0.0 then 0 else |lots| + 1
  {
    if remaining <= 0.0 then Book(lots, [])
    else if lots == [] then Broken
    else
      var used := Used(lots, remaining, how);
      After([SliceOf(lots[Head(lots, how)], sale, used)],
            Consume(Shrunk(lots, used, how), sale, remaining - used, how))
  }

  function InYear(slices: seq<Slice>, year: int): seq<Slice> {
    if slices == [] then []
    else
      var rest := InYear(slices[..|slices| - 1], year);
      var s := slices[|slices| - 1];
      if s.sold.year == year then rest + [s] else rest
  }

  lemma {:induction false} InYearAppend(a: seq<Slice>, b: seq<Slice>, year: int)
    ensures InYear(a + b, year) == InYear(a, year) + InYear(b, year)
  {
    if b == [] {
      assert a + b == a;
    } else {
      var n := |b| - 1;
      InYearAppend(a, b[..n], year);
      assert (a + b)[..|a + b| - 1] == a + b[..n];
    }
  }

  // ---- Replaying a ledger --------------------------------------------------------

  function BuyLot(tx: Tx): Lot {
    Lot(tx.symbol, tx.at, tx.quantity, tx.price)
  }

  function StepBook(b: Book, tx: Tx, how: Method): Book {
    if b.Broken? then Broken
    else if tx.action == Buy then Book(b.lots + [BuyLot(tx)], b.slices)
    else After(b.slices, Consume(b.lots, tx, tx.quantity, how))
  }

  /** One symbol's lots and slices after a whole ledger; other symbols do not touch it. */
  function BookOf(ledger: seq<Tx>, symbol: string, how: Method): Book {
    if ledger == [] then Book([], [])
    else
      var before := BookOf(ledger[..|ledger| - 1], symbol, how);
      var tx := ledger[|ledger| - 1];
      if tx.symbol == symbol then StepBook(before, tx, how) else before
  }

  /** Slices of one transaction against the lots the ledger before it left. */
  function SlicesOf(before: seq<Tx>, tx: Tx, how: Method): seq<Slice> {
    var b := BookOf(before, tx.symbol, how);
    if tx.action == Buy || b.Broken? then []
    else
      var c := Consume(b.lots, tx, tx.quantity, how);
      if c.Broken? then [] else c.slices
  }

  /** The realized list of every year, in ledger order, all symbols together. */
  function AllSlices(ledger: seq<Tx>, how: Method): seq<Slice> {
    if ledger == [] then []
    else
      var before := ledger[..|ledger| - 1];
      AllSlices(before, how) + SlicesOf(before, ledger[|ledger| - 1], how)
  }

  /** Some sale found its symbol's lots exhausted. */
  ghost predicate Faulty(ledger: seq<Tx>, how: Method) {
    exists s :: s in Symbols(ledger) && BookOf(ledger, s, how).Broken?
  }

  /** A report total: the listed gains of one term. */
  function GainOf(slices: seq<Slice>, term: Term): real {
    if slices == [] then 0.0
    else
      GainOf(slices[..|slices| - 1], term) +
      if TermOf(slices[|slices| - 1]) == term then Listed(slices[|slices| - 1]) else 0.0
  }

  /** What a slice adds to the long-term total: its listed gain, if it was held for at least 366 days. */
  function LongGain(s: Slice): real {
    if s.sold.day >= s.acquired.day + 366 then Listed(s) else 0.0
  }

  /** And to the short-term total: its listed gain, if it was held for at most 365. */
  function ShortGain(s: Slice): real {
    if s.sold.day <= s.acquired.day + 365 then Listed(s) else 0.0
  }

  /** The totals by term are the totals by days. */
  lemma {:induction false} TermsGoByDays(slices: seq<Slice>)
    ensures GainOf(slices, Short) == Total(slices, ShortGain)
    ensures GainOf(slices, Long) == Total(slices, LongGain)
  {
    if slices == [] {
    } else {
      TermsGoByDays(slices[..|slices| - 1]);
    }
  }

  /** Totals are whole cents already, so rounding them once more changes nothing. */
  lemma {:induction false} TotalsAreCents(slices: seq<Slice>, term: Term)
    ensures Cents(GainOf(slices, term))
  {
    if slices == [] {
    } else {
      TotalsAreCents(slices[..|slices| - 1], term);
      Round2Error(Gain1(slices[|slices| - 1]));
      CentsAdd(GainOf(slices[..|slices| - 1], term), Listed(slices[|slices| - 1]));
    }
  }

  /** The report object: lots per symbol and the realized list of one year, updated in place. */
  class TaxLotReport {
    const how: Method
    const year: int
    var lots: map<string, seq<Lot>>
    var realized: seq<Slice>

    constructor (how: Method, year: int)
      ensures this.how == how && this.year == year && lots == map[] && realized == []
    {
      this.how, this.year := how, year;
      lots, realized := map[], [];
    }

    /** `_consume`: shrinks the chosen lot, pops it at zero, appends this year's slices. */
    method ConsumeSale(sale: Tx) returns (r: Result<(), Fault>)
      requires sale.symbol in lots
      modifies this
      ensures var c := Consume(old(lots)[sale.symbol], sale, sale.quantity, how);
              && (r.Err? <==> c.Broken?)
              && (r.Ok? ==> lots == old(lots)[sale.symbol := c.lots])
              && (r.Ok? ==> realized == old(realized) + InYear(c.slices, year))
    {
      hide SliceOf, InYear, Consume;
      var remaining := sale.quantity;
      var mine := lots[sale.symbol];
      ghost var target := Consume(mine, sale, remaining, how);
      ghost var done: seq<Slice> := [];
      InYearNone(year);
      ConsumeUnfold(mine, sale, remaining, how);
      while remaining > 0.0
        invariant lots == old(lots)[sale.symbol := mine]
        invariant target == After(done, Consume(mine, sale, remaining, how))
        invariant realized == old(realized) + InYear(done, year)
        decreases if remaining <= 0.0 then 0 else |mine| + 1
      {
        ConsumeUnfold(mine, sale, remaining, how);
        if mine == [] {
          return Err(IndexError);
        }
        var i := Head(mine, how);
        var used := Min(remaining, mine[i].quantity);
        var slice := SliceOf(mine[i], sale, used);
        if sale.at.year == year {
          realized := realized + [slice];
        }
        InYearOne(done, mine[i], sale, used, year);
        AfterTwice(done, [slice], Consume(Shrunk(mine, used, how), sale, remaining - used, how));
        done := done + [slice];
        ghost var expected := Shrunk(mine, used, how);
        mine := mine[i := mine[i].(quantity := mine[i].quantity - used)];
        remaining := remaining - used;
        if mine[i].quantity == 0.0 {
          mine := Without(mine, i);
        }
        assert mine == expected;
        lots := lots[sale.symbol := mine];
      }
      ConsumeUnfold(mine, sale, remaining, how);
      assert done + [] == done;
      r := Ok(());
    }

    /** The object holds what the ledger so far determines. */
    ghost predicate Matches(ledger: seq<Tx>)
      reads this
    {
      && lots.Keys == Symbols(ledger)
      && (forall s :: s in lots ==> BookOf(ledger, s, how).Book? && lots[s] == BookOf(ledger, s, how).lots)
      && realized == InYear(AllSlices(ledger, how), year)
    }

    /** One turn of the report's loop. */
    method Replay(ghost before: seq<Tx>, tx: Tx) returns (r: Result<(), Fault>)
      requires Matches(before)
      modifies this
      ensures r.Err? <==> BookOf(before + [tx], tx.symbol, how).Broken?
      ensures r.Ok? ==> Matches(before + [tx])
    {
      hide Consume, InYear, BookOf, AllSlices;
      ghost var now := before + [tx];
      LedgerGrows(before, tx, how, year);
      if tx.symbol !in lots {
        lots := lots[tx.symbol := []];
      }
      if tx.action == Buy {
        lots := lots[tx.symbol := lots[tx.symbol] + [BuyLot(tx)]];
        r := Ok(());
      } else {
        r := ConsumeSale(tx);
      }
    }

    /** `report`: replays the user's ledger; a fault aborts the whole report. */
    method Run(ledger: seq<Tx>) returns (r: Result<(real, real), Fault>)
      requires lots == map[] && realized == []
      modifies this
      ensures r.Err? <==> Faulty(ledger, how)
      ensures r.Ok? ==> Matches(ledger) && r.value == (GainOf(realized, Short), GainOf(realized, Long))
      ensures r.Ok? ==> r.value == (Total(realized, ShortGain), Total(realized, LongGain))
    {
      for n := 0 to |ledger|
        invariant Matches(ledger[..n])
      {
        assert ledger[..n + 1] == ledger[..n] + [ledger[n]];
        var fault := Replay(ledger[..n], ledger[n]);
        if fault.Err? {
          BrokenStays(ledger, n + 1, ledger[n].symbol, how);
          return Err(IndexError);
        }
      }
      assert ledger[..|ledger|] == ledger;
      var short, long := Totals();
      TermsGoByDays(realized);
      TotalsAreCents(realized, Short);
      TotalsAreCents(realized, Long);
      Round2OfCents(short);
      Round2OfCents(long);
      r := Ok((Round2(short), Round2(long)));
    }

    /** The report's two totals. */
    method Totals() returns (short: real, long: real)
      ensures short == GainOf(realized, Short) && long == GainOf(realized, Long)
    {
      short, long := 0.0, 0.0;
      for k := 0 to |realized|
        invariant short == GainOf(realized[..k], Short) && long == GainOf(realized[..k], Long)
      {
        assert realized[..k + 1][..k] == realized[..k];
        if TermOf(realized[k]) == Short {
          short := short + Listed(realized[k]);
        } else {
          long := long + Listed(realized[k]);
        }
      }
      assert realized[..|realized|] == realized;
    }
  }

  /** How one more transaction changes the functions the report computes. */
  lemma LedgerGrows(before: seq<Tx>, tx: Tx, how: Method, year: int)
    ensures var now := before + [tx];
      && Symbols(now) == Symbols(before) + {tx.symbol}
      && (tx.symbol !in Symbols(before) ==> BookOf(before, tx.symbol, how) == Book([], []))
      && BookOf(now, tx.symbol, how) == StepBook(BookOf(before, tx.symbol, how), tx, how)
      && (forall s :: s != tx.symbol ==> BookOf(now, s, how) == BookOf(before, s, how))
      && InYear(AllSlices(now, how), year) ==
         InYear(AllSlices(before, how), year) + InYear(SlicesOf(before, tx, how), year)
      && InYear([], year) == []
  {
    hide Consume;
    var now := before + [tx];
    assert now[..|before|] == before && now[..|now|] == now;
    SymbolsGrow(now, |before|);
    BookOfAbsent(before, tx.symbol, how);
    InYearAppend(AllSlices(before, how), SlicesOf(before, tx, how), year);
  }

  lemma ConsumeUnfold(lots: seq<Lot>, sale: Tx, remaining: real, how: Method)
    ensures remaining <= 0.0 ==> Consume(lots, sale, remaining, how) == Book(lots, [])
    ensures remaining > 0.0 && lots == [] ==> Consume(lots, sale, remaining, how) == Broken
    ensures remaining > 0.0 && lots != [] ==>
      var used := Used(lots, remaining, how);
      Consume(lots, sale, remaining, how) ==
      After([SliceOf(lots[Head(lots, how)], sale, used)],
            Consume(Shrunk(lots, used, how), sale, remaining - used, how))
    ensures forall b: Book :: After([], b) == b
  {
    hide SliceOf;
    assert forall s: seq<Slice> :: [] + s == s;
  }

  lemma InYearNone(year: int)
    ensures InYear([], year) == []
  {
  }

  lemma InYearOne(done: seq<Slice>, lot: Lot, sale: Tx, used: real, year: int)
    ensures InYear(done + [SliceOf(lot, sale, used)], year) ==
            InYear(done, year) + if sale.at.year == year then [SliceOf(lot, sale, used)] else []
  {
    var s := SliceOf(lot, sale, used);
    assert (done + [s])[..|done|] == done;
    assert s.sold == sale.at;
  }

  lemma AfterTwice(a: seq<Slice>, b: seq<Slice>, c: Book)
    ensures After(a, After(b, c)) == After(a + b, c)
  {
    if c.Book? {
      assert a + (b + c.slices) == a + b + c.slices;
    }
  }

  lemma BookOfAbsent(ledger: seq<Tx>, symbol: string, how: Method)
    ensures symbol !in Symbols(ledger) ==> BookOf(ledger, symbol, how) == Book([], [])
  {
    if ledger == [] || symbol in Symbols(ledger) {
    } else {
      var n := |ledger| - 1;
      assert ledger[..n + 1] == ledger;
      SymbolsGrow(ledger, n);
      BookOfAbsent(ledger[..n], symbol, how);
    }
  }

  lemma {:induction false} BrokenStays(ledger: seq<Tx>, n: nat, symbol: string, how: Method)
    requires n <= |ledger| && BookOf(ledger[..n], symbol, how).Broken?
    ensures BookOf(ledger, symbol, how).Broken?
    decreases |ledger|
  {
    if n < |ledger| {
      var before := ledger[..|ledger| - 1];
      assert before[..n] == ledger[..n];
      BrokenStays(before, n, symbol, how);
    } else {
      assert ledger[..n] == ledger;
    }
  }
}
