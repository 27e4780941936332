/** The append-only transaction ledger and its average-cost reconstruction
    (app/services/portfolio_service.py). */
module Portfolio {
  import opened Money
  import opened Text

  datatype Action = Buy | Sell

  /** A calendar stamp: the day number decides the holding period, the year the report. */
  datatype Stamp = Stamp(day: int, year: int)

  datatype Tx = Tx(user: nat, symbol: string, action: Action, quantity: real, price: real, at: Stamp)

  /** One entry of the per-symbol state dictionary. */
  datatype Slot = Slot(qty: real, avg: real, realized: real)

  const EMPTY_SLOT := Slot(0.0, 0.0, 0.0)

  function Signed1(tx: Tx): real {
    if tx.action == Buy then tx.quantity else -tx.quantity
  }

  // ---- Average cost --------------------------------------------------------

  /** What `_apply_transaction` does to one symbol's entry. */
  function Apply(s: Slot, action: Action, quantity: real, price: real): Slot {
    if action == Buy then
      var total := s.qty * s.avg + quantity * price;
      var qty := s.qty + quantity;
      Slot(qty, if qty != 0.0 then total / qty else 0.0, s.realized)
    else
      var sold := Min(quantity, s.qty);
      var realized := s.realized + (price - s.avg) * sold;
      var qty := s.qty - sold;
      if qty <= 0.0 then Slot(0.0, 0.0, realized) else Slot(qty, s.avg, realized)
  }

  /** One symbol's entry after replaying a whole ledger; other symbols do not touch it. */
  function SlotOf(ledger: seq<Tx>, symbol: string): Slot {
    if ledger == [] then EMPTY_SLOT
    else
      var before := SlotOf(ledger[..|ledger| - 1], symbol);
      var tx := ledger[|ledger| - 1];
      if tx.symbol == symbol then Apply(before, tx.action, tx.quantity, tx.price) else before
  }

  ghost function Symbols(ledger: seq<Tx>): set<string> {
    set i | 0 <= i < |ledger| :: ledger[i].symbol
  }

  /** The dictionary the replay fills in, one in-place update per transaction. */
  class Holdings {
    var state: map<string, Slot>

    constructor ()
      ensures state == map[]
    {
      state := map[];
    }

    method ApplyTransaction(symbol: string, action: Action, quantity: real, price: real)
      modifies this
      ensures var before := if symbol in old(state) then old(state)[symbol] else EMPTY_SLOT;
              state == old(state)[symbol := Apply(before, action, quantity, price)]
    {
      if symbol !in state {
        state := state[symbol := EMPTY_SLOT];
      }
      var s := state[symbol];
      ghost var before := s;
      if action == Buy {
        var totalCost := s.qty * s.avg + quantity * price;
        s := s.(qty := s.qty + quantity);
        s := s.(avg := if s.qty != 0.0 then totalCost / s.qty else 0.0);
      } else {
        var sold := Min(quantity, s.qty);
        s := s.(realized := s.realized + (price - s.avg) * sold);
        s := s.(qty := s.qty - sold);
        if s.qty <= 0.0 {
          s := s.(qty := 0.0, avg := 0.0);
        }
      }
      assert s == Apply(before, action, quantity, price);
      state := state[symbol := s];
      assert state == old(state)[symbol := s];
    }
  }

  /** The ledger as one user sees it, oldest first. */
  function ForUser(ledger: seq<Tx>, user: nat): seq<Tx> {
    if ledger == [] then []
    else
      var rest := ForUser(ledger[..|ledger| - 1], user);
      var tx := ledger[|ledger| - 1];
      if tx.user == user then rest + [tx] else rest
  }

  lemma SlotOfAbsent(ledger: seq<Tx>, symbol: string)
    requires symbol !in Symbols(ledger)
    ensures SlotOf(ledger, symbol) == EMPTY_SLOT
  {
    if ledger == [] {
    } else {
      var last := |ledger| - 1;
      assert ledger[last].symbol in Symbols(ledger);
      forall s | s in Symbols(ledger[..last]) ensures s in Symbols(ledger) {
        var i :| 0 <= i < last && ledger[..last][i].symbol == s;
        assert ledger[i].symbol == s;
      }
      SlotOfAbsent(ledger[..last], symbol);
    }
  }

  datatype Rejection = InsufficientHolding

  /** A manual entry as the client asks for it. */
  datatype Request = Request(user: nat, symbol: string, action: Action, quantity: real, price: real, at: Stamp)

  /** The stored row: cleaned symbol, amounts at the column's 8 places. */
  function EntryOf(q: Request): Tx {
    Tx(q.user, Ticker(q.symbol), q.action, Stored(q.quantity), Stored(q.price), q.at)
  }

  /** The sale guard: what is asked for against the 8-place holding. */
  predicate Admits(ledger: seq<Tx>, q: Request) {
    q.action == Sell ==> q.quantity <= Round8(SlotOf(ForUser(ledger, q.user), Ticker(q.symbol)).qty)
  }

  function Recorded(ledger: seq<Tx>, q: Request): seq<Tx> {
    if Admits(ledger, q) then ledger + [EntryOf(q)] else ledger
  }

  /** The ledger a whole run of requests leaves behind. */
  function RecordAll(requests: seq<Request>): seq<Tx> {
    if requests == [] then []
    else Recorded(RecordAll(requests[..|requests| - 1]), requests[|requests| - 1])
  }

  class PortfolioService {
    var ledger: seq<Tx>

    constructor ()
      ensures ledger == []
    {
      ledger := [];
    }

    /** Replays the user's ledger through the mutable dictionary. */
    method ReconstructHoldings(user: nat) returns (state: map<string, Slot>)
      ensures state.Keys == Symbols(ForUser(ledger, user))
      ensures forall s :: s in state ==> state[s] == SlotOf(ForUser(ledger, user), s)
    {
      var txs := ForUser(ledger, user);
      var h := new Holdings();
      for i := 0 to |txs|
        invariant fresh(h)
        invariant h.state.Keys == Symbols(txs[..i])
        invariant forall s :: s in h.state ==> h.state[s] == SlotOf(txs[..i], s)
      {
        assert txs[..i + 1][..i] == txs[..i];
        if txs[i].symbol !in h.state {
          SlotOfAbsent(txs[..i], txs[i].symbol);
        }
        SymbolsGrow(txs, i);
        h.ApplyTransaction(txs[i].symbol, txs[i].action, txs[i].quantity, txs[i].price);
      }
      assert txs[..|txs|] == txs;
      state := h.state;
    }

    /** Appends a manual entry, as the column gives it back; a sale is refused when it exceeds the 8-place
        holding. */
    method RecordTransaction(q: Request) returns (r: Result<Tx, Rejection>)
      modifies this
      ensures r.Err? <==> !Admits(old(ledger), q)
      ensures ledger == Recorded(old(ledger), q)
      ensures r.Ok? ==> r.value == EntryOf(q) && ledger == old(ledger) + [r.value]
    {
      hide Stored;
      var symbol := Ticker(q.symbol);
      if q.action == Sell {
        var holdings := ReconstructHoldings(q.user);
        var held := if symbol in holdings then Round8(holdings[symbol].qty) else 0.0;
        if symbol !in holdings {
          SlotOfAbsent(ForUser(ledger, q.user), symbol);
          Round8OnGrid(0.0);
        }
        if q.quantity > held {
          return Err(InsufficientHolding);
        }
      }
      var tx := Tx(q.user, symbol, q.action, Stored(q.quantity), Stored(q.price), q.at);
      ledger := ledger + [tx];
      r := Ok(tx);
    }
  }

  lemma SymbolsGrow(txs: seq<Tx>, i: nat)
    requires i < |txs|
    ensures Symbols(txs[..i + 1]) == Symbols(txs[..i]) + {txs[i].symbol}
  {
    var shorter, longer := txs[..i], txs[..i + 1];
    forall s | s in Symbols(shorter) ensures s in Symbols(longer) {
      var j :| 0 <= j < i && shorter[j].symbol == s;
      assert longer[j].symbol == s;
    }
    assert longer[i].symbol == txs[i].symbol;
    forall s | s in Symbols(longer) ensures s in Symbols(shorter) + {txs[i].symbol} {
      var j :| 0 <= j < i + 1 && longer[j].symbol == s;
      if j < i {
        assert shorter[j].symbol == s;
      }
    }
  }

  // ---- Reference quantities over a ledger ---------------------------------------

  /** Quantities are asked for above zero; stored at 8 places they may come back as zero. */
  ghost predicate ValidLedger(ledger: seq<Tx>) {
    forall i :: 0 <= i < |ledger| ==> ledger[i].quantity >= 0.0
  }

  /** S_n: bought minus sold, with no clamp. */
  ghost function Signed(ledger: seq<Tx>, symbol: string): real {
    if ledger == [] then 0.0
    else
      var tx := ledger[|ledger| - 1];
      Signed(ledger[..|ledger| - 1], symbol) + (if tx.symbol == symbol then Signed1(tx) else 0.0)
  }

  /** The least of S_0 .. S_n (S_0 = 0). */
  ghost function LowWater(ledger: seq<Tx>, symbol: string): real {
    if ledger == [] then 0.0
    else Min(LowWater(ledger[..|ledger| - 1], symbol), Signed(ledger, symbol))
  }

  /** No prefix sells more than it bought. */
  ghost predicate NoOversell(ledger: seq<Tx>, symbol: string) {
    forall k :: 0 <= k <= |ledger| ==> Signed(ledger[..k], symbol) >= 0.0
  }

  /** Units asked for by sales but not held when they replayed. */
  ghost function Dropped(ledger: seq<Tx>, symbol: string): real {
    if ledger == [] then 0.0
    else
      var before := ledger[..|ledger| - 1];
      var tx := ledger[|ledger| - 1];
      Dropped(before, symbol) +
      if tx.symbol == symbol && tx.action == Sell
      then tx.quantity - Min(tx.quantity, SlotOf(before, symbol).qty) else 0.0
  }

  /** Face value of an entry. */
  ghost function Paid(tx: Tx): real {
    tx.quantity * tx.price
  }

  /** Proceeds of the units a sale finds held. */
  ghost function Received(tx: Tx, held: real): real {
    Min(tx.quantity, held) * tx.price
  }

  ghost function Purchases(ledger: seq<Tx>, symbol: string): real {
    if ledger == [] then 0.0
    else
      var tx := ledger[|ledger| - 1];
      Purchases(ledger[..|ledger| - 1], symbol) +
      if tx.symbol == symbol && tx.action == Buy then Paid(tx) else 0.0
  }

  /** Money received for the units a sale really matched. */
  ghost function MatchedProceeds(ledger: seq<Tx>, symbol: string): real {
    if ledger == [] then 0.0
    else
      var before := ledger[..|ledger| - 1];
      var tx := ledger[|ledger| - 1];
      MatchedProceeds(before, symbol) +
      if tx.symbol == symbol && tx.action == Sell then Received(tx, SlotOf(before, symbol).qty) else 0.0
  }

  ghost function SaleProceeds(ledger: seq<Tx>, symbol: string): real {
    if ledger == [] then 0.0
    else
      var tx := ledger[|ledger| - 1];
      SaleProceeds(ledger[..|ledger| - 1], symbol) +
      if tx.symbol == symbol && tx.action == Sell then Paid(tx) else 0.0
  }

  // ---- Laws ----------------------------------------------------------------------

  /** LowWater really is the minimum of the prefix sums. */
  lemma {:induction false} LowWaterIsMinimum(ledger: seq<Tx>, symbol: string)
    ensures forall k :: 0 <= k <= |ledger| ==> LowWater(ledger, symbol) <= Signed(ledger[..k], symbol)
    ensures exists k :: 0 <= k <= |ledger| && LowWater(ledger, symbol) == Signed(ledger[..k], symbol)
  {
    assert ledger[..|ledger|] == ledger;
    if ledger == [] {
      assert Signed(ledger[..0], symbol) == 0.0;
    } else {
      var before := ledger[..|ledger| - 1];
      LowWaterIsMinimum(before, symbol);
      assert forall k :: 0 <= k < |ledger| ==> before[..k] == ledger[..k];
      var k :| 0 <= k <= |before| && LowWater(before, symbol) == Signed(before[..k], symbol);
      assert LowWater(ledger, symbol) == Signed(ledger[..k], symbol)
          || LowWater(ledger, symbol) == Signed(ledger[..|ledger|], symbol);
    }
  }

  /** Clamped replay is the reflected sum, for arbitrary ledgers, oversells included. */
  lemma {:induction false} ClampedReplayIsReflectedSum(ledger: seq<Tx>, symbol: string)
    requires ValidLedger(ledger)
    ensures SlotOf(ledger, symbol).qty == Signed(ledger, symbol) - LowWater(ledger, symbol)
    ensures Dropped(ledger, symbol) == -LowWater(ledger, symbol)
    ensures SlotOf(ledger, symbol).qty >= 0.0
    ensures LowWater(ledger, symbol) <= 0.0
  {
    if ledger == [] {
    } else {
      ClampedReplayIsReflectedSum(ledger[..|ledger| - 1], symbol);
    }
  }

  /** Nothing is dropped exactly when no prefix oversells; then the holding is the signed sum. */
  lemma ClampsExactlyOnOversell(ledger: seq<Tx>, symbol: string)
    requires ValidLedger(ledger)
    ensures Dropped(ledger, symbol) == 0.0 <==> NoOversell(ledger, symbol)
    ensures NoOversell(ledger, symbol) ==> SlotOf(ledger, symbol).qty == Signed(ledger, symbol)
  {
    ClampedReplayIsReflectedSum(ledger, symbol);
    LowWaterIsMinimum(ledger, symbol);
  }

  /** Open cost not yet recovered by realized gains. */
  ghost function BookValue(s: Slot): real {
    s.qty * s.avg - s.realized
  }

  lemma ApplyKeepsBookValue(s: Slot, tx: Tx)
    requires s.qty >= 0.0 && tx.quantity >= 0.0
    ensures BookValue(Apply(s, tx.action, tx.quantity, tx.price)) ==
            BookValue(s) + if tx.action == Buy then Paid(tx) else -Received(tx, s.qty)
  {
    if tx.action == Buy {
      var qty := s.qty + tx.quantity;
      if qty == 0.0 {
        assert s.qty == 0.0 && tx.quantity == 0.0;
      } else {
        RatioBound(s.qty * s.avg + tx.quantity * tx.price, qty, 0.0);
      }
    } else {
      var sold := Min(tx.quantity, s.qty);
      assert (tx.price - s.avg) * sold == tx.price * sold - s.avg * sold;
      assert (s.qty - sold) * s.avg == s.qty * s.avg - sold * s.avg;
    }
  }

  /** Average cost: what is on the books minus what was realized is purchases minus matched proceeds. */
  lemma {:induction false} AverageCostBalances(ledger: seq<Tx>, symbol: string)
    requires ValidLedger(ledger)
    ensures BookValue(SlotOf(ledger, symbol)) == Purchases(ledger, symbol) - MatchedProceeds(ledger, symbol)
  {
    if ledger == [] {
      assert BookValue(EMPTY_SLOT) == 0.0;
    } else {
      hide Apply, BookValue, Paid, Received;
      var before := ledger[..|ledger| - 1];
      AverageCostBalances(before, symbol);
      ClampedReplayIsReflectedSum(before, symbol);
      ApplyKeepsBookValue(SlotOf(before, symbol), ledger[|ledger| - 1]);
    }
  }

  /** Without oversells every sale is matched in full. */
  lemma {:induction false} MatchedInFull(ledger: seq<Tx>, symbol: string)
    requires ValidLedger(ledger) && NoOversell(ledger, symbol)
    ensures MatchedProceeds(ledger, symbol) == SaleProceeds(ledger, symbol)
  {
    if ledger == [] {
    } else {
      var before := ledger[..|ledger| - 1];
      NoOversellPrefix(ledger, symbol);
      MatchedInFull(before, symbol);
      ClampsExactlyOnOversell(before, symbol);
      assert ledger[..|ledger|] == ledger;
    }
  }

  lemma NoOversellPrefix(ledger: seq<Tx>, symbol: string)
    requires ledger != [] && NoOversell(ledger, symbol)
    ensures NoOversell(ledger[..|ledger| - 1], symbol)
  {
    var before := ledger[..|ledger| - 1];
    assert forall k :: 0 <= k <= |before| ==> before[..k] == ledger[..k];
  }

  lemma NoOversellExtends(ledger: seq<Tx>, tx: Tx, symbol: string)
    requires NoOversell(ledger, symbol)
    ensures NoOversell(ledger + [tx], symbol) <==> Signed(ledger + [tx], symbol) >= 0.0
  {
    var longer := ledger + [tx];
    assert forall k :: 0 <= k <= |ledger| ==> longer[..k] == ledger[..k];
    assert longer[..|longer|] == longer;
  }

  // ---- The sale guard --------------------------------------------------------------

  ghost predicate LedgerOnGrid(ledger: seq<Tx>) {
    forall i :: 0 <= i < |ledger| ==> OnGrid(ledger[i].quantity)
  }

  lemma {:induction false} SignedOnGrid(ledger: seq<Tx>, symbol: string)
    requires LedgerOnGrid(ledger)
    ensures OnGrid(Signed(ledger, symbol))
  {
    if ledger == [] {
    } else {
      var before := ledger[..|ledger| - 1];
      SignedOnGrid(before, symbol);
      GridIsClosed(Signed(before, symbol), ledger[|ledger| - 1].quantity);
    }
  }

  lemma ForUserGrows(txs: seq<Tx>, tx: Tx, user: nat)
    ensures ForUser(txs + [tx], user) == ForUser(txs, user) + if tx.user == user then [tx] else []
  {
    assert (txs + [tx])[..|txs|] == txs;
  }

  /** Every user's entries are on the storage scale, and no prefix of them oversells any symbol. */
  ghost predicate AllClean(ledger: seq<Tx>) {
    forall user :: Clean(ForUser(ledger, user))
  }

  ghost predicate Clean(ledger: seq<Tx>) {
    ValidLedger(ledger) && LedgerOnGrid(ledger) && forall symbol :: NoOversell(ledger, symbol)
  }

  /** A sale that fits the shown holding still fits once stored: the holding is on the scale. */
  lemma StoredSaleFits(ledger: seq<Tx>, symbol: string, asked: real)
    requires Clean(ledger) && 0.0 <= asked <= Round8(SlotOf(ledger, symbol).qty)
    ensures Stored(asked) <= Signed(ledger, symbol)
  {
    hide SlotOf, Signed, Stored, Round8, OnGrid;
    ClampsExactlyOnOversell(ledger, symbol);
    SignedOnGrid(ledger, symbol);
    Round8OnGrid(Signed(ledger, symbol));
    StoredStaysBelow(asked, Signed(ledger, symbol));
  }

  lemma EntryKeepsClean(ledger: seq<Tx>, q: Request)
    requires Clean(ledger) && q.quantity > 0.0
    requires q.action == Sell ==> q.quantity <= Round8(SlotOf(ledger, Ticker(q.symbol)).qty)
    ensures Clean(ledger + [EntryOf(q)])
  {
    var tx := EntryOf(q);
    StoredIsClose(q.quantity);
    if q.action == Sell {
      StoredSaleFits(ledger, tx.symbol, q.quantity);
    }
    hide Stored, SlotOf, OnGrid, Round8, Ticker;
    forall symbol ensures NoOversell(ledger + [tx], symbol) {
      assert ledger[..|ledger|] == ledger && (ledger + [tx])[..|ledger|] == ledger;
      NoOversellExtends(ledger, tx, symbol);
    }
  }

  lemma RecordedStaysClean(ledger: seq<Tx>, q: Request)
    requires AllClean(ledger) && q.quantity > 0.0
    ensures AllClean(Recorded(ledger, q))
  {
    hide Clean, Stored, SlotOf, Round8, Ticker;
    if Admits(ledger, q) {
      forall user ensures Clean(ForUser(ledger + [EntryOf(q)], user)) {
        ForUserGrows(ledger, EntryOf(q), user);
        if user == q.user {
          EntryKeepsClean(ForUser(ledger, user), q);
        } else {
          assert ForUser(ledger, user) + [] == ForUser(ledger, user);
        }
      }
    }
  }

  lemma {:induction false} RunStaysClean(requests: seq<Request>)
    requires forall i :: 0 <= i < |requests| ==> requests[i].quantity > 0.0
    ensures AllClean(RecordAll(requests))
  {
    if requests == [] {
      forall symbol ensures NoOversell([], symbol) {
      }
    } else {
      hide AllClean, Recorded;
      RunStaysClean(requests[..|requests| - 1]);
      RecordedStaysClean(RecordAll(requests[..|requests| - 1]), requests[|requests| - 1]);
    }
  }

  /** Over every run of requests, of any users and at any precision, the recorded ledger never oversells
      and its replay drops nothing, although the guard compares what is asked for and the column keeps
      something else. */
  lemma GuardedLedgerNeverClamps(requests: seq<Request>, user: nat, symbol: string)
    requires forall i :: 0 <= i < |requests| ==> requests[i].quantity > 0.0
    ensures var ledger := ForUser(RecordAll(requests), user);
      NoOversell(ledger, symbol) && Dropped(ledger, symbol) == 0.0
  {
    RunStaysClean(requests);
    var ledger := ForUser(RecordAll(requests), user);
    assert Clean(ledger);
    ClampsExactlyOnOversell(ledger, symbol);
  }

  /** In units bought less units sold: over every run a purchase is recorded, a sale is recorded exactly when
      that much is left, and nothing else reaches the ledger. */
  lemma RecordedExactlyWhenHeld(requests: seq<Request>, q: Request)
    requires forall i :: 0 <= i < |requests| ==> requests[i].quantity > 0.0
    ensures var ledger := RecordAll(requests);
      RecordAll(requests + [q]) ==
      if q.action == Buy || q.quantity <= Signed(ForUser(ledger, q.user), Ticker(q.symbol))
      then ledger + [Tx(q.user, Ticker(q.symbol), q.action, Stored(q.quantity), Stored(q.price), q.at)]
      else ledger
  {
    var mine, symbol := ForUser(RecordAll(requests), q.user), Ticker(q.symbol);
    RunStaysClean(requests);
    assert Clean(mine);
    ClampsExactlyOnOversell(mine, symbol);
    SignedOnGrid(mine, symbol);
    Round8OnGrid(Signed(mine, symbol));
    assert (requests + [q])[..|requests|] == requests;
    hide SlotOf, Signed, Round8, OnGrid, Stored, Ticker, ForUser;
  }

  // ---- The average ---------------------------------------------------------------------

  ghost predicate BoughtWithin(ledger: seq<Tx>, symbol: string, low: real, high: real) {
    forall i :: 0 <= i < |ledger| && ledger[i].symbol == symbol && ledger[i].action == Buy ==>
      low <= ledger[i].price <= high
  }

  lemma MeanIsBetween(a: real, x: real, b: real, y: real, low: real, high: real)
    requires a >= 0.0 && b >= 0.0 && a + b > 0.0
    requires (a > 0.0 ==> low <= x <= high) && low <= y <= high
    ensures low <= (a * x + b * y) / (a + b) <= high
  {
    ProductsAreBetween(a, x, low, high);
    ProductsAreBetween(b, y, low, high);
    Distributes(low, a, b);
    Distributes(high, a, b);
    RatioIsBetween(a * x + b * y, a + b, low, high);
  }

  lemma Distributes(c: real, a: real, b: real)
    ensures c * (a + b) == a * c + b * c
  {
  }

  lemma RatioIsBetween(x: real, y: real, low: real, high: real)
    requires y > 0.0 && low * y <= x <= high * y
    ensures low <= x / y <= high
  {
    RatioBound(x, y, low);
    RatioBound(x, y, high);
    if x == high * y {
      RatioIs(x, y, high);
    }
  }

  lemma ProductsAreBetween(a: real, x: real, low: real, high: real)
    requires a >= 0.0 && (a > 0.0 ==> low <= x <= high)
    ensures a * low <= a * x <= a * high
  {
  }

  lemma PurchaseStaysWithin(s: Slot, quantity: real, price: real, low: real, high: real)
    requires s.qty >= 0.0 && quantity >= 0.0 && low <= price <= high
    requires s.qty > 0.0 ==> low <= s.avg <= high
    ensures var after := Apply(s, Buy, quantity, price);
      after.qty >= 0.0 && (after.qty > 0.0 ==> low <= after.avg <= high)
  {
    if s.qty + quantity > 0.0 {
      MeanIsBetween(s.qty, s.avg, quantity, price, low, high);
    }
  }

  /** A purchase realizes nothing and a sale its margin over the average on the units it finds, leaving the
      average alone; and the average of what is held lies between the purchase prices. */
  lemma {:induction false} AverageMovesOnlyOnPurchases(ledger: seq<Tx>, symbol: string, low: real, high: real)
    requires ValidLedger(ledger) && BoughtWithin(ledger, symbol, low, high)
    ensures SlotOf(ledger, symbol).qty >= 0.0
    ensures SlotOf(ledger, symbol).qty > 0.0 ==> low <= SlotOf(ledger, symbol).avg <= high
    ensures ledger != [] && ledger[|ledger| - 1].symbol == symbol ==>
      var tx, before := ledger[|ledger| - 1], SlotOf(ledger[..|ledger| - 1], symbol);
      var after := SlotOf(ledger, symbol);
      && (tx.action == Buy ==> after.realized == before.realized)
      && (tx.action == Sell ==>
            after.realized == before.realized + (tx.price - before.avg) * Min(tx.quantity, before.qty))
      && (tx.action == Sell && after.qty > 0.0 ==> after.avg == before.avg)
  {
    if ledger == [] {
    } else {
      var tx, rest := ledger[|ledger| - 1], ledger[..|ledger| - 1];
      AverageMovesOnlyOnPurchases(rest, symbol, low, high);
      var before := SlotOf(rest, symbol);
      if tx.symbol == symbol && tx.action == Buy {
        PurchaseStaysWithin(before, tx.quantity, tx.price, low, high);
      }
    }
  }
}
