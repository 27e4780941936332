/** The order-to-ledger pipeline as a whole: a venue whose orders fill over time, reports that
    arrive late, twice, out of order or never, the local rows, and the ledger. What the broker
    holds and what the ledger reconstructs differ by exactly the fills not booked
    (app/services/reconciliation_service.py, app/services/portfolio_service.py). */
module Conservation {
  import opened Money
  import opened Text
  import opened Portfolio
  import opened Orders

  /** An order at the venue, with every state it has been in, oldest first. */
  datatype VenueOrder = VenueOrder(user: nat, symbol: string, side: Action, history: seq<Report>)

  type Venue = map<BrokerId, VenueOrder>

  datatype World = World(venue: Venue, db: Db)

  datatype Step =
    | Place(id: BrokerId, order: VenueOrder)        // the venue accepts a new order
    | Progress(id: BrokerId, report: Report)        // it fills, closes or changes state
    | Persist(id: BrokerId, k: nat, quantity: real) // execute or replace writes its row
    | Deliver(id: BrokerId, k: nat, at: Stamp)      // a webhook or poll answer, of any age
    | Refetch(row: nat, k: nat)                     // a resync
    | MarkRow(row: nat, status: Status)             // cancel, flatten, retire
    | Trade(q: Request)                             // a manual ledger entry

  function Last(v: VenueOrder): Report
    requires v.history != []
  {
    v.history[|v.history| - 1]
  }

  /** Cumulative fills never fall, and a filled order never changes again. */
  predicate Follows(earlier: Report, later: Report) {
    && earlier.filledQty <= later.filledQty
    && (earlier.status == Filled ==> later.status == Filled && later.filledQty == earlier.filledQty)
  }

  ghost predicate ValidHistory(h: seq<Report>) {
    && h != [] && h[0].filledQty >= 0.0
    && forall j, k :: 0 <= j < k < |h| ==> Follows(h[j], h[k])
  }

  function RowOf(id: BrokerId, v: VenueOrder, r: Report, quantity: real): Order {
    Order(v.user, id, v.symbol, v.side, quantity, r.status, r.filledQty, r.filledAvg, false)
  }

  /** A step that is not possible changes nothing. */
  function Next(w: World, step: Step): World {
    match step
    case Place(id, v) =>
      if id !in w.venue && |v.history| == 1 && v.history[0].filledQty >= 0.0
      then w.(venue := w.venue[id := v]) else w
    case Progress(id, r) =>
      if id in w.venue && w.venue[id].history != [] && Follows(Last(w.venue[id]), r)
      then w.(venue := w.venue[id := w.venue[id].(history := w.venue[id].history + [r])]) else w
    case Persist(id, k, quantity) =>
      if id in w.venue && k < |w.venue[id].history| && FindRow(w.db.orders, id).None?
      then w.(db := Exec(w.db, Insert(RowOf(id, w.venue[id], w.venue[id].history[k], quantity)))) else w
    case Deliver(id, k, at) =>
      if id in w.venue && k < |w.venue[id].history|
      then w.(db := Exec(w.db, Observe(id, w.venue[id].history[k], at))) else w
    case Refetch(row, k) =>
      if row < |w.db.orders| && w.db.orders[row].id in w.venue && k < |w.venue[w.db.orders[row].id].history|
      then w.(db := Exec(w.db, Refresh(row, w.venue[w.db.orders[row].id].history[k]))) else w
    case MarkRow(row, status) => w.(db := Exec(w.db, Mark(row, status)))
    case Trade(q) => if q.quantity > 0.0 then w.(db := Exec(w.db, Manual(EntryOf(q)))) else w
  }

  function Run(w: World, steps: seq<Step>): World {
    if steps == [] then w else Next(Run(w, steps[..|steps| - 1]), steps[|steps| - 1])
  }

  const GENESIS := World(map[], Db([], []))

  // ---- The invariant of every run -----------------------------------------------------------

  ghost predicate Booked(ledger: seq<Entry>, id: BrokerId) {
    exists j :: 0 <= j < |ledger| && ledger[j].origin == Some(id)
  }

  /** A booked entry repeats its venue order, which is filled for good. */
  ghost predicate EntryMatches(venue: Venue, e: Entry) {
    e.origin.Some? ==>
      var id := e.origin.value;
      && id in venue && venue[id].history != []
      && Last(venue[id]).status == Filled && Stored(Last(venue[id]).filledQty) == e.tx.quantity
      && e.tx.user == venue[id].user && e.tx.symbol == Upper(venue[id].symbol) && e.tx.action == venue[id].side
  }

  predicate Storable(quantity: real) {
    quantity >= 0.0 && OnGrid(quantity)
  }

  ghost predicate LedgerMatches(venue: Venue, ledger: seq<Entry>) {
    && (forall j :: 0 <= j < |ledger| ==> EntryMatches(venue, ledger[j]) && Storable(ledger[j].tx.quantity))
    && (forall j, k :: 0 <= j < k < |ledger| && ledger[j].origin.Some? ==> ledger[j].origin != ledger[k].origin)
  }

  ghost predicate RowMatches(venue: Venue, o: Order) {
    o.id in venue && o.user == venue[o.id].user && o.symbol == venue[o.id].symbol && o.side == venue[o.id].side
  }

  /** A reconciled row was booked, or some report of its order closed it unfilled. */
  ghost predicate RowExplained(w: World, o: Order) {
    o.reconciled && o.id in w.venue ==>
      || Booked(w.db.ledger, o.id)
      || exists k :: 0 <= k < |w.venue[o.id].history| && ClosesUnfilled(w.venue[o.id].history[k])
  }

  ghost predicate HasRow(orders: seq<Order>, id: BrokerId) {
    exists i :: 0 <= i < |orders| && orders[i].id == id
  }

  ghost predicate RowsSound(w: World) {
    && (forall id :: Booked(w.db.ledger, id) ==> HasRow(w.db.orders, id))
    && (forall i :: 0 <= i < |w.db.orders| ==> RowMatches(w.venue, w.db.orders[i]) && RowExplained(w, w.db.orders[i]))
    && (forall i, j :: 0 <= i < j < |w.db.orders| ==> w.db.orders[i].id != w.db.orders[j].id)
    && (forall i :: 0 <= i < |w.db.orders| && Booked(w.db.ledger, w.db.orders[i].id) ==> w.db.orders[i].reconciled)
  }

  ghost predicate VenueSound(venue: Venue) {
    forall id :: id in venue ==> ValidHistory(venue[id].history)
  }

  ghost predicate Sound(w: World) {
    VenueSound(w.venue) && LedgerMatches(w.venue, w.db.ledger) && RowsSound(w)
  }

  // ---- Every step keeps it ----------------------------------------------------------------------

  /** The venue only gains orders and states; whatever was true of past states stays true. */
  ghost predicate VenueGrows(a: Venue, b: Venue) {
    forall id :: id in a ==>
      && id in b && b[id].user == a[id].user && b[id].symbol == a[id].symbol && b[id].side == a[id].side
      && a[id].history <= b[id].history
  }

  lemma GrowingVenueStaysSound(w: World, venue: Venue)
    requires Sound(w) && VenueSound(venue) && VenueGrows(w.venue, venue)
    ensures Sound(World(venue, w.db))
  {
    hide ClosesUnfilled, Upper;
    var v := World(venue, w.db);
    forall j | 0 <= j < |w.db.ledger| ensures EntryMatches(venue, w.db.ledger[j]) {
      var e := w.db.ledger[j];
      assert EntryMatches(w.venue, e);
      if e.origin.Some? {
        FilledIsFinal(w.venue[e.origin.value], venue[e.origin.value]);
      }
    }
    forall i | 0 <= i < |w.db.orders| ensures RowMatches(venue, w.db.orders[i]) && RowExplained(v, w.db.orders[i]) {
      var o := w.db.orders[i];
      assert RowMatches(w.venue, o) && RowExplained(w, o);
      if o.reconciled && !Booked(w.db.ledger, o.id) {
        var k :| 0 <= k < |w.venue[o.id].history| && ClosesUnfilled(w.venue[o.id].history[k]);
        assert venue[o.id].history[k] == w.venue[o.id].history[k];
      }
    }
  }

  lemma FilledIsFinal(a: VenueOrder, b: VenueOrder)
    requires a.history != [] && a.history <= b.history && ValidHistory(b.history)
    ensures Last(a).status == Filled ==> Last(b).status == Filled && Last(b).filledQty == Last(a).filledQty
  {
    assert b.history[|a.history| - 1] == Last(a);
  }

  lemma ProgressIsValid(h: seq<Report>, r: Report)
    requires ValidHistory(h) && Follows(h[|h| - 1], r)
    ensures ValidHistory(h + [r])
  {
    forall j | 0 <= j < |h| ensures Follows(h[j], r) {
      if j < |h| - 1 {
        assert Follows(h[j], h[|h| - 1]);
      }
    }
  }

  /** Changing a row's status and fills only. */
  lemma TouchedRowStaysSound(w: World, row: nat, o: Order)
    requires Sound(w) && row < |w.db.orders|
    requires SameOrder(o, w.db.orders[row]) && o.reconciled == w.db.orders[row].reconciled
    ensures Sound(w.(db := w.db.(orders := w.db.orders[row := o])))
  {
    hide LedgerMatches, VenueSound;
    var v := w.(db := w.db.(orders := w.db.orders[row := o]));
    forall id ensures HasRow(w.db.orders, id) ==> HasRow(v.db.orders, id) {
      RowsKept(w.db.orders, v.db.orders, id);
    }
    forall i | 0 <= i < |v.db.orders| ensures RowMatches(v.venue, v.db.orders[i]) && RowExplained(v, v.db.orders[i]) {
      assert RowMatches(w.venue, w.db.orders[i]) && RowExplained(w, w.db.orders[i]);
    }
  }

  lemma NewRowIsSound(w: World, o: Order)
    requires Sound(w) && RowMatches(w.venue, o) && !o.reconciled
    requires FindRow(w.db.orders, o.id).None? && !Booked(w.db.ledger, o.id)
    ensures Sound(w.(db := w.db.(orders := w.db.orders + [o])))
  {
    hide LedgerMatches, VenueSound, FindRow;
    FindRowFinds(w.db.orders, o.id);
    var v := w.(db := w.db.(orders := w.db.orders + [o]));
    forall id ensures HasRow(w.db.orders, id) ==> HasRow(v.db.orders, id) {
      RowsKept(w.db.orders, v.db.orders, id);
    }
    forall i | 0 <= i < |v.db.orders| ensures RowMatches(v.venue, v.db.orders[i]) && RowExplained(v, v.db.orders[i]) {
      if i < |w.db.orders| {
        assert RowMatches(w.venue, w.db.orders[i]) && RowExplained(w, w.db.orders[i]);
      }
    }
  }

  lemma ManualEntryIsSound(w: World, tx: Tx)
    requires Sound(w) && Storable(tx.quantity)
    ensures Sound(w.(db := w.db.(ledger := w.db.ledger + [Entry(tx, None)])))
  {
    var more := w.db.ledger + [Entry(tx, None)];
    var v := w.(db := w.db.(ledger := more));
    forall id ensures Booked(more, id) <==> Booked(w.db.ledger, id) {
      BookedGrows(w.db.ledger, Entry(tx, None), id);
    }
    hide Booked, ClosesUnfilled, Upper, Storable;
    forall i | 0 <= i < |v.db.orders| ensures RowMatches(v.venue, v.db.orders[i]) && RowExplained(v, v.db.orders[i]) {
      assert RowMatches(w.venue, w.db.orders[i]) && RowExplained(w, w.db.orders[i]);
    }
  }

  lemma BookedGrows(ledger: seq<Entry>, e: Entry, id: BrokerId)
    ensures Booked(ledger + [e], id) <==> Booked(ledger, id) || e.origin == Some(id)
  {
    var more := ledger + [e];
    if Booked(ledger, id) {
      var j :| 0 <= j < |ledger| && ledger[j].origin == Some(id);
      assert more[j].origin == Some(id);
    }
    if e.origin == Some(id) {
      assert more[|ledger|].origin == Some(id);
    }
    if Booked(more, id) {
      var j :| 0 <= j < |more| && more[j].origin == Some(id);
      assert j < |ledger| ==> ledger[j].origin == Some(id);
    }
  }

  /** Applying any past state of its own venue order to a row. */
  lemma AppliedReportStaysSound(w: World, row: nat, k: nat, at: Stamp)
    requires Sound(w) && row < |w.db.orders| && w.db.orders[row].id in w.venue
    requires k < |w.venue[w.db.orders[row].id].history|
    ensures Sound(w.(db := ApplyAt(w.db, row, w.venue[w.db.orders[row].id].history[k], at)))
  {
    var o := w.db.orders[row];
    var h := w.venue[o.id].history;
    var r := h[k];
    assert RowMatches(w.venue, o) && RowExplained(w, o);
    var now := ApplyAt(w.db, row, r, at);
    var v := w.(db := now);
    if ValidFill(r) && !o.reconciled {
      var e := Entry(BookTx(o, r, at), Some(o.id));
      StoredIsClose(r.filledQty);
      hide Stored, OnGrid;
      assert EntryMatches(w.venue, e) by {
        assert k < |h| - 1 ==> Follows(h[k], h[|h| - 1]);
      }
      NewEntryMatches(w, o, e);
      forall id ensures Booked(now.ledger, id) <==> Booked(w.db.ledger, id) || id == o.id {
        BookedGrows(w.db.ledger, e, id);
      }
    }
    forall id ensures HasRow(w.db.orders, id) ==> HasRow(now.orders, id) {
      RowsKept(w.db.orders, now.orders, id);
    }
    assert HasRow(now.orders, o.id) by {
      assert now.orders[row].id == o.id;
    }
    hide Booked, LedgerMatches, VenueSound, Upper, ValidFill, BookTx;
    forall i | 0 <= i < |now.orders| ensures RowMatches(v.venue, now.orders[i]) && RowExplained(v, now.orders[i]) {
      assert RowMatches(w.venue, w.db.orders[i]) && RowExplained(w, w.db.orders[i]);
    }
  }

  lemma NewEntryMatches(w: World, o: Order, e: Entry)
    requires Sound(w) && o in w.db.orders && !o.reconciled && e.origin == Some(o.id)
    requires EntryMatches(w.venue, e) && Storable(e.tx.quantity)
    ensures LedgerMatches(w.venue, w.db.ledger + [e])
  {
    hide EntryMatches, Storable;
    assert !Booked(w.db.ledger, o.id);
  }

  lemma StepKeepsSound(w: World, step: Step)
    requires Sound(w)
    ensures Sound(Next(w, step))
  {
    hide Sound, ApplyAt, ClosesUnfilled, ValidFill, Upper, Stored, OnGrid;
    match step
    case Place(id, v) =>
      assert VenueSound(w.venue) by { SoundParts(w); }
      if Next(w, step) != w {
        GrowingVenueStaysSound(w, w.venue[id := v]);
      }
    case Progress(id, r) =>
      assert VenueSound(w.venue) by { SoundParts(w); }
      if Next(w, step) != w {
        ProgressIsValid(w.venue[id].history, r);
        GrowingVenueStaysSound(w, Next(w, step).venue);
      }
    case Persist(id, k, quantity) =>
      if Next(w, step) != w {
        UnrowedIsUnbooked(w, id);
        NewRowIsSound(w, RowOf(id, w.venue[id], w.venue[id].history[k], quantity));
      }
    case Deliver(id, k, at) =>
      var row := FindRow(w.db.orders, id);
      if row.Some? && id in w.venue && k < |w.venue[id].history| {
        FindRowFinds(w.db.orders, id);
        AppliedReportStaysSound(w, row.value, k, at);
      }
    case Refetch(row, k) =>
      if row < |w.db.orders| && w.db.orders[row].id in w.venue && k < |w.venue[w.db.orders[row].id].history| {
        TouchedRowStaysSound(w, row, Refreshed(w.db.orders[row], w.venue[w.db.orders[row].id].history[k]));
      }
    case MarkRow(row, status) =>
      if row < |w.db.orders| {
        TouchedRowStaysSound(w, row, w.db.orders[row].(status := status));
      }
    case Trade(q) =>
      if q.quantity > 0.0 {
        StoredIsClose(q.quantity);
        ManualEntryIsSound(w, EntryOf(q));
      }
  }

  lemma UnrowedIsUnbooked(w: World, id: BrokerId)
    requires Sound(w) && FindRow(w.db.orders, id).None?
    ensures !Booked(w.db.ledger, id)
  {
    FindRowFinds(w.db.orders, id);
  }

  lemma RowsKept(a: seq<Order>, b: seq<Order>, id: BrokerId)
    requires |a| <= |b| && forall i :: 0 <= i < |a| ==> b[i].id == a[i].id
    ensures HasRow(a, id) ==> HasRow(b, id)
  {
    if HasRow(a, id) {
      var i :| 0 <= i < |a| && a[i].id == id;
      assert b[i].id == id;
    }
  }

  lemma SoundParts(w: World)
    requires Sound(w)
    ensures VenueSound(w.venue) && LedgerMatches(w.venue, w.db.ledger) && RowsSound(w)
  {
  }
}
