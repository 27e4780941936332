/** Broker orders and the one place that books their fills
    (app/models/order.py, app/services/reconciliation_service.py,
    app/services/trade_service.py). */
module Orders {
  import opened Money
  import opened Text
  import opened Portfolio

  datatype Status =
    | Pending | New | Accepted | PartiallyFilled | PendingCancel | PendingReplace
    | Filled | Canceled | Expired | Rejected | Replaced | DoneForDay
    | Unlisted(text: string)

  predicate IsTerminal(s: Status) {
    s.Filled? || s.Canceled? || s.Expired? || s.Rejected? || s.Replaced? || s.DoneForDay?
  }

  predicate IsCancelable(s: Status) {
    !IsTerminal(s)
  }

  /** The working statuses, one by one; any status the service does not list counts as one. */
  lemma CancelableIs(s: Status)
    ensures IsCancelable(s) <==>
      s.Unlisted? || s in {Pending, New, Accepted, PartiallyFilled, PendingCancel, PendingReplace}
  {
  }

  /** An opaque broker order id. */
  type BrokerId = nat

  /** One row of the order table; its primary key is its position. */
  datatype Order = Order(user: nat, id: BrokerId, symbol: string, side: Action, quantity: real, status: Status,
                         filledQty: real, filledAvg: Option<real>, reconciled: bool)

  /** An order state as the venue reports it, from a poll or a webhook. */
  datatype Report = Report(status: Status, filledQty: real, filledAvg: Option<real>)

  /** A ledger transaction, and the broker order it books (none for a manual entry). */
  datatype Entry = Entry(tx: Tx, origin: Option<BrokerId>)

  datatype Db = Db(orders: seq<Order>, ledger: seq<Entry>)

  // ---- Applying a report -----------------------------------------------------------------

  /** The tolerance `1e-6` as the double it is, a little below one millionth; decimals are compared
      with it exactly. */
  const EPS: real := 4722366482869645.0 / 4722366482869645213696.0

  /** So a quantity of at most 8 places exceeds the tolerance from one millionth up. */
  lemma ToleranceIsOneMillionth(quantity: real)
    requires OnGrid(quantity)
    ensures quantity > EPS <==> quantity >= 0.000001
  {
    var n := Units(quantity).Floor;
    assert quantity == n as real / 100000000.0;
    assert 99.0 / 100000000.0 < EPS < 100.0 / 100000000.0;
  }

  /** A report that can be booked: filled, with a quantity and a price. */
  predicate ValidFill(r: Report) {
    r.status == Filled && r.filledQty > EPS && r.filledAvg.Some? && r.filledAvg.value > 0.0
  }

  /** A report that closes an order with nothing to book. */
  predicate ClosesUnfilled(r: Report) {
    IsTerminal(r.status) && r.status != Filled
  }

  /** The transaction as the ledger's columns give it back. */
  function BookTx(o: Order, r: Report, at: Stamp): Tx
    requires r.filledAvg.Some?
  {
    Tx(o.user, Upper(o.symbol), o.side, Stored(r.filledQty), Stored(r.filledAvg.value), at)
  }

  function Observed(o: Order, r: Report): Order {
    o.(status := r.status, filledQty := r.filledQty, filledAvg := r.filledAvg,
       reconciled := o.reconciled || ValidFill(r) || ClosesUnfilled(r))
  }

  /** `_apply_remote_state` on the i-th row. */
  function ApplyAt(db: Db, i: nat, r: Report, at: Stamp): Db
    requires i < |db.orders|
  {
    var o := db.orders[i];
    Db(db.orders[i := Observed(o, r)],
       if ValidFill(r) && !o.reconciled then db.ledger + [Entry(BookTx(o, r, at), Some(o.id))] else db.ledger)
  }

  /** The first row with a broker id. */
  function FindRow(orders: seq<Order>, id: BrokerId): (row: Option<nat>)
    ensures row.Some? ==> row.value < |orders| && orders[row.value].id == id
    ensures row.None? ==> forall i :: 0 <= i < |orders| ==> orders[i].id != id
  {
    if orders == [] then None
    else
      var row := FindRow(orders[..|orders| - 1], id);
      if row.Some? then row else if orders[|orders| - 1].id == id then Some(|orders| - 1) else None
  }

  // ---- Everything that touches an order row or the ledger ------------------------------------

  datatype Op =
    | Observe(id: BrokerId, report: Report, at: Stamp)  // a webhook, or a poll's answer
    | Refresh(row: nat, report: Report)                 // `_resync`: copies, never books
    | Mark(row: nat, status: Status)                    // cancel, flatten, replace
    | Insert(order: Order)                              // a row written by execute or replace
    | Manual(tx: Tx)                                    // record_transaction

  function Refreshed(o: Order, r: Report): Order {
    o.(status := if r.status == Unlisted("") then o.status else r.status,
       filledQty := r.filledQty, filledAvg := r.filledAvg)
  }

  function Exec(db: Db, op: Op): Db {
    match op
    case Observe(id, r, at) =>
      var row := FindRow(db.orders, id);
      if row.Some? then ApplyAt(db, row.value, r, at) else db
    case Refresh(row, r) =>
      if row < |db.orders| then db.(orders := db.orders[row := Refreshed(db.orders[row], r)]) else db
    case Mark(row, status) =>
      if row < |db.orders| then db.(orders := db.orders[row := db.orders[row].(status := status)]) else db
    case Insert(order) => db.(orders := db.orders + [order])
    case Manual(tx) => db.(ledger := db.ledger + [Entry(tx, None)])
  }

  function RunOps(db: Db, ops: seq<Op>): Db {
    if ops == [] then db else Exec(RunOps(db, ops[..|ops| - 1]), ops[|ops| - 1])
  }

  // ---- Exactly-once booking --------------------------------------------------------------------

  /** The transactions booked for one broker order, oldest first. */
  function BookedFor(ledger: seq<Entry>, id: BrokerId): seq<Tx> {
    if ledger == [] then []
    else
      var rest := BookedFor(ledger[..|ledger| - 1], id);
      var e := ledger[|ledger| - 1];
      if e.origin == Some(id) then rest + [e.tx] else rest
  }

  /** The first observation of an order that either can be booked or closes it unfilled. */
  function FirstClosing(ops: seq<Op>, id: BrokerId): Option<Op> {
    if ops == [] then None
    else
      var earlier := FirstClosing(ops[..|ops| - 1], id);
      var op := ops[|ops| - 1];
      if earlier.Some? then earlier
      else if ClosesOrder(op, id) then Some(op)
      else None
  }

  /** What identifies an order never changes. */
  predicate SameOrder(a: Order, b: Order) {
    a.user == b.user && a.id == b.id && a.symbol == b.symbol && a.side == b.side
  }

  lemma FindRowAppend(orders: seq<Order>, o: Order, id: BrokerId)
    ensures FindRow(orders, id).Some? ==> FindRow(orders + [o], id) == FindRow(orders, id)
  {
    assert (orders + [o])[..|orders|] == orders;
  }

  lemma {:induction false} FindRowUpdate(orders: seq<Order>, row: nat, o: Order, id: BrokerId)
    requires row < |orders| && o.id == orders[row].id
    ensures FindRow(orders[row := o], id) == FindRow(orders, id)
  {
    var n := |orders| - 1;
    if row < n {
      FindRowUpdate(orders[..n], row, o, id);
      assert orders[row := o][..n] == orders[..n][row := o];
    } else {
      assert orders[row := o][..n] == orders[..n];
    }
  }

  /** Whether an operation is a report that closes the order `id`. */
  predicate ClosesOrder(op: Op, id: BrokerId) {
    op.Observe? && op.id == id && (ValidFill(op.report) || ClosesUnfilled(op.report))
  }

  lemma BookedForGrows(ledger: seq<Entry>, e: Entry, id: BrokerId)
    ensures BookedFor(ledger + [e], id) == BookedFor(ledger, id) + if e.origin == Some(id) then [e.tx] else []
  {
    assert (ledger + [e])[..|ledger|] == ledger;
  }

  lemma OneObservation(db: Db, other: BrokerId, r: Report, at: Stamp, row: nat)
    requires row < |db.orders| && FindRow(db.orders, db.orders[row].id) == Some(row)
    ensures OneOpEffect(db, Observe(other, r, at), row)
  {
    hide ValidFill, ClosesUnfilled, BookTx, FindRow, BookedFor;
    var id := db.orders[row].id;
    var hit := FindRow(db.orders, other);
    FindRowFinds(db.orders, other);
    FindRowFinds(db.orders, id);
    if hit.Some? {
      var o := db.orders[hit.value];
      FindRowUpdate(db.orders, hit.value, Observed(o, r), id);
      if ValidFill(r) && !o.reconciled {
        FillHasPrice(r);
        BookedForGrows(db.ledger, Entry(BookTx(o, r, at), Some(o.id)), id);
      }
    }
  }

  lemma FillHasPrice(r: Report)
    ensures ValidFill(r) ==> r.filledAvg.Some?
  {
  }

  lemma FindRowFinds(orders: seq<Order>, id: BrokerId)
    ensures var row := FindRow(orders, id);
      && (row.Some? ==> row.value < |orders| && orders[row.value].id == id)
      && (row.None? ==> forall i :: 0 <= i < |orders| ==> orders[i].id != id)
  {
  }

  /** What one operation does to one order: identity kept, reconciled only by a closing report,
      booked only by a valid fill that finds it open. */
  ghost predicate OneOpEffect(db: Db, op: Op, row: nat)
    requires row < |db.orders|
  {
    var o := db.orders[row];
    var now := Exec(db, op);
    && row < |now.orders| && SameOrder(now.orders[row], o) && FindRow(now.orders, o.id) == Some(row)
    && (now.orders[row].reconciled <==> o.reconciled || ClosesOrder(op, o.id))
    && BookedFor(now.ledger, o.id) == BookedFor(db.ledger, o.id) +
         if op.Observe? && op.id == o.id && ValidFill(op.report) && !o.reconciled
         then [BookTx(o, op.report, op.at)] else []
  }

  lemma OneOp(db: Db, op: Op, row: nat)
    requires row < |db.orders| && FindRow(db.orders, db.orders[row].id) == Some(row)
    ensures OneOpEffect(db, op, row)
  {
    hide ValidFill, ClosesUnfilled, BookTx, FindRow, BookedFor;
    var id := db.orders[row].id;
    match op
    case Observe(other, r, at) =>
      OneObservation(db, other, r, at, row);
    case Refresh(j, r) =>
      if j < |db.orders| {
        FindRowUpdate(db.orders, j, Refreshed(db.orders[j], r), id);
      }
    case Mark(j, status) =>
      if j < |db.orders| {
        FindRowUpdate(db.orders, j, db.orders[j].(status := status), id);
      }
    case Insert(o) =>
      FindRowAppend(db.orders, o, id);
    case Manual(tx) =>
      BookedForGrows(db.ledger, Entry(tx, None), id);
  }

  /** Over any sequence of webhooks, polls, cancels, flattens, resyncs, replaces and manual entries,
      an order that starts open is reconciled exactly when some report closed it, and its ledger
      transactions are exactly the first closing report when that is a valid fill, none otherwise. */
  lemma {:induction false} ExactlyOnceBooking(db: Db, ops: seq<Op>, row: nat)
    requires row < |db.orders| && FindRow(db.orders, db.orders[row].id) == Some(row)
    requires !db.orders[row].reconciled && BookedFor(db.ledger, db.orders[row].id) == []
    ensures var o := db.orders[row];
      var now := RunOps(db, ops);
      var closing := FirstClosing(ops, o.id);
      && row < |now.orders| && SameOrder(now.orders[row], o) && FindRow(now.orders, o.id) == Some(row)
      && (now.orders[row].reconciled <==> closing.Some?)
      && (closing.Some? ==> closing.value.Observe?)
      && BookedFor(now.ledger, o.id) ==
           if closing.Some? && ValidFill(closing.value.report)
           then [BookTx(o, closing.value.report, closing.value.at)] else []
  {
    hide ValidFill, ClosesUnfilled, BookedFor, Exec, FindRow;
    if ops == [] {
    } else {
      var before := ops[..|ops| - 1];
      ExactlyOnceBooking(db, before, row);
      OneOp(RunOps(db, before), ops[|ops| - 1], row);
      SameBookTx(db.orders[row], RunOps(db, before).orders[row]);
    }
  }

  /** What is booked repeats the fill that closed the order: its quantity and price at 8 places, the
      order's own user, side and upper-case symbol, and nothing from any other report. */
  lemma BookingRepeatsTheFill(db: Db, ops: seq<Op>, row: nat)
    requires row < |db.orders| && FindRow(db.orders, db.orders[row].id) == Some(row)
    requires !db.orders[row].reconciled && BookedFor(db.ledger, db.orders[row].id) == []
    requires BookedFor(RunOps(db, ops).ledger, db.orders[row].id) != []
    ensures var o := db.orders[row];
      exists id, r: Report, at :: Observe(id, r, at) in ops && id == o.id && r.status == Filled && r.filledAvg.Some?
        && BookedFor(RunOps(db, ops).ledger, o.id) ==
             [Tx(o.user, Upper(o.symbol), o.side, Stored(r.filledQty), Stored(r.filledAvg.value), at)]
  {
    ExactlyOnceBooking(db, ops, row);
    ClosingIsAmongThem(ops, db.orders[row].id);
    var closing := FirstClosing(ops, db.orders[row].id).value;
    assert Observe(closing.id, closing.report, closing.at) in ops;
  }

  lemma {:induction false} ClosingIsAmongThem(ops: seq<Op>, id: BrokerId)
    ensures var closing := FirstClosing(ops, id);
      closing.Some? ==> closing.value in ops && ClosesOrder(closing.value, id)
  {
    if ops == [] {
    } else {
      ClosingIsAmongThem(ops[..|ops| - 1], id);
    }
  }

  lemma SameBookTx(a: Order, b: Order)
    requires SameOrder(a, b)
    ensures forall r: Report, at :: r.filledAvg.Some? ==> BookTx(a, r, at) == BookTx(b, r, at)
  {
  }

  // ---- Which fills are booked, in numbers ---------------------------------------------------------

  /** Booked or not depends on four numbers and words: a "filled" status, at least a millionth of a unit
      (anything below 0.000000999 is too little), and a price above zero. */
  lemma BookableIs(r: Report)
    ensures r.status == Filled && r.filledQty >= 0.000001 && r.filledAvg.Some? && r.filledAvg.value > 0.0 ==>
              ValidFill(r)
    ensures r.status != Filled || r.filledQty < 0.000000999 || r.filledAvg.None? || r.filledAvg.value <= 0.0 ==>
              !ValidFill(r)
    ensures ClosesUnfilled(r) <==> r.status in {Canceled, Expired, Rejected, Replaced, DoneForDay}
  {
    assert 0.000000999 < EPS < 0.000001;
  }

  lemma {:induction false} ClosingIsTheFirst(ops: seq<Op>, id: BrokerId, i: nat)
    requires i < |ops| && ClosesOrder(ops[i], id) && forall j :: 0 <= j < i ==> !ClosesOrder(ops[j], id)
    ensures FirstClosing(ops, id) == Some(ops[i])
  {
    hide ClosesOrder;
    var before := ops[..|ops| - 1];
    if i == |ops| - 1 {
      NoClosingYet(before, id);
    } else {
      ClosingIsTheFirst(before, id, i);
    }
  }

  lemma {:induction false} NoClosingYet(ops: seq<Op>, id: BrokerId)
    requires forall j :: 0 <= j < |ops| ==> !ClosesOrder(ops[j], id)
    ensures FirstClosing(ops, id) == None
  {
    hide ClosesOrder;
    if ops == [] {
    } else {
      NoClosingYet(ops[..|ops| - 1], id);
    }
  }

  /** Over any sequence of steps: "filled" at a price above zero with at least a millionth of a unit is
      booked, at that quantity and price, unless an earlier report of the order was "filled" or ended it
      otherwise. */
  lemma FirstFillIsBooked(db: Db, ops: seq<Op>, row: nat, i: nat, q: real, p: real, at: Stamp)
    requires row < |db.orders| && FindRow(db.orders, db.orders[row].id) == Some(row)
    requires !db.orders[row].reconciled && BookedFor(db.ledger, db.orders[row].id) == []
    requires i < |ops| && ops[i] == Observe(db.orders[row].id, Report(Filled, q, Some(p)), at)
    requires q >= 0.000001 && p > 0.0
    requires forall j :: 0 <= j < i && ops[j].Observe? && ops[j].id == db.orders[row].id ==>
               ops[j].report.status !in {Filled, Canceled, Expired, Rejected, Replaced, DoneForDay}
    ensures var o, now := db.orders[row], RunOps(db, ops);
      && BookedFor(now.ledger, o.id) == [Tx(o.user, Upper(o.symbol), o.side, Stored(q), Stored(p), at)]
      && row < |now.orders| && now.orders[row].reconciled
  {
    var id := db.orders[row].id;
    BookableIs(ops[i].report);
    forall j | 0 <= j < i ensures !ClosesOrder(ops[j], id) {
      if ops[j].Observe? {
        BookableIs(ops[j].report);
      }
    }
    ClosingIsTheFirst(ops, id, i);
    ExactlyOnceBooking(db, ops, row);
  }

  /** And nothing else is ever booked for an order: no other status, no smaller quantity, no price of zero
      or below, no missing price. */
  lemma NothingElseIsBooked(db: Db, ops: seq<Op>, row: nat)
    requires row < |db.orders| && FindRow(db.orders, db.orders[row].id) == Some(row)
    requires !db.orders[row].reconciled && BookedFor(db.ledger, db.orders[row].id) == []
    requires forall j :: 0 <= j < |ops| && ops[j].Observe? && ops[j].id == db.orders[row].id ==>
      var r := ops[j].report;
      r.status != Filled || r.filledQty < 0.000000999 || r.filledAvg.None? || r.filledAvg.value <= 0.0
    ensures BookedFor(RunOps(db, ops).ledger, db.orders[row].id) == []
  {
    var id := db.orders[row].id;
    ExactlyOnceBooking(db, ops, row);
    ClosingIsAmongThem(ops, id);
    if FirstClosing(ops, id).Some? {
      var closing := FirstClosing(ops, id).value;
      var j :| 0 <= j < |ops| && ops[j] == closing;
      BookableIs(closing.report);
    }
  }

  /** Reconciled never reverts. */
  lemma {:induction false} ReconciledIsMonotone(db: Db, ops: seq<Op>, row: nat)
    requires row < |db.orders| && db.orders[row].reconciled
    ensures row < |RunOps(db, ops).orders| && RunOps(db, ops).orders[row].reconciled
  {
    if ops == [] {
    } else {
      ReconciledIsMonotone(db, ops[..|ops| - 1], row);
    }
  }
}
