/** The services that change order rows in place: reconciliation
    (app/services/reconciliation_service.py) and the cancel, flatten, resync and
    replace half of app/services/trade_service.py. Every method is an instance of
    the operations of module Orders. */
module Desk {
  import opened Money
  import opened Text
  import opened Portfolio
  import opened Orders

  datatype Failure = NotFound | NotCancelable | NotAmendable | Halted | BadNotional | NoCredentials | VenueError

  /** The venue's answer to a cancel: 204, 422 or anything else. */
  datatype CancelReply = CancelAccepted | TooLate | CancelFailed

  /** The venue's answer to a replace; absent fields fall back to the original order's. */
  datatype Replacement = Replacement(id: BrokerId, symbol: string, side: Option<Action>, quantity: real,
                                     status: Status, filledQty: real, filledAvg: Option<real>)

  // ---- The polling sweep ------------------------------------------------------------------

  /** Rows the sweep selects: everything not reconciled. */
  function OpenRows(orders: seq<Order>): (rows: seq<nat>)
    ensures forall k :: 0 <= k < |rows| ==> rows[k] < |orders|
  {
    if orders == [] then []
    else
      var rest := OpenRows(orders[..|orders| - 1]);
      if orders[|orders| - 1].reconciled then rest else rest + [|orders| - 1]
  }

  type Poll = BrokerId -> Option<Report>

  /** Polling some rows in turn; a missing provider or a failed poll leaves its row alone. */
  function SweepRows(db: Db, rows: seq<nat>, poll: Poll, connected: nat -> bool, at: Stamp): (now: Db)
    requires forall k :: 0 <= k < |rows| ==> rows[k] < |db.orders|
    ensures |now.orders| == |db.orders|
    ensures forall i :: 0 <= i < |db.orders| ==> SameOrder(now.orders[i], db.orders[i])
  {
    if rows == [] then db
    else
      var before := SweepRows(db, rows[..|rows| - 1], poll, connected, at);
      var i := rows[|rows| - 1];
      var answer := poll(db.orders[i].id);
      if connected(db.orders[i].user) && answer.Some? then ApplyAt(before, i, answer.value, at) else before
  }

  lemma SweepNothing(db: Db, poll: Poll, connected: nat -> bool, at: Stamp)
    ensures SweepRows(db, [], poll, connected, at) == db
  {
  }

  lemma SweepOneMore(db: Db, rows: seq<nat>, k: nat, poll: Poll, connected: nat -> bool, at: Stamp)
    requires k < |rows| && forall j :: 0 <= j < |rows| ==> rows[j] < |db.orders|
    ensures var before := SweepRows(db, rows[..k], poll, connected, at);
      var answer := poll(db.orders[rows[k]].id);
      && |before.orders| == |db.orders| && SameOrder(before.orders[rows[k]], db.orders[rows[k]])
      && SweepRows(db, rows[..k + 1], poll, connected, at) ==
           if connected(db.orders[rows[k]].user) && answer.Some?
           then ApplyAt(before, rows[k], answer.value, at) else before
  {
    assert rows[..k + 1][..k] == rows[..k];
  }

  // ---- Flattening --------------------------------------------------------------------------

  /** Rows a flatten can still cancel. */
  predicate Working(o: Order, user: nat) {
    o.user == user && !o.reconciled && IsCancelable(o.status)
  }

  function Flattened(o: Order, user: nat, accepts: BrokerId -> bool): Order {
    if Working(o, user) && accepts(o.id) then o.(status := PendingCancel) else o
  }

  function CountFlattened(orders: seq<Order>, user: nat, accepts: BrokerId -> bool): nat {
    if orders == [] then 0
    else
      var o := orders[|orders| - 1];
      CountFlattened(orders[..|orders| - 1], user, accepts) + if Working(o, user) && accepts(o.id) then 1 else 0
  }

  class Desk {
    var orders: seq<Order>
    var ledger: seq<Entry>

    ghost function View(): Db
      reads this
    {
      Db(orders, ledger)
    }

    constructor ()
      ensures View() == Db([], [])
    {
      orders, ledger := [], [];
    }

    /** Books a fill once, guarded by the row's `reconciled` flag. */
    method ApplyRemoteState(row: nat, r: Report, at: Stamp) returns (wrote: bool)
      requires row < |orders|
      modifies this
      ensures View() == ApplyAt(old(View()), row, r, at)
      ensures wrote == (ValidFill(r) && !old(orders)[row].reconciled)
      ensures |ledger| == |old(ledger)| + if wrote then 1 else 0
      ensures (&& !old(orders)[row].reconciled && r.status == Filled && r.filledQty >= 0.000001
               && r.filledAvg.Some? && r.filledAvg.value > 0.0) ==> wrote
      ensures wrote ==>
        && !old(orders)[row].reconciled && r.status == Filled && r.filledQty >= 0.000000999
        && r.filledAvg.Some? && r.filledAvg.value > 0.0
      ensures var o := old(orders)[row];
        && ledger == old(ledger) +
             (if wrote
              then [Entry(Tx(o.user, Upper(o.symbol), o.side, Stored(r.filledQty), Stored(r.filledAvg.value), at),
                          Some(o.id))]
              else [])
        && orders == old(orders)[row := Order(o.user, o.id, o.symbol, o.side, o.quantity,
                                              r.status, r.filledQty, r.filledAvg, orders[row].reconciled)]
        && (orders[row].reconciled <==>
              o.reconciled || wrote || r.status in {Canceled, Expired, Rejected, Replaced, DoneForDay})
    {
      BookableIs(r);
      var o := orders[row];
      o := o.(status := r.status, filledQty := r.filledQty, filledAvg := r.filledAvg);
      wrote := false;
      if r.status == Filled && !o.reconciled && r.filledQty > EPS && r.filledAvg.Some? && r.filledAvg.value > 0.0 {
        ledger := ledger + [Entry(BookTx(o, r, at), Some(o.id))];
        o := o.(reconciled := true);
        wrote := true;
      } else if IsTerminal(r.status) && r.status != Filled {
        o := o.(reconciled := true);
      }
      orders := orders[row := o];
    }

    /** The webhook path; an unknown order is ignored. */
    method IngestFillEvent(id: BrokerId, r: Report, at: Stamp) returns (wrote: bool)
      modifies this
      ensures View() == Exec(old(View()), Observe(id, r, at))
      ensures |ledger| == |old(ledger)| + if wrote then 1 else 0
    {
      var row := FindRow(orders, id);
      if row.None? {
        return false;
      }
      wrote := ApplyRemoteState(row.value, r, at);
    }

    /** The polling backstop over every unreconciled row, one provider look-up per user. */
    method ReconcileOpenOrders(poll: Poll, connected: nat -> bool, at: Stamp) returns (written: nat)
      modifies this
      ensures View() == SweepRows(old(View()), OpenRows(old(orders)), poll, connected, at)
      ensures |ledger| == |old(ledger)| + written
    {
      hide ValidFill, ClosesUnfilled, BookTx, Observed, OpenRows, ApplyAt, SweepRows;
      var open := OpenRows(orders);
      SweepNothing(View(), poll, connected, at);
      var providers: map<nat, bool> := map[];
      written := 0;
      for k := 0 to |open|
        invariant View() == SweepRows(old(View()), open[..k], poll, connected, at)
        invariant |ledger| == |old(ledger)| + written
        invariant forall u :: u in providers ==> providers[u] == connected(u)
      {
        SweepOneMore(old(View()), open, k, poll, connected, at);
        var row := open[k];
        var o := orders[row];
        if o.user !in providers {
          providers := providers[o.user := connected(o.user)];
        }
        if providers[o.user] {
          var answer := poll(o.id);
          if answer.Some? {
            var wrote := ApplyRemoteState(row, answer.value, at);
            if wrote {
              written := written + 1;
            }
          }
        }
      }
      assert open[..|open|] == open;
    }

    /** `_resync`: copies the venue's state, and never books. */
    method Resync(row: nat, answer: Option<Report>)
      requires row < |orders|
      modifies this
      ensures View() == if answer.Some? then Exec(old(View()), Refresh(row, answer.value)) else old(View())
      ensures ledger == old(ledger)
      ensures answer.Some? ==>
        var o, r := old(orders)[row], answer.value;
        orders == old(orders)[row := Order(o.user, o.id, o.symbol, o.side, o.quantity,
                                           if r.status == Unlisted("") then o.status else r.status,
                                           r.filledQty, r.filledAvg, o.reconciled)]
    {
      if answer.Some? {
        orders := orders[row := Refreshed(orders[row], answer.value)];
      }
    }

    /** Asks the venue to cancel one order; a refusal for lateness resyncs the row first. */
    method CancelOrder(user: nat, row: nat, connected: bool, reply: CancelReply, resync: Option<Report>)
      returns (r: Result<Order, Failure>)
      modifies this
      ensures r.Ok? <==>
        && row < |old(orders)| && old(orders)[row].user == user
        && IsCancelable(old(orders)[row].status) && connected && reply == CancelAccepted
      ensures r.Ok? ==> View() == Exec(old(View()), Mark(row, PendingCancel)) && r.value == orders[row]
      ensures r.Ok? ==>
        ledger == old(ledger) && orders == old(orders)[row := old(orders)[row].(status := PendingCancel)]
      ensures r == Err(NotFound) <==> row >= |old(orders)| || old(orders)[row].user != user
      ensures var late :=
                && row < |old(orders)| && old(orders)[row].user == user
                && IsCancelable(old(orders)[row].status) && connected && reply == TooLate;
        && (late ==> r == Err(NotCancelable))
        && (r.Err? ==>
              View() == if late && resync.Some? then Exec(old(View()), Refresh(row, resync.value)) else old(View()))
    {
      if row >= |orders| || orders[row].user != user {
        return Err(NotFound);
      }
      if !IsCancelable(orders[row].status) {
        return Err(NotCancelable);
      }
      if !connected {
        return Err(NoCredentials);
      }
      match reply {
        case CancelAccepted =>
          orders := orders[row := orders[row].(status := PendingCancel)];
          r := Ok(orders[row]);
        case TooLate =>
          Resync(row, resync);
          r := Err(NotCancelable);
        case CancelFailed =>
          r := Err(VenueError);
      }
    }

    /** Best-effort flatten: one refusal does not strand the rest. */
    method CancelOpenOrders(user: nat, connected: bool, accepts: BrokerId -> bool) returns (canceled: nat)
      modifies this
      ensures ledger == old(ledger) && |orders| == |old(orders)|
      ensures forall i :: 0 <= i < |orders| ==>
        orders[i] == if connected then Flattened(old(orders)[i], user, accepts) else old(orders)[i]
      ensures canceled == if connected then CountFlattened(old(orders), user, accepts) else 0
      ensures forall i :: 0 <= i < |orders| ==>
        var o := old(orders)[i];
        orders[i] ==
          if connected && o.user == user && !o.reconciled && accepts(o.id)
             && (o.status.Unlisted?
                 || o.status in {Pending, New, Accepted, PartiallyFilled, PendingCancel, PendingReplace})
          then o.(status := PendingCancel) else o
    {
      if !connected {
        return 0;
      }
      canceled := 0;
      for i := 0 to |orders|
        invariant ledger == old(ledger) && |orders| == |old(orders)|
        invariant forall j :: 0 <= j < i ==> orders[j] == Flattened(old(orders)[j], user, accepts)
        invariant forall j :: i <= j < |orders| ==> orders[j] == old(orders)[j]
        invariant canceled == CountFlattened(old(orders)[..i], user, accepts)
      {
        assert old(orders)[..i + 1][..i] == old(orders)[..i];
        if Working(orders[i], user) {
          if accepts(orders[i].id) {
            orders := orders[i := orders[i].(status := PendingCancel)];
            canceled := canceled + 1;
          }
        }
      }
      assert old(orders)[..|orders|] == old(orders);
    }

    /** Amends a working order: the old row is retired but left for the sweep to reconcile, and the
        venue's new order gets a row of its own. */
    method ReplaceOrder(user: nat, row: nat, halted: bool, amended: Option<real>, price: real, maxNotional: real,
                        connected: bool, reply: Option<Replacement>) returns (r: Result<nat, Failure>)
      modifies this
      ensures r.Err? ==> View() == old(View())
      ensures r.Ok? <==>
        && row < |old(orders)| && old(orders)[row].user == user
        && IsCancelable(old(orders)[row].status) && !halted
        && 0.0 < Scale(amended.GetOr(old(orders)[row].quantity), price) <= maxNotional
        && connected && reply.Some?
      ensures r.Ok? ==>
        var o := old(orders)[row];
        View() == Exec(Exec(old(View()), Mark(row, Replaced)),
                       Insert(ReplacementRow(o, amended.GetOr(o.quantity), reply.value)))
        && r.value == |old(orders)| && orders[r.value].reconciled == false
        && orders[row].reconciled == o.reconciled
      ensures r.Ok? ==>
        var o, p := old(orders)[row], reply.value;
        && ledger == old(ledger)
        && orders == old(orders)[row := o.(status := Replaced)] +
             [Order(o.user, p.id, if p.symbol == "" then o.symbol else p.symbol, p.side.GetOr(o.side),
                    if p.quantity == 0.0 then amended.GetOr(o.quantity) else p.quantity,
                    if p.status == Unlisted("") then PendingReplace else p.status, p.filledQty, p.filledAvg, false)]
    {
      if row >= |orders| || orders[row].user != user {
        return Err(NotFound);
      }
      var o := orders[row];
      if !IsCancelable(o.status) {
        return Err(NotAmendable);
      }
      if halted {
        return Err(Halted);
      }
      var quantity := if amended.Some? then amended.value else o.quantity;
      var notional := Scale(quantity, price);
      if notional <= 0.0 || notional > maxNotional {
        return Err(BadNotional);
      }
      if !connected {
        return Err(NoCredentials);
      }
      if reply.None? {
        return Err(VenueError);
      }
      orders := orders[row := o.(status := Replaced)];
      orders := orders + [ReplacementRow(o, quantity, reply.value)];
      r := Ok(|orders| - 1);
    }
  }

  function ReplacementRow(o: Order, quantity: real, p: Replacement): Order {
    Order(o.user, p.id,
          if p.symbol != "" then p.symbol else o.symbol,
          if p.side.Some? then p.side.value else o.side,
          if p.quantity != 0.0 then p.quantity else quantity,
          if p.status == Unlisted("") then PendingReplace else p.status,
          p.filledQty, p.filledAvg, false)
  }

  // ---- What the sweep does to every row ----------------------------------------------------------

  lemma {:induction false} OpenRowsAre(orders: seq<Order>, i: nat)
    requires i < |orders|
    ensures i in OpenRows(orders) <==> !orders[i].reconciled
    ensures forall j, k :: 0 <= j < k < |OpenRows(orders)| ==> OpenRows(orders)[j] < OpenRows(orders)[k]
  {
    var n := |orders| - 1;
    if n == 0 {
    } else {
      OpenRowsAre(orders[..n], if i < n then i else 0);
    }
    assert i < n ==> orders[..n][i] == orders[i];
    if i == n {
      assert forall k :: 0 <= k < |OpenRows(orders[..n])| ==> OpenRows(orders[..n])[k] < n;
    }
  }

  ghost function RowsCanceled(orders: seq<Order>, user: nat, accepts: BrokerId -> bool, n: nat): set<int>
    requires n <= |orders|
  {
    set i | 0 <= i < n && Working(orders[i], user) && accepts(orders[i].id)
  }

  lemma RowsCanceledGrow(orders: seq<Order>, user: nat, accepts: BrokerId -> bool, n: nat)
    requires n < |orders|
    ensures n !in RowsCanceled(orders, user, accepts, n)
    ensures RowsCanceled(orders, user, accepts, n + 1) ==
            RowsCanceled(orders, user, accepts, n) +
            if Working(orders[n], user) && accepts(orders[n].id) then {n as int} else {}
  {
    hide Working;
  }

  lemma {:induction false} CountUpTo(orders: seq<Order>, user: nat, accepts: BrokerId -> bool, n: nat)
    requires n <= |orders|
    ensures CountFlattened(orders[..n], user, accepts) == |RowsCanceled(orders, user, accepts, n)|
  {
    hide Working;
    if n == 0 {
      assert RowsCanceled(orders, user, accepts, n) == {};
    } else {
      CountUpTo(orders, user, accepts, n - 1);
      RowsCanceledGrow(orders, user, accepts, n - 1);
      assert orders[..n][..n - 1] == orders[..n - 1];
      hide RowsCanceled;
    }
  }

  /** The count of a flatten is the number of rows it cancels. */
  lemma CountIsRowsCanceled(orders: seq<Order>, user: nat, accepts: BrokerId -> bool)
    ensures CountFlattened(orders, user, accepts) == |RowsCanceled(orders, user, accepts, |orders|)|
  {
    CountUpTo(orders, user, accepts, |orders|);
    assert orders[..|orders|] == orders;
  }

  ghost predicate ClosedUnfilled(closing: Option<Op>) {
    closing.Some? && closing.value.Observe? && ClosesUnfilled(closing.value.report)
  }

  /** A fill that was seen but not booked is still selected by the next sweep, unless a terminal
      report without a fill closed the order first. */
  lemma SeenFillsStaySelected(db: Db, ops: seq<Op>, row: nat)
    requires row < |db.orders| && FindRow(db.orders, db.orders[row].id) == Some(row)
    requires !db.orders[row].reconciled && BookedFor(db.ledger, db.orders[row].id) == []
    ensures var now := RunOps(db, ops);
      var id := db.orders[row].id;
      row in OpenRows(now.orders) <==> BookedFor(now.ledger, id) == [] && !ClosedUnfilled(FirstClosing(ops, id))
  {
    ExactlyOnceBooking(db, ops, row);
    OpenRowsAre(RunOps(db, ops).orders, row);
    ClosingIsAmongThem(ops, db.orders[row].id);
  }
}
