/** One polling sweep over a venue that has finished brings the ledger into step with the broker;
    and the two ways an order's fill is lost for good. */
module Settling {
  import opened Money
  import opened Text
  import opened Portfolio
  import opened Orders
  import opened Desk
  import opened Conservation
  import opened Drift

  // ---- What a sweep does row by row ---------------------------------------------------------

  ghost predicate Distinct(rows: seq<nat>) {
    forall j, k :: 0 <= j < k < |rows| ==> rows[j] != rows[k]
  }

  lemma {:induction false} SweepLeavesOthers(db: Db, rows: seq<nat>, poll: Poll, connected: nat -> bool, at: Stamp)
    requires forall k :: 0 <= k < |rows| ==> rows[k] < |db.orders|
    ensures var now := SweepRows(db, rows, poll, connected, at);
      && db.ledger <= now.ledger
      && forall i :: 0 <= i < |db.orders| && i !in rows ==> now.orders[i] == db.orders[i]
  {
    hide ValidFill, BookTx, Observed;
    if rows == [] {
    } else {
      SweepLeavesOthers(db, rows[..|rows| - 1], poll, connected, at);
    }
  }

  /** An open row that is answered ends reconciled exactly when its answer closes it, and booked
      when the answer is a valid fill. */
  lemma {:induction false} SweepHandles(db: Db, rows: seq<nat>, poll: Poll, connected: nat -> bool, at: Stamp, k: nat)
    requires forall j :: 0 <= j < |rows| ==> rows[j] < |db.orders|
    requires Distinct(rows) && k < |rows| && !db.orders[rows[k]].reconciled
    requires connected(db.orders[rows[k]].user) && poll(db.orders[rows[k]].id).Some?
    ensures var now := SweepRows(db, rows, poll, connected, at);
      var o, r := db.orders[rows[k]], poll(db.orders[rows[k]].id).value;
      && now.orders[rows[k]] == Observed(o, r)
      && (ValidFill(r) ==> Booked(now.ledger, o.id))
  {
    hide ValidFill, BookTx, Observed;
    var before := rows[..|rows| - 1];
    var prev := SweepRows(db, before, poll, connected, at);
    var now := SweepRows(db, rows, poll, connected, at);
    if k < |before| {
      SweepHandles(db, before, poll, connected, at, k);
      assert now.ledger == prev.ledger || now.ledger[..|prev.ledger|] == prev.ledger;
      BookedStays(prev.ledger, now.ledger, db.orders[rows[k]].id);
    } else {
      SweepLeavesOthers(db, before, poll, connected, at);
      assert prev.orders[rows[k]] == db.orders[rows[k]];
      if ValidFill(poll(db.orders[rows[k]].id).value) {
        assert now.ledger[|prev.ledger|].origin == Some(db.orders[rows[k]].id);
      }
    }
  }

  /** A row whose user has no provider, or whose poll failed, stays as it is. */
  lemma {:induction false} UnansweredRowsStay(db: Db, rows: seq<nat>, poll: Poll, connected: nat -> bool, at: Stamp,
                                              k: nat)
    requires forall j :: 0 <= j < |rows| ==> rows[j] < |db.orders|
    requires Distinct(rows) && k < |rows|
    requires !connected(db.orders[rows[k]].user) || poll(db.orders[rows[k]].id).None?
    ensures SweepRows(db, rows, poll, connected, at).orders[rows[k]] == db.orders[rows[k]]
  {
    hide ValidFill, BookTx, Observed;
    var before := rows[..|rows| - 1];
    if k < |before| {
      UnansweredRowsStay(db, before, poll, connected, at, k);
    } else {
      SweepLeavesOthers(db, before, poll, connected, at);
    }
  }

  /** In numbers: an open row answered "filled", at a price above zero and with at least a millionth of a
      unit, is booked and reconciled by the sweep. */
  lemma SweepBooksTheFill(db: Db, rows: seq<nat>, poll: Poll, connected: nat -> bool, at: Stamp,
                          k: nat, q: real, p: real)
    requires forall j :: 0 <= j < |rows| ==> rows[j] < |db.orders|
    requires Distinct(rows) && k < |rows| && !db.orders[rows[k]].reconciled && connected(db.orders[rows[k]].user)
    requires poll(db.orders[rows[k]].id) == Some(Report(Filled, q, Some(p))) && q >= 0.000001 && p > 0.0
    ensures var now := SweepRows(db, rows, poll, connected, at);
      Booked(now.ledger, db.orders[rows[k]].id) && now.orders[rows[k]].reconciled
  {
    SweepHandles(db, rows, poll, connected, at, k);
    BookableIs(Report(Filled, q, Some(p)));
    hide SweepRows, Booked;
  }

  lemma BookedStays(a: seq<Entry>, b: seq<Entry>, id: BrokerId)
    requires a <= b
    ensures Booked(a, id) ==> Booked(b, id)
  {
    if Booked(a, id) {
      var j :| 0 <= j < |a| && a[j].origin == Some(id);
      assert b[j].origin == Some(id);
    }
  }

  /** Answers are states their orders have been in. */
  ghost predicate Truthful(venue: Venue, poll: Poll) {
    forall id :: id in venue && poll(id).Some? ==> poll(id).value in venue[id].history
  }

  lemma {:induction false} SweepKeepsSound(w: World, rows: seq<nat>, poll: Poll, connected: nat -> bool, at: Stamp)
    requires forall k :: 0 <= k < |rows| ==> rows[k] < |w.db.orders|
    requires Sound(w) && Truthful(w.venue, poll)
    ensures Sound(w.(db := SweepRows(w.db, rows, poll, connected, at)))
  {
    if rows == [] {
    } else {
      var before := rows[..|rows| - 1];
      SweepKeepsSound(w, before, poll, connected, at);
      var v := w.(db := SweepRows(w.db, before, poll, connected, at));
      var i := rows[|rows| - 1];
      assert SameOrder(v.db.orders[i], w.db.orders[i]);
      RowsAreAtTheVenue(v, i);
      var id := v.db.orders[i].id;
      hide Sound;
      if poll(id).Some? {
        var k :| 0 <= k < |w.venue[id].history| && w.venue[id].history[k] == poll(id).value;
        AppliedReportStaysSound(v, i, k, at);
      }
    }
  }

  lemma RowsAreAtTheVenue(w: World, i: nat)
    requires Sound(w) && i < |w.db.orders|
    ensures w.db.orders[i].id in w.venue && w.db.orders[i].user == w.venue[w.db.orders[i].id].user
  {
    assert RowMatches(w.venue, w.db.orders[i]);
  }

  // ---- The settling theorem -------------------------------------------------------------------

  /** The venue is done with an order: it filled with a price, or closed with no fill at all and
      was never reopened after closing. */
  ghost predicate Finished(v: VenueOrder) {
    && v.history != []
    && (ValidFill(Last(v)) || (ClosesUnfilled(Last(v)) && Last(v).filledQty == 0.0))
    && forall k :: 0 <= k < |v.history| && ClosesUnfilled(v.history[k]) ==> !ValidFill(Last(v))
  }

  /** Every order of the user is finished, has a row, and is answered with its final state. */
  ghost predicate ReadyToSettle(w: World, user: nat, poll: Poll, connected: nat -> bool) {
    && connected(user)
    && forall id :: id in w.venue && w.venue[id].user == user ==>
         Finished(w.venue[id]) && HasRow(w.db.orders, id) && poll(id) == Some(Last(w.venue[id]))
  }

  lemma OpenRowsDistinct(orders: seq<Order>)
    ensures Distinct(OpenRows(orders))
  {
    if orders == [] {
      assert OpenRows(orders) == [];
    } else {
      OpenRowsAre(orders, 0);
    }
  }

  /** After the sweep every order of the user has a reconciled row, and is booked unless it closed
      with no fill. */
  lemma SweepAccountsFor(w: World, user: nat, poll: Poll, connected: nat -> bool, at: Stamp, id: BrokerId)
    requires Sound(w) && ReadyToSettle(w, user, poll, connected) && id in w.venue && w.venue[id].user == user
    ensures var now := SweepRows(w.db, OpenRows(w.db.orders), poll, connected, at);
      && (exists i :: 0 <= i < |now.orders| && now.orders[i].id == id && now.orders[i].reconciled)
      && (Booked(now.ledger, id) || Last(w.venue[id]).filledQty == 0.0)
  {
    var rows := OpenRows(w.db.orders);
    var now := SweepRows(w.db, rows, poll, connected, at);
    assert Finished(w.venue[id]) && HasRow(w.db.orders, id) && poll(id) == Some(Last(w.venue[id])) && connected(user);
    var i :| 0 <= i < |w.db.orders| && w.db.orders[i].id == id;
    var o := w.db.orders[i];
    hide SweepRows, OpenRows, Sound, ReadyToSettle, Booked, Distinct;
    RowsAreAtTheVenue(w, i);
    OpenRowsAre(w.db.orders, i);
    OpenRowsDistinct(w.db.orders);
    SweepLeavesOthers(w.db, rows, poll, connected, at);
    BookedStays(w.db.ledger, now.ledger, id);
    if o.reconciled {
      assert now.orders[i] == o;
      ReconciledIsExplained(w, i);
    } else {
      var k :| 0 <= k < |rows| && rows[k] == i;
      SweepHandles(w.db, rows, poll, connected, at, k);
      assert now.orders[i] == Observed(o, Last(w.venue[id]));
    }
  }

  lemma ReconciledIsExplained(w: World, i: nat)
    requires Sound(w) && i < |w.db.orders| && w.db.orders[i].reconciled
    ensures var id := w.db.orders[i].id;
      id in w.venue && (Booked(w.db.ledger, id) ||
        exists k :: 0 <= k < |w.venue[id].history| && ClosesUnfilled(w.venue[id].history[k]))
  {
    assert RowMatches(w.venue, w.db.orders[i]) && RowExplained(w, w.db.orders[i]);
  }

  /** Nobody traded by hand, and no sale was booked before its purchase. */
  ghost predicate Undisturbed(w: World, user: nat) {
    && (forall j :: 0 <= j < |w.db.ledger| && w.db.ledger[j].tx.user == user ==> w.db.ledger[j].origin.Some?)
    && (forall s :: NoOversell(UserLedger(w, user), s))
  }

  lemma AccountedIsSettled(w: World, user: nat)
    requires Undisturbed(w, user)
    requires forall id ::
               id in w.venue && w.venue[id].user == user && w.venue[id].history != [] && !Booked(w.db.ledger, id) ==>
                 Last(w.venue[id]).filledQty == 0.0
    ensures Settled(w, user)
  {
    hide NoOversell, UserLedger, Booked;
  }

  lemma SweepSettles(w: World, user: nat, poll: Poll, connected: nat -> bool, at: Stamp)
    requires Sound(w) && Truthful(w.venue, poll) && ReadyToSettle(w, user, poll, connected)
    requires Undisturbed(w.(db := SweepRows(w.db, OpenRows(w.db.orders), poll, connected, at)), user)
    ensures var now := w.(db := SweepRows(w.db, OpenRows(w.db.orders), poll, connected, at));
      Sound(now) && Settled(now, user)
  {
    var now := w.(db := SweepRows(w.db, OpenRows(w.db.orders), poll, connected, at));
    SweepKeepsSound(w, OpenRows(w.db.orders), poll, connected, at);
    hide SweepRows, Sound, Undisturbed, Booked, OpenRows;
    forall id |
      id in now.venue && now.venue[id].user == user && now.venue[id].history != [] && !Booked(now.db.ledger, id)
      ensures Last(now.venue[id]).filledQty == 0.0
    {
      SweepAccountsFor(w, user, poll, connected, at, id);
    }
    AccountedIsSettled(now, user);
  }

  /** Whatever happened before, one complete sweep over a finished venue leaves the drift report in
      sync, symbol by symbol, exactly when rounding has added up to no more than the tolerance; provided
      nobody traded by hand and no sale was booked before its purchase. */
  lemma OneSweepBringsInSyncExactlyWhen(steps: seq<Step>, user: nat, poll: Poll, connected: nat -> bool, at: Stamp,
                                        broker: map<string, real>, state: map<string, Slot>, symbol: string)
    requires var w := Run(GENESIS, steps);
      Truthful(w.venue, poll) && ReadyToSettle(w, user, poll, connected)
    requires var w := Run(GENESIS, steps);
      var now := w.(db := SweepRows(w.db, OpenRows(w.db.orders), poll, connected, at));
      Describes(now, user, broker, state) && Undisturbed(now, user)
    ensures var w := Run(GENESIS, steps);
      var now := w.(db := SweepRows(w.db, OpenRows(w.db.orders), poll, connected, at));
      && (!Drifts(broker, state, symbol) <==> Abs(RoundedUnits(now, user, symbol)) <= EPS)
      && (RoundingFits(now, user, symbol) ==> !Drifts(broker, state, symbol))
  {
    var w := Run(GENESIS, steps);
    RunIsSound(steps);
    hide Run, Sound, SweepRows, OpenRows, Describes, Undisturbed, Drifts, RoundedUnits, RoundingFits, Truthful,
         ReadyToSettle, Settled;
    var now := w.(db := SweepRows(w.db, OpenRows(w.db.orders), poll, connected, at));
    SweepSettles(w, user, poll, connected, at);
    SettledIsInSyncExactlyWhen(now, user, broker, state, symbol);
    if RoundingFits(now, user, symbol) {
      FittingRoundingIsTolerated(now, user, symbol);
    }
  }

  ghost predicate HasReconciledRow(orders: seq<Order>, id: BrokerId) {
    exists i :: 0 <= i < |orders| && orders[i].id == id && orders[i].reconciled
  }

  /** An order that some report closed without booking ended with no fill. */
  ghost predicate NotClosedPartiallyFilled(v: VenueOrder) {
    v.history != [] ==>
      forall k :: 0 <= k < |v.history| && ClosesUnfilled(v.history[k]) ==> Last(v).filledQty == 0.0
  }

  lemma ReconciledOrderIsAccountedFor(w: World, id: BrokerId)
    requires Sound(w) && id in w.venue && HasReconciledRow(w.db.orders, id) && NotClosedPartiallyFilled(w.venue[id])
    ensures w.venue[id].history != [] && !Booked(w.db.ledger, id) ==> Last(w.venue[id]).filledQty == 0.0
  {
    var i :| 0 <= i < |w.db.orders| && w.db.orders[i].id == id && w.db.orders[i].reconciled;
    ReconciledIsExplained(w, i);
  }

  /** However it came about: once every order of a user is reconciled and none closed partially filled,
      the drift report is in sync exactly when rounding has added up to no more than the tolerance, manual
      trades and oversells aside. */
  lemma ReconciledRunIsInSyncExactlyWhen(steps: seq<Step>, user: nat, broker: map<string, real>,
                                         state: map<string, Slot>, symbol: string)
    requires var w := Run(GENESIS, steps);
      forall id :: id in w.venue && w.venue[id].user == user ==>
        HasReconciledRow(w.db.orders, id) && NotClosedPartiallyFilled(w.venue[id])
    requires var w := Run(GENESIS, steps); Describes(w, user, broker, state) && Undisturbed(w, user)
    ensures var w := Run(GENESIS, steps);
      && (!Drifts(broker, state, symbol) <==> Abs(RoundedUnits(w, user, symbol)) <= EPS)
      && (RoundingFits(w, user, symbol) ==> !Drifts(broker, state, symbol))
  {
    var w := Run(GENESIS, steps);
    RunIsSound(steps);
    hide Run, Sound, Describes, Undisturbed, HasReconciledRow, NotClosedPartiallyFilled, Booked, Drifts, RoundedUnits,
         RoundingFits;
    forall id | id in w.venue && w.venue[id].user == user && w.venue[id].history != [] && !Booked(w.db.ledger, id)
      ensures Last(w.venue[id]).filledQty == 0.0
    {
      ReconciledOrderIsAccountedFor(w, id);
    }
    AccountedIsSettled(w, user);
    hide Settled;
    SettledIsInSyncExactlyWhen(w, user, broker, state, symbol);
    if RoundingFits(w, user, symbol) {
      FittingRoundingIsTolerated(w, user, symbol);
    }
  }

  // ---- Fills that are lost ------------------------------------------------------------------------

  lemma {:induction false} FirstClosingStays(ops: seq<Op>, more: seq<Op>, id: BrokerId)
    requires FirstClosing(ops, id).Some?
    ensures FirstClosing(ops + more, id) == FirstClosing(ops, id)
  {
    if more == [] {
      assert ops + more == ops;
    } else {
      assert (ops + more)[..|ops + more| - 1] == ops + more[..|more| - 1];
      FirstClosingStays(ops, more[..|more| - 1], id);
    }
  }

  /** An order closed by a terminal report other than "filled" is never booked, whatever fills that
      or any later report carries. */
  lemma ClosedUnfilledIsNeverBooked(db: Db, ops: seq<Op>, more: seq<Op>, row: nat)
    requires row < |db.orders| && FindRow(db.orders, db.orders[row].id) == Some(row)
    requires !db.orders[row].reconciled && BookedFor(db.ledger, db.orders[row].id) == []
    requires ClosedUnfilled(FirstClosing(ops, db.orders[row].id))
    ensures BookedFor(RunOps(db, ops + more).ledger, db.orders[row].id) == []
    ensures row !in OpenRows(RunOps(db, ops + more).orders)
  {
    FirstClosingStays(ops, more, db.orders[row].id);
    ExactlyOnceBooking(db, ops + more, row);
    SeenFillsStaySelected(db, ops + more, row);
  }

  /** Three units bought before a cancel stay at the broker and never reach the ledger. */
  lemma PartialCloseLosesItsFill(at: Stamp)
    ensures var bought := VenueOrder(0, "A", Buy, [Report(New, 0.0, None)]);
      var w := Next(Next(Next(Next(GENESIS,
        Place(7, bought)), Persist(7, 0, 10.0)),
        Progress(7, Report(Canceled, 3.0, Some(50.0)))), Deliver(7, 1, at));
      && BrokerUnits(w, 0, "A") == 3.0 && w.db.ledger == [] && OpenRows(w.db.orders) == []
  {
    LostFill(Report(Canceled, 3.0, Some(50.0)), at);
  }

  /** One order, persisted and moved on by the venue, with the row still as submitted. */
  lemma OneOpenOrder(close: Report)
    requires close.filledQty >= 0.0
    ensures var bought := VenueOrder(0, "A", Buy, [Report(New, 0.0, None)]);
      var c := Next(Next(Next(GENESIS, Place(7, bought)), Persist(7, 0, 10.0)), Progress(7, close));
      && c.venue == map[7 := bought.(history := bought.history + [close])]
      && c.db == Db([RowOf(7, bought, Report(New, 0.0, None), 10.0)], [])
  {
    var bought := VenueOrder(0, "A", Buy, [Report(New, 0.0, None)]);
    var a := Next(GENESIS, Place(7, bought));
    assert a.venue == map[7 := bought];
    var b := Next(a, Persist(7, 0, 10.0));
    assert b.db.orders == [RowOf(7, bought, Report(New, 0.0, None), 10.0)];
  }

  lemma LostFill(close: Report, at: Stamp)
    requires ClosesUnfilled(close) && close.filledQty >= 0.0
    ensures var bought := VenueOrder(0, "A", Buy, [Report(New, 0.0, None)]);
      var w := Next(Next(Next(Next(GENESIS,
        Place(7, bought)), Persist(7, 0, 10.0)), Progress(7, close)), Deliver(7, 1, at));
      && w.venue == map[7 := bought.(history := bought.history + [close])]
      && BrokerUnits(w, 0, "A") == close.filledQty && w.db.ledger == [] && OpenRows(w.db.orders) == []
      && |w.db.orders| == 1 && w.db.orders[0].id == 7 && w.db.orders[0].reconciled
  {
    var bought := VenueOrder(0, "A", Buy, [Report(New, 0.0, None)]);
    var c := Next(Next(Next(GENESIS, Place(7, bought)), Persist(7, 0, 10.0)), Progress(7, close));
    OneOpenOrder(close);
    var w := Next(c, Deliver(7, 1, at));
    assert bought.history + [close] == [Report(New, 0.0, None), close];
    OneHolding(w.venue, close);
    hide BrokerUnits, Upper, BookTx;
    assert c.db.orders[..0] == [];
    assert FindRow(c.db.orders, 7) == Some(0);
    assert w.db.orders[..0] == [];
  }

  lemma OneHolding(venue: Venue, close: Report)
    requires venue == map[7 := VenueOrder(0, "A", Buy, [Report(New, 0.0, None), close])]
    ensures forall db :: BrokerUnits(World(venue, db), 0, "A") == close.filledQty
  {
    assert Upper("A") == "A";
    assert venue.Keys == {7};
    SumOverRemove(venue.Keys, 7, FilledAt(venue, 0, "A"));
    assert venue.Keys - {7} == {};
  }

  /** An order reported done for the day and filled the day after is not booked either: the first
      report already closed it. */
  lemma FillAfterDayEndIsLost(at: Stamp)
    ensures var bought := VenueOrder(0, "A", Buy, [Report(New, 0.0, None)]);
      var w := Next(Next(Next(Next(GENESIS,
        Place(7, bought)), Persist(7, 0, 10.0)), Progress(7, Report(DoneForDay, 0.0, None))), Deliver(7, 1, at));
      var v := Next(Next(w, Progress(7, Report(Filled, 10.0, Some(50.0)))), Deliver(7, 2, at));
      v.db.ledger == [] && Last(v.venue[7]).filledQty == 10.0 && OpenRows(v.db.orders) == []
  {
    LostFill(Report(DoneForDay, 0.0, None), at);
    var bought := VenueOrder(0, "A", Buy, [Report(New, 0.0, None)]);
    var w := Next(Next(Next(Next(GENESIS,
      Place(7, bought)), Persist(7, 0, 10.0)), Progress(7, Report(DoneForDay, 0.0, None))), Deliver(7, 1, at));
    var u := Next(w, Progress(7, Report(Filled, 10.0, Some(50.0))));
    assert u.db == w.db && u.db.orders[..0] == [];
    assert FindRow(u.db.orders, 7) == Some(0);
    var v := Next(u, Deliver(7, 2, at));
    assert v.db.orders[..0] == [];
  }
}
