/** Fills finer than the ledger's columns: every order is filled, booked and reconciled, nobody trades by
    hand, and the drift report still ends out of sync (app/services/reconciliation_service.py). */
module FineFills {
  import opened Money
  import opened Text
  import opened Portfolio
  import opened Orders
  import opened Conservation
  import opened Drift

  /** A fill with a ninth decimal, which the column rounds to one unit. */
  const FINE: real := 1.000000004

  const OPENED := Report(New, 0.0, None)
  const FILLED := Report(Filled, FINE, Some(10.0))
  const ORDER := VenueOrder(0, "A", Buy, [OPENED, FILLED])

  /** One order from placement to booking. */
  function OneOrder(steps: seq<Step>, id: BrokerId, at: Stamp): seq<Step> {
    steps + [Place(id, ORDER.(history := [OPENED]))] + [Progress(id, FILLED)]
    + [Persist(id, 1, 2.0)] + [Deliver(id, 1, at)]
  }

  function ManyOrders(n: nat, at: Stamp): seq<Step> {
    if n == 0 then [] else OneOrder(ManyOrders(n - 1, at), n - 1, at)
  }

  function EntryFor(id: BrokerId, at: Stamp): Entry {
    Entry(Tx(0, "A", Buy, Stored(FINE), Stored(10.0), at), Some(id))
  }

  /** The first n orders are filled and booked, and there is nothing else. */
  ghost predicate AllBooked(w: World, n: nat, at: Stamp) {
    && (forall id: BrokerId :: id in w.venue <==> id < n)
    && (forall id :: id in w.venue ==> w.venue[id] == ORDER)
    && |w.db.orders| == n && (forall i :: 0 <= i < n ==> w.db.orders[i].id == i && w.db.orders[i].reconciled)
    && |w.db.ledger| == n && (forall i :: 0 <= i < n ==> w.db.ledger[i] == EntryFor(i, at))
  }

  lemma RunSnoc(steps: seq<Step>, step: Step)
    ensures Run(GENESIS, steps + [step]) == Next(Run(GENESIS, steps), step)
  {
    assert (steps + [step])[..|steps|] == steps;
  }

  lemma PlacedAndFilled(w: World, n: nat, at: Stamp)
    requires AllBooked(w, n, at)
    ensures Next(Next(w, Place(n, ORDER.(history := [OPENED]))), Progress(n, FILLED)) ==
            w.(venue := w.venue[n := ORDER])
  {
    var a := Next(w, Place(n, ORDER.(history := [OPENED])));
    assert a == w.(venue := w.venue[n := ORDER.(history := [OPENED])]);
    assert [OPENED] + [FILLED] == [OPENED, FILLED];
    var b := Next(a, Progress(n, FILLED));
    assert b.venue == w.venue[n := ORDER];
  }

  lemma PersistedAndBooked(w: World, n: nat, at: Stamp)
    requires n in w.venue && w.venue[n] == ORDER && FindRow(w.db.orders, n).None? && |w.db.orders| == n
    ensures var v := Next(Next(w, Persist(n, 1, 2.0)), Deliver(n, 1, at));
      && v.venue == w.venue && v.db.ledger == w.db.ledger + [EntryFor(n, at)]
      && |v.db.orders| == n + 1 && v.db.orders[n].id == n && v.db.orders[n].reconciled
      && (forall i :: 0 <= i < n ==> v.db.orders[i] == w.db.orders[i])
  {
    hide Stored;
    var row := RowOf(n, ORDER, FILLED, 2.0);
    var a := Next(w, Persist(n, 1, 2.0));
    assert a.db.orders == w.db.orders + [row];
    assert a.db.orders[..n] == w.db.orders;
    assert FindRow(a.db.orders, n) == Some(n);
    hide FindRow;
    assert Upper("A") == "A";
    hide Upper;
    assert ValidFill(FILLED);
  }

  lemma OneMoreBooked(w: World, n: nat, at: Stamp)
    requires AllBooked(w, n, at)
    ensures var v := Next(Next(w.(venue := w.venue[n := ORDER]), Persist(n, 1, 2.0)), Deliver(n, 1, at));
      AllBooked(v, n + 1, at)
  {
    FindRowFinds(w.db.orders, n);
    hide FindRow, Next, EntryFor;
    PersistedAndBooked(w.(venue := w.venue[n := ORDER]), n, at);
  }

  lemma RunOneOrder(steps: seq<Step>, id: BrokerId, at: Stamp)
    ensures Run(GENESIS, OneOrder(steps, id, at)) ==
            Next(Next(Next(Next(Run(GENESIS, steps),
              Place(id, ORDER.(history := [OPENED]))), Progress(id, FILLED)), Persist(id, 1, 2.0)), Deliver(id, 1, at))
  {
    hide Run, Next;
    var s1 := steps + [Place(id, ORDER.(history := [OPENED]))];
    RunSnoc(steps, Place(id, ORDER.(history := [OPENED])));
    RunSnoc(s1, Progress(id, FILLED));
    RunSnoc(s1 + [Progress(id, FILLED)], Persist(id, 1, 2.0));
    RunSnoc(s1 + [Progress(id, FILLED)] + [Persist(id, 1, 2.0)], Deliver(id, 1, at));
  }

  lemma NothingBookedYet(at: Stamp)
    ensures AllBooked(Run(GENESIS, ManyOrders(0, at)), 0, at)
  {
  }

  lemma {:induction false} AllGetBooked(n: nat, at: Stamp)
    ensures AllBooked(Run(GENESIS, ManyOrders(n, at)), n, at)
  {
    hide Run, Next, AllBooked, OneOrder;
    if n == 0 {
      NothingBookedYet(at);
    } else {
      var steps := ManyOrders(n - 1, at);
      AllGetBooked(n - 1, at);
      RunOneOrder(steps, n - 1, at);
      PlacedAndFilled(Run(GENESIS, steps), n - 1, at);
      OneMoreBooked(Run(GENESIS, steps), n - 1, at);
    }
  }

  function UpTo(n: nat): (ids: set<BrokerId>)
    ensures forall id: BrokerId :: id in ids <==> id < n
  {
    if n == 0 then {} else UpTo(n - 1) + {n - 1}
  }

  lemma {:induction false} SumUpTo(n: nat, f: BrokerId -> real, c: real)
    requires forall i: BrokerId :: i < n ==> f(i) == c
    ensures SumOver(UpTo(n), f) == n as real * c
  {
    if n == 0 {
    } else {
      var last: BrokerId := n - 1;
      SumUpTo(n - 1, f, c);
      SumOverRemove<BrokerId>(UpTo(n), last, f);
      assert UpTo(n) - {last} == UpTo(n - 1);
    }
  }

  lemma FineIsRounded()
    ensures Stored(FINE) == 1.0
  {
    assert Units(FINE) == 100000000.4;
    assert (Units(FINE) + 0.5).Floor == 100000000;
  }

  lemma EachLosesAFraction(w: World, n: nat, at: Stamp)
    requires AllBooked(w, n, at)
    ensures RoundedUnits(w, 0, "A") == n as real * 0.000000004
  {
    var f := RoundedAt(w, 0, "A");
    FineIsRounded();
    hide Stored;
    assert Upper("A") == "A";
    hide Upper;
    forall id: BrokerId | id < n ensures f(id) == 0.000000004 {
      assert w.db.ledger[id].origin == Some(id);
      assert Booked(w.db.ledger, id);
      assert FilledAt(w.venue, 0, "A")(id) == FINE && KeptAt(w.venue, 0, "A")(id) == Stored(FINE);
    }
    SumUpTo(n, f, 0.000000004);
    assert w.venue.Keys == UpTo(n);
  }

  lemma {:induction false} BuysNeverOversell(ledger: seq<Tx>, symbol: string)
    requires ValidLedger(ledger) && forall i :: 0 <= i < |ledger| ==> ledger[i].action == Buy
    ensures NoOversell(ledger, symbol) && Signed(ledger, symbol) >= 0.0
  {
    if ledger == [] {
    } else {
      var before, tx := ledger[..|ledger| - 1], ledger[|ledger| - 1];
      BuysNeverOversell(before, symbol);
      assert ledger == before + [tx];
      NoOversellExtends(before, tx, symbol);
    }
  }

  lemma {:induction false} OnlyBuys(ledger: seq<Entry>, user: nat)
    requires forall j :: 0 <= j < |ledger| ==> ledger[j].tx.action == Buy && ledger[j].tx.quantity >= 0.0
    ensures var txs := ForUser(Txs(ledger), user);
      ValidLedger(txs) && forall i :: 0 <= i < |txs| ==> txs[i].action == Buy
  {
    if ledger == [] {
    } else {
      OnlyBuys(ledger[..|ledger| - 1], user);
      ForUserGrows(Txs(ledger[..|ledger| - 1]), ledger[|ledger| - 1].tx, user);
    }
  }

  lemma AllBookedIsSettled(w: World, n: nat, at: Stamp)
    requires AllBooked(w, n, at)
    ensures Settled(w, 0)
  {
    forall id | id in w.venue ensures Booked(w.db.ledger, id) {
      assert w.db.ledger[id].origin == Some(id);
    }
    FineIsRounded();
    OnlyBuys(w.db.ledger, 0);
    hide NoOversell, Booked, Stored;
    forall s ensures NoOversell(UserLedger(w, 0), s) {
      BuysNeverOversell(UserLedger(w, 0), s);
    }
  }

  /** Three hundred such orders are enough: each one is filled, booked and reconciled, no trade is manual
      and no sale early, and broker and ledger are apart by more than the tolerance for good. */
  lemma FineFillsDrift(at: Stamp, broker: map<string, real>, state: map<string, Slot>)
    requires Describes(Run(GENESIS, ManyOrders(300, at)), 0, broker, state)
    ensures var w := Run(GENESIS, ManyOrders(300, at));
      && Settled(w, 0) && (forall i :: 0 <= i < |w.db.orders| ==> w.db.orders[i].reconciled)
      && RoundedUnits(w, 0, "A") == 0.0000012
      && Drifts(broker, state, "A")
  {
    var w := Run(GENESIS, ManyOrders(300, at));
    AllGetBooked(300, at);
    RunIsSound(ManyOrders(300, at));
    hide Run, ManyOrders, Describes, Settled, Drifts, RoundedUnits, Sound, EntryFor;
    EachLosesAFraction(w, 300, at);
    AllBookedIsSettled(w, 300, at);
    SettledIsInSyncExactlyWhen(w, 0, broker, state, "A");
  }
}
