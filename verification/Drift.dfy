/** What the broker holds against what the ledger reconstructs: the exact gap over every run of
    the pipeline, and the drift report that shows it
    (app/services/reconciliation_service.py). */
module Drift {
  import opened Money
  import opened Text
  import opened Portfolio
  import opened Orders
  import opened Conservation

  // ---- Units held at the broker and in the ledger -------------------------------------------

  /** Signed units an order has filled for a user and symbol. */
  function Filled1(v: VenueOrder, user: nat, symbol: string): real {
    if v.history != [] && v.user == user && Upper(v.symbol) == symbol
    then (if v.side == Buy then Last(v).filledQty else -Last(v).filledQty) else 0.0
  }

  ghost function FilledAt(venue: Venue, user: nat, symbol: string): BrokerId -> real {
    (id: BrokerId) => if id in venue then Filled1(venue[id], user, symbol) else 0.0
  }

  ghost function UnbookedAt(w: World, user: nat, symbol: string): BrokerId -> real {
    (id: BrokerId) => if Booked(w.db.ledger, id) then 0.0 else FilledAt(w.venue, user, symbol)(id)
  }

  /** The same units as the ledger's column keeps them. */
  function Kept1(v: VenueOrder, user: nat, symbol: string): real {
    if v.history != [] && v.user == user && Upper(v.symbol) == symbol
    then (if v.side == Buy then Stored(Last(v).filledQty) else -Stored(Last(v).filledQty)) else 0.0
  }

  ghost function KeptAt(venue: Venue, user: nat, symbol: string): BrokerId -> real {
    (id: BrokerId) => if id in venue then Kept1(venue[id], user, symbol) else 0.0
  }

  ghost function RoundedAt(w: World, user: nat, symbol: string): BrokerId -> real {
    (id: BrokerId) =>
      if Booked(w.db.ledger, id) then FilledAt(w.venue, user, symbol)(id) - KeptAt(w.venue, user, symbol)(id) else 0.0
  }

  /** The broker's net position: every fill of every order. */
  ghost function BrokerUnits(w: World, user: nat, symbol: string): real {
    SumOver(w.venue.Keys, FilledAt(w.venue, user, symbol))
  }

  /** Fills at the venue that no ledger entry books. */
  ghost function UnbookedUnits(w: World, user: nat, symbol: string): real {
    SumOver(w.venue.Keys, UnbookedAt(w, user, symbol))
  }

  /** What booking at 8 places rounded away. */
  ghost function RoundedUnits(w: World, user: nat, symbol: string): real {
    SumOver(w.venue.Keys, RoundedAt(w, user, symbol))
  }

  /** Booked orders of a user and symbol. */
  ghost function BookedOne(w: World, user: nat, symbol: string): BrokerId -> real {
    (id: BrokerId) =>
      if Booked(w.db.ledger, id) && id in w.venue && w.venue[id].user == user && Upper(w.venue[id].symbol) == symbol
      then 1.0 else 0.0
  }

  ghost function BookedCount(w: World, user: nat, symbol: string): real {
    SumOver(w.venue.Keys, BookedOne(w, user, symbol))
  }

  function Txs(ledger: seq<Entry>): seq<Tx> {
    if ledger == [] then [] else Txs(ledger[..|ledger| - 1]) + [ledger[|ledger| - 1].tx]
  }

  /** The ledger as the portfolio service replays it for one user. */
  function UserLedger(w: World, user: nat): seq<Tx> {
    ForUser(Txs(w.db.ledger), user)
  }

  function Units1(tx: Tx, user: nat, symbol: string): real {
    if tx.user == user && tx.symbol == symbol then Signed1(tx) else 0.0
  }

  ghost function ManualUnits(ledger: seq<Entry>, user: nat, symbol: string): real {
    if ledger == [] then 0.0
    else
      var e := ledger[|ledger| - 1];
      ManualUnits(ledger[..|ledger| - 1], user, symbol) + if e.origin.None? then Units1(e.tx, user, symbol) else 0.0
  }

  lemma SignedGrows(txs: seq<Tx>, tx: Tx, symbol: string)
    ensures Signed(txs + [tx], symbol) == Signed(txs, symbol) + if tx.symbol == symbol then Signed1(tx) else 0.0
  {
    assert (txs + [tx])[..|txs|] == txs;
  }

  /** One more entry moves the user's signed sum by its own units. */
  lemma SignedOfEntry(ledger: seq<Entry>, user: nat, symbol: string)
    requires ledger != []
    ensures var before := ledger[..|ledger| - 1];
      Signed(ForUser(Txs(ledger), user), symbol) ==
      Signed(ForUser(Txs(before), user), symbol) + Units1(ledger[|ledger| - 1].tx, user, symbol)
  {
    hide Signed1;
    var before, tx := ledger[..|ledger| - 1], ledger[|ledger| - 1].tx;
    ForUserGrows(Txs(before), tx, user);
    SignedGrows(ForUser(Txs(before), user), tx, symbol);
    assert ForUser(Txs(before), user) + [] == ForUser(Txs(before), user);
  }

  ghost function BookedAt(venue: Venue, ledger: seq<Entry>, user: nat, symbol: string): BrokerId -> real {
    (id: BrokerId) => if Booked(ledger, id) then KeptAt(venue, user, symbol)(id) else 0.0
  }

  lemma LedgerMatchesPrefix(venue: Venue, ledger: seq<Entry>)
    requires ledger != [] && LedgerMatches(venue, ledger)
    ensures LedgerMatches(venue, ledger[..|ledger| - 1])
    ensures ledger[|ledger| - 1].origin.Some? ==> !Booked(ledger[..|ledger| - 1], ledger[|ledger| - 1].origin.value)
    ensures EntryMatches(venue, ledger[|ledger| - 1])
  {
  }

  /** Booking one more order adds its fill to the booked units, a manual entry adds none. */
  lemma BookedSumGrows(venue: Venue, before: seq<Entry>, e: Entry, user: nat, symbol: string)
    requires e.origin.Some? ==> e.origin.value in venue && !Booked(before, e.origin.value)
    ensures SumOver(venue.Keys, BookedAt(venue, before + [e], user, symbol)) ==
            SumOver(venue.Keys, BookedAt(venue, before, user, symbol)) +
            if e.origin.Some? then KeptAt(venue, user, symbol)(e.origin.value) else 0.0
  {
    var f, g := BookedAt(venue, before, user, symbol), BookedAt(venue, before + [e], user, symbol);
    forall id: BrokerId ensures Booked(before + [e], id) <==> Booked(before, id) || e.origin == Some(id) {
      BookedGrows(before, e, id);
    }
    hide Booked, KeptAt;
    if e.origin.Some? {
      SumOverChange(venue.Keys, e.origin.value, f, g);
    } else {
      SumOverSame(venue.Keys, f, g);
    }
  }

  lemma NothingBooked(venue: Venue, user: nat, symbol: string)
    ensures SumOver(venue.Keys, BookedAt(venue, [], user, symbol)) == 0.0
  {
    forall id | id in venue.Keys ensures BookedAt(venue, [], user, symbol)(id) == 0.0 {
      assert !Booked([], id);
    }
    SumOverZero(venue.Keys, BookedAt(venue, [], user, symbol));
  }

  /** The ledger holds, besides the manual entries, exactly the fills of the booked orders at 8 places. */
  lemma {:induction false} BookedFillsAreTheLedger(venue: Venue, ledger: seq<Entry>, user: nat, symbol: string)
    requires LedgerMatches(venue, ledger)
    ensures SumOver(venue.Keys, BookedAt(venue, ledger, user, symbol)) ==
            Signed(ForUser(Txs(ledger), user), symbol) - ManualUnits(ledger, user, symbol)
  {
    hide LedgerMatches, EntryMatches, Booked, BookedAt, KeptAt, Units1, SumOver;
    if ledger == [] {
      NothingBooked(venue, user, symbol);
    } else {
      hide Signed, ForUser, Txs;
      var before, e := ledger[..|ledger| - 1], ledger[|ledger| - 1];
      assert before + [e] == ledger;
      LedgerMatchesPrefix(venue, ledger);
      BookedFillsAreTheLedger(venue, before, user, symbol);
      SignedOfEntry(ledger, user, symbol);
      if e.origin.Some? {
        EntryIsItsFill(venue, e, user, symbol);
      }
      BookedSumGrows(venue, before, e, user, symbol);
    }
  }

  lemma EntryIsItsFill(venue: Venue, e: Entry, user: nat, symbol: string)
    requires EntryMatches(venue, e) && e.origin.Some?
    ensures e.origin.value in venue && KeptAt(venue, user, symbol)(e.origin.value) == Units1(e.tx, user, symbol)
  {
  }

  /** In every sound world the broker is ahead of the ledger's signed sum by the fills not booked and the
      fractions rounded away, and behind it by the manual entries. */
  lemma GapIsUnbookedLessManual(w: World, user: nat, symbol: string)
    requires Sound(w)
    ensures BrokerUnits(w, user, symbol) - Signed(UserLedger(w, user), symbol) ==
            UnbookedUnits(w, user, symbol) + RoundedUnits(w, user, symbol) - ManualUnits(w.db.ledger, user, symbol)
  {
    SoundParts(w);
    hide Sound, LedgerMatches, Booked, FilledAt, KeptAt;
    BookedFillsAreTheLedger(w.venue, w.db.ledger, user, symbol);
    var booked, rounded := BookedAt(w.venue, w.db.ledger, user, symbol), RoundedAt(w, user, symbol);
    var unbooked := UnbookedAt(w, user, symbol);
    var rest := (id: BrokerId) => rounded(id) + unbooked(id);
    SumOverPlus(w.venue.Keys, rounded, unbooked, rest);
    SumOverPlus(w.venue.Keys, booked, rest, FilledAt(w.venue, user, symbol));
  }

  /** Rounding takes at most half a unit in the eighth place per booked order, and nothing from fills that
      fit the column. */
  lemma RoundingIsSmall(w: World, user: nat, symbol: string)
    ensures Abs(RoundedUnits(w, user, symbol)) <= Scale(BookedCount(w, user, symbol), 0.000000005)
    ensures (forall id :: id in w.venue && w.venue[id].history != [] ==> OnGrid(Last(w.venue[id]).filledQty)) ==>
              RoundedUnits(w, user, symbol) == 0.0
  {
    var f, one := RoundedAt(w, user, symbol), BookedOne(w, user, symbol);
    forall id: BrokerId | id in w.venue
      ensures Abs(f(id)) <= Scale(one(id), 0.000000005)
      ensures (w.venue[id].history != [] ==> OnGrid(Last(w.venue[id]).filledQty)) ==> f(id) == 0.0
    {
      OneFillRounded(w, user, symbol, id);
    }
    hide RoundedAt, BookedOne, OnGrid, Scale;
    SumOverBound(w.venue.Keys, f, one, 0.000000005);
    if forall id :: id in w.venue && w.venue[id].history != [] ==> OnGrid(Last(w.venue[id]).filledQty) {
      SumOverZero(w.venue.Keys, f);
    }
  }

  lemma OneFillRounded(w: World, user: nat, symbol: string, id: BrokerId)
    requires id in w.venue
    ensures Abs(RoundedAt(w, user, symbol)(id)) <= Scale(BookedOne(w, user, symbol)(id), 0.000000005)
    ensures (w.venue[id].history != [] ==> OnGrid(Last(w.venue[id]).filledQty)) ==>
              RoundedAt(w, user, symbol)(id) == 0.0
  {
    hide Booked, Stored, OnGrid, Upper;
    assert FilledAt(w.venue, user, symbol)(id) == Filled1(w.venue[id], user, symbol);
    assert KeptAt(w.venue, user, symbol)(id) == Kept1(w.venue[id], user, symbol);
    hide FilledAt, KeptAt;
    if w.venue[id].history != [] {
      StoredIsClose(Last(w.venue[id]).filledQty);
      if OnGrid(Last(w.venue[id]).filledQty) {
        StoredOnGrid(Last(w.venue[id]).filledQty);
      }
    }
  }

  lemma {:induction false} RunIsSound(steps: seq<Step>)
    ensures Sound(Run(GENESIS, steps))
  {
    hide Sound, Next;
    if steps == [] {
      GenesisIsSound();
    } else {
      RunIsSound(steps[..|steps| - 1]);
      StepKeepsSound(Run(GENESIS, steps[..|steps| - 1]), steps[|steps| - 1]);
    }
  }

  lemma GenesisIsSound()
    ensures Sound(GENESIS)
  {
  }

  /** What columns give back fits columns. */
  lemma {:induction false} UserLedgerIsValid(ledger: seq<Entry>, user: nat)
    requires forall j :: 0 <= j < |ledger| ==> Storable(ledger[j].tx.quantity)
    ensures ValidLedger(ForUser(Txs(ledger), user)) && LedgerOnGrid(ForUser(Txs(ledger), user))
  {
    hide OnGrid;
    if ledger == [] {
    } else {
      UserLedgerIsValid(ledger[..|ledger| - 1], user);
      ForUserGrows(Txs(ledger[..|ledger| - 1]), ledger[|ledger| - 1].tx, user);
    }
  }

  /** Whole-run conservation. Over any interleaving of venue fills, lost, repeated and reordered
      reports, polls, resyncs, cancels, replaces and manual trades, the broker's position minus the
      reconstructed holding is exactly: fills not booked, plus fractions rounded away, minus manual
      trades, minus the units the replay dropped because a sale was booked before its purchase. */
  lemma RunConservesUnits(steps: seq<Step>, user: nat, symbol: string)
    ensures var w := Run(GENESIS, steps);
      var ledger := UserLedger(w, user);
      BrokerUnits(w, user, symbol) - SlotOf(ledger, symbol).qty ==
      UnbookedUnits(w, user, symbol) + RoundedUnits(w, user, symbol)
      - ManualUnits(w.db.ledger, user, symbol) - Dropped(ledger, symbol)
  {
    var w := Run(GENESIS, steps);
    hide Run, Signed, SlotOf, Dropped;
    RunIsSound(steps);
    GapIsUnbookedLessManual(w, user, symbol);
    SoundParts(w);
    UserLedgerIsValid(w.db.ledger, user);
    ClampedReplayIsReflectedSum(UserLedger(w, user), symbol);
  }

  // ---- The drift report ------------------------------------------------------------------------------

  datatype DriftItem = DriftItem(symbol: string, broker: real, local: real, drift: real)

  function BrokerQty(broker: map<string, real>, symbol: string): real {
    if symbol in broker then broker[symbol] else 0.0
  }

  /** The active holding: rounded to 8 places, shown when positive. */
  function LocalQty(state: map<string, Slot>, symbol: string): real {
    if symbol in state && Round8(state[symbol].qty) > 0.0 then Round8(state[symbol].qty) else 0.0
  }

  predicate Drifts(broker: map<string, real>, state: map<string, Slot>, symbol: string) {
    Abs(BrokerQty(broker, symbol) - LocalQty(state, symbol)) > EPS
  }

  function ItemFor(broker: map<string, real>, state: map<string, Slot>, symbol: string): DriftItem {
    var b, local := BrokerQty(broker, symbol), LocalQty(state, symbol);
    DriftItem(symbol, b, local, Round6(b - local))
  }

  /** A difference beyond the tolerance is never shown as zero, and what is shown is off by at
      most half a millionth. */
  lemma ShownDriftIsTelling(difference: real)
    requires Abs(difference) > EPS
    ensures Round6(difference) != 0.0
    ensures Abs(Round6(difference) - difference) <= 0.0000005
  {
    var x := difference * 1000000.0;
    assert x > 0.9 || x < -0.9;
    NearestIsNear(x);
    hide RoundHalfEven;
    assert Round6(difference) * 1000000.0 == RoundHalfEven(x) as real;
  }

  /** Lists exactly the symbols that drift; in sync means none does, or that the positions could not
      be fetched at all. */
  method PositionDrift(positions: Option<map<string, real>>, state: map<string, Slot>)
    returns (inSync: bool, items: seq<DriftItem>)
    ensures inSync <==> items == []
    ensures inSync <==> positions.None? || forall s :: !Drifts(positions.value, state, s)
    ensures positions.Some? ==> forall i :: 0 <= i < |items| ==>
      var s := items[i].symbol;
      Drifts(positions.value, state, s) && items[i] == ItemFor(positions.value, state, s)
    ensures positions.Some? ==> forall i :: 0 <= i < |items| ==>
      var s := items[i].symbol;
      && items[i].broker == (if s in positions.value then positions.value[s] else 0.0)
      && (s !in state ==> items[i].local == 0.0)
      && (s in state ==> items[i].local == (if Round8(state[s].qty) > 0.0 then Round8(state[s].qty) else 0.0))
      && items[i].drift == Round6(items[i].broker - items[i].local)
      && (items[i].broker - items[i].local > 0.000000999 || items[i].local - items[i].broker > 0.000000999)
    ensures positions.Some? ==>
      forall s :: Drifts(positions.value, state, s) ==> exists i :: 0 <= i < |items| && items[i].symbol == s
  {
    hide Round8, Round6;
    if positions.None? {
      return true, [];
    }
    var broker := positions.value;
    var symbols := broker.Keys + state.Keys;
    items := [];
    var todo := symbols;
    while todo != {}
      invariant todo <= symbols
      invariant forall i :: 0 <= i < |items| ==>
        var s := items[i].symbol;
        Drifts(broker, state, s) && items[i] == ItemFor(broker, state, s)
      invariant forall s :: s in symbols - todo && Drifts(broker, state, s) ==>
        exists i :: 0 <= i < |items| && items[i].symbol == s
    {
      var s :| s in todo;
      todo := todo - {s};
      var b, local := BrokerQty(broker, s), LocalQty(state, s);
      if Abs(b - local) > EPS {
        ghost var before := items;
        items := items + [DriftItem(s, b, local, Round6(b - local))];
        assert items[|before|].symbol == s;
        assert forall i :: 0 <= i < |before| ==> items[i] == before[i];
      }
    }
    assert forall s :: s !in symbols ==> !Drifts(broker, state, s);
    inSync := items == [];
    if !inSync {
      assert Drifts(broker, state, items[0].symbol);
    }
  }

  /** The broker's list and the user's reconstructed dictionary describe this world. */
  ghost predicate Describes(w: World, user: nat, broker: map<string, real>, state: map<string, Slot>) {
    && (forall s :: s in broker ==> broker[s] == BrokerUnits(w, user, s))
    && (forall s :: s !in broker ==> BrokerUnits(w, user, s) == 0.0)
    && (forall s :: s in state ==> state[s] == SlotOf(UserLedger(w, user), s))
    && (forall s :: s !in state ==> SlotOf(UserLedger(w, user), s) == EMPTY_SLOT)
  }

  lemma {:induction false} LowWaterOnGrid(ledger: seq<Tx>, symbol: string)
    requires LedgerOnGrid(ledger)
    ensures OnGrid(LowWater(ledger, symbol))
  {
    hide OnGrid;
    if ledger == [] {
      SignedOnGrid(ledger, symbol);
    } else {
      LowWaterOnGrid(ledger[..|ledger| - 1], symbol);
      SignedOnGrid(ledger, symbol);
    }
  }

  lemma HoldingShown(ledger: seq<Tx>, symbol: string, state: map<string, Slot>)
    requires ValidLedger(ledger) && LedgerOnGrid(ledger)
    requires if symbol in state then state[symbol] == SlotOf(ledger, symbol) else SlotOf(ledger, symbol) == EMPTY_SLOT
    ensures LocalQty(state, symbol) == SlotOf(ledger, symbol).qty
  {
    hide SlotOf, Signed, LowWater, OnGrid, Round8;
    ClampedReplayIsReflectedSum(ledger, symbol);
    SignedOnGrid(ledger, symbol);
    LowWaterOnGrid(ledger, symbol);
    GridIsClosed(Signed(ledger, symbol), LowWater(ledger, symbol));
    Round8OnGrid(SlotOf(ledger, symbol).qty);
  }

  /** What the drift report compares in such a world. */
  lemma ComparesUnits(w: World, user: nat, broker: map<string, real>, state: map<string, Slot>, symbol: string)
    requires Describes(w, user, broker, state) && Sound(w)
    ensures BrokerQty(broker, symbol) == BrokerUnits(w, user, symbol)
    ensures LocalQty(state, symbol) == SlotOf(UserLedger(w, user), symbol).qty
  {
    SoundParts(w);
    hide BrokerUnits, SlotOf, LocalQty;
    UserLedgerIsValid(w.db.ledger, user);
    HoldingShown(UserLedger(w, user), symbol, state);
  }

  /** Over any run a symbol drifts exactly when its unbooked fills and rounded fractions, less manual
      trades and dropped units, exceed the tolerance. */
  lemma DriftsExactlyWhen(steps: seq<Step>, user: nat, broker: map<string, real>, state: map<string, Slot>,
                          symbol: string)
    requires Describes(Run(GENESIS, steps), user, broker, state)
    ensures var w := Run(GENESIS, steps);
      Drifts(broker, state, symbol) <==>
      Abs(UnbookedUnits(w, user, symbol) + RoundedUnits(w, user, symbol)
          - ManualUnits(w.db.ledger, user, symbol) - Dropped(UserLedger(w, user), symbol)) > EPS
  {
    hide Run, SlotOf, Dropped, LocalQty, BrokerQty, Describes, BrokerUnits, UserLedger;
    hide UnbookedUnits, RoundedUnits, ManualUnits, Sound;
    var w := Run(GENESIS, steps);
    RunIsSound(steps);
    RunConservesUnits(steps, user, symbol);
    ComparesUnits(w, user, broker, state, symbol);
  }

  // ---- Settling ------------------------------------------------------------------------------------------

  /** Every fill of the user's orders is booked, and the ledger holds nothing else and no oversell. */
  ghost predicate Settled(w: World, user: nat) {
    && (forall id ::
          id in w.venue && w.venue[id].user == user && w.venue[id].history != [] && !Booked(w.db.ledger, id) ==>
          Last(w.venue[id]).filledQty == 0.0)
    && (forall j :: 0 <= j < |w.db.ledger| && w.db.ledger[j].tx.user == user ==> w.db.ledger[j].origin.Some?)
    && (forall s :: NoOversell(UserLedger(w, user), s))
  }

  lemma {:induction false} NoManualUnits(ledger: seq<Entry>, user: nat, symbol: string)
    requires forall j :: 0 <= j < |ledger| && ledger[j].tx.user == user ==> ledger[j].origin.Some?
    ensures ManualUnits(ledger, user, symbol) == 0.0
  {
    if ledger == [] {
    } else {
      NoManualUnits(ledger[..|ledger| - 1], user, symbol);
    }
  }

  /** In a settled world the ledger shows what the broker holds, up to the fractions rounded away. */
  lemma SettledHoldingsMatch(w: World, user: nat, symbol: string)
    requires Sound(w) && Settled(w, user)
    ensures SlotOf(UserLedger(w, user), symbol).qty == BrokerUnits(w, user, symbol) - RoundedUnits(w, user, symbol)
  {
    hide SlotOf, Signed, LowWater, Booked, ForUser, Txs;
    GapIsUnbookedLessManual(w, user, symbol);
    NoManualUnits(w.db.ledger, user, symbol);
    forall id | id in w.venue ensures UnbookedAt(w, user, symbol)(id) == 0.0 {
    }
    SumOverZero(w.venue.Keys, UnbookedAt(w, user, symbol));
    SoundParts(w);
    UserLedgerIsValid(w.db.ledger, user);
    ClampsExactlyOnOversell(UserLedger(w, user), symbol);
  }

  /** So its drift report is in sync, symbol by symbol, exactly when rounding has added up to no more than
      the tolerance. */
  lemma SettledIsInSyncExactlyWhen(w: World, user: nat, broker: map<string, real>, state: map<string, Slot>,
                                   symbol: string)
    requires Sound(w) && Settled(w, user) && Describes(w, user, broker, state)
    ensures !Drifts(broker, state, symbol) <==> Abs(RoundedUnits(w, user, symbol)) <= EPS
  {
    SettledHoldingsMatch(w, user, symbol);
    hide SlotOf, LocalQty, BrokerQty, Settled;
    SoundParts(w);
    UserLedgerIsValid(w.db.ledger, user);
    HoldingShown(UserLedger(w, user), symbol, state);
  }

  /** Which it has while fewer than 200 orders of the symbol are booked, or while fills fit the column. */
  ghost predicate RoundingFits(w: World, user: nat, symbol: string) {
    || BookedCount(w, user, symbol) < 200.0
    || forall id :: id in w.venue && w.venue[id].history != [] ==> OnGrid(Last(w.venue[id]).filledQty)
  }

  lemma {:induction false} CountIsWhole(ks: set<BrokerId>, f: BrokerId -> real) returns (n: int)
    requires forall k :: k in ks ==> f(k) == 0.0 || f(k) == 1.0
    ensures SumOver(ks, f) == n as real
  {
    if ks == {} {
      n := 0;
    } else {
      n := CountIsWhole(ks - {Pick(ks)}, f);
      n := if f(Pick(ks)) == 1.0 then n + 1 else n;
    }
  }

  lemma FittingRoundingIsTolerated(w: World, user: nat, symbol: string)
    requires RoundingFits(w, user, symbol)
    ensures Abs(RoundedUnits(w, user, symbol)) <= EPS
  {
    RoundingIsSmall(w, user, symbol);
    hide RoundedUnits, OnGrid;
    if BookedCount(w, user, symbol) < 200.0 {
      var n := CountIsWhole(w.venue.Keys, BookedOne(w, user, symbol));
      assert n <= 199;
    }
  }
}
