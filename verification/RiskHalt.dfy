/** The daily opening snapshot raced by concurrent callers, and the automatic halt
    (app/services/risk_service.py, app/core/scheduler.py). */
module RiskHalt {
  import opened Money
  import opened Performance
  import Orders
  import Desk

  // ---- ensure_daily_snapshot as a protocol ------------------------------------------

  datatype Key = Key(user: nat, day: int)

  /** Where one call stands; each arrow of `Advance` is one uninterrupted stretch of code. */
  datatype Call =
    | Looking(key: Key)
    | Valuing(key: Key)
    | Inserting(key: Key, equity: real)
    | Refetching(key: Key)
    | Returned(key: Key, opening: real)
    | Missing(key: Key)

  datatype World = World(snapshots: map<Key, real>, calls: map<nat, Call>)

  datatype Event =
    | Begin(id: nat, key: Key)
    | Proceed(id: nat, equity: real)

  /** The next stretch of one call. `equity` is what the portfolio is worth if it is valued now;
      the unique constraint on (user, day) turns a late insert into a rollback and a re-read. */
  function Advance(snapshots: map<Key, real>, c: Call, equity: real): (map<Key, real>, Call) {
    match c
    case Looking(k) => (snapshots, if k in snapshots then Returned(k, snapshots[k]) else Valuing(k))
    case Valuing(k) => (snapshots, Inserting(k, equity))
    case Inserting(k, e) =>
      if k in snapshots then (snapshots, Refetching(k)) else (snapshots[k := e], Returned(k, e))
    case Refetching(k) => (snapshots, if k in snapshots then Returned(k, snapshots[k]) else Missing(k))
    case Returned(_, _) => (snapshots, c)
    case Missing(_) => (snapshots, c)
  }

  function Next(w: World, e: Event): World {
    match e
    case Begin(id, key) => if id in w.calls then w else w.(calls := w.calls[id := Looking(key)])
    case Proceed(id, equity) =>
      if id !in w.calls then w
      else
        var (snapshots, c) := Advance(w.snapshots, w.calls[id], equity);
        World(snapshots, w.calls[id := c])
  }

  function Run(w: World, events: seq<Event>): World {
    if events == [] then w else Next(Run(w, events[..|events| - 1]), events[|events| - 1])
  }

  ghost predicate Coherent(w: World) {
    forall id :: id in w.calls ==>
      match w.calls[id]
      case Returned(k, opening) => k in w.snapshots && w.snapshots[k] == opening
      case Refetching(k) => k in w.snapshots
      case Missing(_) => false
      case _ => true
  }

  /** Rows are only ever added: a snapshot, once there, keeps its value. */
  ghost predicate Extends(before: map<Key, real>, after: map<Key, real>) {
    forall k :: k in before ==> k in after && after[k] == before[k]
  }

  lemma {:induction false} RunIsCoherent(w: World, events: seq<Event>)
    requires Coherent(w)
    ensures Coherent(Run(w, events)) && Extends(w.snapshots, Run(w, events).snapshots)
  {
    if events == [] {
    } else {
      RunIsCoherent(w, events[..|events| - 1]);
    }
  }

  /** However many calls race, every call for one user and day that has returned gives the same
      opening equity, that value is still the stored one after any further steps, and the
      re-read after a lost insert always finds the row. */
  lemma OneOpeningPerDay(first: seq<Event>, later: seq<Event>, a: nat, b: nat, key: Key)
    requires var w := Run(World(map[], map[]), first);
             a in w.calls && w.calls[a].Returned? && w.calls[a].key == key
    ensures var opening := Run(World(map[], map[]), first).calls[a].opening;
      var v := Run(Run(World(map[], map[]), first), later);
      && key in v.snapshots && v.snapshots[key] == opening
      && (b in v.calls && v.calls[b].Returned? && v.calls[b].key == key ==> v.calls[b].opening == opening)
      && (b in v.calls ==> !v.calls[b].Missing?)
  {
    var w := Run(World(map[], map[]), first);
    RunIsCoherent(World(map[], map[]), first);
    RunIsCoherent(w, later);
  }

  const NO_CALLS := World(map[], map[])

  /** The value some step of a call under this key read as the user's equity. */
  ghost predicate ValuedAt(events: seq<Event>, i: nat, key: Key, equity: real)
    requires i < |events|
  {
    var w := Run(NO_CALLS, events[..i]);
    && events[i].Proceed? && events[i].equity == equity
    && events[i].id in w.calls && w.calls[events[i].id] == Valuing(key)
  }

  ghost predicate Valued(events: seq<Event>, key: Key, equity: real) {
    exists i: nat :: i < |events| && ValuedAt(events, i, key, equity)
  }

  ghost predicate AllValued(w: World, events: seq<Event>) {
    && (forall k :: k in w.snapshots ==> Valued(events, k, w.snapshots[k]))
    && (forall id :: id in w.calls && w.calls[id].Inserting? ==> Valued(events, w.calls[id].key, w.calls[id].equity))
  }

  lemma ValuedStays(events: seq<Event>, e: Event, key: Key, equity: real)
    requires Valued(events, key, equity)
    ensures Valued(events + [e], key, equity)
  {
    var i: nat :| i < |events| && ValuedAt(events, i, key, equity);
    hide Run;
    assert (events + [e])[..i] == events[..i];
    assert ValuedAt(events + [e], i, key, equity);
  }

  lemma ValuedNow(events: seq<Event>, id: nat, equity: real)
    requires var w := Run(NO_CALLS, events); id in w.calls && w.calls[id].Valuing?
    ensures Valued(events + [Proceed(id, equity)], Run(NO_CALLS, events).calls[id].key, equity)
  {
    hide Run;
    var longer := events + [Proceed(id, equity)];
    assert longer[..|events|] == events;
    assert ValuedAt(longer, |events|, Run(NO_CALLS, events).calls[id].key, equity);
  }

  /** Over every interleaving a stored opening is what some call for that user and day valued. */
  lemma {:induction false} OpeningIsAValuation(events: seq<Event>)
    ensures AllValued(Run(NO_CALLS, events), events)
  {
    if events == [] {
    } else {
      var before, e := events[..|events| - 1], events[|events| - 1];
      OpeningIsAValuation(before);
      assert events == before + [e];
      var w := Run(NO_CALLS, before);
      if e.Proceed? && e.id in w.calls && w.calls[e.id].Valuing? {
        ValuedNow(before, e.id, e.equity);
      }
      forall k, v | Valued(before, k, v) ensures Valued(events, k, v) {
        ValuedStays(before, e, k, v);
      }
      assert Run(NO_CALLS, events) == Next(w, e);
      hide Run, Valued;
    }
  }

  /** A call that begins after the day has its opening returns it at once, without valuing anything. */
  lemma StoredOpeningIsReturned(w: World, id: nat, key: Key, equity: real)
    requires id !in w.calls && key in w.snapshots
    ensures var v := Next(Next(w, Begin(id, key)), Proceed(id, equity));
      v.snapshots == w.snapshots && id in v.calls && v.calls[id] == Returned(key, w.snapshots[key])
  {
  }

  /** Steps a call still has to take, at most. */
  function StepsLeft(c: Call): nat {
    match c
    case Looking(_) => 4
    case Valuing(_) => 3
    case Inserting(_, _) => 2
    case Refetching(_) => 1
    case Returned(_, _) => 0
    case Missing(_) => 0
  }

  function Proceeds(events: seq<Event>, id: nat): nat {
    if events == [] then 0
    else
      var e := events[|events| - 1];
      Proceeds(events[..|events| - 1], id) + if e.Proceed? && e.id == id then 1 else 0
  }

  /** Whatever other calls do in between, each of a call's own steps brings it closer to its answer: after
      four it has returned. */
  lemma {:induction false} EveryCallReturns(w: World, events: seq<Event>, id: nat)
    requires Coherent(w) && id in w.calls
    ensures var v := Run(w, events);
      && id in v.calls && v.calls[id].key == w.calls[id].key
      && (v.calls[id].Returned? || StepsLeft(v.calls[id]) + Proceeds(events, id) <= StepsLeft(w.calls[id]))
    ensures Proceeds(events, id) >= 4 ==> Run(w, events).calls[id].Returned?
  {
    if events == [] {
    } else {
      EveryCallReturns(w, events[..|events| - 1], id);
      RunIsCoherent(w, events[..|events| - 1]);
    }
    RunIsCoherent(w, events);
  }

  // ---- The automatic halt ------------------------------------------------------------------

  datatype Reason = NotHalted | Manual | DailyLoss

  /** `status`: the manual switch wins over the drawdown test. */
  function Status(limit: real, manual: bool, opening: real, current: real): Reason {
    if manual then Manual
    else if limit > 0.0 && DailyChange(opening, current) <= -limit then DailyLoss
    else NotHalted
  }

  predicate HaltsForLoss(limit: real, opening: real, current: real) {
    Status(limit, false, opening, current) == DailyLoss
  }

  /** The test reads the change against the opening equity's own sign: above zero it halts on a fall by
      the limit, below zero on a rise by it, and at zero never. */
  lemma LossTestFollowsTheOpening(limit: real, opening: real, current: real)
    requires limit > 0.0
    ensures opening > 0.0 ==>
      (HaltsForLoss(limit, opening, current) <==> opening - current >= Scale(limit / 100.0, opening))
    ensures opening < 0.0 ==>
      (HaltsForLoss(limit, opening, current) <==> current - opening >= Scale(limit / 100.0, -opening))
    ensures opening == 0.0 ==> !HaltsForLoss(limit, opening, current)
  {
    if opening > 0.0 {
      RatioBound(opening - current, opening, limit / 100.0);
      RatioIs(current - opening, opening, -((opening - current) / opening));
    } else if opening < 0.0 {
      RatioBound(current - opening, -opening, limit / 100.0);
      RatioIs(current - opening, opening, -((current - opening) / -opening));
    }
  }

  /** So a halt for loss always means that equity fell exactly when the day did not open below zero. */
  lemma HaltMeansAFallExactlyWhen(limit: real, opening: real)
    requires limit > 0.0
    ensures (forall current :: HaltsForLoss(limit, opening, current) ==> current < opening) <==> opening >= 0.0
  {
    ScaleAdds(0.0, 0.0, opening);
    if opening > 0.0 {
      forall current | HaltsForLoss(limit, opening, current) ensures current < opening {
        LossTestFollowsTheOpening(limit, opening, current);
        ScaleGrows(0.0, limit / 100.0, opening);
      }
    } else if opening < 0.0 {
      var current := opening + Scale(limit / 100.0, -opening);
      ScaleAdds(0.0, 0.0, -opening);
      ScaleGrows(0.0, limit / 100.0, -opening);
      LossTestFollowsTheOpening(limit, opening, current);
      assert HaltsForLoss(limit, opening, current);
    } else {
      forall current ensures !HaltsForLoss(limit, opening, current) {
        LossTestFollowsTheOpening(limit, opening, current);
      }
    }
  }

  /** What one evaluation of an account meets: the mark it reads, the day it checks the latch,
      the day it writes it, and whether the flatten came back. */
  datatype Sweep = Sweep(opening: real, current: real, checkedOn: int, markedOn: int, flattened: bool)

  /** The limits on new orders stored beside the loss limit; the halt does not read them. */
  datatype OrderLimits = OrderLimits(maxDailyTrades: nat, maxPositionWeight: real, requireStop: bool)

  const NO_LIMITS := OrderLimits(0, 0.0, false)

  datatype Setting = Setting(limit: real, orders: OrderLimits, manual: bool, trippedOn: Option<int>)

  predicate Trips(s: Setting, sweep: Sweep) {
    && s.limit > 0.0
    && Status(s.limit, s.manual, sweep.opening, sweep.current) == DailyLoss
    && s.trippedOn != Some(sweep.checkedOn)
    && sweep.flattened
  }

  datatype Op = Configure(limit: real, orders: OrderLimits) | Toggle(enabled: bool) | Evaluate(sweep: Sweep)

  function Set(s: Setting, op: Op): Setting {
    match op
    case Configure(limit, orders) => s.(limit := limit, orders := orders)
    case Toggle(enabled) => s.(manual := enabled)
    case Evaluate(sweep) => if Trips(s, sweep) then s.(trippedOn := Some(sweep.markedOn)) else s
  }

  class RiskSetting {
    var limit: real
    var orders: OrderLimits
    var manual: bool
    var trippedOn: Option<int>

    ghost function View(): Setting
      reads this
    {
      Setting(limit, orders, manual, trippedOn)
    }

    constructor ()
      ensures View() == Setting(0.0, NO_LIMITS, false, None)
    {
      limit, orders, manual, trippedOn := 0.0, NO_LIMITS, false, None;
    }

    method SetConfig(limit: real, orders: OrderLimits)
      modifies this
      ensures View() == Set(old(View()), Configure(limit, orders))
      ensures this.limit == limit && this.orders == orders && manual == old(manual) && trippedOn == old(trippedOn)
    {
      this.limit, this.orders := limit, orders;
    }

    method SetManualHalt(enabled: bool)
      modifies this
      ensures View() == Set(old(View()), Toggle(enabled))
      ensures manual == enabled && limit == old(limit) && orders == old(orders) && trippedOn == old(trippedOn)
    {
      manual := enabled;
    }

    /** The sweep over one account: armed accounts only, then `_evaluate_one_account`. A trip cancels
        whatever of the user's working orders the venue lets go, and then marks the day. */
    method EvaluateAccount(sweep: Sweep, desk: Desk.Desk, user: nat, connected: bool,
                           accepts: Orders.BrokerId -> bool)
      returns (tripped: bool, canceled: nat)
      modifies this, desk
      ensures tripped == Trips(old(View()), sweep)
      ensures View() == Set(old(View()), Evaluate(sweep))
      ensures tripped <==>
        && old(limit) > 0.0 && !old(manual) && DailyChange(sweep.opening, sweep.current) <= -old(limit)
        && old(trippedOn) != Some(sweep.checkedOn) && sweep.flattened
      ensures trippedOn == if tripped then Some(sweep.markedOn) else old(trippedOn)
      ensures desk.ledger == old(desk.ledger) && |desk.orders| == |old(desk.orders)|
      ensures forall i :: 0 <= i < |desk.orders| ==>
        desk.orders[i] ==
          if tripped && connected then Desk.Flattened(old(desk.orders)[i], user, accepts) else old(desk.orders)[i]
      ensures canceled == if tripped && connected then Desk.CountFlattened(old(desk.orders), user, accepts) else 0
    {
      if limit <= 0.0 {
        return false, 0;  // not among the accounts with an armed limit
      }
      var reason := Status(limit, manual, sweep.opening, sweep.current);
      if reason != DailyLoss {
        return false, 0;
      }
      if trippedOn == Some(sweep.checkedOn) {
        return false, 0;
      }
      if !sweep.flattened {
        return false, 0;  // the flatten raised and rolled back: nothing is marked, the next sweep tries again
      }
      canceled := desk.CancelOpenOrders(user, connected, accepts);
      trippedOn := Some(sweep.markedOn);
      tripped := true;
    }
  }

  /** The stored setting, and every completed trip so far. */
  datatype History = History(setting: Setting, trips: seq<Sweep>)

  function Apply(h: History, op: Op): History {
    History(Set(h.setting, op), if op.Evaluate? && Trips(h.setting, op.sweep) then h.trips + [op.sweep] else h.trips)
  }

  function Replay(h: History, ops: seq<Op>): History {
    if ops == [] then h else Apply(Replay(h, ops[..|ops| - 1]), ops[|ops| - 1])
  }

  /** Sweeps one after another on a clock that does not run backwards; one may cross midnight
      between its check and its mark. */
  ghost predicate Serial(ops: seq<Op>) {
    && (forall i :: 0 <= i < |ops| && ops[i].Evaluate? ==> ops[i].sweep.checkedOn <= ops[i].sweep.markedOn)
    && (forall i, j :: 0 <= i < j < |ops| && ops[i].Evaluate? && ops[j].Evaluate? ==>
          ops[i].sweep.markedOn <= ops[j].sweep.checkedOn)
  }

  const UNSET := History(Setting(0.0, NO_LIMITS, false, None), [])

  /** A trip that was due: the setting it met was armed, not manually halted, at a loss and not
      latched on the day it checked. */
  ghost predicate Due(ops: seq<Op>, trip: Sweep) {
    exists i :: 0 <= i < |ops| && ops[i] == Evaluate(trip) && Trips(Replay(UNSET, ops[..i]).setting, trip)
  }

  ghost predicate Latched(h: History, ops: seq<Op>) {
    && (h.trips == [] ==> h.setting.trippedOn == None)
    && (h.trips != [] ==> h.setting.trippedOn == Some(h.trips[|h.trips| - 1].markedOn))
    && (forall k :: 0 <= k < |h.trips| ==> Due(ops, h.trips[k]))
    && (forall k :: 0 <= k < |h.trips| ==> h.trips[k].checkedOn <= h.trips[k].markedOn)
    && (forall j, k :: 0 <= j < k < |h.trips| ==> h.trips[j].markedOn < h.trips[k].checkedOn)
  }

  lemma DueStays(before: seq<Op>, op: Op, trip: Sweep)
    requires Due(before, trip)
    ensures Due(before + [op], trip)
  {
    var i :| 0 <= i < |before| && before[i] == Evaluate(trip) && Trips(Replay(UNSET, before[..i]).setting, trip);
    var ops := before + [op];
    assert ops[i] == before[i] && ops[..i] == before[..i];
  }

  /** Every earlier trip was marked before this sweep checks. */
  lemma TripsComeFirst(before: seq<Op>, op: Op, trip: Sweep)
    requires Due(before, trip) && op.Evaluate? && Serial(before + [op])
    ensures trip.checkedOn <= trip.markedOn <= op.sweep.checkedOn
  {
    var i :| 0 <= i < |before| && before[i] == Evaluate(trip) && Trips(Replay(UNSET, before[..i]).setting, trip);
    var ops := before + [op];
    assert ops[i] == Evaluate(trip) && ops[|before|] == op;
  }

  /** A sweep that trips is due at once. */
  lemma NewTripIsDue(before: seq<Op>, sweep: Sweep)
    requires Trips(Replay(UNSET, before).setting, sweep) && Serial(before + [Evaluate(sweep)])
    ensures Due(before + [Evaluate(sweep)], sweep) && sweep.checkedOn <= sweep.markedOn
  {
    var ops := before + [Evaluate(sweep)];
    assert ops[|before|] == Evaluate(sweep) && ops[..|before|] == before;
    hide Replay, Trips;
  }

  /** And it checks later than every earlier trip was marked. */
  lemma NewTripIsLater(h: History, before: seq<Op>, sweep: Sweep, k: nat)
    requires Latched(h, before) && Serial(before + [Evaluate(sweep)]) && Trips(h.setting, sweep) && k < |h.trips|
    ensures h.trips[k].markedOn < sweep.checkedOn
  {
    hide Serial, Due;
    TripsComeFirst(before, Evaluate(sweep), h.trips[|h.trips| - 1]);
  }

  lemma OpKeepsLatch(before: seq<Op>, op: Op)
    requires Latched(Replay(UNSET, before), before) && Serial(before + [op])
    ensures Latched(Apply(Replay(UNSET, before), op), before + [op])
  {
    var h := Replay(UNSET, before);
    hide Replay, Due, Serial;
    forall k | 0 <= k < |h.trips| ensures Due(before + [op], h.trips[k]) {
      DueStays(before, op, h.trips[k]);
    }
    if op.Evaluate? && Trips(h.setting, op.sweep) {
      NewTripIsDue(before, op.sweep);
      forall k | 0 <= k < |h.trips| ensures h.trips[k].markedOn < op.sweep.checkedOn {
        NewTripIsLater(h, before, op.sweep, k);
      }
    }
    hide Trips;
  }

  lemma {:induction false} ReplayIsLatched(ops: seq<Op>)
    requires Serial(ops)
    ensures Latched(Replay(UNSET, ops), ops)
  {
    hide Latched, Apply;
    if ops == [] {
      UnsetIsLatched();
    } else {
      var before := ops[..|ops| - 1];
      assert before + [ops[|ops| - 1]] == ops;
      ReplayIsLatched(before);
      OpKeepsLatch(before, ops[|ops| - 1]);
    }
  }

  lemma UnsetIsLatched()
    ensures Latched(UNSET, [])
  {
  }

  /** Over any serial run, each completed automatic halt is checked on a later day than the one before it
      was marked: at most one per day, however often the account is swept or reconfigured. */
  lemma AtMostOneTripPerDay(ops: seq<Op>)
    requires Serial(ops)
    ensures var h := Replay(UNSET, ops);
      && (forall k :: 0 <= k < |h.trips| ==> h.trips[k].checkedOn <= h.trips[k].markedOn)
      && (forall j, k :: 0 <= j < k < |h.trips| ==> h.trips[j].markedOn < h.trips[k].checkedOn)
  {
    ReplayIsLatched(ops);
  }

  /** No completed halt hit an account whose limit was zero, that was halted by hand, or that had not lost
      its limit, at the moment it was swept. */
  lemma EveryTripWasDue(ops: seq<Op>, k: nat)
    requires Serial(ops) && k < |Replay(UNSET, ops).trips|
    ensures var trip := Replay(UNSET, ops).trips[k];
      exists i :: 0 <= i < |ops| && ops[i] == Evaluate(trip) &&
        var s := Replay(UNSET, ops[..i]).setting;
        s.limit > 0.0 && !s.manual && DailyChange(trip.opening, trip.current) <= -s.limit
  {
    ReplayIsLatched(ops);
    var trip := Replay(UNSET, ops).trips[k];
    assert Due(ops, trip);
    var i :| 0 <= i < |ops| && ops[i] == Evaluate(trip) && Trips(Replay(UNSET, ops[..i]).setting, trip);
  }

  /** A sweep that finds an armed, not manually halted account at its loss, and can flatten it. */
  ghost predicate Ready(s: Setting, sweep: Sweep) {
    s.limit > 0.0 && !s.manual && DailyChange(sweep.opening, sweep.current) <= -s.limit && sweep.flattened
  }

  ghost predicate MarkedOn(trips: seq<Sweep>, day: int) {
    exists k :: 0 <= k < |trips| && trips[k].markedOn == day
  }

  /** A halt begun on an earlier day and marked on this one. */
  ghost predicate CrossedInto(trips: seq<Sweep>, day: int) {
    exists k :: 0 <= k < |trips| && trips[k].checkedOn < trips[k].markedOn == day
  }

  /** A halt begun and marked on this day. */
  ghost predicate HaltedOn(trips: seq<Sweep>, day: int) {
    exists k :: 0 <= k < |trips| && trips[k].checkedOn == trips[k].markedOn == day
  }

  /** After any serial history, a sweep that is ready to trip is held back exactly when some earlier halt
      is marked on the day it checks; and then that day has had a halt of its own, or one crossed midnight
      into it. So a day without either always trips on its own. */
  lemma HeldBackExactlyWhen(ops: seq<Op>, sweep: Sweep)
    requires Serial(ops + [Evaluate(sweep)]) && Ready(Replay(UNSET, ops).setting, sweep)
    ensures var h := Replay(UNSET, ops);
      var day := sweep.checkedOn;
      && (Replay(UNSET, ops + [Evaluate(sweep)]).trips == h.trips <==> MarkedOn(h.trips, day))
      && (MarkedOn(h.trips, day) <==> HaltedOn(h.trips, day) || CrossedInto(h.trips, day))
      && !(HaltedOn(h.trips, day) && CrossedInto(h.trips, day))
  {
    var all := ops + [Evaluate(sweep)];
    assert all[..|ops|] == ops && Serial(ops) by {
      SerialPrefix(ops, Evaluate(sweep));
    }
    var h := Replay(UNSET, ops);
    assert Replay(UNSET, all) == Apply(h, Evaluate(sweep));
    ReplayIsLatched(ops);
    hide Replay;
    forall k | 0 <= k < |h.trips| ensures h.trips[k].checkedOn <= h.trips[k].markedOn <= sweep.checkedOn {
      TripsComeFirst(ops, Evaluate(sweep), h.trips[k]);
    }
    hide Due, Serial;
    assert |h.trips + [sweep]| == |h.trips| + 1;
    LatchTellsTheDay(h, ops, sweep.checkedOn);
  }

  lemma SerialPrefix(ops: seq<Op>, op: Op)
    requires Serial(ops + [op])
    ensures Serial(ops)
  {
    assert forall i :: 0 <= i < |ops| ==> (ops + [op])[i] == ops[i];
  }

  /** The one stored date answers for the whole history, as long as no halt is marked later. */
  lemma LatchTellsTheDay(h: History, ops: seq<Op>, day: int)
    requires Latched(h, ops) && forall k :: 0 <= k < |h.trips| ==> h.trips[k].markedOn <= day
    ensures h.setting.trippedOn == Some(day) <==> MarkedOn(h.trips, day)
    ensures MarkedOn(h.trips, day) <==> HaltedOn(h.trips, day) || CrossedInto(h.trips, day)
    ensures !(HaltedOn(h.trips, day) && CrossedInto(h.trips, day))
  {
    hide Due;
    if MarkedOn(h.trips, day) {
      var k :| 0 <= k < |h.trips| && h.trips[k].markedOn == day;
      assert k == |h.trips| - 1;
    } else if h.trips != [] {
      assert h.trips[|h.trips| - 1].markedOn != day;
    }
  }

  /** A sweep that checks before midnight and marks after it uses up the next day's trip: a fresh
      loss on that day then flattens nothing. */
  lemma MidnightSweepUsesUpTheNextDay(day: int)
    ensures var late := Sweep(100.0, 80.0, day, day + 1, true);
      var again := Sweep(80.0, 60.0, day + 1, day + 1, true);
      var ops := [Configure(10.0, NO_LIMITS), Evaluate(late), Evaluate(again)];
      && Serial(ops)
      && Replay(UNSET, ops).trips == [late]
      && Status(10.0, false, again.opening, again.current) == DailyLoss
  {
    var late := Sweep(100.0, 80.0, day, day + 1, true);
    var again := Sweep(80.0, 60.0, day + 1, day + 1, true);
    var ops := [Configure(10.0, NO_LIMITS), Evaluate(late), Evaluate(again)];
    assert ops[..2] == [Configure(10.0, NO_LIMITS), Evaluate(late)];
    assert ops[..2][..1] == [Configure(10.0, NO_LIMITS)] && [Configure(10.0, NO_LIMITS)][..0] == [];
    assert Replay(UNSET, [Configure(10.0, NO_LIMITS)]) == History(Setting(10.0, NO_LIMITS, false, None), []);
    assert Replay(UNSET, ops[..2]).trips == [late];
  }
}
