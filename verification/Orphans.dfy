/** What becomes of an order the venue accepted, over every interleaving and either venue policy: it
    ends without a row exactly when its answer was lost or another order won its key
    (`_execute_inner`, `_persist_order` in app/services/trade_service.py, `_request` in
    app/providers/alpaca_broker_provider.py). */
module Orphans {
  import opened Money
  import opened Execute

  /** Some call is between the venue's answer and its commit with this order. */
  ghost predicate InHand(w: World, p: Placement) {
    exists c :: c in w.calls && w.calls[c] == Placed(p.user, p.key, p.id)
  }

  ghost predicate Recorded(w: World, p: Placement) {
    Names(w.table.rows, p.user, p.key, p.id)
  }

  /** The row of this order's (user, key) carries another order. */
  ghost predicate Outrun(w: World, p: Placement) {
    exists i :: 0 <= i < |w.table.rows| && w.table.rows[i].user == p.user && w.table.rows[i].key == p.key
                && w.table.rows[i].id != p.id
  }

  // ---- The invariant, for either policy ---------------------------------------------------------

  ghost predicate Accounted(w: World, p: Placement) {
    && p.id < w.issued && KeyIssued(p.key, w.generated)
    && (InHand(w, p) || p.id in w.lost || Holds(w.table.rows, p.user, p.key))
  }

  /** An order in hand or in a row was accepted, and its answer was not lost. */
  ghost predicate Answered(w: World, user: nat, key: Key, id: BrokerId) {
    Placement(user, key, id) in w.accepted && id !in w.lost
  }

  ghost predicate CallTracked(w: World, c: Call) {
    c.Placed? ==> Answered(w, c.user, c.key, c.id)
  }

  ghost predicate RowTracked(w: World, r: Row) {
    Answered(w, r.user, r.key, r.id)
  }

  ghost predicate Tracked(w: World) {
    && (forall p :: p in w.accepted ==> Accounted(w, p))
    && (forall c :: c in w.calls ==> CallTracked(w, w.calls[c]))
    && (forall i :: 0 <= i < |w.table.rows| ==> RowTracked(w, w.table.rows[i]))
    && (forall id :: id in w.lost ==> id < w.issued)
  }

  /** An order in hand stays there or leaves a row for its key behind, or its answer is lost. */
  ghost predicate HandsOn(w: World, v: World, call: nat)
    requires call in w.calls && w.calls[call].Placed?
  {
    var c := w.calls[call];
    (call in v.calls && v.calls[call] == c) || c.id in v.lost || Holds(v.table.rows, c.user, c.key)
  }

  ghost predicate Grows(w: World, v: World) {
    && RowsGrow(w.table.rows, v.table.rows) && w.accepted <= v.accepted && w.lost <= v.lost
    && w.issued <= v.issued && w.generated <= v.generated
    && (forall id :: id in v.lost ==> id < v.issued)
  }

  /** Whatever a step does to the world, it keeps the books if what it adds and what it loses are in
      order. */
  lemma StillTracked(w: World, v: World)
    requires Tracked(w) && Grows(w, v)
    requires forall i :: |w.accepted| <= i < |v.accepted| ==> Accounted(v, v.accepted[i])
    requires forall c :: c in w.calls && w.calls[c].Placed? ==> HandsOn(w, v, c)
    requires forall c :: c in v.calls ==> CallTracked(v, v.calls[c])
    requires forall i :: 0 <= i < |v.table.rows| ==> RowTracked(v, v.table.rows[i])
    ensures Tracked(v)
  {
    hide Holds, Names, CallTracked, RowTracked;
    forall p | p in v.accepted ensures Accounted(v, p) {
      var i :| 0 <= i < |v.accepted| && v.accepted[i] == p;
      if i < |w.accepted| {
        assert w.accepted[i] == p;
        assert Accounted(w, p);
        GrowingKeeps(w.table.rows, v.table.rows, p.user, p.key, p.id);
        if InHand(w, p) {
          var d :| d in w.calls && w.calls[d] == Placed(p.user, p.key, p.id);
          assert HandsOn(w, v, d);
        }
      }
    }
  }

  /** Rows keep their orders as long as none of these orders is lost. */
  lemma RowsStayTracked(w: World, v: World)
    requires Tracked(w) && Grows(w, v)
    requires forall i :: 0 <= i < |w.table.rows| ==> w.table.rows[i].id !in v.lost
    ensures forall i :: 0 <= i < |w.table.rows| ==> RowTracked(v, v.table.rows[i])
  {
    forall i | 0 <= i < |w.table.rows| ensures RowTracked(v, v.table.rows[i]) {
      assert RowTracked(w, w.table.rows[i]);
    }
  }

  lemma CallStaysTracked(w: World, v: World, c: Call)
    requires CallTracked(w, c) && Grows(w, v) && (c.Placed? ==> c.id !in v.lost)
    ensures CallTracked(v, c)
  {
  }

  // ---- Steps keep it --------------------------------------------------------------------------

  /** A call that is not about to commit moves on; at most one order is taken, in hand or lost. */
  lemma MoveTracks(w: World, v: World, call: nat)
    requires Sound(w) && Tracked(w) && v.table == w.table
    requires call in v.calls && v.calls == w.calls[call := v.calls[call]]
    requires call in w.calls ==> !w.calls[call].Placed? && w.calls[call].key == v.calls[call].key
    requires w.generated <= v.generated && KeyIssued(v.calls[call].key, v.generated)
    requires var c := v.calls[call];
      || (v.accepted == w.accepted && v.lost == w.lost && w.issued <= v.issued && !c.Placed?)
      || (v.accepted == w.accepted + [Placement(c.user, c.key, w.issued)] && v.issued == w.issued + 1
          && ((v.lost == w.lost && c == Placed(c.user, c.key, w.issued))
              || (v.lost == w.lost + {w.issued} && !c.Placed?)))
    ensures Tracked(v)
  {
    hide RowsUnique, Audited, AuditsFor, Names, Holds;
    var c := v.calls[call];
    RowsStayTracked(w, v);
    forall d | d in v.calls ensures CallTracked(v, v.calls[d]) {
      if d != call {
        assert CallSound(w, w.calls[d]);
        CallStaysTracked(w, v, w.calls[d]);
      }
    }
    if v.accepted != w.accepted {
      var p := Placement(c.user, c.key, w.issued);
      assert v.accepted[|w.accepted|] == p;
      assert c.Placed? ==> InHand(v, p);
    }
    hide Sound;
    StillTracked(w, v);
  }

  /** The commit turns the order in hand into a row, or finds its key taken. */
  lemma CommitTracks(w: World, call: nat, go: bool, dedup: bool)
    requires Sound(w) && Tracked(w) && call in w.calls && w.calls[call].Placed?
    ensures Tracked(Next(w, Resume(call, go), dedup))
  {
    var c := w.calls[call];
    var v := Next(w, Resume(call, go), dedup);
    assert CallSound(w, c) && CallTracked(w, c);
    LookupNames(w.table.rows, c.user, c.key);
    if v.table != w.table {
      assert v.table.rows[|w.table.rows|] == Row(c.user, c.key, c.id, Executed, true);
    }
    assert Holds(v.table.rows, c.user, c.key);
    hide Sound, Lookup, Names, Holds;
    assert forall i :: 0 <= i < |w.table.rows| ==> RowTracked(w, w.table.rows[i]);
    RowsStayTracked(w, v);
    forall d | d in v.calls ensures CallTracked(v, v.calls[d]) {
      assert CallTracked(w, w.calls[d]);
    }
    StillTracked(w, v);
  }

  /** A worker that dies takes its order's answer with it. */
  lemma DieTracks(w: World, call: nat, dedup: bool)
    requires Sound(w) && Tracked(w) && call in w.calls && w.calls[call].Placed?
    ensures Tracked(Next(w, Die(call), dedup))
  {
    var c := w.calls[call];
    var v := Next(w, Die(call), dedup);
    assert CallSound(w, c);
    hide TableSound, AuditsFor, Names, Holds;
    assert forall i :: 0 <= i < |w.table.rows| ==> RowTracked(w, w.table.rows[i]);
    RowsStayTracked(w, v);
    forall d | d in v.calls ensures CallTracked(v, v.calls[d]) {
      if d != call {
        assert CallTracked(w, w.calls[d]);
        CallStaysTracked(w, v, w.calls[d]);
      }
    }
    StillTracked(w, v);
  }

  lemma RowChangeTracks(w: World, row: nat, dedup: bool)
    requires Tracked(w) && row < |w.table.rows|
    ensures Tracked(Next(w, Cancel(row), dedup))
  {
    var v := Next(w, Cancel(row), dedup);
    assert forall i :: 0 <= i < |w.table.rows| ==> RowTracked(w, w.table.rows[i]);
    RowsStayTracked(w, v);
    hide Names, Holds;
    forall d | d in v.calls ensures CallTracked(v, v.calls[d]) {
      assert CallTracked(w, w.calls[d]);
    }
    StillTracked(w, v);
  }

  /** A replacement is taken under a fresh key, and then either written or lost. */
  lemma ReplaceTracks(w: World, v: World, row: nat)
    requires Sound(w) && Tracked(w) && row < |w.table.rows|
    requires v == Next(w, Replace(row), true) || v == Next(w, LoseReplace(row), true)
    ensures Tracked(v)
  {
    hide RowsUnique, Audited, AuditsFor, Names;
    var p := Placement(w.table.rows[row].user, Generated(w.generated), w.issued);
    assert v.accepted[|w.accepted|] == p;
    if |v.table.rows| > |w.table.rows| {
      assert v.table.rows[|w.table.rows|].key == p.key;
      assert Holds(v.table.rows, p.user, p.key);
    }
    hide Holds;
    assert forall i :: 0 <= i < |w.table.rows| ==> RowTracked(w, w.table.rows[i]);
    RowsStayTracked(w, v);
    forall d | d in v.calls ensures CallTracked(v, v.calls[d]) {
      assert CallSound(w, w.calls[d]) && CallTracked(w, w.calls[d]);
      CallStaysTracked(w, v, w.calls[d]);
    }
    hide Sound;
    StillTracked(w, v);
  }

  lemma BeginTracks(w: World, call: nat, user: nat, key: Option<string>, dedup: bool)
    requires Sound(w) && Tracked(w)
    ensures Tracked(Next(w, Begin(call, user, key), dedup))
  {
    hide Sound;
    if call !in w.calls {
      MoveTracks(w, Next(w, Begin(call, user, key), dedup), call);
    }
  }

  lemma CallEventTracks(w: World, e: Event, call: nat, dedup: bool)
    requires Sound(w) && Tracked(w) && call in w.calls
    requires (e.Resume? || e.LoseAnswer? || e.Die?) && e.call == call
    ensures Tracked(Next(w, e, dedup))
  {
    hide Tracked, TableSound;
    if w.calls[call].Placed? {
      if e.Resume? {
        CommitTracks(w, call, e.go, dedup);
      } else if e.Die? {
        DieTracks(w, call, dedup);
      }
    } else if Next(w, e, dedup) != w {
      assert CallSound(w, w.calls[call]);
      hide Lookup, CallsSound;
      MoveTracks(w, Next(w, e, dedup), call);
    }
  }

  lemma EventTracks(w: World, e: Event, dedup: bool)
    requires Sound(w) && Tracked(w)
    ensures Tracked(Next(w, e, dedup))
  {
    hide Tracked, Sound;
    match e
    case Begin(call, user, key) => BeginTracks(w, call, user, key, dedup);
    case Cancel(row) =>
      if row < |w.table.rows| {
        RowChangeTracks(w, row, dedup);
      }
    case Replace(row) =>
      if row < |w.table.rows| {
        ReplaceTracks(w, Next(w, e, dedup), row);
      }
    case LoseReplace(row) =>
      if row < |w.table.rows| {
        ReplaceTracks(w, Next(w, e, dedup), row);
      }
    case _ =>
      if e.call in w.calls {
        CallEventTracks(w, e, e.call, dedup);
      }
  }

  lemma {:induction false} RunTracks(events: seq<Event>, dedup: bool)
    ensures Tracked(Run(GENESIS, events, dedup))
  {
    hide Sound, Next;
    if events == [] {
      assert Tracked(GENESIS);
    } else {
      var before := events[..|events| - 1];
      RunIsSound(before, dedup);
      RunTracks(before, dedup);
      hide Tracked;
      EventTracks(Run(GENESIS, before, dedup), events[|events| - 1], dedup);
    }
  }

  // ---- With a venue that refuses repeated keys ------------------------------------------------------

  /** The venue took at most one order for each (user, key). */
  ghost predicate OncePerKey(accepted: seq<Placement>) {
    forall i, j :: 0 <= i < j < |accepted| ==>
      accepted[i].user != accepted[j].user || accepted[i].key != accepted[j].key
  }

  lemma SamePlacement(accepted: seq<Placement>, p: Placement, q: Placement)
    requires OncePerKey(accepted) && p in accepted && q in accepted && p.user == q.user && p.key == q.key
    ensures p == q
  {
  }

  ghost predicate NoRace(w: World) {
    OncePerKey(w.accepted) && forall c :: c in w.calls ==> !w.calls[c].RolledBack?
  }

  /** An order in hand has no rival row, so its commit wins. */
  lemma CommitWins(w: World, call: nat)
    requires Sound(w) && Tracked(w) && NoRace(w) && call in w.calls && w.calls[call].Placed?
    ensures Lookup(w.table.rows, w.calls[call].user, w.calls[call].key).None?
  {
    hide Lookup;
    var c := w.calls[call];
    assert CallSound(w, c) && CallTracked(w, c);
    LookupNames(w.table.rows, c.user, c.key);
    if Holds(w.table.rows, c.user, c.key) {
      var i :| 0 <= i < |w.table.rows| && w.table.rows[i].user == c.user && w.table.rows[i].key == c.key;
      var r := w.table.rows[i];
      assert RowTracked(w, r);
      SamePlacement(w.accepted, Placement(c.user, c.key, c.id), Placement(r.user, r.key, r.id));
      assert false;
    }
  }

  lemma TakingKeepsOnce(accepted: seq<Placement>, p: Placement)
    requires OncePerKey(accepted) && !Known(accepted, p.user, p.key)
    ensures OncePerKey(accepted + [p])
  {
    forall i | 0 <= i < |accepted| ensures accepted[i].user != p.user || accepted[i].key != p.key {
      assert accepted[i] in accepted;
    }
  }

  lemma FreshKeyIsUnknown(w: World, user: nat)
    requires Tracked(w)
    ensures !Known(w.accepted, user, Generated(w.generated))
  {
    forall p | p in w.accepted ensures p.key != Generated(w.generated) {
      assert Accounted(w, p);
    }
  }

  lemma EventRacesNobody(w: World, e: Event)
    requires Sound(w) && Tracked(w) && NoRace(w)
    ensures NoRace(Next(w, e, true))
  {
    if (e.Resume? || e.LoseAnswer?) && e.call in w.calls {
      var c := w.calls[e.call];
      if c.Placed? {
        CommitWins(w, e.call);
      } else if c.Cleared? && !Known(w.accepted, c.user, c.key) {
        TakingKeepsOnce(w.accepted, Placement(c.user, c.key, w.issued));
      }
    } else if (e.Replace? || e.LoseReplace?) && e.row < |w.table.rows| {
      var user := w.table.rows[e.row].user;
      FreshKeyIsUnknown(w, user);
      TakingKeepsOnce(w.accepted, Placement(user, Generated(w.generated), w.issued));
    }
    hide Sound, Tracked, OncePerKey, Lookup, Known;
  }

  lemma {:induction false} RunRacesNobody(events: seq<Event>)
    ensures NoRace(Run(GENESIS, events, true))
  {
    hide Sound, Next, Tracked;
    if events == [] {
      assert NoRace(GENESIS);
    } else {
      var before := events[..|events| - 1];
      RunIsSound(before, true);
      RunTracks(before, true);
      RunRacesNobody(before);
      hide NoRace;
      EventRacesNobody(Run(GENESIS, before, true), events[|events| - 1]);
    }
  }

  // ---- The theorems ------------------------------------------------------------------------------

  lemma OrphanIn(w: World, p: Placement)
    requires Sound(w) && Tracked(w) && p in w.accepted && !InHand(w, p)
    ensures !Recorded(w, p) <==> p.id in w.lost || Outrun(w, p)
  {
    assert Accounted(w, p);
  }

  /** Over every interleaving and either venue policy, an accepted order no call still holds has no
      row exactly when its answer was lost, or the row of its key carries another order. */
  lemma OrphanedExactlyWhen(events: seq<Event>, dedup: bool, p: Placement)
    requires p in Run(GENESIS, events, dedup).accepted && !InHand(Run(GENESIS, events, dedup), p)
    ensures var w := Run(GENESIS, events, dedup);
      !Recorded(w, p) <==> p.id in w.lost || Outrun(w, p)
  {
    hide Run;
    RunIsSound(events, dedup);
    RunTracks(events, dedup);
    OrphanIn(Run(GENESIS, events, dedup), p);
  }

  /** If the venue refuses a repeated client order id, it takes at most one order per (user, key), no
      commit loses the race, and only a lost answer leaves an order without its row. */
  lemma OnlyLostAnswersOrphan(events: seq<Event>, p: Placement)
    requires p in Run(GENESIS, events, true).accepted
    ensures var w := Run(GENESIS, events, true);
      && OncePerKey(w.accepted)
      && (forall c :: c in w.calls ==> !w.calls[c].RolledBack?)
      && !Outrun(w, p)
      && (!InHand(w, p) ==> (!Recorded(w, p) <==> p.id in w.lost))
  {
    hide Run;
    var w := Run(GENESIS, events, true);
    RunIsSound(events, true);
    RunTracks(events, true);
    RunRacesNobody(events);
    if Outrun(w, p) {
      var i :| 0 <= i < |w.table.rows| && w.table.rows[i].user == p.user && w.table.rows[i].key == p.key
               && w.table.rows[i].id != p.id;
      var r := w.table.rows[i];
      assert RowTracked(w, r);
      SamePlacement(w.accepted, p, Placement(r.user, r.key, r.id));
      assert false;
    }
    if !InHand(w, p) {
      OrphanIn(w, p);
    }
  }

  /** Losses are final: an id once lost, or once accepted, stays so. */
  lemma {:induction false} LossesStay(events: seq<Event>, more: seq<Event>, dedup: bool)
    ensures Run(GENESIS, events, dedup).lost <= Run(GENESIS, events + more, dedup).lost
    ensures forall p :: p in Run(GENESIS, events, dedup).accepted ==> p in Run(GENESIS, events + more, dedup).accepted
  {
    hide Lookup, Commit, Known;
    var all := events + more;
    if more == [] {
      assert all == events;
    } else {
      assert all[..|all| - 1] == events + more[..|more| - 1];
      LossesStay(events, more[..|more| - 1], dedup);
    }
  }

  /** And such an order blocks its key: whatever happens next, no request under it, past or to come,
      ever succeeds or gets a row, however often the client tries again. */
  lemma LostKeyIsDead(events: seq<Event>, more: seq<Event>, p: Placement, call: nat)
    requires p in Run(GENESIS, events, true).accepted && p.id in Run(GENESIS, events, true).lost
    ensures var w := Run(GENESIS, events + more, true);
      && !Holds(w.table.rows, p.user, p.key)
      && (call in w.calls && w.calls[call].user == p.user && w.calls[call].key == p.key ==> !Successful(w.calls[call]))
  {
    hide Run;
    LossesStay(events, more, true);
    var w := Run(GENESIS, events + more, true);
    RunIsSound(events + more, true);
    RunTracks(events + more, true);
    RunRacesNobody(events + more);
    forall i | 0 <= i < |w.table.rows| ensures w.table.rows[i].user != p.user || w.table.rows[i].key != p.key {
      var r := w.table.rows[i];
      assert RowTracked(w, r);
      if r.user == p.user && r.key == p.key {
        SamePlacement(w.accepted, p, Placement(r.user, r.key, r.id));
        assert false;
      }
    }
    if call in w.calls {
      assert CallSound(w, w.calls[call]);
    }
  }

  lemma RunSnoc(w: World, events: seq<Event>, e: Event, dedup: bool)
    ensures Run(w, events + [e], dedup) == Next(Run(w, events, dedup), e, dedup)
  {
    assert (events + [e])[..|events|] == events;
  }

  /** Two requests with one key, both past the pre-check before either commits. */
  function Race(key: string): seq<Event> {
    BothCleared(key) + [Resume(0, true)] + [Resume(1, true)] + [Resume(0, true)] + [Resume(1, true)] + [Resume(1, true)]
  }

  function BothCleared(key: string): seq<Event> {
    [] + [Begin(0, 7, Some(key))] + [Begin(1, 7, Some(key))] + [Resume(0, true)] + [Resume(1, true)]
  }

  lemma BothClearedWorld(key: string)
    requires key != ""
    ensures Run(GENESIS, BothCleared(key), false) ==
            GENESIS.(calls := map[0 := Cleared(7, Client(key), 0), 1 := Cleared(7, Client(key), 0)])
  {
    var k := Client(key);
    var e: seq<Event> := [];
    RunSnoc(GENESIS, e, Begin(0, 7, Some(key)), false);
    RunSnoc(GENESIS, e + [Begin(0, 7, Some(key))], Begin(1, 7, Some(key)), false);
    RunSnoc(GENESIS, e + [Begin(0, 7, Some(key))] + [Begin(1, 7, Some(key))], Resume(0, true), false);
    RunSnoc(GENESIS, e + [Begin(0, 7, Some(key))] + [Begin(1, 7, Some(key))] + [Resume(0, true)],
            Resume(1, true), false);
    hide Run;
    var b := GENESIS.(calls := map[0 := Started(7, k), 1 := Started(7, k)]);
    assert Run(GENESIS, e + [Begin(0, 7, Some(key))] + [Begin(1, 7, Some(key))], false) == b;
    assert Next(b, Resume(0, true), false) == b.(calls := map[0 := Cleared(7, k, 0), 1 := Started(7, k)]);
  }

  lemma RaceFromCleared(w: World, key: string)
    requires w == GENESIS.(calls := map[0 := Cleared(7, Client(key), 0), 1 := Cleared(7, Client(key), 0)])
    ensures Next(Next(w, Resume(0, true), false), Resume(1, true), false) ==
            w.(calls := map[0 := Placed(7, Client(key), 0), 1 := Placed(7, Client(key), 1)],
               accepted := [Placement(7, Client(key), 0), Placement(7, Client(key), 1)], issued := 2)
  {
    var k := Client(key);
    var b := Next(w, Resume(0, true), false);
    assert b == w.(calls := map[0 := Placed(7, k, 0), 1 := Cleared(7, k, 0)],
                   accepted := [Placement(7, k, 0)], issued := 1);
  }

  lemma WinnerCommits(w: World, key: string)
    requires w.table == Table([], [])
    requires w.calls == map[0 := Placed(7, Client(key), 0), 1 := Placed(7, Client(key), 1)]
    ensures Next(w, Resume(0, true), false) ==
            w.(table := Table([Row(7, Client(key), 0, Executed, true)], [Audit(7, 0)]),
               calls := map[0 := Done(7, Client(key), Accepted(0)), 1 := Placed(7, Client(key), 1)])
  {
    var row, audit := Row(7, Client(key), 0, Executed, true), Audit(7, 0);
    assert w.table.rows + [row] == [row] && w.table.audits + [audit] == [audit];
    assert Commit(w.table, 7, Client(key), 0) == (Table([row], [audit]), true);
    hide Commit;
  }

  lemma LoserReplays(w: World, key: string)
    requires w.table == Table([Row(7, Client(key), 0, Executed, true)], [Audit(7, 0)])
    requires w.calls == map[0 := Done(7, Client(key), Accepted(0)), 1 := Placed(7, Client(key), 1)]
    ensures Next(Next(w, Resume(1, true), false), Resume(1, true), false) ==
            w.(calls := map[0 := Done(7, Client(key), Accepted(0)), 1 := Done(7, Client(key), Replayed(0))])
  {
    var k := Client(key);
    assert w.table.rows[..0] == [];
    assert Lookup(w.table.rows, 7, k) == Some(Row(7, k, 0, Executed, true));
    assert Commit(w.table, 7, k, 1) == (w.table, false);
    hide Lookup, Commit;
    var v := Next(w, Resume(1, true), false);
    assert v == w.(calls := map[0 := Done(7, k, Accepted(0)), 1 := RolledBack(7, k)]);
  }

  /** If the venue takes repeated keys, the race leaves an order with no row and no audit record: both
      callers are told of order 0, and the venue works order 1 as well. */
  lemma RaceLeavesAnOrphan(key: string)
    requires key != ""
    ensures var w := Run(GENESIS, Race(key), false);
      && w.accepted == [Placement(7, Client(key), 0), Placement(7, Client(key), 1)]
      && w.table == Table([Row(7, Client(key), 0, Executed, true)], [Audit(7, 0)])
      && w.calls == map[0 := Done(7, Client(key), Accepted(0)), 1 := Done(7, Client(key), Replayed(0))]
  {
    var e := BothCleared(key);
    BothClearedWorld(key);
    RunSnoc(GENESIS, e, Resume(0, true), false);
    RunSnoc(GENESIS, e + [Resume(0, true)], Resume(1, true), false);
    RunSnoc(GENESIS, e + [Resume(0, true)] + [Resume(1, true)], Resume(0, true), false);
    RunSnoc(GENESIS, e + [Resume(0, true)] + [Resume(1, true)] + [Resume(0, true)], Resume(1, true), false);
    RunSnoc(GENESIS, e + [Resume(0, true)] + [Resume(1, true)] + [Resume(0, true)] + [Resume(1, true)],
            Resume(1, true), false);
    hide Run, BothCleared, Next;
    RaceFromCleared(Run(GENESIS, e, false), key);
    var placed := Run(GENESIS, e + [Resume(0, true)] + [Resume(1, true)], false);
    WinnerCommits(placed, key);
    LoserReplays(Next(placed, Resume(0, true), false), key);
  }

  /** A client whose answer timed out, and who then tried the same key again. */
  function TimedOut(key: string): seq<Event> {
    [] + [Begin(0, 7, Some(key))] + [Resume(0, true)] + [LoseAnswer(0, true, true)] + [Resume(0, true)]
  }

  /** One lost answer is enough, with a venue that refuses repeats and no worker dying: the first
      attempt is accepted, its answer times out, the second is refused as a repeat, and the venue
      works an order with no row and no audit record. */
  lemma LostAnswerLeavesAnOrphan(key: string)
    requires key != ""
    ensures var w := Run(GENESIS, TimedOut(key), true);
      && w.accepted == [Placement(7, Client(key), 0)] && w.lost == {0}
      && w.table == Table([], [])
      && w.calls == map[0 := Done(7, Client(key), Refused)]
  {
    var k := Client(key);
    var e: seq<Event> := [];
    RunSnoc(GENESIS, e, Begin(0, 7, Some(key)), true);
    RunSnoc(GENESIS, e + [Begin(0, 7, Some(key))], Resume(0, true), true);
    RunSnoc(GENESIS, e + [Begin(0, 7, Some(key))] + [Resume(0, true)], LoseAnswer(0, true, true), true);
    RunSnoc(GENESIS, e + [Begin(0, 7, Some(key))] + [Resume(0, true)] + [LoseAnswer(0, true, true)],
            Resume(0, true), true);
    var a := Next(Next(GENESIS, Begin(0, 7, Some(key)), true), Resume(0, true), true);
    assert a == GENESIS.(calls := map[0 := Cleared(7, k, 0)]);
    var b := Next(a, LoseAnswer(0, true, true), true);
    assert b == GENESIS.(calls := map[0 := Cleared(7, k, 1)],
                         accepted := [Placement(7, k, 0)], lost := {0}, issued := 1);
    assert Placement(7, k, 0) in b.accepted;
  }
}
