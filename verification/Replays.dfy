/** What a retry does (`_execute_inner` in app/services/trade_service.py): once a key has its order, a
    request under it echoes that order and never reaches the venue; a request under a new key does. */
module Replays {
  import opened Money
  import opened Execute

  /** Before its pre-check, or ended without the venue: the echo of order `id`, the kill switch, or the
      worker's death. */
  predicate OnlyEchoes(c: Call, id: BrokerId) {
    c.Started? || (c.Done? && (c.outcome == Replayed(id) || c.outcome.Halted? || c.outcome.Dead?))
  }

  /** The (user, key) has one row, and it carries order `id`. */
  ghost predicate Claimed(rows: seq<Row>, user: nat, key: Key, id: BrokerId) {
    Names(rows, user, key, id) && forall r :: r in rows && r.user == user && r.key == key ==> r.id == id
  }

  /** Not yet begun, or begun and still before its pre-check. */
  predicate NotChecked(w: World, call: nat) {
    call !in w.calls || w.calls[call].Started?
  }

  predicate Concerns(e: Event, call: nat) {
    (e.Begin? || e.Resume? || e.LoseAnswer? || e.Die?) && e.call == call
  }

  lemma LookupFindsTheClaim(rows: seq<Row>, user: nat, key: Key, id: BrokerId)
    requires Claimed(rows, user, key, id)
    ensures Lookup(rows, user, key).Some? && Lookup(rows, user, key).value.id == id
  {
    LookupNames(rows, user, key);
    var i :| 0 <= i < |rows| && rows[i].user == user && rows[i].key == key && rows[i].id == id;
    assert Holds(rows, user, key);
  }

  /** A call that only echoes goes on doing so, and its events take nothing to the venue. */
  lemma EchoStep(w: World, e: Event, dedup: bool, call: nat, id: BrokerId)
    requires call in w.calls && OnlyEchoes(w.calls[call], id)
    requires Claimed(w.table.rows, w.calls[call].user, w.calls[call].key, id)
    ensures var v := Next(w, e, dedup);
      && call in v.calls && OnlyEchoes(v.calls[call], id)
      && (Concerns(e, call) ==> v.accepted == w.accepted)
  {
    LookupFindsTheClaim(w.table.rows, w.calls[call].user, w.calls[call].key, id);
    hide Lookup, Claimed, Commit, Known;
  }

  lemma CallsKeepTheirKey(w: World, e: Event, dedup: bool, call: nat)
    requires call in w.calls
    ensures var v := Next(w, e, dedup);
      call in v.calls && v.calls[call].user == w.calls[call].user && v.calls[call].key == w.calls[call].key
  {
    hide Lookup, Commit, Known;
  }

  lemma CallsBeginStarted(w: World, e: Event, dedup: bool, call: nat)
    requires call !in w.calls && call in Next(w, e, dedup).calls
    ensures Next(w, e, dedup).calls[call].Started? && Next(w, e, dedup).accepted == w.accepted
  {
    hide Lookup, Commit, Known;
  }

  /** Over every run and either venue policy: after some call under a (user, key) has succeeded with order
      `id`, every call under that key that had not passed its pre-check by then is either still before it,
      or has echoed that very order, or was stopped by the kill switch or with its worker. None is placed,
      accepted or refused. */
  lemma {:induction false} RetriesOnlyEcho(events: seq<Event>, more: seq<Event>, dedup: bool, first: nat, later: nat)
    requires var w := Run(GENESIS, events, dedup);
      && first in w.calls && Successful(w.calls[first]) && NotChecked(w, later)
    requires var c, v := Run(GENESIS, events, dedup).calls[first], Run(GENESIS, events + more, dedup);
      later in v.calls && v.calls[later].user == c.user && v.calls[later].key == c.key
    ensures var id := Run(GENESIS, events, dedup).calls[first].outcome.id;
      OnlyEchoes(Run(GENESIS, events + more, dedup).calls[later], id)
  {
    hide Next, OnlyEchoes, Names;
    var c := Run(GENESIS, events, dedup).calls[first];
    if more == [] {
      assert events + more == events;
      StartedEchoes(Run(GENESIS, events, dedup).calls[later], c.outcome.id);
    } else {
      var fewer, e := more[..|more| - 1], more[|more| - 1];
      assert events + more == events + fewer + [e];
      assert (events + more)[..|events + more| - 1] == events + fewer;
      var before := Run(GENESIS, events + fewer, dedup);
      assert Run(GENESIS, events + more, dedup) == Next(before, e, dedup);
      hide Run;
      if later in before.calls {
        CallsKeepTheirKey(before, e, dedup, later);
        RetriesOnlyEcho(events, fewer, dedup, first, later);
        AnswersNameTheRow(events, fewer, dedup, first);
        EchoStep(before, e, dedup, later, c.outcome.id);
      } else {
        CallsBeginStarted(before, e, dedup, later);
        StartedEchoes(Next(before, e, dedup).calls[later], c.outcome.id);
      }
    }
  }

  lemma StartedEchoes(c: Call, id: BrokerId)
    ensures c.Started? ==> OnlyEchoes(c, id)
  {
  }

  /** No event of such a call gives the venue another order. */
  lemma RetriesPlaceNothing(events: seq<Event>, more: seq<Event>, dedup: bool, first: nat, later: nat, e: Event)
    requires var w := Run(GENESIS, events, dedup);
      && first in w.calls && Successful(w.calls[first]) && NotChecked(w, later)
    requires var c, v := Run(GENESIS, events, dedup).calls[first], Run(GENESIS, events + more, dedup);
      later in v.calls && v.calls[later].user == c.user && v.calls[later].key == c.key
    requires Concerns(e, later)
    ensures Next(Run(GENESIS, events + more, dedup), e, dedup).accepted == Run(GENESIS, events + more, dedup).accepted
  {
    hide Run, Next, OnlyEchoes, Names;
    RetriesOnlyEcho(events, more, dedup, first, later);
    AnswersNameTheRow(events, more, dedup, first);
    var c := Run(GENESIS, events, dedup).calls[first];
    EchoStep(Run(GENESIS, events + more, dedup), e, dedup, later, c.outcome.id);
  }

  /** And when the kill switch lets it through, its pre-check echoes the order. */
  lemma RetryIsEchoed(events: seq<Event>, more: seq<Event>, dedup: bool, first: nat, later: nat)
    requires var w := Run(GENESIS, events, dedup); first in w.calls && Successful(w.calls[first])
    requires var c, v := Run(GENESIS, events, dedup).calls[first], Run(GENESIS, events + more, dedup);
      later in v.calls && v.calls[later] == Started(c.user, c.key)
    ensures var c, v := Run(GENESIS, events, dedup).calls[first], Run(GENESIS, events + more, dedup);
      Next(v, Resume(later, true), dedup) == v.(calls := v.calls[later := Done(c.user, c.key, Replayed(c.outcome.id))])
  {
    hide Run, Names;
    AnswersNameTheRow(events, more, dedup, first);
    var c, v := Run(GENESIS, events, dedup).calls[first], Run(GENESIS, events + more, dedup);
    LookupFindsTheClaim(v.table.rows, c.user, c.key, c.outcome.id);
    hide Lookup, Claimed;
  }

  // ---- A closed key ------------------------------------------------------------------------------

  /** Nobody under the key is between its pre-check and its end. */
  ghost predicate NobodyOnTheWay(w: World, user: nat, key: Key) {
    forall c :: c in w.calls && w.calls[c].user == user && w.calls[c].key == key ==>
      w.calls[c].Started? || w.calls[c].Done?
  }

  /** Only a call past its pre-check, or a replacement under a fresh key, gives the venue an order. */
  lemma WhoPlaces(w: World, e: Event, dedup: bool, user: nat, key: Key, p: Placement)
    requires p.user == user && p.key == key && KeyIssued(key, w.generated)
    requires NobodyOnTheWay(w, user, key) && p in Next(w, e, dedup).accepted
    ensures p in w.accepted
  {
    hide Lookup, Commit, Known;
  }

  /** So once a key has its order and no earlier request is still on its way, the venue takes no other order
      under it, whatever follows. */
  lemma {:induction false} ClosedKeyStaysClosed(events: seq<Event>, more: seq<Event>, dedup: bool,
                                                first: nat, p: Placement)
    requires var w := Run(GENESIS, events, dedup);
      && first in w.calls && Successful(w.calls[first])
      && NobodyOnTheWay(w, w.calls[first].user, w.calls[first].key)
      && p.user == w.calls[first].user && p.key == w.calls[first].key
    requires p in Run(GENESIS, events + more, dedup).accepted
    ensures p in Run(GENESIS, events, dedup).accepted
  {
    hide Next, Names, Sound;
    if more == [] {
      assert events + more == events;
    } else {
      var fewer, e := more[..|more| - 1], more[|more| - 1];
      assert (events + more)[..|events + more| - 1] == events + fewer;
      var w, before := Run(GENESIS, events, dedup), Run(GENESIS, events + fewer, dedup);
      assert Run(GENESIS, events + more, dedup) == Next(before, e, dedup);
      hide Run, OnlyEchoes;
      forall c | c in before.calls && before.calls[c].user == p.user && before.calls[c].key == p.key
        ensures before.calls[c].Started? || before.calls[c].Done?
      {
        if NotChecked(w, c) {
          RetriesOnlyEcho(events, fewer, dedup, first, c);
          EchoesAreOver(before.calls[c], w.calls[first].outcome.id);
        } else {
          CallKeyStays(events, fewer, dedup, c);
          AnswersStand(events, fewer, dedup, c);
        }
      }
      AnswersStand(events, fewer, dedup, first);
      RunIsSound(events + fewer, dedup);
      KeysAreIssued(before, first);
      WhoPlaces(before, e, dedup, p.user, p.key, p);
      ClosedKeyStaysClosed(events, fewer, dedup, first, p);
    }
  }

  lemma EchoesAreOver(c: Call, id: BrokerId)
    ensures OnlyEchoes(c, id) ==> c.Started? || c.Done?
  {
  }

  lemma KeysAreIssued(w: World, call: nat)
    requires Sound(w) && call in w.calls
    ensures KeyIssued(w.calls[call].key, w.generated)
  {
    assert CallSound(w, w.calls[call]);
  }

  lemma {:induction false} CallKeyStays(events: seq<Event>, more: seq<Event>, dedup: bool, call: nat)
    requires call in Run(GENESIS, events, dedup).calls
    ensures var w, v := Run(GENESIS, events, dedup), Run(GENESIS, events + more, dedup);
      call in v.calls && v.calls[call].user == w.calls[call].user && v.calls[call].key == w.calls[call].key
  {
    hide Next;
    if more == [] {
      assert events + more == events;
    } else {
      var fewer, e := more[..|more| - 1], more[|more| - 1];
      assert (events + more)[..|events + more| - 1] == events + fewer;
      CallKeyStays(events, fewer, dedup, call);
      CallsKeepTheirKey(Run(GENESIS, events + fewer, dedup), e, dedup, call);
    }
  }

  // ---- A new key -----------------------------------------------------------------------------------

  /** A request under a key without a row, which the venue does not know either, is placed, recorded and
      audited, if the gates and the venue agree and nobody interferes. */
  lemma NewKeyIsPlaced(w: World, dedup: bool, call: nat, user: nat, key: string)
    requires Sound(w) && call !in w.calls && key != ""
    requires !Holds(w.table.rows, user, Client(key)) && !Known(w.accepted, user, Client(key))
    ensures var id := w.issued;
      var v := Next(Next(Next(Next(w, Begin(call, user, Some(key)), dedup),
                 Resume(call, true), dedup), Resume(call, true), dedup), Resume(call, true), dedup);
      && v.calls == w.calls[call := Done(user, Client(key), Accepted(id))]
      && v.accepted == w.accepted + [Placement(user, Client(key), id)] && v.lost == w.lost
      && v.table == Table(w.table.rows + [Row(user, Client(key), id, Executed, true)],
                          w.table.audits + [Audit(user, id)])
  {
    hide Sound, Known;
    LookupNames(w.table.rows, user, Client(key));
    hide Lookup;
    var a := Next(w, Begin(call, user, Some(key)), dedup);
    assert a == w.(calls := w.calls[call := Started(user, Client(key))]);
    var b := Next(a, Resume(call, true), dedup);
    assert b == w.(calls := w.calls[call := Cleared(user, Client(key), 0)]);
    var c := Next(b, Resume(call, true), dedup);
    assert c.calls == w.calls[call := Placed(user, Client(key), w.issued)];
  }

  /** Over every run a request without a key, or with an empty one, goes by a key of its own: no call, no row
      and no client goes by it. */
  lemma NoKeyIsAFreshKey(events: seq<Event>, dedup: bool, call: nat, user: nat, key: Option<string>)
    requires call !in Run(GENESIS, events, dedup).calls && (key == None || key == Some(""))
    ensures var w := Run(GENESIS, events, dedup);
      var v := Next(w, Begin(call, user, key), dedup);
      && call in v.calls && v.calls[call].Started? && v.calls[call].user == user
      && v.calls[call].key.Generated?
      && (forall c :: c in w.calls ==> w.calls[c].key != v.calls[call].key)
      && (forall r :: r in w.table.rows ==> r.key != v.calls[call].key)
      && v.table == w.table && v.accepted == w.accepted
  {
    RunIsSound(events, dedup);
    var w := Run(GENESIS, events, dedup);
    hide Run, RowsUnique, Audited;
    forall c | c in w.calls ensures KeyIssued(w.calls[c].key, w.generated) {
      KeysAreIssued(w, c);
    }
  }

  /** After a timeout the same key is sent again, twice; the third timeout ends the call. */
  lemma ThirdTimeoutEndsTheCall(w: World, dedup: bool, call: nat, took: bool)
    requires call in w.calls && w.calls[call].Cleared? && w.calls[call].sent == 0
    ensures var user, key := w.calls[call].user, w.calls[call].key;
      var one := Next(w, LoseAnswer(call, took, true), dedup);
      var two := Next(one, LoseAnswer(call, took, true), dedup);
      var three := Next(two, LoseAnswer(call, took, true), dedup);
      && one.calls[call] == Cleared(user, key, 1) && two.calls[call] == Cleared(user, key, 2)
      && three.calls[call] == Done(user, key, Refused)
      && Next(w, LoseAnswer(call, took, false), dedup).calls[call] == Done(user, key, Refused)
  {
    hide Known;
  }

  /** The kill switch comes before the pre-check: a halted account's retry is stopped, not echoed. */
  lemma HaltStopsARetry(w: World, dedup: bool, call: nat)
    requires call in w.calls && w.calls[call].Started?
    ensures var c := w.calls[call];
      Next(w, Resume(call, false), dedup) == w.(calls := w.calls[call := Done(c.user, c.key, Halted)])
  {
  }

  // ---- The audit trail names the user ---------------------------------------------------------------

  ghost predicate AuditedByUser(t: Table) {
    forall r :: r in t.rows && r.origin == Executed ==> Audit(r.user, r.id) in t.audits
  }

  lemma EventKeepsAudits(w: World, e: Event, dedup: bool)
    requires AuditedByUser(w.table)
    ensures AuditedByUser(Next(w, e, dedup).table)
  {
    hide Lookup, Known;
    var v := Next(w, e, dedup);
    forall r | r in v.table.rows && r.origin == Executed ensures Audit(r.user, r.id) in v.table.audits {
      var i :| 0 <= i < |v.table.rows| && v.table.rows[i] == r;
      if i < |w.table.rows| {
        assert w.table.rows[i] in w.table.rows;
        assert v.table.rows[i].user == w.table.rows[i].user && v.table.rows[i].id == w.table.rows[i].id
               && v.table.rows[i].origin == w.table.rows[i].origin;
      } else if e.Resume? {
        assert v.table.audits[|w.table.audits|] == Audit(r.user, r.id);
      }
    }
  }

  /** Over every run the one audit record of an executed order is filed under the order's own user. */
  lemma {:induction false} AuditsNameTheUser(events: seq<Event>, dedup: bool)
    ensures AuditedByUser(Run(GENESIS, events, dedup).table)
  {
    hide Next, AuditedByUser;
    if events == [] {
      NothingToAudit();
    } else {
      AuditsNameTheUser(events[..|events| - 1], dedup);
      EventKeepsAudits(Run(GENESIS, events[..|events| - 1], dedup), events[|events| - 1], dedup);
    }
  }

  lemma NothingToAudit()
    ensures AuditedByUser(GENESIS.table)
  {
  }
}
