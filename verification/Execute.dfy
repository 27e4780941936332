/** Idempotent order submission (`_execute_inner` and `_persist_order` in
    app/services/trade_service.py, `_request` in app/providers/alpaca_broker_provider.py): any number
    of requests for one (user, key), interleaved at every await between the pre-check, the venue and
    the commit, with answers that get lost and workers that die on the way. */
module Execute {
  import opened Money

  type BrokerId = nat

  /** A caller's idempotency key, or a generated one no caller can hold. */
  datatype Key = Client(text: string) | Generated(n: nat)

  datatype Origin = Executed | Replacement

  datatype Row = Row(user: nat, key: Key, id: BrokerId, origin: Origin, working: bool)

  datatype Audit = Audit(user: nat, id: BrokerId)

  datatype Table = Table(rows: seq<Row>, audits: seq<Audit>)

  // ---- The order table and its unique index ------------------------------------------------

  /** The row holding a (user, key), if any. */
  function Lookup(rows: seq<Row>, user: nat, key: Key): (found: Option<Row>)
    ensures found.Some? ==> found.value in rows && found.value.user == user && found.value.key == key
    ensures found.None? ==> forall r :: r in rows ==> r.user != user || r.key != key
  {
    if rows == [] then None
    else
      var found := Lookup(rows[..|rows| - 1], user, key);
      var r := rows[|rows| - 1];
      if found.Some? then found else if r.user == user && r.key == key then Some(r) else None
  }

  /** Row and audit record in one commit; the unique index rolls both back. */
  function Commit(t: Table, user: nat, key: Key, id: BrokerId): (Table, bool) {
    if Lookup(t.rows, user, key).Some? then (t, false)
    else (Table(t.rows + [Row(user, key, id, Executed, true)], t.audits + [Audit(user, id)]), true)
  }

  class OrderTable {
    var rows: seq<Row>
    var audits: seq<Audit>

    ghost function View(): Table
      reads this
    {
      Table(rows, audits)
    }

    constructor ()
      ensures View() == Table([], [])
    {
      rows, audits := [], [];
    }

    method FindByClientOrderId(user: nat, key: Key) returns (found: Option<Row>)
      ensures found == Lookup(rows, user, key)
    {
      found := None;
      for i := 0 to |rows|
        invariant found == Lookup(rows[..i], user, key)
      {
        assert rows[..i + 1][..i] == rows[..i];
        if found.None? && rows[i].user == user && rows[i].key == key {
          found := Some(rows[i]);
        }
      }
      assert rows[..|rows|] == rows;
    }

    /** `_persist_order`: adds both records, and takes both back when the index objects. */
    method PersistOrder(user: nat, key: Key, id: BrokerId) returns (won: bool)
      modifies this
      ensures (View(), won) == Commit(old(View()), user, key, id)
    {
      var taken := FindByClientOrderId(user, key);
      var rowsBefore, auditsBefore := rows, audits;
      rows := rows + [Row(user, key, id, Executed, true)];
      audits := audits + [Audit(user, id)];
      won := taken.None?;
      if !won {
        rows, audits := rowsBefore, auditsBefore;
      }
    }
  }

  // ---- Concurrent calls ----------------------------------------------------------------------

  /** How a call ends: with an order, fresh or echoed; stopped by the kill switch before its pre-check;
      refused or raised at a gate or the venue; dead with its worker. */
  datatype Outcome = Accepted(id: BrokerId) | Replayed(id: BrokerId) | Halted | Refused | Dead | RowMissing

  /** Where a call stands between two awaits. */
  datatype Call =
    | Started(user: nat, key: Key)
    | Cleared(user: nat, key: Key, sent: nat)
    | Placed(user: nat, key: Key, id: BrokerId)
    | RolledBack(user: nat, key: Key)
    | Done(user: nat, key: Key, outcome: Outcome)
  {
    /** The order in this call's hands. */
    function IdOr(default: BrokerId): BrokerId {
      if Placed? then id else default
    }
  }

  /** An order the venue accepted, from execute or as a replacement. */
  datatype Placement = Placement(user: nat, key: Key, id: BrokerId)

  /** `accepted` is the venue's own list, `lost` the orders on it whose answer never reached a commit;
      ids below `issued` and generated keys below `generated` are taken. */
  datatype World = World(table: Table, calls: map<nat, Call>, accepted: seq<Placement>, lost: set<BrokerId>,
                         issued: nat, generated: nat)

  predicate Known(accepted: seq<Placement>, user: nat, key: Key) {
    exists p :: p in accepted && p.user == user && p.key == key
  }

  datatype Event =
    | Begin(call: nat, user: nat, key: Option<string>)
    | Resume(call: nat, go: bool)               // go: kill switch, gates and venue agree
    | LoseAnswer(call: nat, took: bool, timeout: bool)  // a timeout or 5xx, whether or not the venue took it
    | Die(call: nat)                            // the worker is gone, or its commit raised
    | Cancel(row: nat)                          // any later change of a row's state
    | Replace(row: nat)                         // the venue issues a new order, a new row is written
    | LoseReplace(row: nat)                     // the venue issues it, the answer is lost

  /** `stop_after_attempt(3)`. */
  const ATTEMPTS: nat := 3

  /** The venue takes an order under a (user, key) and gives it the next id. */
  function Take(w: World, user: nat, key: Key): World {
    w.(accepted := w.accepted + [Placement(user, key, w.issued)], issued := w.issued + 1)
  }

  /** One attempt whose answer never arrives. The same key is sent again after a timeout while attempts
      remain; anything else raises out of the call. */
  function Unanswered(w: World, c: Call, took: bool, timeout: bool, dedup: bool): (World, Call)
    requires c.Cleared?
  {
    (if took && !(dedup && Known(w.accepted, c.user, c.key))
     then Take(w, c.user, c.key).(lost := w.lost + {w.issued}) else w,
     if timeout && c.sent + 1 < ATTEMPTS then Cleared(c.user, c.key, c.sent + 1) else Done(c.user, c.key, Refused))
  }

  /** Runs one call up to its next await. With `dedup` the venue refuses a (user, key) it has
      already accepted. */
  function Advance(w: World, c: Call, go: bool, dedup: bool): (World, Call) {
    match c
    case Started(u, k) =>
      var row := Lookup(w.table.rows, u, k);
      (w, if !go then Done(u, k, Halted)
          else if row.Some? then Done(u, k, Replayed(row.value.id))
          else Cleared(u, k, 0))
    case Cleared(u, k, _) =>
      if !go || (dedup && Known(w.accepted, u, k)) then (w, Done(u, k, Refused))
      else (Take(w, u, k), Placed(u, k, w.issued))
    case Placed(u, k, id) =>
      var (table, won) := Commit(w.table, u, k, id);
      (w.(table := table), if won then Done(u, k, Accepted(id)) else RolledBack(u, k))
    case RolledBack(u, k) =>
      var row := Lookup(w.table.rows, u, k);
      (w, Done(u, k, if row.Some? then Replayed(row.value.id) else RowMissing))
    case Done(_, _, _) => (w, c)
  }

  function Next(w: World, e: Event, dedup: bool): World {
    match e
    case Begin(call, user, key) =>
      if call in w.calls then w
      else if key.Some? && key.value != "" then w.(calls := w.calls[call := Started(user, Client(key.value))])
      else w.(calls := w.calls[call := Started(user, Generated(w.generated))], generated := w.generated + 1)
    case Resume(call, go) =>
      if call !in w.calls then w
      else
        var (v, c) := Advance(w, w.calls[call], go, dedup);
        v.(calls := v.calls[call := c])
    case LoseAnswer(call, took, timeout) =>
      if call !in w.calls || !w.calls[call].Cleared? then w
      else
        var (v, c) := Unanswered(w, w.calls[call], took, timeout, dedup);
        v.(calls := v.calls[call := c])
    case Die(call) =>
      if call !in w.calls || w.calls[call].Done? then w
      else
        var c := w.calls[call];
        w.(calls := w.calls[call := Done(c.user, c.key, Dead)],
           lost := if c.Placed? then w.lost + {c.id} else w.lost)
    case Cancel(row) =>
      if row < |w.table.rows|
      then w.(table := w.table.(rows := w.table.rows[row := w.table.rows[row].(working := false)])) else w
    case Replace(row) =>
      if row < |w.table.rows|
      then Take(w, w.table.rows[row].user, Generated(w.generated)).(
             table := w.table.(rows :=
               w.table.rows[row := w.table.rows[row].(working := false)]
               + [Row(w.table.rows[row].user, Generated(w.generated), w.issued, Replacement, true)]),
             generated := w.generated + 1)
      else w
    case LoseReplace(row) =>
      if row < |w.table.rows|
      then Take(w, w.table.rows[row].user, Generated(w.generated)).(
             lost := w.lost + {w.issued}, generated := w.generated + 1)
      else w
  }

  function Run(w: World, events: seq<Event>, dedup: bool): World {
    if events == [] then w else Next(Run(w, events[..|events| - 1], dedup), events[|events| - 1], dedup)
  }

  const GENESIS := World(Table([], []), map[], [], {}, 0, 0)

  // ---- The invariant ------------------------------------------------------------------------------

  ghost predicate Names(rows: seq<Row>, user: nat, key: Key, id: BrokerId) {
    exists i :: 0 <= i < |rows| && rows[i].user == user && rows[i].key == key && rows[i].id == id
  }

  ghost predicate Holds(rows: seq<Row>, user: nat, key: Key) {
    exists i :: 0 <= i < |rows| && rows[i].user == user && rows[i].key == key
  }

  function AuditsFor(audits: seq<Audit>, id: BrokerId): nat {
    if audits == [] then 0
    else AuditsFor(audits[..|audits| - 1], id) + if audits[|audits| - 1].id == id then 1 else 0
  }

  ghost predicate RowsUnique(rows: seq<Row>) {
    && (forall i, j :: 0 <= i < j < |rows| ==> rows[i].user != rows[j].user || rows[i].key != rows[j].key)
    && (forall i, j :: 0 <= i < j < |rows| ==> rows[i].id != rows[j].id)
  }

  ghost predicate KeyIssued(key: Key, generated: nat) {
    key.Generated? ==> key.n < generated
  }

  /** Each row has its audit record exactly when execute wrote it. */
  ghost predicate Audited(t: Table) {
    forall i :: 0 <= i < |t.rows| ==> AuditsFor(t.audits, t.rows[i].id) == if t.rows[i].origin == Executed then 1 else 0
  }

  ghost predicate CallSound(w: World, c: Call) {
    && KeyIssued(c.key, w.generated)
    && match c
       case Placed(u, k, id) => id < w.issued && AuditsFor(w.table.audits, id) == 0
                                && forall i :: 0 <= i < |w.table.rows| ==> w.table.rows[i].id != id
       case RolledBack(u, k) => Holds(w.table.rows, u, k)
       case Done(u, k, Accepted(id)) => Names(w.table.rows, u, k, id)
       case Done(u, k, Replayed(id)) => Names(w.table.rows, u, k, id)
       case Done(u, k, RowMissing) => false
       case _ => true
  }

  ghost predicate CallsSound(w: World) {
    && (forall c :: c in w.calls ==> CallSound(w, w.calls[c]))
    && (forall c, d :: c in w.calls && d in w.calls && c != d && w.calls[c].Placed? && w.calls[d].Placed? ==>
          w.calls[c].id != w.calls[d].id)
  }

  ghost predicate TableSound(w: World) {
    && RowsUnique(w.table.rows) && Audited(w.table)
    && (forall i :: 0 <= i < |w.table.rows| ==>
          w.table.rows[i].id < w.issued && KeyIssued(w.table.rows[i].key, w.generated))
    && (forall i :: 0 <= i < |w.table.audits| ==> w.table.audits[i].id < w.issued)
    && (forall id :: AuditsFor(w.table.audits, id) > 0 ==>
          exists i :: 0 <= i < |w.table.rows| && w.table.rows[i].id == id)
  }

  ghost predicate Sound(w: World) {
    TableSound(w) && CallsSound(w)
  }

  /** Rows keep their user, key and id, and are never removed. */
  ghost predicate RowsGrow(a: seq<Row>, b: seq<Row>) {
    |a| <= |b| && forall i :: 0 <= i < |a| ==>
      b[i].user == a[i].user && b[i].key == a[i].key && b[i].id == a[i].id && b[i].origin == a[i].origin
  }

  lemma GrowingKeeps(a: seq<Row>, b: seq<Row>, user: nat, key: Key, id: BrokerId)
    requires RowsGrow(a, b)
    ensures Names(a, user, key, id) ==> Names(b, user, key, id)
    ensures Holds(a, user, key) ==> Holds(b, user, key)
  {
    if Names(a, user, key, id) {
      var i :| 0 <= i < |a| && a[i].user == user && a[i].key == key && a[i].id == id;
      assert b[i].id == id;
    }
    if Holds(a, user, key) {
      var i :| 0 <= i < |a| && a[i].user == user && a[i].key == key;
      assert b[i].user == user;
    }
  }

  lemma LookupNames(rows: seq<Row>, user: nat, key: Key)
    ensures var found := Lookup(rows, user, key);
      && (found.Some? ==> Names(rows, user, key, found.value.id) && Holds(rows, user, key))
      && (found.None? ==> !Holds(rows, user, key))
  {
    var found := Lookup(rows, user, key);
    if found.Some? {
      var i :| 0 <= i < |rows| && rows[i] == found.value;
    }
  }

  lemma AuditsGrow(audits: seq<Audit>, a: Audit, id: BrokerId)
    ensures AuditsFor(audits + [a], id) == AuditsFor(audits, id) + if a.id == id then 1 else 0
  {
    assert (audits + [a])[..|audits|] == audits;
  }

  lemma {:induction false} NoAudits(audits: seq<Audit>, id: BrokerId)
    requires forall i :: 0 <= i < |audits| ==> audits[i].id != id
    ensures AuditsFor(audits, id) == 0
  {
    if audits == [] {
    } else {
      NoAudits(audits[..|audits| - 1], id);
    }
  }

  // ---- Steps keep it ----------------------------------------------------------------------------------

  /** Changes that leave the audit trail alone and only add rows with fresh ids and keys. */
  lemma OtherCallsStaySound(w: World, v: World, c: Call)
    requires CallSound(w, c)
    requires RowsGrow(w.table.rows, v.table.rows) && w.issued <= v.issued && w.generated <= v.generated
    requires c.Placed? ==> AuditsFor(v.table.audits, c.id) == AuditsFor(w.table.audits, c.id)
    requires c.Placed? ==> forall i :: |w.table.rows| <= i < |v.table.rows| ==> v.table.rows[i].id != c.id
    ensures CallSound(v, c)
  {
    hide Names, Holds, AuditsFor;
    match c
    case Placed(u, k, id) =>
    case RolledBack(u, k) => GrowingKeeps(w.table.rows, v.table.rows, u, k, 0);
    case Done(u, k, Accepted(id)) => GrowingKeeps(w.table.rows, v.table.rows, u, k, id);
    case Done(u, k, Replayed(id)) => GrowingKeeps(w.table.rows, v.table.rows, u, k, id);
    case _ =>
  }

  /** Row and audit record together leave the table sound. */
  lemma CommitKeepsTable(w: World, user: nat, key: Key, id: BrokerId)
    requires TableSound(w) && !Holds(w.table.rows, user, key) && KeyIssued(key, w.generated)
    requires id < w.issued && AuditsFor(w.table.audits, id) == 0
    requires forall i :: 0 <= i < |w.table.rows| ==> w.table.rows[i].id != id
    ensures TableSound(w.(table := Table(w.table.rows + [Row(user, key, id, Executed, true)],
                                         w.table.audits + [Audit(user, id)])))
  {
    var rows := w.table.rows;
    var t := Table(rows + [Row(user, key, id, Executed, true)], w.table.audits + [Audit(user, id)]);
    forall other: BrokerId
      ensures AuditsFor(t.audits, other) == AuditsFor(w.table.audits, other) + if id == other then 1 else 0
    {
      AuditsGrow(w.table.audits, Audit(user, id), other);
    }
    hide AuditsFor;
    assert t.rows[|rows|].id == id;
    forall other: BrokerId | AuditsFor(t.audits, other) > 0
      ensures exists i :: 0 <= i < |t.rows| && t.rows[i].id == other
    {
      if id != other {
        var i :| 0 <= i < |rows| && rows[i].id == other;
        assert t.rows[i].id == other;
      }
    }
  }

  lemma CommitIsSound(w: World, call: nat)
    requires Sound(w) && call in w.calls && w.calls[call].Placed?
    requires Lookup(w.table.rows, w.calls[call].user, w.calls[call].key).None?
    ensures var c := w.calls[call];
      Sound(w.(table := Commit(w.table, c.user, c.key, c.id).0,
               calls := w.calls[call := Done(c.user, c.key, Accepted(c.id))]))
  {
    var c := w.calls[call];
    assert CallSound(w, c);
    LookupNames(w.table.rows, c.user, c.key);
    CommitKeepsTable(w, c.user, c.key, c.id);
    hide TableSound, Lookup;
    CommitKeepsCalls(w, call);
  }

  lemma CommitKeepsCalls(w: World, call: nat)
    requires CallsSound(w) && call in w.calls && w.calls[call].Placed?
    ensures var c := w.calls[call];
      CallsSound(w.(table := Table(w.table.rows + [Row(c.user, c.key, c.id, Executed, true)],
                                   w.table.audits + [Audit(c.user, c.id)]),
                    calls := w.calls[call := Done(c.user, c.key, Accepted(c.id))]))
  {
    var c := w.calls[call];
    assert CallSound(w, c);
    var t := Table(w.table.rows + [Row(c.user, c.key, c.id, Executed, true)], w.table.audits + [Audit(c.user, c.id)]);
    var v := w.(table := t, calls := w.calls[call := Done(c.user, c.key, Accepted(c.id))]);
    assert t.rows[|w.table.rows|].id == c.id;
    assert Names(t.rows, c.user, c.key, c.id);
    hide Names, Holds;
    forall d | d in v.calls ensures CallSound(v, v.calls[d]) {
      if d != call {
        AuditsGrow(w.table.audits, Audit(c.user, c.id), w.calls[d].IdOr(c.id));
        OtherCallsStaySound(w, v, w.calls[d]);
      }
    }
  }

  lemma RowChangeIsSound(w: World, row: nat)
    requires Sound(w) && row < |w.table.rows|
    ensures Sound(Next(w, Cancel(row), true)) && Next(w, Cancel(row), true) == Next(w, Cancel(row), false)
  {
    var v := Next(w, Cancel(row), true);
    RowChangeKeepsTable(w, row);
    hide AuditsFor, Names, Holds, TableSound;
    forall d | d in v.calls ensures CallSound(v, v.calls[d]) {
      OtherCallsStaySound(w, v, w.calls[d]);
    }
  }

  lemma RowChangeKeepsTable(w: World, row: nat)
    requires TableSound(w) && row < |w.table.rows|
    ensures TableSound(w.(table := w.table.(rows := w.table.rows[row := w.table.rows[row].(working := false)])))
  {
    hide AuditsFor;
    var rows := w.table.rows[row := w.table.rows[row].(working := false)];
    assert forall i :: 0 <= i < |rows| ==>
      && rows[i].id == w.table.rows[i].id && rows[i].key == w.table.rows[i].key
      && rows[i].user == w.table.rows[i].user && rows[i].origin == w.table.rows[i].origin;
    forall id: BrokerId | AuditsFor(w.table.audits, id) > 0 ensures exists i :: 0 <= i < |rows| && rows[i].id == id {
      var i :| 0 <= i < |w.table.rows| && w.table.rows[i].id == id;
      assert rows[i].id == id;
    }
  }

  /** A row with a fresh id and key that execute did not write. */
  lemma AppendedRowIsSound(w: World, user: nat)
    requires Sound(w)
    ensures var r := Row(user, Generated(w.generated), w.issued, Replacement, true);
      Sound(w.(table := w.table.(rows := w.table.rows + [r]), issued := w.issued + 1, generated := w.generated + 1))
  {
    NoAudits(w.table.audits, w.issued);
    hide AuditsFor;
    var r := Row(user, Generated(w.generated), w.issued, Replacement, true);
    var v := w.(table := w.table.(rows := w.table.rows + [r]), issued := w.issued + 1, generated := w.generated + 1);
    assert RowsUnique(v.table.rows);
    assert Audited(v.table);
    forall id: BrokerId | AuditsFor(v.table.audits, id) > 0
      ensures exists i :: 0 <= i < |v.table.rows| && v.table.rows[i].id == id
    {
      var i :| 0 <= i < |w.table.rows| && w.table.rows[i].id == id;
      assert v.table.rows[i].id == id;
    }
    AppendedRowLeavesCalls(w, v, r);
  }

  lemma AppendedRowLeavesCalls(w: World, v: World, r: Row)
    requires CallsSound(w) && r.id == w.issued
    requires v == w.(table := w.table.(rows := w.table.rows + [r]),
                     issued := w.issued + 1, generated := w.generated + 1)
    ensures CallsSound(v)
  {
    hide AuditsFor, Names, Holds;
    forall d | d in v.calls ensures CallSound(v, v.calls[d]) {
      OtherCallsStaySound(w, v, w.calls[d]);
    }
  }

  lemma ReplaceIsSound(w: World, row: nat, dedup: bool)
    requires Sound(w) && row < |w.table.rows|
    ensures Sound(Next(w, Replace(row), dedup))
  {
    hide Sound;
    RowChangeIsSound(w, row);
    AppendedRowIsSound(Next(w, Cancel(row), dedup), w.table.rows[row].user);
    var u := Next(w, Cancel(row), dedup);
    var r := Row(w.table.rows[row].user, Generated(w.generated), w.issued, Replacement, true);
    VenueListIsFree(u.(table := u.table.(rows := u.table.rows + [r]),
                       issued := u.issued + 1, generated := u.generated + 1),
                    Next(w, Replace(row), dedup));
  }

  /** What the venue lists, and what was lost, is no part of soundness. */
  lemma VenueListIsFree(w: World, v: World)
    requires Sound(w) && v == w.(accepted := v.accepted, lost := v.lost)
    ensures Sound(v)
  {
    hide AuditsFor, Names, Holds, RowsUnique, Audited;
    forall d | d in v.calls ensures CallSound(v, v.calls[d]) {
      OtherCallsStaySound(w, v, w.calls[d]);
    }
  }

  /** Ids and keys that are used up but written nowhere. */
  lemma UsedUpIsSound(w: World, v: World)
    requires Sound(w) && v.table == w.table && v.calls == w.calls
    requires w.issued <= v.issued && w.generated <= v.generated
    ensures Sound(v)
  {
    hide AuditsFor, Names, Holds, RowsUnique, Audited;
    forall d | d in v.calls ensures CallSound(v, v.calls[d]) {
      OtherCallsStaySound(w, v, w.calls[d]);
    }
  }

  /** A call moves on without touching the table. */
  lemma MoveIsSound(w: World, v: World, call: nat, c: Call)
    requires Sound(w) && v.table == w.table && w.issued <= v.issued && w.generated <= v.generated
    requires v.calls == w.calls[call := c] && CallSound(v, c) && (c.Placed? ==> w.issued <= c.id)
    ensures Sound(v)
  {
    hide AuditsFor, Names, Holds, RowsUnique, Audited;
    assert TableSound(v);
    assert forall d :: d in w.calls && w.calls[d].Placed? ==> CallSound(w, w.calls[d]) && w.calls[d].id < w.issued;
    forall d | d in v.calls ensures CallSound(v, v.calls[d]) {
      if d != call {
        OtherCallsStaySound(w, v, w.calls[d]);
      }
    }
  }

  lemma ResumeIsSound(w: World, call: nat, go: bool, dedup: bool)
    requires Sound(w) && call in w.calls
    ensures Sound(Next(w, Resume(call, go), dedup))
  {
    var c := w.calls[call];
    assert CallSound(w, c);
    LookupNames(w.table.rows, c.user, c.key);
    if c.Placed? && Lookup(w.table.rows, c.user, c.key).None? {
      CommitIsSound(w, call);
    } else {
      NoAudits(w.table.audits, w.issued);
      AdvanceIsSound(w, c, go, dedup);
      hide Sound, Advance, CallSound;
      MoveIsSound(w, Next(w, Resume(call, go), dedup), call, Advance(w, c, go, dedup).1);
    }
  }

  lemma AdvanceIsSound(w: World, c: Call, go: bool, dedup: bool)
    requires TableSound(w) && CallSound(w, c)
    requires c.Placed? ==> Lookup(w.table.rows, c.user, c.key).Some?
    ensures var (v, d) := Advance(w, c, go, dedup);
      && v.table == w.table && w.issued <= v.issued && w.generated == v.generated && v.calls == w.calls
      && CallSound(v, d) && (d.Placed? ==> w.issued <= d.id)
      && forall calls :: CallSound(v.(calls := calls), d)
  {
    LookupNames(w.table.rows, c.user, c.key);
    NoAudits(w.table.audits, w.issued);
    hide AuditsFor, Names, Holds, Lookup, RowsUnique, Audited;
  }

  lemma BeginIsSound(w: World, call: nat, user: nat, key: Option<string>, dedup: bool)
    requires Sound(w)
    ensures Sound(Next(w, Begin(call, user, key), dedup))
  {
    hide AuditsFor, Names, Holds;
    var v := Next(w, Begin(call, user, key), dedup);
    forall d | d in v.calls && d in w.calls ensures CallSound(v, v.calls[d]) {
      OtherCallsStaySound(w, v, w.calls[d]);
    }
  }

  lemma {:induction false} RunIsSound(events: seq<Event>, dedup: bool)
    ensures Sound(Run(GENESIS, events, dedup))
  {
    hide Sound, Next;
    if events == [] {
      GenesisIsSound();
    } else {
      var w := Run(GENESIS, events[..|events| - 1], dedup);
      RunIsSound(events[..|events| - 1], dedup);
      EventIsSound(w, events[|events| - 1], dedup);
    }
  }

  lemma GenesisIsSound()
    ensures Sound(GENESIS)
  {
  }

  /** A call sends again or gives up. */
  lemma EndIsSound(w: World, v: World, call: nat)
    requires Sound(w) && call in w.calls && v.table == w.table && w.issued <= v.issued && w.generated == v.generated
    requires call in v.calls && v.calls == w.calls[call := v.calls[call]]
    requires v.calls[call].key == w.calls[call].key
    requires v.calls[call].Cleared? ||
             (v.calls[call].Done? && (v.calls[call].outcome.Refused? || v.calls[call].outcome.Dead?))
    ensures Sound(v)
  {
    assert CallSound(w, w.calls[call]);
    MoveIsSound(w, v, call, v.calls[call]);
  }

  lemma EventIsSound(w: World, e: Event, dedup: bool)
    requires Sound(w)
    ensures Sound(Next(w, e, dedup))
  {
    hide Sound;
    match e
    case Begin(call, user, key) => BeginIsSound(w, call, user, key, dedup);
    case Resume(call, go) =>
      if call in w.calls {
        ResumeIsSound(w, call, go, dedup);
      }
    case Cancel(row) =>
      if row < |w.table.rows| {
        RowChangeIsSound(w, row);
      }
    case LoseAnswer(call, took, timeout) =>
      if call in w.calls && w.calls[call].Cleared? {
        EndIsSound(w, Next(w, e, dedup), call);
      }
    case Die(call) =>
      if call in w.calls && !w.calls[call].Done? {
        EndIsSound(w, Next(w, e, dedup), call);
      }
    case LoseReplace(row) =>
      if row < |w.table.rows| {
        UsedUpIsSound(w, Next(w, e, dedup));
      }
    case Replace(row) =>
      if row < |w.table.rows| {
        ReplaceIsSound(w, row, dedup);
      }
  }

  // ---- The theorems -------------------------------------------------------------------------------------

  predicate Successful(c: Call) {
    c.Done? && (c.outcome.Accepted? || c.outcome.Replayed?)
  }

  /** Over any interleaving a (user, key) has at most one row. */
  lemma OneOrderPerKey(events: seq<Event>, dedup: bool, i: nat, j: nat)
    requires i < |Run(GENESIS, events, dedup).table.rows| && j < |Run(GENESIS, events, dedup).table.rows|
    ensures var rows := Run(GENESIS, events, dedup).table.rows;
      rows[i].user == rows[j].user && rows[i].key == rows[j].key ==> i == j
  {
    RunIsSound(events, dedup);
    hide Run;
  }

  lemma DoneStays(w: World, e: Event, dedup: bool, call: nat)
    requires call in w.calls && w.calls[call].Done?
    ensures call in Next(w, e, dedup).calls && Next(w, e, dedup).calls[call] == w.calls[call]
  {
    hide Lookup, Commit;
  }

  lemma {:induction false} AnswersStand(events: seq<Event>, more: seq<Event>, dedup: bool, call: nat)
    requires call in Run(GENESIS, events, dedup).calls && Run(GENESIS, events, dedup).calls[call].Done?
    ensures var w := Run(GENESIS, events + more, dedup);
      call in w.calls && w.calls[call] == Run(GENESIS, events, dedup).calls[call]
  {
    hide Next;
    var all := events + more;
    if more == [] {
      assert all == events;
    } else {
      assert all[..|all| - 1] == events + more[..|more| - 1];
      AnswersStand(events, more[..|more| - 1], dedup, call);
      DoneStays(Run(GENESIS, all[..|all| - 1], dedup), all[|all| - 1], dedup, call);
    }
  }

  lemma NamedRowIsTheOnlyOne(w: World, call: nat)
    requires Sound(w) && call in w.calls && Successful(w.calls[call])
    ensures var c := w.calls[call];
      && Names(w.table.rows, c.user, c.key, c.outcome.id)
      && forall r :: r in w.table.rows && r.user == c.user && r.key == c.key ==> r.id == c.outcome.id
  {
    var c := w.calls[call];
    assert CallSound(w, c);
  }

  /** Every call that succeeded for a (user, key), fresh or replayed, and however many cancels and
      replaces follow, keeps its answer, and that answer is the broker order id of the key's one row. */
  lemma AnswersNameTheRow(events: seq<Event>, more: seq<Event>, dedup: bool, call: nat)
    requires call in Run(GENESIS, events, dedup).calls && Successful(Run(GENESIS, events, dedup).calls[call])
    ensures var c := Run(GENESIS, events, dedup).calls[call];
      var w := Run(GENESIS, events + more, dedup);
      && call in w.calls && w.calls[call] == c
      && Names(w.table.rows, c.user, c.key, c.outcome.id)
      && forall r :: r in w.table.rows && r.user == c.user && r.key == c.key ==> r.id == c.outcome.id
  {
    hide Run, Sound, Names;
    AnswersStand(events, more, dedup, call);
    RunIsSound(events + more, dedup);
    NamedRowIsTheOnlyOne(Run(GENESIS, events + more, dedup), call);
  }

  /** A success always has its row, a lost race always finds the winner's row to replay, and each
      row written by execute has exactly one audit record, rows written by replace none. */
  lemma SuccessHasItsRowAndAudit(events: seq<Event>, dedup: bool, call: nat, i: nat)
    ensures var w := Run(GENESIS, events, dedup);
      && (call in w.calls && Successful(w.calls[call]) ==>
            Names(w.table.rows, w.calls[call].user, w.calls[call].key, w.calls[call].outcome.id))
      && (call in w.calls && w.calls[call].Done? ==> !w.calls[call].outcome.RowMissing?)
      && (i < |w.table.rows| ==>
            AuditsFor(w.table.audits, w.table.rows[i].id) == if w.table.rows[i].origin == Executed then 1 else 0)
  {
    var w := Run(GENESIS, events, dedup);
    RunIsSound(events, dedup);
    hide Run;
    if call in w.calls {
      assert CallSound(w, w.calls[call]);
    }
  }
}
