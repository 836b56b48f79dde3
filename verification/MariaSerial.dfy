/** When the interleaved transactions amount to the memory store's operations, one whole call at a time in commit
    order: exactly when no resolve commits while a row that arrived behind its back is still active. */
module MariaSerial {
  import opened Wrap
  import opened Incidents
  import opened MariaIncidents
  import opened MariaProofs
  import opened MariaIdentity
  import IncidentRuns
  import Text

  // ---- Identities and keys ----

  ghost predicate NulFreeAll(identities: iset<Identity>) {
    forall i :: i in identities ==> NulFree(i.rule) && NulFree(i.serviceId)
  }

  predicate RulesPrepared(rules: seq<string>) {
    && (forall n :: 0 <= n < |rules| ==> rules[n] != "" && Text.Trimmed(rules[n]) && NulFree(rules[n]))
    && (forall m, n :: 0 <= m < n < |rules| ==> rules[m] != rules[n])
  }

  predicate Tidy(call: Call) {
    call.ResolveCall? ==> NulFree(call.serviceId) && RulesPrepared(call.rules)
  }

  predicate AllTidy(txs: map<nat, Tx>) {
    forall t :: t in txs ==> Tidy(txs[t].call)
  }

  /** A resolve names its service and rules without NUL. */
  predicate NulFreeCall(call: Call) {
    call.ResolveCall? ==> NulFree(call.serviceId) && forall n :: 0 <= n < |call.rules| ==> NulFree(Text.TrimSpace(call.rules[n]))
  }

  predicate NulFreeEvents(events: seq<Event>) {
    forall n :: 0 <= n < |events| && events[n].Begin? ==> NulFreeCall(events[n].call)
  }

  lemma PreparedTidy(call: Call)
    requires NulFreeCall(call)
    ensures Tidy(Prepared(call))
  {
    if call.ResolveCall? {
      var r := UniqueNonEmpty(call.rules);
      forall n | 0 <= n < |r|
        ensures r[n] != "" && Text.Trimmed(r[n]) && NulFree(r[n])
      {
        assert r[n] in r;
        var i :| 0 <= i < |call.rules| && Text.TrimSpace(call.rules[i]) == r[n];
        Text.TrimSpaceLaws(call.rules[i]);
      }
    }
  }

  /** Preparing rules again changes nothing. */
  lemma {:induction false} PreparedTwice(rules: seq<string>)
    requires RulesPrepared(rules)
    ensures UniqueNonEmpty(rules) == rules
  {
    if rules != [] {
      var last := |rules| - 1;
      PreparedTwice(rules[..last]);
      Text.TrimSpaceLaws(rules[last]);
      assert rules[last] !in UniqueNonEmpty(rules[..last]) by {
        assert UniqueNonEmpty(rules[..last]) == rules[..last];
      }
      assert rules == rules[..last] + [rules[last]];
    }
  }

  lemma {:induction false} ExecTidy(start: Table, events: seq<Event>)
    requires NulFreeEvents(events)
    ensures AllTidy(Exec(start, events).txs)
  {
    if events != [] {
      var init, e := events[..|events| - 1], events[|events| - 1];
      assert forall n :: 0 <= n < |init| ==> init[n] == events[n];
      ExecTidy(start, init);
      CallsKept(Exec(start, init), e);
      if e.Begin? {
        PreparedTidy(e.call);
      }
    }
  }

  /** A row active under the key of an identity has that identity. */
  lemma ActiveMeans(rows: Table, identities: iset<Identity>, i: Identity, id: string)
    requires RowsFrom(rows, identities) && NulFreeAll(identities) && NulFree(i.rule) && NulFree(i.serviceId)
    ensures Active(Plain(rows), Key(i.rule, i.serviceId, i.streamId), id)
            <==> id in rows && !Terminal(rows[id].incident.status) && IdentityOf(rows[id].incident) == i
  {
    if Active(Plain(rows), Key(i.rule, i.serviceId, i.streamId), id) {
      var r := rows[id].incident;
      assert IdentityOf(r) in identities;
      KeyInjective(r.rule, r.serviceId, r.streamId, i.rule, i.serviceId, i.streamId);
    }
  }

  lemma PlainUnique(rows: Table, identities: iset<Identity>)
    requires RowsSound(rows) && RowsFrom(rows, identities) && NulFreeAll(identities)
    ensures UniqueActive(Plain(rows))
  {
    forall key, a, b | Active(Plain(rows), key, a) && Active(Plain(rows), key, b)
      ensures a == b
    {
      assert IdentityOf(rows[b].incident) in identities;
      ActiveMeans(rows, identities, IdentityOf(rows[b].incident), a);
      assert RowOk(a, rows[a]) && RowOk(b, rows[b]);
    }
  }

  // ---- The effect of each commit ----

  /** An upsert that committed, also one that lost the race for the key, did what the memory store's upsert does. */
  lemma UpsertSerial(rows: Table, tx: Tx, identities: iset<Identity>)
    requires RowsSound(rows) && TxOk(rows, tx) && tx.call.UpsertCall? && tx.pc.Done?
    requires RowsFrom(rows, identities) && CallFrom(tx.call, identities) && NulFreeAll(identities) && Told(identities)
    ensures var op := IncidentRuns.Upsert(tx.call.d, tx.pc.id, tx.call.now);
            && IncidentRuns.Admissible(Plain(rows), op)
            && IncidentRuns.Apply(Plain(rows), op) == Plain(rows + tx.writes)
  {
    UpsertScan(rows, tx, identities);
    UpsertOn(rows, tx.call.d, tx.pc.id, tx.call.now);
    PlainWrite(rows, tx.pc.id, Upserted(rows, tx.call, tx.pc.id));
  }

  lemma UpsertScan(rows: Table, tx: Tx, identities: iset<Identity>)
    requires RowsSound(rows) && TxOk(rows, tx) && tx.call.UpsertCall? && tx.pc.Done?
    requires RowsFrom(rows, identities) && CallFrom(tx.call, identities) && NulFreeAll(identities) && Told(identities)
    ensures forall other :: Active(Plain(rows), DetectedKey(tx.call.d), other) <==> other == tx.pc.id && tx.pc.id in rows
    ensures tx.writes == map[tx.pc.id := Upserted(rows, tx.call, tx.pc.id)]
  {
    forall other
      ensures Active(Plain(rows), DetectedKey(tx.call.d), other) <==> other == tx.pc.id && tx.pc.id in rows
    {
      UpsertFinds(rows, tx, identities, other);
    }
  }

  lemma PlainWrite(rows: Table, id: string, row: Row)
    ensures Plain(rows + map[id := row]) == Plain(rows)[id := row.incident]
  {
  }

  lemma UpsertOn(rows: Table, d: Detected, id: string, now: int)
    requires forall other :: Active(Plain(rows), DetectedKey(d), other) <==> other == id && id in rows
    ensures var op := IncidentRuns.Upsert(d, id, now);
            && IncidentRuns.Admissible(Plain(rows), op)
            && IncidentRuns.Apply(Plain(rows), op)
               == Plain(rows)[id := if id in rows then Bump(rows[id].incident, d, now) else NewRow(d, id, now)]
  {
    assert id in rows ==> Active(Plain(rows), DetectedKey(d), id);
    var found := ActiveId(Plain(rows), DetectedKey(d));
    assert found.Some? ==> Active(Plain(rows), DetectedKey(d), found.value);
    assert found == if id in rows then Some(id) else None;
  }

  /** The scan finds the row of the commit, if it was there before, and nothing else. */
  lemma UpsertFinds(rows: Table, tx: Tx, identities: iset<Identity>, other: string)
    requires RowsSound(rows) && TxOk(rows, tx) && tx.call.UpsertCall? && tx.pc.Done?
    requires RowsFrom(rows, identities) && CallFrom(tx.call, identities) && NulFreeAll(identities) && Told(identities)
    ensures Active(Plain(rows), DetectedKey(tx.call.d), other) <==> other == tx.pc.id && tx.pc.id in rows
  {
    var id, i := tx.pc.id, Reported(tx.call.d);
    ActiveMeans(rows, identities, i, other);
    assert PendingOk(rows, id, tx.writes[id]) && tx.writes[id].dedupeKey == Some(CallKey(tx.call));
    if other in rows && !Terminal(rows[other].incident.status) && IdentityOf(rows[other].incident) == i {
      assert RowOk(other, rows[other]) && rows[other].dedupeKey == Some(CallKey(tx.call));
    }
    if id in rows {
      assert RowOk(id, rows[id]) && DedupeOf(IdentityOf(rows[id].incident)) == DedupeOf(i);
    }
  }

  lemma StatusRow(row: Row, id: string, status: Status, now: int)
    requires RowOk(id, row) && row.incident.status != status && CanTransition(row.incident.status, status)
    ensures StatusColumns(row, status, now).incident == WithStatus(row.incident, status, now)
  {
  }

  /** A status change that committed did what the memory store's does; an identifier with white space around it
      names no row in either. */
  lemma StatusSerial(rows: Table, tx: Tx)
    requires RowsSound(rows) && TxOk(rows, tx) && tx.call.StatusCall? && tx.pc.Done?
    ensures IncidentRuns.Apply(Plain(rows), IncidentRuns.SetStatus(tx.call.id, tx.call.status, tx.call.now)) == Plain(rows + tx.writes)
  {
    var call := tx.call;
    if Text.Trimmed(call.id) {
      StatusRow(rows[call.id], call.id, call.status, call.now);
      PlainWrite(rows, call.id, StatusColumns(rows[call.id], call.status, call.now));
    } else {
      assert call.id in rows ==> RowOk(call.id, rows[call.id]);
      assert rows + tx.writes == rows;
    }
  }

  /** The incident goes by one of the rules a resolve has already read. */
  predicate Passed(tx: Tx, i: Incident)
    requires tx.call.ResolveCall? && (tx.pc.Reading? || tx.pc.Holding?)
  {
    exists n :: 0 <= n < tx.pc.next && n < |tx.call.rules| && NamedBy(i, tx.call, n)
  }

  predicate NamedBy(i: Incident, call: Call, n: nat)
    requires call.ResolveCall? && n < |call.rules|
  {
    i.rule == call.rules[n] && i.serviceId == call.serviceId && i.streamId == call.streamId
  }

  /** A row that a resolve should have closed and did not see. */
  predicate Slipped(rows: Table, tx: Tx, id: string)
    requires tx.call.ResolveCall? && (tx.pc.Reading? || tx.pc.Holding?)
  {
    id in rows && id !in tx.writes && !Terminal(rows[id].incident.status) && Passed(tx, rows[id].incident)
  }

  function ResolveOp(call: Call): IncidentRuns.Op
    requires call.ResolveCall?
  {
    IncidentRuns.Resolve(call.rules, call.serviceId, call.streamId, call.signalId, call.reason, call.now)
  }

  predicate ReadyToCommit(tx: Tx) {
    tx.call.ResolveCall? && tx.pc.Reading? && tx.pc.next >= |tx.call.rules|
  }

  lemma KeyAmongMeans(tx: Tx, i: Incident)
    requires ReadyToCommit(tx) && Tidy(tx.call) && NulFree(i.rule) && NulFree(i.serviceId)
    ensures IncidentRuns.KeyAmong(i, tx.call.rules, tx.call.serviceId, tx.call.streamId) <==> Passed(tx, i)
  {
    var call := tx.call;
    if IncidentRuns.KeyAmong(i, call.rules, call.serviceId, call.streamId) {
      var n :| 0 <= n < |call.rules| && KeyOf(i) == Key(call.rules[n], call.serviceId, call.streamId);
      KeyInjective(i.rule, i.serviceId, i.streamId, call.rules[n], call.serviceId, call.streamId);
      assert NamedBy(i, call, n);
    }
    if Passed(tx, i) {
      var n :| 0 <= n < |call.rules| && NamedBy(i, call, n);
      assert KeyOf(i) == Key(call.rules[n], call.serviceId, call.streamId);
    }
  }

  lemma ClosedIsPassed(rows: Table, tx: Tx, id: string)
    requires TxOk(rows, tx) && ReadyToCommit(tx) && id in tx.writes
    ensures id in rows && !Terminal(rows[id].incident.status) && Passed(tx, rows[id].incident)
    ensures tx.writes[id].incident == ResolvedRow(rows[id].incident, tx.call.signalId, tx.call.reason, tx.call.now)
  {
    assert ClosedBy(rows, tx.call, tx.pc.next, id, tx.writes[id]) && PendingOk(rows, id, tx.writes[id]);
    var n :| 0 <= n < tx.pc.next && n < |tx.call.rules|
             && OpenMatch(rows[id].incident, tx.call.rules[n], tx.call.serviceId, tx.call.streamId);
    assert NamedBy(rows[id].incident, tx.call, n);
  }

  /** The row after the memory store's resolve and after the commit are the same exactly when the row did not slip by. */
  lemma RowSerialIff(rows: Table, tx: Tx, identities: iset<Identity>, id: string)
    requires TxOk(rows, tx) && ReadyToCommit(tx) && Tidy(tx.call) && id in rows
    requires RowsFrom(rows, identities) && NulFreeAll(identities)
    ensures var c := tx.call;
            var serial := IncidentRuns.ResolvedTogether(Plain(rows), c.rules, c.serviceId, c.streamId, c.signalId, c.reason, c.now);
            serial[id] == Plain(rows + tx.writes)[id] <==> !Slipped(rows, tx, id)
  {
    assert IdentityOf(rows[id].incident) in identities;
    KeyAmongMeans(tx, rows[id].incident);
    if id in tx.writes {
      ClosedIsPassed(rows, tx, id);
    }
  }

  /** A resolve is, at its commit, the memory store's resolve of the same rules exactly when no row slipped by it. */
  lemma ResolveSerialIff(rows: Table, tx: Tx, identities: iset<Identity>)
    requires RowsSound(rows) && TxOk(rows, tx) && ReadyToCommit(tx) && Tidy(tx.call)
    requires RowsFrom(rows, identities) && NulFreeAll(identities)
    ensures IncidentRuns.Apply(Plain(rows), ResolveOp(tx.call)) == Plain(rows + tx.writes) <==> forall id :: !Slipped(rows, tx, id)
  {
    var c := tx.call;
    var serial := IncidentRuns.ResolvedTogether(Plain(rows), c.rules, c.serviceId, c.streamId, c.signalId, c.reason, c.now);
    ResolveApplied(rows, tx, identities);
    CommitCreates(rows, tx);
    if id :| Slipped(rows, tx, id) {
      RowSerialIff(rows, tx, identities, id);
    } else {
      forall id | id in rows
        ensures serial[id] == Plain(rows + tx.writes)[id]
      {
        RowSerialIff(rows, tx, identities, id);
      }
      SameRows(serial, Plain(rows + tx.writes));
    }
  }

  lemma ResolveApplied(rows: Table, tx: Tx, identities: iset<Identity>)
    requires RowsSound(rows) && ReadyToCommit(tx) && Tidy(tx.call) && RowsFrom(rows, identities) && NulFreeAll(identities)
    ensures var c := tx.call;
            IncidentRuns.Apply(Plain(rows), ResolveOp(c))
            == IncidentRuns.ResolvedTogether(Plain(rows), c.rules, c.serviceId, c.streamId, c.signalId, c.reason, c.now)
  {
    var c := tx.call;
    PlainUnique(rows, identities);
    PreparedTwice(c.rules);
    IncidentRuns.ResolveTogether(Plain(rows), c.rules, c.serviceId, c.streamId, c.signalId, c.reason, c.now);
  }

  lemma SameRows(a: Rows, b: Rows)
    requires a.Keys == b.Keys && forall id :: id in a ==> a[id] == b[id]
    ensures a == b
  {
  }

  // ---- Which rows slip by: those that others insert behind the resolve ----

  function Arrivals(rows: Table, writes: Table, tx: Tx): set<string>
    requires tx.call.ResolveCall? && (tx.pc.Reading? || tx.pc.Holding?)
  {
    set id | id in writes && id !in rows && Passed(tx, writes[id].incident)
  }

  predicate Resolving(db: Db, t: nat) {
    t in db.txs && db.txs[t].call.ResolveCall? && (db.txs[t].pc.Reading? || db.txs[t].pc.Holding?)
  }

  /** The rows that other transactions have inserted and committed under a rule after this one had read that rule. */
  function Arrived(start: Table, events: seq<Event>, t: nat): set<string> {
    if events == [] then {}
    else
      var init, e := events[..|events| - 1], events[|events| - 1];
      var db := Exec(start, init);
      if !Resolving(db, t) then {}
      else if e.Commit? && Enabled(db, e) && e.t != t then Arrived(start, init, t) + Arrivals(db.rows, db.txs[e.t].writes, db.txs[t])
      else Arrived(start, init, t)
  }

  /** The arrived rows are exactly the rows under a rule already read that the transaction has not closed, as far as they are active. */
  ghost predicate Covered(rows: Table, tx: Tx, arrived: set<string>)
    requires tx.call.ResolveCall? && (tx.pc.Reading? || tx.pc.Holding?)
  {
    && (forall id :: Slipped(rows, tx, id) ==> id in arrived)
    && (forall id :: id in arrived ==> id in rows && id !in tx.writes && Passed(tx, rows[id].incident))
  }

  lemma PassedMore(tx: Tx, more: Tx, i: Incident)
    requires tx.call.ResolveCall? && (tx.pc.Reading? || tx.pc.Holding?) && (more.pc.Reading? || more.pc.Holding?)
    requires more.call == tx.call && more.pc.next == tx.pc.next + 1
    ensures Passed(more, i) <==> Passed(tx, i) || (tx.pc.next < |tx.call.rules| && NamedBy(i, tx.call, tx.pc.next))
  {
  }

  lemma PassedSame(tx: Tx, a: Incident, b: Incident)
    requires tx.call.ResolveCall? && (tx.pc.Reading? || tx.pc.Holding?) && IdentityOf(a) == IdentityOf(b)
    ensures Passed(tx, a) <==> Passed(tx, b)
  {
    if Passed(tx, a) {
      var n :| 0 <= n < tx.pc.next && n < |tx.call.rules| && NamedBy(a, tx.call, n);
      assert NamedBy(b, tx.call, n);
    }
    if Passed(tx, b) {
      var n :| 0 <= n < tx.pc.next && n < |tx.call.rules| && NamedBy(b, tx.call, n);
      assert NamedBy(a, tx.call, n);
    }
  }

  lemma FindOpenCovers(db: Db, t: nat, picked: Option<string>, arrived: set<string>)
    requires CanFindOpen(db, t, picked) && Resolving(db, t) && Covered(db.rows, db.txs[t], arrived)
    ensures Covered(db.rows, DoFindOpen(db, t, picked).txs[t], arrived)
  {
    var tx, next := db.txs[t], DoFindOpen(db, t, picked).txs[t];
    if picked.None? {
      forall id | id in db.rows
        ensures Passed(next, db.rows[id].incident)
                <==> Passed(tx, db.rows[id].incident) || NamedBy(db.rows[id].incident, tx.call, tx.pc.next)
      {
        PassedMore(tx, next, db.rows[id].incident);
      }
      forall id | id in db.rows && id !in tx.writes
        ensures !Wanted(tx, db.rows[id].incident)
      {
        assert View(db, tx)[id] == db.rows[id];
      }
    } else {
      forall i
        ensures Passed(next, i) == Passed(tx, i)
      {
      }
    }
  }

  lemma UpdateCovers(rows: Table, tx: Tx, next: Tx, arrived: set<string>)
    requires RowsSound(rows) && TxOk(rows, tx) && tx.call.ResolveCall? && tx.pc.Holding? && Tidy(tx.call)
    requires Covered(rows, tx, arrived) && next.call == tx.call && next.pc == Reading(tx.pc.next + 1)
    requires next.writes.Keys == tx.writes.Keys + {tx.pc.copy.id}
    ensures Covered(rows, next, arrived)
  {
    var held := tx.pc.copy.id;
    assert HoldsCopy(rows, tx, tx.pc.copy) && NamedBy(rows[held].incident, tx.call, tx.pc.next);
    forall id | id in rows
      ensures Passed(next, rows[id].incident) <==> Passed(tx, rows[id].incident) || NamedBy(rows[id].incident, tx.call, tx.pc.next)
    {
      PassedMore(tx, next, rows[id].incident);
    }
    forall id | id in rows && !Terminal(rows[id].incident.status) && NamedBy(rows[id].incident, tx.call, tx.pc.next)
      ensures id == held
    {
      assert RowOk(id, rows[id]) && RowOk(held, rows[held]);
    }
    assert !Passed(tx, rows[held].incident);
  }

  lemma CommitCovers(rows: Table, other: Tx, tx: Tx, arrived: set<string>)
    requires TxOk(rows, other) && TxOk(rows, tx) && tx.call.ResolveCall? && Covered(rows, tx, arrived)
    ensures Covered(rows + other.writes, tx, arrived + Arrivals(rows, other.writes, tx))
  {
    var next := rows + other.writes;
    forall id | id in other.writes && id in rows
      ensures IdentityOf(rows[id].incident) == IdentityOf(next[id].incident) && !Terminal(rows[id].incident.status)
    {
      assert PendingOk(rows, id, other.writes[id]);
    }
    forall id | id in rows
      ensures Passed(tx, next[id].incident) == Passed(tx, rows[id].incident)
    {
      PassedSame(tx, rows[id].incident, next[id].incident);
    }
    forall id | id in tx.writes
      ensures id in rows
    {
      assert ClosedBy(rows, tx.call, tx.pc.next, id, tx.writes[id]);
    }
  }

  lemma DiagnoseCovers(rows: Table, id: string, row: Row, tx: Tx, arrived: set<string>)
    requires tx.call.ResolveCall? && (tx.pc.Reading? || tx.pc.Holding?) && Covered(rows, tx, arrived)
    requires id in rows && IdentityOf(rows[id].incident) == IdentityOf(row.incident) && row.incident.status == rows[id].incident.status
    ensures Covered(rows[id := row], tx, arrived)
  {
    PassedSame(tx, rows[id].incident, row.incident);
  }

  lemma ResolvingPc(db: Db, t: nat)
    requires Core(db) && t in db.txs && db.txs[t].call.ResolveCall?
    ensures Resolving(db, t)
  {
    assert TxOk(db.rows, db.txs[t]);
  }

  /** A step of the transaction itself, other than its end. */
  lemma OwnStepCovers(db: Db, e: Event, t: nat, arrived: set<string>)
    requires Core(db) && AllTidy(db.txs) && Resolving(db, t) && Enabled(db, e) && !e.Diagnose? && e.t == t
    requires t in Step(db, e).txs && Resolving(Step(db, e), t) && Covered(db.rows, db.txs[t], arrived)
    ensures Covered(Step(db, e).rows, Step(db, e).txs[t], arrived)
  {
    OtherStepsKeepRows(db, e);
    if e.FindOpen? {
      FindOpenCovers(db, t, e.picked, arrived);
    } else {
      var tx := db.txs[t];
      assert TxOk(db.rows, tx);
      assert tx.pc.copy.id in View(db, tx);
      UpdateCovers(db.rows, tx, Step(db, e).txs[t], arrived);
    }
  }

  lemma OthersLeaveTx(db: Db, e: Event, t: nat)
    requires t in db.txs && (e.Diagnose? || e.t != t)
    ensures t in Step(db, e).txs && Step(db, e).txs[t] == db.txs[t]
  {
  }

  lemma StepCovers(db: Db, e: Event, t: nat, arrived: set<string>)
    requires Core(db) && AllTidy(db.txs) && Resolving(db, t) && Resolving(Step(db, e), t) && Covered(db.rows, db.txs[t], arrived)
    ensures Covered(Step(db, e).rows, Step(db, e).txs[t],
                    arrived + if e.Commit? && Enabled(db, e) && e.t != t then Arrivals(db.rows, db.txs[e.t].writes, db.txs[t]) else {})
  {
    assert arrived + {} == arrived;
    if Enabled(db, e) {
      if e.Diagnose? {
        OthersLeaveTx(db, e, t);
        var id := Text.TrimSpace(e.id);
        if Step(db, e) != db {
          DiagnoseCovers(db.rows, id, Step(db, e).rows[id], db.txs[t], arrived);
        }
      } else if e.t == t {
        OwnStepCovers(db, e, t, arrived);
      } else {
        OthersLeaveTx(db, e, t);
        if e.Commit? {
          assert TxOk(db.rows, db.txs[e.t]) && TxOk(db.rows, db.txs[t]);
          CommitCovers(db.rows, db.txs[e.t], db.txs[t], arrived);
        } else {
          OtherStepsKeepRows(db, e);
        }
      }
    }
  }

  lemma JustBegun(db: Db, e: Event, t: nat)
    requires !Resolving(db, t) && Core(db) && Resolving(Step(db, e), t)
    ensures Covered(Step(db, e).rows, Step(db, e).txs[t], {})
  {
    CallsKept(db, e);
    if t in db.txs {
      ResolvingPc(db, t);
    }
    assert e.Begin? && Step(db, e).txs[t].pc == Reading(0) && Step(db, e).txs[t].writes == map[];
  }

  lemma {:induction false} ArrivedCovers(start: Table, events: seq<Event>, t: nat)
    requires RowsSound(start) && NulFreeEvents(events) && Resolving(Exec(start, events), t)
    ensures Covered(Exec(start, events).rows, Exec(start, events).txs[t], Arrived(start, events, t))
  {
    if events != [] {
      var init, e := events[..|events| - 1], events[|events| - 1];
      assert forall n :: 0 <= n < |init| ==> init[n] == events[n];
      var db := Exec(start, init);
      ExecKeeps(start, init);
      ExecTidy(start, init);
      if Resolving(db, t) {
        ArrivedCovers(start, init, t);
        StepCovers(db, e, t, Arrived(start, init, t));
      } else {
        JustBegun(db, e, t);
      }
    }
  }

  // ---- Whole runs ----

  /** The memory store's operation for a committed call. */
  function CallOp(tx: Tx): IncidentRuns.Op {
    match tx.call
    case UpsertCall(d, now) => IncidentRuns.Upsert(d, if tx.pc.Done? then tx.pc.id else "", now)
    case StatusCall(id, status, now) => IncidentRuns.SetStatus(id, status, now)
    case ResolveCall(_, _, _, _, _, _) => ResolveOp(tx.call)
  }

  function StepOps(db: Db, e: Event): seq<IncidentRuns.Op> {
    if !Enabled(db, e) then []
    else match e
      case Commit(t) => [CallOp(db.txs[t])]
      case Diagnose(id, expected, report, now) => [IncidentRuns.Diagnose(id, expected, report, now)]
      case _ => []
  }

  /** Every committed call, whole, in commit order. */
  function Log(start: Table, events: seq<Event>): seq<IncidentRuns.Op> {
    if events == [] then []
    else Log(start, events[..|events| - 1]) + StepOps(Exec(start, events[..|events| - 1]), events[|events| - 1])
  }

  /** After every event of the run the committed rows are what the logged operations make of the starting rows. */
  ghost predicate AlwaysSerial(start: Table, events: seq<Event>) {
    && Plain(Exec(start, events).rows) == IncidentRuns.Run(Plain(start), Log(start, events))
    && (events != [] ==> AlwaysSerial(start, events[..|events| - 1]))
  }

  /** A resolve is about to commit although a row that arrived behind it is active. */
  predicate CommitsBlindly(start: Table, events: seq<Event>, e: Event) {
    var db := Exec(start, events);
    && e.Commit? && Enabled(db, e) && db.txs[e.t].call.ResolveCall?
    && exists id :: id in Arrived(start, events, e.t) && id in db.rows && !Terminal(db.rows[id].incident.status)
  }

  predicate Undisturbed(start: Table, events: seq<Event>) {
    events != [] ==>
      var init := events[..|events| - 1];
      Undisturbed(start, init) && !CommitsBlindly(start, init, events[|events| - 1])
  }

  lemma OneOp(rows: Rows, op: IncidentRuns.Op)
    ensures IncidentRuns.Run(rows, [op]) == IncidentRuns.Apply(rows, op)
    ensures IncidentRuns.Admissible(rows, op) ==> IncidentRuns.AdmissibleRun(rows, [op])
  {
    assert [op][..0] == [];
    assert IncidentRuns.Run(rows, []) == rows;
  }

  lemma DiagnoseSerial(db: Db, id: string, expected: string, report: string, now: int)
    ensures IncidentRuns.Apply(Plain(db.rows), IncidentRuns.Diagnose(id, expected, report, now))
            == Plain(DoDiagnose(db, id, expected, report, now).rows)
  {
  }

  /** A commit is serial exactly when it is not a resolve that a row slipped by. */
  lemma CommitSerialIff(db: Db, t: nat, identities: iset<Identity>)
    requires Core(db) && AllTidy(db.txs) && CanCommit(db, t)
    requires RowsFrom(db.rows, identities) && CallsFrom(db.txs, identities) && NulFreeAll(identities) && Told(identities)
    ensures var tx := db.txs[t];
            && IncidentRuns.Admissible(Plain(db.rows), CallOp(tx))
            && (tx.call.ResolveCall? ==> ReadyToCommit(tx))
            && (IncidentRuns.Apply(Plain(db.rows), CallOp(tx)) == Plain(db.rows + tx.writes)
                <==> (tx.call.ResolveCall? ==> forall id :: !Slipped(db.rows, tx, id)))
  {
    var tx := db.txs[t];
    assert TxOk(db.rows, tx);
    if tx.call.UpsertCall? {
      UpsertSerial(db.rows, tx, identities);
    } else if tx.call.StatusCall? {
      StatusSerial(db.rows, tx);
    } else {
      ResolveSerialIff(db.rows, tx, identities);
    }
  }

  lemma SlippedIffBlind(start: Table, events: seq<Event>, t: nat)
    requires RowsSound(start) && NulFreeEvents(events) && CanCommit(Exec(start, events), t)
    requires Exec(start, events).txs[t].call.ResolveCall? && ReadyToCommit(Exec(start, events).txs[t])
    ensures var db := Exec(start, events);
            (forall id :: !Slipped(db.rows, db.txs[t], id)) <==> !CommitsBlindly(start, events, Commit(t))
  {
    ArrivedCovers(start, events, t);
    var db, arrived := Exec(start, events), Arrived(start, events, t);
    if id :| Slipped(db.rows, db.txs[t], id) {
      assert id in arrived && id in db.rows && !Terminal(db.rows[id].incident.status);
    }
    if CommitsBlindly(start, events, Commit(t)) {
      var id :| id in arrived && id in db.rows && !Terminal(db.rows[id].incident.status);
      assert Slipped(db.rows, db.txs[t], id);
    }
  }

  lemma CommitStepIff(start: Table, events: seq<Event>, t: nat, identities: iset<Identity>)
    requires RowsSound(start) && RowsFrom(start, identities) && NulFreeAll(identities) && Told(identities)
    requires EventsFrom(events, identities) && NulFreeEvents(events) && CanCommit(Exec(start, events), t)
    ensures var db := Exec(start, events);
            && IncidentRuns.Admissible(Plain(db.rows), CallOp(db.txs[t]))
            && (IncidentRuns.Apply(Plain(db.rows), CallOp(db.txs[t])) == Plain(db.rows + db.txs[t].writes)
                <==> !CommitsBlindly(start, events, Commit(t)))
  {
    var db := Exec(start, events);
    ExecKeeps(start, events);
    ExecTidy(start, events);
    ExecFrom(start, events, identities);
    CommitSerialIff(db, t, identities);
    if db.txs[t].call.ResolveCall? {
      SlippedIffBlind(start, events, t);
    }
  }

  /** One step from a serial state: it stays serial exactly when the step is not a blind commit. */
  lemma StepSerialIff(start: Table, events: seq<Event>, e: Event, identities: iset<Identity>)
    requires RowsSound(start) && RowsFrom(start, identities) && NulFreeAll(identities) && Told(identities)
    requires EventsFrom(events, identities) && NulFreeEvents(events)
    ensures var db := Exec(start, events);
            && IncidentRuns.AdmissibleRun(Plain(db.rows), StepOps(db, e))
            && (IncidentRuns.Run(Plain(db.rows), StepOps(db, e)) == Plain(Step(db, e).rows) <==> !CommitsBlindly(start, events, e))
  {
    var db := Exec(start, events);
    if Enabled(db, e) && e.Commit? {
      CommitStepIff(start, events, e.t, identities);
      OneOp(Plain(db.rows), CallOp(db.txs[e.t]));
    } else if Enabled(db, e) && e.Diagnose? {
      OneOp(Plain(db.rows), IncidentRuns.Diagnose(e.id, e.expectedSignalId, e.report, e.now));
      DiagnoseSerial(db, e.id, e.expectedSignalId, e.report, e.now);
    } else {
      assert StepOps(db, e) == [];
      if Enabled(db, e) {
        OtherStepsKeepRows(db, e);
      }
    }
  }

  lemma LogSnoc(start: Table, events: seq<Event>)
    requires events != []
    ensures var init := events[..|events| - 1];
            IncidentRuns.Run(Plain(start), Log(start, events))
            == IncidentRuns.Run(IncidentRuns.Run(Plain(start), Log(start, init)), StepOps(Exec(start, init), events[|events| - 1]))
  {
    var init := events[..|events| - 1];
    IncidentRuns.RunConcat(Plain(start), Log(start, init), StepOps(Exec(start, init), events[|events| - 1]));
  }

  /** A run is serial throughout, whole calls in commit order, exactly when no resolve commits blindly. */
  lemma {:induction false} SerialIff(start: Table, events: seq<Event>, identities: iset<Identity>)
    requires RowsSound(start) && RowsFrom(start, identities) && NulFreeAll(identities) && Told(identities)
    requires EventsFrom(events, identities) && NulFreeEvents(events)
    ensures AlwaysSerial(start, events) <==> Undisturbed(start, events)
  {
    if events != [] {
      var init, e := events[..|events| - 1], events[|events| - 1];
      assert forall n :: 0 <= n < |init| ==> init[n] == events[n];
      SerialIff(start, init, identities);
      StepSerialIff(start, init, e, identities);
      LogSnoc(start, events);
    }
  }

  /** And then the logged operations are admissible, so everything proved of the memory store's runs holds of it. */
  lemma {:induction false} Serializable(start: Table, events: seq<Event>, identities: iset<Identity>)
    requires RowsSound(start) && RowsFrom(start, identities) && NulFreeAll(identities) && Told(identities)
    requires EventsFrom(events, identities) && NulFreeEvents(events) && Undisturbed(start, events)
    ensures Plain(Exec(start, events).rows) == IncidentRuns.Run(Plain(start), Log(start, events))
    ensures IncidentRuns.AdmissibleRun(Plain(start), Log(start, events))
  {
    SerialIff(start, events, identities);
    if events != [] {
      var init, e := events[..|events| - 1], events[|events| - 1];
      assert forall n :: 0 <= n < |init| ==> init[n] == events[n];
      Serializable(start, init, identities);
      StepSerialIff(start, init, e, identities);
      IncidentRuns.AdmissibleConcat(Plain(start), Log(start, init), StepOps(Exec(start, init), e));
    }
  }

  // ---- A run that is not serial ----

  /** A recovery reads that there is nothing to close; an incident is opened and committed; the recovery commits. */
  function BlindRun(d: Detected, now: int): seq<Event> {
    BeforeCommits(d, now) + [Commit(2)] + [Commit(1)]
  }

  function Recovery(d: Detected, now: int): Call {
    ResolveCall([d.rule], d.serviceId, d.streamId, "", "", now)
  }

  /** The state of that run, given where its two transactions stand. */
  function BlindState(d: Detected, now: int, next: nat, second: Option<Tx>): Db {
    var first := Tx(Recovery(d, now), Reading(next), {}, map[]);
    Fresh(map[]).(txs := if second.Some? then map[1 := first, 2 := second.value] else map[1 := first])
  }

  function Inserted(d: Detected, now: int): Tx {
    Tx(UpsertCall(d, now), Done("i", true), {"i"}, map["i" := FirstRow(d, now)])
  }

  predicate RuleTidy(d: Detected) {
    d.rule != "" && Text.Trimmed(d.rule) && NulFree(d.rule)
  }

  lemma BlindMisses(d: Detected, now: int)
    ensures Step(BlindState(d, now, 0, None), FindOpen(1, None)) == BlindState(d, now, 1, None)
  {
    var db := BlindState(d, now, 0, None);
    assert CanFindOpen(db, 1, None) && DoFindOpen(db, 1, None).txs == BlindState(d, now, 1, None).txs;
  }

  lemma RecoveryPrepared(d: Detected, now: int)
    requires RuleTidy(d)
    ensures Prepared(Recovery(d, now)) == Recovery(d, now)
  {
    PreparedTwice([d.rule]);
  }

  lemma BlindBegins(d: Detected, now: int)
    requires RuleTidy(d)
    ensures Exec(map[], [Begin(1, Recovery(d, now))]) == BlindState(d, now, 0, None)
  {
    var begin := Begin(1, Recovery(d, now));
    RecoveryPrepared(d, now);
    assert [begin][..0] == [] && Exec(map[], []) == Fresh(map[]);
    assert Step(Fresh(map[]), begin).txs == BlindState(d, now, 0, None).txs;
  }

  lemma BlindReads(d: Detected, now: int)
    requires RuleTidy(d)
    ensures Exec(map[], [Begin(1, Recovery(d, now))] + [FindOpen(1, None)]) == BlindState(d, now, 1, None)
  {
    var begin := Begin(1, Recovery(d, now));
    BlindBegins(d, now);
    BlindMisses(d, now);
    ExecSnoc(map[], [begin], FindOpen(1, None));
  }

  lemma OpeningMisses(d: Detected, now: int)
    ensures var call := UpsertCall(d, now);
            Step(Step(BlindState(d, now, 1, None), Begin(2, call)), FindOpen(2, None))
            == BlindState(d, now, 1, Some(Tx(call, Missing, {}, map[])))
  {
    var call := UpsertCall(d, now);
    var reading := BlindState(d, now, 1, Some(Tx(call, Reading(0), {}, map[])));
    assert Step(BlindState(d, now, 1, None), Begin(2, call)).txs == reading.txs;
    assert CanFindOpen(reading, 2, None);
    assert DoFindOpen(reading, 2, None).txs == BlindState(d, now, 1, Some(Tx(call, Missing, {}, map[]))).txs;
  }

  lemma OpeningInserts(d: Detected, now: int)
    ensures Step(BlindState(d, now, 1, Some(Tx(UpsertCall(d, now), Missing, {}, map[]))), Insert(2, "i"))
            == BlindState(d, now, 1, Some(Inserted(d, now)))
  {
    var db := BlindState(d, now, 1, Some(Tx(UpsertCall(d, now), Missing, {}, map[])));
    var none: set<string> := {};
    assert Text.Trimmed("i") && none + {"i"} == {"i"} && CanInsert(db, 2, "i");
    assert DoInsert(db, 2, "i").txs == BlindState(d, now, 1, Some(Inserted(d, now))).txs;
  }

  /** The state between the two commits. */
  function Opened(d: Detected, now: int): Db {
    Db(map["i" := FirstRow(d, now)], BlindState(d, now, 1, None).txs, 1, ["i"], map[])
  }

  lemma OpeningCommits(d: Detected, now: int)
    ensures Step(BlindState(d, now, 1, Some(Inserted(d, now))), Commit(2)) == Opened(d, now)
  {
    var open := BlindState(d, now, 1, Some(Inserted(d, now)));
    assert View(open, open.txs[2]) == map["i" := FirstRow(d, now)] && open.txs - {2} == Opened(d, now).txs;
  }

  lemma RecoveryCommits(d: Detected, now: int)
    ensures Step(Opened(d, now), Commit(1)) == Db(map["i" := FirstRow(d, now)], map[], 1, ["i"], map[])
  {
    var mid := Opened(d, now);
    assert View(mid, mid.txs[1]) == mid.rows && mid.txs - {1} == map[];
  }

  lemma BothCommit(d: Detected, now: int)
    ensures var open := BlindState(d, now, 1, Some(Inserted(d, now)));
            && Step(open, Commit(2)) == Opened(d, now)
            && Step(Step(open, Commit(2)), Commit(1)) == Db(map["i" := FirstRow(d, now)], map[], 1, ["i"], map[])
  {
    OpeningCommits(d, now);
    RecoveryCommits(d, now);
  }

  function BeforeCommits(d: Detected, now: int): seq<Event> {
    [Begin(1, Recovery(d, now))] + [FindOpen(1, None)] + [Begin(2, UpsertCall(d, now))] + [FindOpen(2, None)] + [Insert(2, "i")]
  }

  lemma BeforeCommitsState(d: Detected, now: int)
    requires RuleTidy(d)
    ensures Exec(map[], BeforeCommits(d, now)) == BlindState(d, now, 1, Some(Inserted(d, now)))
  {
    var read := [Begin(1, Recovery(d, now))] + [FindOpen(1, None)];
    BlindReads(d, now);
    OpeningMisses(d, now);
    OpeningInserts(d, now);
    ExecSnoc(map[], read, Begin(2, UpsertCall(d, now)));
    ExecSnoc(map[], read + [Begin(2, UpsertCall(d, now))], FindOpen(2, None));
    ExecSnoc(map[], read + [Begin(2, UpsertCall(d, now))] + [FindOpen(2, None)], Insert(2, "i"));
  }

  lemma {:induction false} NoOps(start: Table, events: seq<Event>)
    requires forall n :: 0 <= n < |events| ==> !events[n].Commit? && !events[n].Diagnose?
    ensures Log(start, events) == []
  {
    if events != [] {
      NoOps(start, events[..|events| - 1]);
    }
  }

  lemma LogAppend(start: Table, events: seq<Event>, e: Event)
    ensures Log(start, events + [e]) == Log(start, events) + StepOps(Exec(start, events), e)
  {
    assert (events + [e])[..|events|] == events;
  }

  lemma BlindRunEnds(d: Detected, now: int)
    requires RuleTidy(d)
    ensures Exec(map[], BlindRun(d, now)).rows == map["i" := FirstRow(d, now)]
    ensures Log(map[], BlindRun(d, now)) == [IncidentRuns.Upsert(d, "i", now), ResolveOp(Recovery(d, now))]
  {
    BlindRunRows(d, now);
    BlindLog(d, now);
  }

  lemma BlindLog(d: Detected, now: int)
    requires RuleTidy(d)
    ensures Log(map[], BlindRun(d, now)) == [IncidentRuns.Upsert(d, "i", now), ResolveOp(Recovery(d, now))]
  {
    var ready := BeforeCommits(d, now);
    BlindRunRows(d, now);
    NoOps(map[], ready);
    CommitOps(d, now);
    LogAppend(map[], ready, Commit(2));
    assert Log(map[], ready + [Commit(2)]) == [IncidentRuns.Upsert(d, "i", now)];
    LogAppend(map[], ready + [Commit(2)], Commit(1));
  }

  lemma BlindRunRows(d: Detected, now: int)
    requires RuleTidy(d)
    ensures var ready := BeforeCommits(d, now);
            && Exec(map[], ready) == BlindState(d, now, 1, Some(Inserted(d, now)))
            && Exec(map[], ready + [Commit(2)]) == Step(BlindState(d, now, 1, Some(Inserted(d, now))), Commit(2))
            && Exec(map[], ready + [Commit(2)] + [Commit(1)]).rows == map["i" := FirstRow(d, now)]
  {
    var ready := BeforeCommits(d, now);
    BeforeCommitsState(d, now);
    BothCommit(d, now);
    ExecSnoc(map[], ready, Commit(2));
    ExecSnoc(map[], ready + [Commit(2)], Commit(1));
  }

  lemma CommitOps(d: Detected, now: int)
    ensures var open := BlindState(d, now, 1, Some(Inserted(d, now)));
            && StepOps(open, Commit(2)) == [IncidentRuns.Upsert(d, "i", now)]
            && StepOps(Step(open, Commit(2)), Commit(1)) == [ResolveOp(Recovery(d, now))]
  {
    BothCommit(d, now);
  }

  lemma MemoryOpens(d: Detected, now: int)
    ensures IncidentRuns.Run(map[], [IncidentRuns.Upsert(d, "i", now)]) == map["i" := NewRow(d, "i", now)]
  {
    OneOp(map[], IncidentRuns.Upsert(d, "i", now));
    assert forall id :: !Active(map[], DetectedKey(d), id);
  }

  lemma MemoryRecovers(d: Detected, now: int)
    requires RuleTidy(d)
    ensures var after := IncidentRuns.Apply(map["i" := NewRow(d, "i", now)], ResolveOp(Recovery(d, now)));
            "i" in after && after["i"].status == Resolved
  {
    var rows := map["i" := NewRow(d, "i", now)];
    PreparedTwice([d.rule]);
    assert UniqueActive(rows);
    IncidentRuns.ResolveTogether(rows, [d.rule], d.serviceId, d.streamId, "", "", now);
    assert KeyOf(rows["i"]) == Key([d.rule][0], d.serviceId, d.streamId);
    assert IncidentRuns.KeyAmong(rows["i"], [d.rule], d.serviceId, d.streamId);
  }

  /** The run leaves the incident open, while the memory store, doing the opening and then the recovery, resolves it. */
  lemma BlindRunNotSerial(d: Detected, now: int)
    requires RuleTidy(d)
    ensures var events := BlindRun(d, now);
            var serial := IncidentRuns.Run(map[], [IncidentRuns.Upsert(d, "i", now), ResolveOp(Recovery(d, now))]);
            && Log(map[], events) == [IncidentRuns.Upsert(d, "i", now), ResolveOp(Recovery(d, now))]
            && "i" in Exec(map[], events).rows && Exec(map[], events).rows["i"].incident.status == Open
            && "i" in serial && serial["i"].status == Resolved
  {
    var up, down := IncidentRuns.Upsert(d, "i", now), ResolveOp(Recovery(d, now));
    BlindRunEnds(d, now);
    MemoryOpens(d, now);
    MemoryRecovers(d, now);
    IncidentRuns.RunAppend(map[], [up], down);
    assert [up] + [down] == [up, down];
  }
}
