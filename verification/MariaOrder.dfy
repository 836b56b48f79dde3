/** Every interleaving of the incident transactions amounts to the memory store's operations in some order. Commit order is
    one when no resolve commits blindly; otherwise a blind resolve goes before the operations on the rows it did not see. */
module MariaOrder {
  import opened Wrap
  import opened Incidents
  import opened MariaIncidents
  import opened MariaProofs
  import opened MariaIdentity
  import opened MariaSerial
  import IncidentRuns
  import Reorder

  lemma PlainOk(rows: Table, identities: iset<Identity>)
    requires RowsSound(rows) && RowsFrom(rows, identities) && NulFreeAll(identities)
    ensures TableOk(Plain(rows))
  {
    PlainUnique(rows, identities);
    forall id | id in rows
      ensures RowOk(id, rows[id])
    {
    }
  }

  /** What arrives behind a resolve was not there at the start. */
  lemma {:induction false} ArrivedNew(start: Table, events: seq<Event>, t: nat)
    requires RowsSound(start)
    ensures Arrived(start, events, t) !! start.Keys
  {
    if events != [] {
      var init := events[..|events| - 1];
      ArrivedNew(start, init, t);
      ExecKeeps(start, init);
      assert start.Keys <= Exec(start, init).rows.Keys;
    }
  }

  ghost function SlippedRows(rows: Table, tx: Tx): set<string>
    requires tx.call.ResolveCall? && (tx.pc.Reading? || tx.pc.Holding?)
  {
    set id | id in rows && Slipped(rows, tx, id)
  }

  function Together(rows: Rows, c: Call): Rows
    requires c.ResolveCall?
  {
    IncidentRuns.ResolvedTogether(rows, c.rules, c.serviceId, c.streamId, c.signalId, c.reason, c.now)
  }

  /** The memory store's resolve over part of the rows. */
  lemma PartResolved(rows: Table, tx: Tx, identities: iset<Identity>, ids: set<string>)
    requires RowsSound(rows) && ReadyToCommit(tx) && Tidy(tx.call) && RowsFrom(rows, identities) && NulFreeAll(identities)
    ensures IncidentRuns.Apply(Plain(rows) - ids, ResolveOp(tx.call)) == Together(Plain(rows) - ids, tx.call)
  {
    var c := tx.call;
    PlainUnique(rows, identities);
    assert UniqueActive(Plain(rows) - ids) by {
      assert forall key, id :: Active(Plain(rows) - ids, key, id) ==> Active(Plain(rows), key, id);
    }
    PreparedTwice(c.rules);
    IncidentRuns.ResolveTogether(Plain(rows) - ids, c.rules, c.serviceId, c.streamId, c.signalId, c.reason, c.now);
  }

  /** Nothing is active afterwards under the key of a row that slipped by. */
  lemma SlippedClear(rows: Table, tx: Tx, identities: iset<Identity>, base: Rows)
    requires ReadyToCommit(tx) && Tidy(tx.call) && RowsFrom(rows, identities) && NulFreeAll(identities)
    requires base == Together(Plain(rows) - SlippedRows(rows, tx), tx.call)
    ensures Reorder.Clear(base, Plain(rows), SlippedRows(rows, tx))
  {
    var ids := SlippedRows(rows, tx);
    forall id, other | id in ids && id in Plain(rows)
      ensures !Active(base, KeyOf(Plain(rows)[id]), other)
    {
      assert IdentityOf(rows[id].incident) in identities;
      KeyAmongMeans(tx, rows[id].incident);
      assert other in base ==> KeyOf(base[other]) == KeyOf(Plain(rows)[other]);
      if other in base && KeyOf(base[other]) == KeyOf(rows[id].incident) {
        SameKeyAmong(Plain(rows)[other], rows[id].incident, tx.call);
      }
    }
  }

  lemma SameKeyAmong(a: Incident, b: Incident, c: Call)
    requires c.ResolveCall? && KeyOf(a) == KeyOf(b)
    ensures IncidentRuns.KeyAmong(a, c.rules, c.serviceId, c.streamId) == IncidentRuns.KeyAmong(b, c.rules, c.serviceId, c.streamId)
  {
  }

  /** The resolve over the rows it saw, with the others put back, is what its commit leaves. */
  lemma BlindRows(rows: Table, tx: Tx, identities: iset<Identity>)
    requires TxOk(rows, tx) && ReadyToCommit(tx) && Tidy(tx.call) && RowsFrom(rows, identities) && NulFreeAll(identities)
    ensures var ids := SlippedRows(rows, tx);
            Together(Plain(rows) - ids, tx.call) + Reorder.Only(Plain(rows), ids) == Plain(rows + tx.writes)
  {
    var ids := SlippedRows(rows, tx);
    var left := Together(Plain(rows) - ids, tx.call) + Reorder.Only(Plain(rows), ids);
    CommitCreates(rows, tx);
    forall id | id in rows
      ensures id in left && left[id] == Plain(rows + tx.writes)[id]
    {
      RowSerialIff(rows, tx, identities, id);
    }
    SameRows(left, Plain(rows + tx.writes));
  }

  lemma {:induction false} BlindCommitMoved(start: Table, events: seq<Event>, t: nat, identities: iset<Identity>, order: seq<IncidentRuns.Op>)
    returns (moved: seq<IncidentRuns.Op>)
    requires RowsSound(start) && RowsFrom(start, identities) && NulFreeAll(identities) && Told(identities)
    requires EventsFrom(events, identities) && NulFreeEvents(events) && CanCommit(Exec(start, events), t)
    requires ReadyToCommit(Exec(start, events).txs[t])
    requires IncidentRuns.Run(Plain(start), order) == Plain(Exec(start, events).rows) && IncidentRuns.AdmissibleRun(Plain(start), order)
    ensures multiset(moved) == multiset(order + [CallOp(Exec(start, events).txs[t])])
    ensures IncidentRuns.Run(Plain(start), moved) == Plain(DoCommit(Exec(start, events), t).rows)
    ensures IncidentRuns.AdmissibleRun(Plain(start), moved)
  {
    var db := Exec(start, events);
    var rows, tx := db.rows, db.txs[t];
    ExecKeeps(start, events);
    ExecTidy(start, events);
    ExecFrom(start, events, identities);
    assert TxOk(rows, tx);
    var ids, op := SlippedRows(rows, tx), ResolveOp(tx.call);
    PlainOk(start, identities);
    ArrivedCovers(start, events, t);
    ArrivedNew(start, events, t);
    PartResolved(rows, tx, identities, ids);
    SlippedClear(rows, tx, identities, Together(Plain(rows) - ids, tx.call));
    BlindRows(rows, tx, identities);
    Reorder.PutBefore(Plain(start), order, ids, op);
    moved := Reorder.Front(Plain(start), order, ids) + [op] + Reorder.Back(Plain(start), order, ids);
  }

  lemma OrderSnoc(start: Rows, order: seq<IncidentRuns.Op>, more: seq<IncidentRuns.Op>, rows: Rows, next: Rows)
    requires IncidentRuns.Run(start, order) == rows && IncidentRuns.AdmissibleRun(start, order)
    requires IncidentRuns.Run(rows, more) == next && IncidentRuns.AdmissibleRun(rows, more)
    ensures IncidentRuns.Run(start, order + more) == next && IncidentRuns.AdmissibleRun(start, order + more)
  {
    IncidentRuns.RunConcat(start, order, more);
    IncidentRuns.AdmissibleConcat(start, order, more);
  }

  /** Some order of the whole committed calls explains the committed table, and is an admissible run of the memory store. */
  lemma {:induction false} SomeOrder(start: Table, events: seq<Event>, identities: iset<Identity>) returns (order: seq<IncidentRuns.Op>)
    requires RowsSound(start) && RowsFrom(start, identities) && NulFreeAll(identities) && Told(identities)
    requires EventsFrom(events, identities) && NulFreeEvents(events)
    ensures multiset(order) == multiset(Log(start, events))
    ensures IncidentRuns.Run(Plain(start), order) == Plain(Exec(start, events).rows)
    ensures IncidentRuns.AdmissibleRun(Plain(start), order)
  {
    if events == [] {
      order := [];
    } else {
      var init, e := events[..|events| - 1], events[|events| - 1];
      assert forall n :: 0 <= n < |init| ==> init[n] == events[n];
      var before := SomeOrder(start, init, identities);
      var db := Exec(start, init);
      StepSerialIff(start, init, e, identities);
      if CommitsBlindly(start, init, e) {
        CommitReady(start, init, e.t);
        order := BlindCommitMoved(start, init, e.t, identities, before);
      } else {
        order := before + StepOps(db, e);
        OrderSnoc(Plain(start), before, StepOps(db, e), Plain(db.rows), Plain(Step(db, e).rows));
      }
    }
  }

  lemma CommitReady(start: Table, events: seq<Event>, t: nat)
    requires RowsSound(start) && CanCommit(Exec(start, events), t) && Exec(start, events).txs[t].call.ResolveCall?
    ensures ReadyToCommit(Exec(start, events).txs[t])
  {
    ExecKeeps(start, events);
    assert TxOk(Exec(start, events).rows, Exec(start, events).txs[t]);
  }
}
