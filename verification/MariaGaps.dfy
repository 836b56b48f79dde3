/** The incident transactions under REPEATABLE READ, MariaDB's default level: a locking read that finds nothing locks the gap, so that
    an insert into it waits, and a locking read waits for an uncommitted insert in its range. Then no resolve commits blindly. */
module MariaGaps {
  import opened Wrap
  import opened Incidents
  import opened MariaIncidents
  import opened MariaProofs
  import opened MariaIdentity
  import opened MariaSerial
  import IncidentRuns

  /** A resolve has read the incident's identity and found nothing there. */
  predicate HoldsGap(rows: Table, tx: Tx, i: Incident) {
    && tx.call.ResolveCall? && (tx.pc.Reading? || tx.pc.Holding?)
    && exists n :: 0 <= n < tx.pc.next && n < |tx.call.rules| && NamedBy(i, tx.call, n)
                   && forall id :: id in tx.writes && id in rows ==> !NamedBy(rows[id].incident, tx.call, n)
  }

  predicate GapTaken(db: Db, t: nat, i: Incident) {
    exists u :: u in db.txs && u != t && HoldsGap(db.rows, db.txs[u], i)
  }

  /** Another transaction has inserted, and not committed, a row that the next read of a resolve would match. */
  predicate InsertPending(db: Db, t: nat)
    requires Resolving(db, t)
  {
    exists u, id :: u in db.txs && u != t && id in db.txs[u].writes && id !in db.rows
                    && db.txs[t].pc.next < |db.txs[t].call.rules|
                    && NamedBy(db.txs[u].writes[id].incident, db.txs[t].call, db.txs[t].pc.next)
  }

  /** The event waits where the gap locks make it wait. */
  predicate Respects(db: Db, e: Event) {
    && (e.Insert? && Enabled(db, e) ==>
          !GapTaken(db, e.t, NewRow(db.txs[e.t].call.d, e.newId, db.txs[e.t].call.now)))
    && (e.FindOpen? && e.picked.None? && Enabled(db, e) && Resolving(db, e.t) ==> !InsertPending(db, e.t))
  }

  predicate Guarded(start: Table, events: seq<Event>) {
    events != [] ==>
      Guarded(start, events[..|events| - 1]) && Respects(Exec(start, events[..|events| - 1]), events[|events| - 1])
  }

  /** An uncommitted insert never goes by a rule that a resolve has already read. */
  predicate Unseen(rows: Table, other: Tx, tx: Tx)
    requires tx.call.ResolveCall? && (tx.pc.Reading? || tx.pc.Holding?)
  {
    forall id :: id in other.writes && id !in rows ==> !Passed(tx, other.writes[id].incident)
  }

  ghost predicate NoPhantoms(db: Db) {
    forall t, u :: Resolving(db, t) && u in db.txs && u != t ==> Unseen(db.rows, db.txs[u], db.txs[t])
  }

  // ---- The steps that could break it ----

  /** Only an upsert has inserted anything, and it claims the key of its identity. */
  lemma PendingInsert(rows: Table, tx: Tx, id: string)
    requires TxOk(rows, tx) && id in tx.writes && id !in rows
    ensures tx.writes[id].dedupeKey == Some(RowKey(tx.writes[id].incident)) && KeyFree(rows, id, tx.writes[id].dedupeKey)
  {
    assert PendingOk(rows, id, tx.writes[id]);
    assert PcOk(rows, tx);
  }

  /** A row that a resolve has closed but not committed keeps its key settled against others. */
  lemma ClosedBlocks(db: Db, t: nat, u: nat, id: string, key: string)
    requires Core(db) && t in db.txs && u in db.txs && t != u && id in db.txs[t].writes && id in db.rows
    requires RowKey(db.rows[id].incident) == key
    ensures !KeySettled(db, u, key)
  {
    assert TxOk(db.rows, db.txs[t]) && PendingOk(db.rows, id, db.txs[t].writes[id]);
    assert RowOk(id, db.rows[id]) && HasKey(db.rows[id], key);
    assert id in db.txs[t].locks && LockedByOther(db, u, id);
  }

  /** Where a resolve has read an identity, it holds the gap or has closed a row there. */
  lemma GapOrClosed(rows: Table, tx: Tx, i: Incident) returns (id: string)
    requires tx.call.ResolveCall? && (tx.pc.Reading? || tx.pc.Holding?) && Passed(tx, i)
    ensures HoldsGap(rows, tx, i) || (id in tx.writes && id in rows && IdentityOf(rows[id].incident) == IdentityOf(i))
  {
    var n :| 0 <= n < tx.pc.next && n < |tx.call.rules| && NamedBy(i, tx.call, n);
    if x :| x in tx.writes && x in rows && NamedBy(rows[x].incident, tx.call, n) {
      id := x;
    } else {
      id := "";
    }
  }

  /** Either way the insert has to wait. */
  lemma PassedBlocks(db: Db, u: nat, i: Incident, t: nat)
    requires Core(db) && u in db.txs && Resolving(db, t) && t != u && Passed(db.txs[t], i)
    ensures GapTaken(db, u, i) || !KeySettled(db, u, RowKey(i))
  {
    var id := GapOrClosed(db.rows, db.txs[t], i);
    if !HoldsGap(db.rows, db.txs[t], i) {
      ClosedBlocks(db, t, u, id, RowKey(i));
    }
  }

  lemma InsertUnseen(db: Db, u: nat, i: Incident, t: nat)
    requires Core(db) && u in db.txs && Resolving(db, t) && t != u && !GapTaken(db, u, i) && KeySettled(db, u, RowKey(i))
    ensures !Passed(db.txs[t], i)
  {
    if Passed(db.txs[t], i) {
      PassedBlocks(db, u, i, t);
      assert false;
    }
  }

  lemma ReadUnseen(db: Db, t: nat, u: nat)
    requires CanFindOpen(db, t, None) && Respects(db, FindOpen(t, None)) && Resolving(db, t)
    requires u in db.txs && u != t && Unseen(db.rows, db.txs[u], db.txs[t])
    ensures Unseen(db.rows, db.txs[u], DoFindOpen(db, t, None).txs[t])
  {
    var tx, next := db.txs[t], DoFindOpen(db, t, None).txs[t];
    forall id | id in db.txs[u].writes && id !in db.rows
      ensures !Passed(next, db.txs[u].writes[id].incident)
    {
      PassedMore(tx, next, db.txs[u].writes[id].incident);
    }
  }

  lemma UpdateUnseen(rows: Table, tx: Tx, next: Tx, other: Tx)
    requires RowsSound(rows) && TxOk(rows, tx) && TxOk(rows, other) && tx.call.ResolveCall? && tx.pc.Holding?
    requires next.call == tx.call && next.pc == Reading(tx.pc.next + 1) && Unseen(rows, other, tx)
    ensures Unseen(rows, other, next)
  {
    var held := tx.pc.copy.id;
    assert HoldsCopy(rows, tx, tx.pc.copy) && NamedBy(rows[held].incident, tx.call, tx.pc.next);
    assert RowOk(held, rows[held]);
    forall id | id in other.writes && id !in rows
      ensures !Passed(next, other.writes[id].incident)
    {
      PassedMore(tx, next, other.writes[id].incident);
      PendingInsert(rows, other, id);
    }
  }

  // ---- Every step ----

  /** A step of the resolve itself. */
  lemma OwnStepUnseen(db: Db, e: Event, t: nat, u: nat)
    requires Core(db) && Enabled(db, e) && Respects(db, e) && !e.Diagnose? && e.t == t
    requires Resolving(db, t) && Resolving(Step(db, e), t) && u in db.txs && u != t && Unseen(db.rows, db.txs[u], db.txs[t])
    ensures Unseen(Step(db, e).rows, db.txs[u], Step(db, e).txs[t])
  {
    OtherStepsKeepRows(db, e);
    var tx, next := db.txs[t], Step(db, e).txs[t];
    assert TxOk(db.rows, tx) && TxOk(db.rows, db.txs[u]);
    if e.FindOpen? && e.picked.None? {
      ReadUnseen(db, t, u);
    } else if e.FindOpen? {
      forall i
        ensures Passed(next, i) == Passed(tx, i)
      {
      }
    } else {
      UpdateUnseen(db.rows, tx, next, db.txs[u]);
    }
  }

  /** What a step of another transaction does to its uncommitted inserts: nothing, unless it inserts. */
  lemma OtherWrites(db: Db, e: Event, u: nat, id: string)
    requires Core(db) && Enabled(db, e) && !e.Diagnose? && !e.Commit? && e.t == u && u in db.txs && u in Step(db, e).txs
    requires id in Step(db, e).txs[u].writes && id !in db.rows
    ensures (id in db.txs[u].writes && Step(db, e).txs[u].writes[id] == db.txs[u].writes[id])
            || (e.Insert? && id == e.newId && Step(db, e).txs[u].writes[id].incident == NewRow(db.txs[u].call.d, id, db.txs[u].call.now))
  {
    if e.Update? {
      UpdateWrites(db, u, id);
    } else if e.Insert? {
      InsertWrites(db, u, e.newId, id);
    } else {
      ReadWrites(db, e, u);
    }
  }

  /** Reading writes nothing. */
  lemma ReadWrites(db: Db, e: Event, u: nat)
    requires Enabled(db, e) && !e.Diagnose? && !e.Commit? && !e.Update? && !e.Insert? && e.t == u && u in db.txs && u in Step(db, e).txs
    ensures Step(db, e).txs[u].writes == db.txs[u].writes
  {
  }

  lemma InsertWrites(db: Db, u: nat, newId: string, id: string)
    requires CanInsert(db, u, newId) && id in DoInsert(db, u, newId).txs[u].writes
    ensures var tx, next := db.txs[u], DoInsert(db, u, newId).txs[u];
            (id in tx.writes && next.writes[id] == tx.writes[id])
            || (id == newId && next.writes[id].incident == NewRow(tx.call.d, id, tx.call.now))
  {
  }

  /** A transaction that updates has written committed rows only. */
  lemma HoldingWrites(rows: Table, tx: Tx, id: string)
    requires TxOk(rows, tx) && tx.pc.Holding? && id in tx.writes
    ensures id in rows
  {
  }

  lemma UpdateWrites(db: Db, u: nat, id: string)
    requires Core(db) && CanUpdate(db, u) && id in DoUpdate(db, u).txs[u].writes
    ensures id in db.rows
  {
    var tx := db.txs[u];
    assert TxOk(db.rows, tx);
    if id in tx.writes {
      HoldingWrites(db.rows, tx, id);
    } else {
      assert id == Target(tx) && id in View(db, tx);
    }
  }

  lemma OtherStepUnseen(db: Db, e: Event, t: nat, u: nat)
    requires Core(db) && Enabled(db, e) && Respects(db, e) && !e.Diagnose? && !e.Commit? && e.t == u
    requires Resolving(db, t) && u in db.txs && u in Step(db, e).txs && u != t && Unseen(db.rows, db.txs[u], db.txs[t])
    ensures Unseen(db.rows, Step(db, e).txs[u], db.txs[t])
  {
    forall id | id in Step(db, e).txs[u].writes && id !in db.rows
      ensures !Passed(db.txs[t], Step(db, e).txs[u].writes[id].incident)
    {
      OtherWrites(db, e, u, id);
      if e.Insert? {
        InsertUnseen(db, u, NewRow(db.txs[u].call.d, e.newId, db.txs[u].call.now), t);
      }
    }
  }

  lemma StepUnseen(db: Db, e: Event, t: nat, u: nat)
    requires Core(db) && Enabled(db, e) && Respects(db, e) && Resolving(Step(db, e), t) && u in Step(db, e).txs && u != t
    requires Resolving(db, t) && u in db.txs && Unseen(db.rows, db.txs[u], db.txs[t])
    ensures Unseen(Step(db, e).rows, Step(db, e).txs[u], Step(db, e).txs[t])
  {
    if e.Diagnose? {
      OthersLeaveTx(db, e, t);
      OthersLeaveTx(db, e, u);
      QuietTallies(db, e);
      UnseenMore(db.rows, Step(db, e).rows, db.txs[u], db.txs[t]);
    } else if e.t == t {
      OthersLeaveTx(db, e, u);
      OwnStepUnseen(db, e, t, u);
    } else {
      OthersLeaveTx(db, e, t);
      if e.t != u {
        OthersLeaveTx(db, e, u);
        RowsStay(db, e);
        UnseenMore(db.rows, Step(db, e).rows, db.txs[u], db.txs[t]);
      } else {
        OwnOfOther(db, e, t, u);
      }
    }
  }

  lemma OwnOfOther(db: Db, e: Event, t: nat, u: nat)
    requires Core(db) && Enabled(db, e) && Respects(db, e) && !e.Diagnose? && e.t == u && u in Step(db, e).txs && u != t
    requires Resolving(db, t) && u in db.txs && Unseen(db.rows, db.txs[u], db.txs[t])
    ensures Unseen(Step(db, e).rows, Step(db, e).txs[u], db.txs[t])
  {
    assert !e.Commit?;
    OtherStepsKeepRows(db, e);
    OtherStepUnseen(db, e, t, u);
  }

  lemma RowsStay(db: Db, e: Event)
    ensures db.rows.Keys <= Step(db, e).rows.Keys
  {
    if !(e.Commit? && Enabled(db, e)) {
      QuietTallies(db, e);
    }
  }

  lemma UnseenMore(rows: Table, more: Table, other: Tx, tx: Tx)
    requires tx.call.ResolveCall? && (tx.pc.Reading? || tx.pc.Holding?) && rows.Keys <= more.Keys && Unseen(rows, other, tx)
    ensures Unseen(more, other, tx)
  {
  }

  /** A transaction that has just begun has neither read nor written. */
  lemma BeginUnseen(db: Db, e: Event, t: nat, u: nat)
    requires Core(db) && Enabled(db, e) && Resolving(Step(db, e), t) && u in Step(db, e).txs && u != t
    requires !Resolving(db, t) || u !in db.txs
    ensures Unseen(Step(db, e).rows, Step(db, e).txs[u], Step(db, e).txs[t])
  {
    CallsKept(db, e);
    if t in db.txs && db.txs[t].call.ResolveCall? {
      ResolvingPc(db, t);
      assert u !in db.txs && Step(db, e).txs[u].writes == map[];
    } else {
      assert e.Begin? && e.t == t && Step(db, e).txs[t].pc == Reading(0);
    }
  }

  lemma StepNoPhantoms(db: Db, e: Event)
    requires Core(db) && NoPhantoms(db) && Respects(db, e)
    ensures NoPhantoms(Step(db, e))
  {
    if Enabled(db, e) {
      forall t, u | Resolving(Step(db, e), t) && u in Step(db, e).txs && u != t
        ensures Unseen(Step(db, e).rows, Step(db, e).txs[u], Step(db, e).txs[t])
      {
        if Resolving(db, t) && u in db.txs {
          StepUnseen(db, e, t, u);
        } else {
          BeginUnseen(db, e, t, u);
        }
      }
    }
  }

  lemma {:induction false} GuardedNoPhantoms(start: Table, events: seq<Event>)
    requires RowsSound(start) && Guarded(start, events)
    ensures NoPhantoms(Exec(start, events))
  {
    if events != [] {
      var init := events[..|events| - 1];
      GuardedNoPhantoms(start, init);
      ExecKeeps(start, init);
      StepNoPhantoms(Exec(start, init), events[|events| - 1]);
    }
  }

  lemma {:induction false} NothingArrives(start: Table, events: seq<Event>, t: nat)
    requires RowsSound(start) && Guarded(start, events)
    ensures Arrived(start, events, t) == {}
  {
    if events != [] {
      var init, e := events[..|events| - 1], events[|events| - 1];
      var db := Exec(start, init);
      NothingArrives(start, init, t);
      GuardedNoPhantoms(start, init);
      if Resolving(db, t) && e.Commit? && Enabled(db, e) && e.t != t {
        assert Unseen(db.rows, db.txs[e.t], db.txs[t]);
      }
    }
  }

  /** Under the gap locks every run is undisturbed. */
  lemma {:induction false} GuardedUndisturbed(start: Table, events: seq<Event>)
    requires RowsSound(start) && Guarded(start, events)
    ensures Undisturbed(start, events)
  {
    if events != [] {
      var init, e := events[..|events| - 1], events[|events| - 1];
      GuardedUndisturbed(start, init);
      if e.Commit? {
        NothingArrives(start, init, e.t);
      }
    }
  }

  /** Hence serial in commit order. */
  lemma GuardedSerial(start: Table, events: seq<Event>, identities: iset<Identity>)
    requires RowsSound(start) && RowsFrom(start, identities) && NulFreeAll(identities) && Told(identities)
    requires EventsFrom(events, identities) && NulFreeEvents(events) && Guarded(start, events)
    ensures AlwaysSerial(start, events) && IncidentRuns.AdmissibleRun(Plain(start), Log(start, events))
  {
    GuardedUndisturbed(start, events);
    SerialIff(start, events, identities);
    Serializable(start, events, identities);
  }
}
