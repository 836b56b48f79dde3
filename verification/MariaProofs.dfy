/** What every interleaving of incident transactions keeps. */
module MariaProofs {
  import opened Wrap
  import opened Incidents
  import opened MariaIncidents
  import IncidentRuns
  import Sums
  import Text

  /** Active exactly when the unique key is set, and then it is the row's own key. */
  predicate RowOk(id: string, row: Row) {
    && row.incident.id == id && Text.Trimmed(id)
    && ValidStatus(row.incident.status)
    && (Terminal(row.incident.status) <==> row.incident.resolvedAt.Some?)
    && row.incident.occurrenceCount >= 1
    && (!Terminal(row.incident.status) ==> row.incident.resolvedBySignalId == "")
    && row.dedupeKey == if Terminal(row.incident.status) then None else Some(RowKey(row.incident))
  }

  ghost predicate KeyUnique(rows: Table) {
    forall a, b :: a in rows && b in rows && rows[a].dedupeKey.Some? && rows[a].dedupeKey == rows[b].dedupeKey ==> a == b
  }

  ghost predicate KeyFree(rows: Table, id: string, key: Option<string>) {
    forall other :: other in rows && other != id && key.Some? ==> rows[other].dedupeKey != key
  }

  /** An uncommitted row: sound, a legal successor of the committed one, and alone in claiming its key. */
  ghost predicate PendingOk(rows: Table, id: string, row: Row) {
    && RowOk(id, row)
    && (id in rows ==> && !Terminal(rows[id].incident.status)
                       && IdentityOf(rows[id].incident) == IdentityOf(row.incident)
                       && IncidentRuns.RowEvolves(rows[id].incident, row.incident))
    && KeyFree(rows, id, row.dedupeKey)
  }

  /** The copy a transaction read is still the committed row. */
  ghost predicate HoldsCopy(rows: Table, tx: Tx, copy: Incident) {
    && copy.id in tx.locks && copy.id in rows && copy.id !in tx.writes
    && rows[copy.id].incident == copy && !Terminal(copy.status)
  }

  /** What an upsert is about to commit: the next version of the row with its key, or that row's first version. */
  function Upserted(rows: Table, call: Call, id: string): Row
    requires call.UpsertCall?
  {
    Row(if id in rows then Bump(rows[id].incident, call.d, call.now) else NewRow(call.d, id, call.now), Some(CallKey(call)))
  }

  predicate MayMove(rows: Table, id: string, status: Status) {
    id in rows && rows[id].incident.status != status && CanTransition(rows[id].incident.status, status)
  }

  /** A row a resolve call has closed: it matched one of the rules read so far. */
  ghost predicate ClosedBy(rows: Table, call: Call, next: nat, id: string, row: Row)
    requires call.ResolveCall?
  {
    && id in rows
    && row == Row(ResolvedRow(rows[id].incident, call.signalId, call.reason, call.now), None)
    && exists n :: 0 <= n < next && n < |call.rules| && OpenMatch(rows[id].incident, call.rules[n], call.serviceId, call.streamId)
  }

  ghost predicate PcOk(rows: Table, tx: Tx) {
    match tx.call
    case UpsertCall(d, _) =>
      (match tx.pc
       case Holding(copy, _) => tx.writes == map[] && HoldsCopy(rows, tx, copy) && RowKey(copy) == CallKey(tx.call)
       case Done(id, created) => tx.writes == map[id := Upserted(rows, tx.call, id)] && (created <==> id !in rows)
       case _ => tx.writes == map[])
    case StatusCall(id, status, now) =>
      && ValidStatus(status)
      && (match tx.pc
          case Reading(_) => tx.writes == map[]
          case Holding(copy, _) =>
            tx.writes == map[] && HoldsCopy(rows, tx, copy) && copy.id == Text.TrimSpace(id) && MayMove(rows, copy.id, status)
          case Done(_, created) =>
            && !created
            && if Text.Trimmed(id) then MayMove(rows, id, status) && tx.writes == map[id := StatusColumns(rows[id], status, now)]
               else tx.writes == map[]
          case _ => false)
    case ResolveCall(rules, serviceId, streamId, _, _, _) =>
      && (tx.pc.Reading? || tx.pc.Holding?)
      && (forall id :: id in tx.writes ==> ClosedBy(rows, tx.call, tx.pc.next, id, tx.writes[id]))
      && (tx.pc.Holding? ==>
            && HoldsCopy(rows, tx, tx.pc.copy) && tx.pc.next < |rules|
            && OpenMatch(tx.pc.copy, rules[tx.pc.next], serviceId, streamId))
  }

  ghost predicate TxOk(rows: Table, tx: Tx) {
    && tx.writes.Keys <= tx.locks
    && (forall id :: id in tx.writes ==> PendingOk(rows, id, tx.writes[id]))
    && PcOk(rows, tx)
  }

  /** Two transactions lock different rows and claim different keys. */
  ghost predicate Apart(a: Tx, b: Tx) {
    && a.locks !! b.locks
    && (forall x, y :: x in a.writes && y in b.writes && a.writes[x].dedupeKey.Some? ==>
                         a.writes[x].dedupeKey != b.writes[y].dedupeKey)
  }

  function Counts(rows: Table): map<string, int> {
    IncidentRuns.Counts(Plain(rows))
  }

  /** No increment is lost, and each row was reported as created exactly once. */
  ghost predicate Balanced(db: Db) {
    && Sums.Sum(Counts(db.rows)) == Sums.Sum(Counts(db.initial)) + db.upserts
    && (forall id :: id in db.rows <==> id in db.initial || id in db.created)
    && (forall id :: id in db.created ==> id !in db.initial)
    && (forall i, j :: 0 <= i < j < |db.created| ==> db.created[i] != db.created[j])
  }

  ghost predicate RowsSound(rows: Table) {
    (forall id :: id in rows ==> RowOk(id, rows[id])) && KeyUnique(rows)
  }

  ghost predicate TxsSound(rows: Table, txs: map<nat, Tx>) {
    && (forall t :: t in txs ==> TxOk(rows, txs[t]))
    && (forall t, u :: t in txs && u in txs && t != u ==> Apart(txs[t], txs[u]))
  }

  ghost predicate Core(db: Db) {
    RowsSound(db.rows) && TxsSound(db.rows, db.txs)
  }

  ghost predicate Inv(db: Db) {
    Core(db) && Balanced(db)
  }

  /** Replacing one transaction's record by one that is sound and apart from the others. */
  lemma ReplaceTx(rows: Table, txs: map<nat, Tx>, t: nat, tx: Tx)
    requires TxsSound(rows, txs) && TxOk(rows, tx)
    requires forall u :: u in txs && u != t ==> Apart(tx, txs[u])
    ensures TxsSound(rows, txs[t := tx])
  {
  }

  lemma HoldKeeps(db: Db, t: nat, id: string)
    requires Core(db) && t in db.txs && id in db.rows && !LockedByOther(db, t, id)
    requires id !in db.txs[t].writes && !Terminal(db.rows[id].incident.status)
    requires var tx := db.txs[t];
             match tx.call
             case UpsertCall(_, _) => tx.writes == map[] && RowKey(db.rows[id].incident) == CallKey(tx.call)
             case StatusCall(raw, status, _) => tx.writes == map[] && id == Text.TrimSpace(raw) && MayMove(db.rows, id, status)
             case ResolveCall(_, _, _, _, _, _) => tx.pc.Reading? && Wanted(tx, db.rows[id].incident)
    ensures Core(Hold(db, t, id, db.rows[id].incident))
  {
    var tx := Hold(db, t, id, db.rows[id].incident).txs[t];
    assert HoldsCopy(db.rows, tx, db.rows[id].incident);
    assert TxOk(db.rows, tx) by {
      assert TxOk(db.rows, db.txs[t]);
    }
    forall u | u in db.txs && u != t
      ensures Apart(tx, db.txs[u])
    {
      assert Apart(db.txs[t], db.txs[u]) && id !in db.txs[u].locks;
    }
    ReplaceTx(db.rows, db.txs, t, tx);
  }

  lemma FindOpenKeeps(db: Db, t: nat, picked: Option<string>)
    requires Core(db) && CanFindOpen(db, t, picked)
    ensures Core(DoFindOpen(db, t, picked))
  {
    var tx := db.txs[t];
    if picked.Some? {
      assert TxOk(db.rows, tx) && picked.value !in tx.writes;
      HoldKeeps(db, t, picked.value);
    } else {
      ReplaceTx(db.rows, db.txs, t, DoFindOpen(db, t, picked).txs[t]);
    }
  }

  lemma FindByIdKeeps(db: Db, t: nat)
    requires Core(db) && CanFindById(db, t)
    ensures Core(DoFindById(db, t))
  {
    var call := db.txs[t].call;
    var id := Text.TrimSpace(call.id);
    if MayMove(db.rows, id, call.status) {
      assert db.txs[t].writes == map[];
      HoldKeeps(db, t, id);
    }
  }

  lemma InsertKeeps(db: Db, t: nat, newId: string)
    requires Core(db) && CanInsert(db, t, newId)
    ensures Core(DoInsert(db, t, newId))
  {
    var was, tx := db.txs[t], DoInsert(db, t, newId).txs[t];
    assert TxOk(db.rows, was) && was.writes == map[];
    if tx.pc.Done? {
      var row := Row(NewRow(was.call.d, newId, was.call.now), Some(CallKey(was.call)));
      assert tx.writes == map[newId := row] && row == Upserted(db.rows, was.call, newId);
      assert PendingOk(db.rows, newId, row);
      forall u | u in db.txs && u != t
        ensures Apart(tx, db.txs[u])
      {
        assert Apart(was, db.txs[u]);
      }
    }
    ReplaceTx(db.rows, db.txs, t, tx);
  }

  lemma FindByKeyKeeps(db: Db, t: nat, picked: Option<string>)
    requires Core(db) && CanFindByKey(db, t, picked)
    ensures Core(DoFindByKey(db, t, picked))
  {
    if picked.Some? {
      HoldKeeps(db, t, picked.value);
    }
  }

  lemma WriteApart(rows: Table, was: Tx, tx: Tx, other: Tx, id: string, row: Row)
    requires Apart(was, other) && TxOk(rows, other) && id in was.locks && id in rows
    requires row.dedupeKey.None? || row.dedupeKey == rows[id].dedupeKey
    requires tx.locks == was.locks && tx.writes == was.writes[id := row]
    ensures Apart(tx, other)
  {
    forall y | y in other.writes && row.dedupeKey.Some?
      ensures row.dedupeKey != other.writes[y].dedupeKey
    {
      assert PendingOk(rows, y, other.writes[y]) && y != id;
    }
  }

  lemma WriteOk(rows: Table, was: Tx, tx: Tx, id: string, row: Row)
    requires TxOk(rows, was) && PendingOk(rows, id, row) && PcOk(rows, tx)
    requires id in was.locks && tx.locks == was.locks && tx.writes == was.writes[id := row]
    ensures TxOk(rows, tx)
  {
  }

  lemma WriteKeeps(db: Db, t: nat, id: string, row: Row, pc: Pc)
    requires Core(db) && t in db.txs && id in db.txs[t].locks && id in db.rows
    requires PendingOk(db.rows, id, row)
    requires row.dedupeKey.None? || row.dedupeKey == db.rows[id].dedupeKey
    requires PcOk(db.rows, Write(db, t, id, row, pc).txs[t])
    ensures Core(Write(db, t, id, row, pc))
  {
    var was, tx := db.txs[t], Write(db, t, id, row, pc).txs[t];
    assert tx.locks == was.locks;
    assert TxOk(db.rows, was);
    forall u | u in db.txs && u != t
      ensures Apart(tx, db.txs[u])
    {
      WriteApart(db.rows, was, tx, db.txs[u], id, row);
    }
    WriteOk(db.rows, was, tx, id, row);
    ReplaceTx(db.rows, db.txs, t, tx);
  }

  /** Writing over a committed active row with the same identity and a legal evolution is a sound pending row. */
  lemma PendingOver(rows: Table, id: string, row: Row)
    requires RowsSound(rows) && id in rows && !Terminal(rows[id].incident.status)
    requires IdentityOf(rows[id].incident) == IdentityOf(row.incident) && IncidentRuns.RowEvolves(rows[id].incident, row.incident)
    requires ValidStatus(row.incident.status) && (Terminal(row.incident.status) <==> row.incident.resolvedAt.Some?)
    requires Terminal(row.incident.status) || row.incident.resolvedBySignalId == ""
    requires row.dedupeKey == if Terminal(row.incident.status) then None else rows[id].dedupeKey
    ensures PendingOk(rows, id, row)
  {
    assert RowOk(id, rows[id]);
    assert RowKey(row.incident) == RowKey(rows[id].incident);
  }

  /** A transaction that holds a row writes a sound successor of it, computed from an up-to-date copy. */
  lemma UpdatedSound(rows: Table, tx: Tx)
    requires RowsSound(rows) && TxOk(rows, tx) && tx.pc.Holding?
    ensures var id := tx.pc.copy.id;
            && id in tx.locks && id in rows && id !in tx.writes
            && PendingOk(rows, id, Updated(tx, rows[id]))
            && (Updated(tx, rows[id]).dedupeKey.None? || Updated(tx, rows[id]).dedupeKey == rows[id].dedupeKey)
            && (Target(tx) in rows ==> Target(tx) == id)
  {
    var id := tx.pc.copy.id;
    assert RowOk(id, rows[id]);
    if tx.call.StatusCall? {
      TransitionIsClimb(tx.pc.copy.status, tx.call.status);
      Text.TrimSpaceLaws(tx.call.id);
      assert tx.call.id in rows ==> RowOk(tx.call.id, rows[tx.call.id]);
    }
    PendingOver(rows, id, Updated(tx, rows[id]));
  }

  lemma UpdatedPc(rows: Table, tx: Tx)
    requires RowsSound(rows) && TxOk(rows, tx) && tx.pc.Holding? && Target(tx) == tx.pc.copy.id
    ensures var id := tx.pc.copy.id;
            id in rows && PcOk(rows, tx.(locks := tx.locks + {id}, writes := tx.writes[id := Updated(tx, rows[id])], pc := AfterUpdate(tx)))
  {
    var id := tx.pc.copy.id;
    assert RowOk(id, rows[id]);
    if tx.call.StatusCall? {
      Text.TrimSpaceLaws(tx.call.id);
    }
    if tx.call.ResolveCall? {
      var after := tx.writes[id := Updated(tx, rows[id])];
      forall x | x in after
        ensures ClosedBy(rows, tx.call, tx.pc.next + 1, x, after[x])
      {
        if x == id {
          assert OpenMatch(rows[id].incident, tx.call.rules[tx.pc.next], tx.call.serviceId, tx.call.streamId);
        } else {
          assert ClosedBy(rows, tx.call, tx.pc.next, x, tx.writes[x]);
        }
      }
    }
  }

  lemma UpdateKeeps(db: Db, t: nat)
    requires Core(db) && CanUpdate(db, t)
    ensures Core(DoUpdate(db, t))
  {
    var tx := db.txs[t];
    var id := tx.pc.copy.id;
    assert TxOk(db.rows, tx);
    UpdatedSound(db.rows, tx);
    if Target(tx) in db.rows {
      UpdatedPc(db.rows, tx);
      WriteKeeps(db, t, id, Updated(tx, db.rows[id]), AfterUpdate(tx));
    } else {
      Text.TrimSpaceLaws(tx.call.id);
      ReplaceTx(db.rows, db.txs, t, tx.(pc := AfterUpdate(tx)));
    }
  }

  /** A transaction only depends on the rows it has locked, and on its keys staying free. */
  lemma TxFrame(rows: Table, next: Table, tx: Tx)
    requires TxOk(rows, tx)
    requires forall id :: id in tx.locks ==> (id in rows <==> id in next) && (id in rows ==> next[id] == rows[id])
    requires forall id :: id in tx.writes ==> KeyFree(next, id, tx.writes[id].dedupeKey)
    ensures TxOk(next, tx)
  {
  }

  // ---- Commit ----

  lemma CommitRow(rows: Table, tx: Tx, id: string)
    requires RowsSound(rows) && TxOk(rows, tx) && id in rows + tx.writes
    ensures var next := rows + tx.writes;
            && RowOk(id, next[id]) && (id in tx.writes ==> KeyFree(rows, id, next[id].dedupeKey))
            && (id in rows && next[id].dedupeKey.Some? ==> rows[id].dedupeKey == next[id].dedupeKey)
  {
    if id in tx.writes {
      assert PendingOk(rows, id, tx.writes[id]);
    }
    if id in rows {
      assert RowOk(id, rows[id]) && RowKey(rows[id].incident) == RowKey((rows + tx.writes)[id].incident);
    }
  }

  /** A transaction writes at most one row with a key: a resolve takes keys away, the others write one row. */
  lemma OneKeyed(rows: Table, tx: Tx)
    requires PcOk(rows, tx)
    ensures forall a, b :: a in tx.writes && b in tx.writes && tx.writes[a].dedupeKey.Some? && tx.writes[b].dedupeKey.Some? ==> a == b
  {
    if tx.call.ResolveCall? {
      forall id | id in tx.writes
        ensures tx.writes[id].dedupeKey.None?
      {
        assert ClosedBy(rows, tx.call, tx.pc.next, id, tx.writes[id]);
      }
    }
  }

  lemma CommitRows(rows: Table, tx: Tx)
    requires RowsSound(rows) && TxOk(rows, tx)
    ensures RowsSound(rows + tx.writes)
  {
    var next := rows + tx.writes;
    OneKeyed(rows, tx);
    forall id | id in next
      ensures RowOk(id, next[id])
    {
      CommitRow(rows, tx, id);
    }
    forall a, b | a in next && b in next && next[a].dedupeKey.Some? && next[a].dedupeKey == next[b].dedupeKey
      ensures a == b
    {
      CommitRow(rows, tx, a);
      CommitRow(rows, tx, b);
    }
  }

  lemma CommitOthers(rows: Table, tx: Tx, other: Tx)
    requires TxOk(rows, tx) && TxOk(rows, other) && Apart(tx, other) && Apart(other, tx)
    ensures TxOk(rows + tx.writes, other)
  {
    var next := rows + tx.writes;
    forall id | id in other.writes
      ensures KeyFree(next, id, other.writes[id].dedupeKey)
    {
      assert PendingOk(rows, id, other.writes[id]);
    }
    TxFrame(rows, next, other);
  }

  lemma UpsertCounts(rows: Table, id: string, row: Row)
    requires row.incident.occurrenceCount == (if id in rows then rows[id].incident.occurrenceCount else 0) + 1
    ensures Sums.Sum(Counts(rows[id := row])) == Sums.Sum(Counts(rows)) + 1
  {
    Sums.SumSet(Counts(rows), id, row.incident.occurrenceCount);
    assert Counts(rows[id := row]) == Counts(rows)[id := row.incident.occurrenceCount];
  }

  lemma QuietCounts(rows: Table, tx: Tx)
    requires PcOk(rows, tx) && !tx.call.UpsertCall?
    ensures Counts(rows + tx.writes) == Counts(rows)
  {
    forall id | id in tx.writes
      ensures id in rows && tx.writes[id].incident.occurrenceCount == rows[id].incident.occurrenceCount
    {
      assert tx.call.ResolveCall? ==> ClosedBy(rows, tx.call, tx.pc.next, id, tx.writes[id]);
    }
  }

  lemma CommitCounts(rows: Table, tx: Tx)
    requires TxOk(rows, tx) && (tx.pc.Done? || tx.call.ResolveCall?)
    ensures Sums.Sum(Counts(rows + tx.writes)) == Sums.Sum(Counts(rows)) + if tx.call.UpsertCall? then 1 else 0
  {
    if tx.call.UpsertCall? {
      assert rows + tx.writes == rows[tx.pc.id := Upserted(rows, tx.call, tx.pc.id)];
      UpsertCounts(rows, tx.pc.id, Upserted(rows, tx.call, tx.pc.id));
    } else {
      QuietCounts(rows, tx);
    }
  }

  lemma CommitTxs(rows: Table, txs: map<nat, Tx>, t: nat)
    requires TxsSound(rows, txs) && t in txs
    ensures TxsSound(rows + txs[t].writes, txs - {t})
  {
    forall u | u in txs && u != t
      ensures TxOk(rows + txs[t].writes, txs[u])
    {
      CommitOthers(rows, txs[t], txs[u]);
    }
  }

  /** A commit adds a row exactly when it reports one as created. */
  lemma CommitCreates(rows: Table, tx: Tx)
    requires PcOk(rows, tx) && (tx.pc.Done? || tx.call.ResolveCall?)
    ensures tx.pc.Done? && tx.pc.created ==> tx.pc.id !in rows && (rows + tx.writes).Keys == rows.Keys + {tx.pc.id}
    ensures !(tx.pc.Done? && tx.pc.created) ==> (rows + tx.writes).Keys == rows.Keys
  {
    if tx.call.ResolveCall? {
      assert forall id :: id in tx.writes ==> ClosedBy(rows, tx.call, tx.pc.next, id, tx.writes[id]);
    }
  }

  lemma CommitBalances(db: Db, t: nat)
    requires Balanced(db) && CanCommit(db, t) && TxOk(db.rows, db.txs[t])
    ensures Balanced(DoCommit(db, t))
  {
    CommitCounts(db.rows, db.txs[t]);
    CommitCreates(db.rows, db.txs[t]);
    var tx, next := db.txs[t], DoCommit(db, t);
    if tx.pc.Done? && tx.pc.created {
      CreatedMore(db, next.rows, tx.pc.id);
    }
  }

  /** One more row, reported as created. */
  lemma CreatedMore(db: Db, rows: Table, id: string)
    requires Balanced(db) && id !in db.rows && rows.Keys == db.rows.Keys + {id}
    ensures var created := db.created + [id];
            && (forall x :: x in rows <==> x in db.initial || x in created)
            && (forall x :: x in created ==> x !in db.initial)
            && (forall i, j :: 0 <= i < j < |created| ==> created[i] != created[j])
  {
    assert id !in db.created && id !in db.initial;
  }

  lemma CommitKeeps(db: Db, t: nat)
    requires Core(db) && CanCommit(db, t)
    ensures Core(DoCommit(db, t))
  {
    assert TxOk(db.rows, db.txs[t]);
    CommitRows(db.rows, db.txs[t]);
    CommitTxs(db.rows, db.txs, t);
  }

  lemma DiagnoseRow(rows: Table, id: string, row: Row, txs: map<nat, Tx>)
    requires RowsSound(rows) && TxsSound(rows, txs) && id in rows
    requires row == rows[id].(incident := rows[id].incident.(report := row.incident.report, updatedAt := row.incident.updatedAt))
    requires forall u :: u in txs ==> id !in txs[u].locks
    ensures RowsSound(rows[id := row]) && TxsSound(rows[id := row], txs)
  {
    var next := rows[id := row];
    assert RowOk(id, rows[id]) && RowOk(id, row);
    forall u | u in txs
      ensures TxOk(next, txs[u])
    {
      assert TxOk(rows, txs[u]);
      forall x | x in txs[u].writes
        ensures KeyFree(next, x, txs[u].writes[x].dedupeKey)
      {
        assert PendingOk(rows, x, txs[u].writes[x]);
      }
      TxFrame(rows, next, txs[u]);
    }
  }

  lemma DiagnoseKeeps(db: Db, e: Event)
    requires Core(db) && e.Diagnose? && Enabled(db, e)
    ensures Core(Next(db, e))
  {
    var next, id := Next(db, e), Text.TrimSpace(e.id);
    if next.rows != db.rows {
      DiagnoseRow(db.rows, id, next.rows[id], db.txs);
    }
  }

  lemma StepCore(db: Db, e: Event)
    requires Core(db)
    ensures Core(Step(db, e))
  {
    if Enabled(db, e) {
      match e
      case Begin(t, call) =>
        ReplaceTx(db.rows, db.txs, t, Tx(Prepared(call), Reading(0), {}, map[]));
      case FindOpen(t, picked) => FindOpenKeeps(db, t, picked);
      case FindById(t) => FindByIdKeeps(db, t);
      case Insert(t, newId) => InsertKeeps(db, t, newId);
      case FindByKey(t, picked) => FindByKeyKeeps(db, t, picked);
      case Update(t) => UpdateKeeps(db, t);
      case Commit(t) => CommitKeeps(db, t);
      case Abort(t) =>
      case Diagnose(_, _, _, _) => DiagnoseKeeps(db, e);
    }
  }

  /** The other steps change the open transactions only. */
  lemma OtherStepsKeepRows(db: Db, e: Event)
    requires !e.Commit? && !e.Diagnose?
    ensures Step(db, e) == db.(txs := Step(db, e).txs)
  {
  }

  lemma DiagnoseCounts(rows: Table, id: string, row: Row)
    requires id in rows && row.incident.occurrenceCount == rows[id].incident.occurrenceCount
    ensures Counts(rows[id := row]) == Counts(rows) && rows[id := row].Keys == rows.Keys
  {
  }

  /** Only commits add to the tallies, and every step keeps the starting rows. */
  lemma QuietTallies(db: Db, e: Event)
    requires !(e.Commit? && Enabled(db, e))
    ensures var next := Step(db, e);
            next.upserts == db.upserts && next.created == db.created && next.initial == db.initial
            && Counts(next.rows) == Counts(db.rows) && next.rows.Keys == db.rows.Keys
  {
    if e.Diagnose? {
      var next, id := Step(db, e), Text.TrimSpace(e.id);
      if next != db {
        DiagnoseCounts(db.rows, id, next.rows[id]);
      }
    } else if Enabled(db, e) {
      OtherStepsKeepRows(db, e);
    }
  }

  lemma StepKeeps(db: Db, e: Event)
    requires Inv(db)
    ensures Inv(Step(db, e)) && Step(db, e).initial == db.initial
  {
    StepCore(db, e);
    if e.Commit? && Enabled(db, e) {
      assert TxOk(db.rows, db.txs[e.t]);
      CommitBalances(db, e.t);
    } else {
      QuietTallies(db, e);
    }
  }

  lemma {:induction false} ExecKeeps(start: Table, events: seq<Event>)
    requires RowsSound(start)
    ensures Inv(Exec(start, events)) && Exec(start, events).initial == start
  {
    if events != [] {
      ExecKeeps(start, events[..|events| - 1]);
      StepKeeps(Exec(start, events[..|events| - 1]), events[|events| - 1]);
    }
  }

  /** Upserts that returned without an error. */
  function SuccessfulUpserts(start: Table, events: seq<Event>): nat {
    if events == [] then 0
    else
      var db, e := Exec(start, events[..|events| - 1]), events[|events| - 1];
      SuccessfulUpserts(start, events[..|events| - 1])
      + if e.Commit? && Enabled(db, e) && db.txs[e.t].call.UpsertCall? then 1 else 0
  }

  lemma {:induction false} UpsertsCounted(start: Table, events: seq<Event>)
    ensures Exec(start, events).upserts == SuccessfulUpserts(start, events)
  {
    if events != [] {
      UpsertsCounted(start, events[..|events| - 1]);
      var db, e := Exec(start, events[..|events| - 1]), events[|events| - 1];
      if !(e.Commit? && Enabled(db, e)) {
        QuietTallies(db, e);
      }
    }
  }

  lemma {:induction false} DistinctOnce(s: seq<string>, id: string)
    requires forall i, j :: 0 <= i < j < |s| ==> s[i] != s[j]
    ensures multiset(s)[id] == if id in s then 1 else 0
  {
    if s != [] {
      var init := s[..|s| - 1];
      assert s == init + [s[|s| - 1]];
      DistinctOnce(init, id);
    }
  }

  /** The guarantees that hold after every interleaving over a sound table, in the service's own terms. */
  lemma EveryInterleaving(start: Table, events: seq<Event>, id: string)
    requires RowsSound(start)
    ensures var db := Exec(start, events);
            && (id in db.rows ==>
                  db.rows[id].dedupeKey
                  == if Terminal(db.rows[id].incident.status) then None else Some(RowKey(db.rows[id].incident)))
            && (forall other :: id in db.rows && other in db.rows
                                && !Terminal(db.rows[id].incident.status) && !Terminal(db.rows[other].incident.status)
                                && RowKey(db.rows[id].incident) == RowKey(db.rows[other].incident)
                                ==> other == id)
            && Sums.Sum(Counts(db.rows)) == Sums.Sum(Counts(start)) + SuccessfulUpserts(start, events)
            && multiset(db.created)[id] == if id in db.rows && id !in start then 1 else 0
  {
    var db := Exec(start, events);
    ExecKeeps(start, events);
    UpsertsCounted(start, events);
    DistinctOnce(db.created, id);
    assert forall other :: other in db.rows ==> RowOk(other, db.rows[other]);
  }

  // ---- Committed rows over time ----

  lemma WritesEvolve(rows: Table, tx: Tx)
    requires TxOk(rows, tx)
    ensures IncidentRuns.Evolves(Plain(rows), Plain(rows + tx.writes))
  {
    forall id | id in rows
      ensures IncidentRuns.RowEvolves(rows[id].incident, (rows + tx.writes)[id].incident)
    {
      assert id in tx.writes ==> PendingOk(rows, id, tx.writes[id]);
    }
  }

  lemma DiagnoseEvolves(db: Db, id: string, expected: string, report: string, now: int)
    ensures IncidentRuns.Evolves(Plain(db.rows), Plain(DoDiagnose(db, id, expected, report, now).rows))
  {
  }

  lemma StepEvolves(db: Db, e: Event)
    requires Core(db)
    ensures IncidentRuns.Evolves(Plain(db.rows), Plain(Step(db, e).rows))
  {
    if !Enabled(db, e) {
    } else if e.Commit? {
      assert TxOk(db.rows, db.txs[e.t]);
      WritesEvolve(db.rows, db.txs[e.t]);
    } else if e.Diagnose? {
      DiagnoseEvolves(db, e.id, e.expectedSignalId, e.report, e.now);
    } else {
      OtherStepsKeepRows(db, e);
    }
  }

  /** From any moment of a run to its end no committed row is lost and each moves only upwards. */
  lemma {:induction false} CommittedRowsEvolve(start: Table, events: seq<Event>, n: nat)
    requires RowsSound(start) && n <= |events|
    ensures IncidentRuns.Evolves(Plain(Exec(start, events[..n]).rows), Plain(Exec(start, events).rows))
    decreases |events|
  {
    if n == |events| {
      assert events[..n] == events;
    } else {
      var init, e := events[..|events| - 1], events[|events| - 1];
      assert init[..n] == events[..n];
      CommittedRowsEvolve(start, init, n);
      ExecKeeps(start, init);
      StepEvolves(Exec(start, init), e);
      IncidentRuns.EvolvesTransitive(Plain(Exec(start, events[..n]).rows), Plain(Exec(start, init).rows), Plain(Exec(start, events).rows));
    }
  }
}
