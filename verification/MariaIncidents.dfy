/** The MariaDB incident store as interleaved transactions. Each SQL statement is one step; a
    locking read or a write waits (its step is not enabled) while another transaction holds the
    row; an insert also waits on another transaction's unfinished claim to the same unique key.
    Uncommitted inserts are invisible to reads, so two upserts may both find no row. Any
    transaction may be rolled back at any moment, which covers errors and deadlock victims. */
module MariaIncidents {
  import opened Wrap
  import opened Incidents
  import Text

  datatype Row = Row(incident: Incident, dedupeKey: Option<string>)

  type Table = map<string, Row>

  /** The incidents of a table. */
  function Plain(rows: Table): Rows {
    map id | id in rows :: rows[id].incident
  }

  datatype Call =
    | UpsertCall(d: Detected, now: int)
    | StatusCall(id: string, status: Status, now: int)
    | ResolveCall(rules: seq<string>, serviceId: string, streamId: string, signalId: string, reason: string, now: int)

  /** Where a transaction stands: at a locking read (of the numbered rule), without a row, after a
      refused insert, holding the row it read, or finished and ready to commit. */
  datatype Pc =
    | Reading(next: nat)
    | Missing
    | LostRace
    | Holding(copy: Incident, next: nat)
    | Done(id: string, created: bool)

  datatype Tx = Tx(call: Call, pc: Pc, locks: set<string>, writes: Table)

  /** The committed rows, the open transactions, what committed upserts have reported, and the rows at the start. */
  datatype Db = Db(rows: Table, txs: map<nat, Tx>, upserts: nat, created: seq<string>, initial: Table)

  function Fresh(start: Table): Db {
    Db(start, map[], 0, [], start)
  }

  datatype Event =
    | Begin(t: nat, call: Call)
    | FindOpen(t: nat, picked: Option<string>)
    | FindById(t: nat)
    | Insert(t: nat, newId: string)
    | FindByKey(t: nat, picked: Option<string>)
    | Update(t: nat)
    | Commit(t: nat)
    | Abort(t: nat)
    | Diagnose(id: string, expectedSignalId: string, report: string, now: int)

  function DedupeKey(rule: string, serviceId: string, streamId: string): string {
    Key(Text.TrimSpace(rule), Text.TrimSpace(serviceId), Text.TrimSpace(streamId))
  }

  /** Resolving works on the trimmed, distinct, non-empty rules. */
  function Prepared(call: Call): Call {
    if call.ResolveCall? then call.(rules := UniqueNonEmpty(call.rules)) else call
  }

  function CallKey(call: Call): string
    requires call.UpsertCall?
  {
    DedupeKey(call.d.rule, call.d.serviceId, call.d.streamId)
  }

  function RowKey(i: Incident): string {
    DedupeKey(i.rule, i.serviceId, i.streamId)
  }

  predicate OpenMatch(i: Incident, rule: string, serviceId: string, streamId: string) {
    i.rule == rule && i.serviceId == serviceId && i.streamId == streamId && !Terminal(i.status)
  }

  /** The identity a transaction is looking for. */
  predicate Wanted(tx: Tx, i: Incident) {
    match tx.call
    case UpsertCall(d, _) => OpenMatch(i, d.rule, d.serviceId, d.streamId)
    case ResolveCall(rules, serviceId, streamId, _, _, _) =>
      tx.pc.Reading? && tx.pc.next < |rules| && OpenMatch(i, rules[tx.pc.next], serviceId, streamId)
    case StatusCall(_, _, _) => false
  }

  predicate LockedByOther(db: Db, t: nat, id: string) {
    exists u :: u in db.txs && u != t && id in db.txs[u].locks
  }

  /** Committed rows overlaid with the transaction's own writes. */
  function View(db: Db, tx: Tx): Table {
    db.rows + tx.writes
  }

  predicate HasKey(row: Row, key: string) {
    row.dedupeKey == Some(key)
  }

  predicate CanFindOpen(db: Db, t: nat, picked: Option<string>) {
    && t in db.txs
    && var tx := db.txs[t];
    && tx.pc.Reading?
    && (tx.call.UpsertCall? || (tx.call.ResolveCall? && tx.pc.next < |tx.call.rules|))
    && (forall id :: id in db.rows && Wanted(tx, db.rows[id].incident) ==> !LockedByOther(db, t, id))
    && var view := View(db, tx);
    match picked
    case None => forall id :: id in view ==> !Wanted(tx, view[id].incident)
    case Some(id) =>
      && id in view && Wanted(tx, view[id].incident)
      && forall other :: other in view && Wanted(tx, view[other].incident) ==>
                           view[other].incident.updatedAt <= view[id].incident.updatedAt
  }

  predicate CanFindById(db: Db, t: nat) {
    && t in db.txs && db.txs[t].pc.Reading? && db.txs[t].call.StatusCall?
    && !LockedByOther(db, t, Text.TrimSpace(db.txs[t].call.id))
  }

  /** Generated identifiers are fresh and carry no white space. */
  predicate CanInsert(db: Db, t: nat, newId: string) {
    && t in db.txs && db.txs[t].pc.Missing? && db.txs[t].call.UpsertCall?
    && newId !in db.rows && Text.Trimmed(newId) && (forall u :: u in db.txs ==> newId !in db.txs[u].locks)
    && KeySettled(db, t, CallKey(db.txs[t].call))
  }

  predicate CanFindByKey(db: Db, t: nat, picked: Option<string>) {
    && t in db.txs && db.txs[t].pc.LostRace? && db.txs[t].call.UpsertCall?
    && var key := CallKey(db.txs[t].call);
    && (forall id :: id in db.rows && HasKey(db.rows[id], key) ==> !LockedByOther(db, t, id))
    && match picked
       case None => forall id :: id in db.rows ==> !HasKey(db.rows[id], key)
       case Some(id) => id in db.rows && HasKey(db.rows[id], key)
  }

  predicate CanUpdate(db: Db, t: nat) {
    t in db.txs && db.txs[t].pc.Holding? && !LockedByOther(db, t, Target(db.txs[t]))
  }

  predicate CanCommit(db: Db, t: nat) {
    && t in db.txs
    && var tx := db.txs[t];
    tx.pc.Done? || (tx.call.ResolveCall? && tx.pc.Reading? && tx.pc.next >= |tx.call.rules|)
  }

  predicate Enabled(db: Db, e: Event) {
    match e
    case Begin(t, call) => t !in db.txs && (call.StatusCall? ==> ValidStatus(call.status))
    case FindOpen(t, picked) => CanFindOpen(db, t, picked)
    case FindById(t) => CanFindById(db, t)
    case Insert(t, newId) => CanInsert(db, t, newId)
    case FindByKey(t, picked) => CanFindByKey(db, t, picked)
    case Update(t) => CanUpdate(db, t)
    case Commit(t) => CanCommit(db, t)
    case Abort(t) => t in db.txs
    case Diagnose(id, _, _, _) => forall u :: u in db.txs ==> Text.TrimSpace(id) !in db.txs[u].locks
  }

  /** No other transaction has an unfinished insert, update or removal of this key. */
  predicate KeySettled(db: Db, t: nat, key: string) {
    && (forall u, id :: u in db.txs && u != t && id in db.txs[u].writes ==> !HasKey(db.txs[u].writes[id], key))
    && (forall id :: id in db.rows && HasKey(db.rows[id], key) ==> !LockedByOther(db, t, id))
  }

  /** The columns an upsert writes, all computed from the copy it read. */
  function BumpColumns(current: Incident, copy: Incident, d: Detected, now: int): Incident {
    current.(severity := if Rank(d.severity) > Rank(copy.severity) then d.severity else copy.severity,
             signalId := d.signalId, summary := d.summary, report := d.report,
             updatedAt := now, lastSeenAt := now, occurrenceCount := copy.occurrenceCount + 1)
  }

  function StatusColumns(current: Row, status: Status, now: int): Row {
    Row(current.incident.(status := status, updatedAt := now,
                          resolvedAt := if Terminal(status) then Some(now) else None,
                          resolvedBySignalId := "",
                          resolutionReason := if Terminal(status) then "manual" else ""),
        if Terminal(status) then None else current.dedupeKey)
  }

  function Hold(db: Db, t: nat, id: string, copy: Incident): Db
    requires t in db.txs
  {
    var tx := db.txs[t];
    db.(txs := db.txs[t := tx.(locks := tx.locks + {id}, pc := Holding(copy, if tx.pc.Reading? then tx.pc.next else 0))])
  }

  function Leave(db: Db, t: nat): Db {
    db.(txs := db.txs - {t})
  }

  function Write(db: Db, t: nat, id: string, row: Row, pc: Pc): Db
    requires t in db.txs
  {
    var tx := db.txs[t];
    db.(txs := db.txs[t := tx.(locks := tx.locks + {id}, writes := tx.writes[id := row], pc := pc)])
  }

  function DoFindOpen(db: Db, t: nat, picked: Option<string>): Db
    requires CanFindOpen(db, t, picked)
  {
    var tx := db.txs[t];
    if picked.Some? then Hold(db, t, picked.value, View(db, tx)[picked.value].incident)
    else db.(txs := db.txs[t := tx.(pc := if tx.call.UpsertCall? then Missing else Reading(tx.pc.next + 1))])
  }

  function DoFindById(db: Db, t: nat): Db
    requires CanFindById(db, t)
  {
    var call := db.txs[t].call;
    var id := Text.TrimSpace(call.id);
    if id !in db.rows || db.rows[id].incident.status == call.status
       || !CanTransition(db.rows[id].incident.status, call.status) then Leave(db, t)
    else Hold(db, t, id, db.rows[id].incident)
  }

  /** Refused when a committed row already has the key. */
  function DoInsert(db: Db, t: nat, newId: string): Db
    requires CanInsert(db, t, newId)
  {
    var tx := db.txs[t];
    var key := CallKey(tx.call);
    if exists id :: id in db.rows && HasKey(db.rows[id], key) then db.(txs := db.txs[t := tx.(pc := LostRace)])
    else Write(db, t, newId, Row(NewRow(tx.call.d, newId, tx.call.now), Some(key)), Done(newId, true))
  }

  function DoFindByKey(db: Db, t: nat, picked: Option<string>): Db
    requires CanFindByKey(db, t, picked)
  {
    if picked.Some? then Hold(db, t, picked.value, db.rows[picked.value].incident) else Leave(db, t)
  }

  /** The row named by the UPDATE: a status change uses the identifier as given, not the one it read. */
  function Target(tx: Tx): string
    requires tx.pc.Holding?
  {
    if tx.call.StatusCall? then tx.call.id else tx.pc.copy.id
  }

  function Updated(tx: Tx, current: Row): Row
    requires tx.pc.Holding?
  {
    match tx.call
    case UpsertCall(d, now) => Row(BumpColumns(current.incident, tx.pc.copy, d, now), current.dedupeKey)
    case StatusCall(_, status, now) => StatusColumns(current, status, now)
    case ResolveCall(_, _, _, signalId, reason, now) => Row(ResolvedRow(current.incident, signalId, reason, now), None)
  }

  function AfterUpdate(tx: Tx): Pc
    requires tx.pc.Holding?
  {
    if tx.call.ResolveCall? then Reading(tx.pc.next + 1) else Done(Target(tx), false)
  }

  function DoUpdate(db: Db, t: nat): Db
    requires CanUpdate(db, t)
  {
    var tx, view := db.txs[t], View(db, db.txs[t]);
    if Target(tx) in view then Write(db, t, Target(tx), Updated(tx, view[Target(tx)]), AfterUpdate(tx))
    else db.(txs := db.txs[t := tx.(pc := AfterUpdate(tx))])
  }

  function DoCommit(db: Db, t: nat): Db
    requires CanCommit(db, t)
  {
    var tx := db.txs[t];
    Db(View(db, tx), db.txs - {t},
       if tx.call.UpsertCall? then db.upserts + 1 else db.upserts,
       if tx.pc.Done? && tx.pc.created then db.created + [tx.pc.id] else db.created,
       db.initial)
  }

  /** A single auto-committed UPDATE. */
  function DoDiagnose(db: Db, id: string, expected: string, report: string, now: int): Db {
    var id, signal := Text.TrimSpace(id), Text.TrimSpace(expected);
    if id == "" || signal == "" || id !in db.rows || db.rows[id].incident.signalId != signal then db
    else db.(rows := db.rows[id := db.rows[id].(incident := db.rows[id].incident.(report := report, updatedAt := now))])
  }

  function Next(db: Db, e: Event): Db
    requires Enabled(db, e)
  {
    match e
    case Begin(t, call) => db.(txs := db.txs[t := Tx(Prepared(call), Reading(0), {}, map[])])
    case FindOpen(t, picked) => DoFindOpen(db, t, picked)
    case FindById(t) => DoFindById(db, t)
    case Insert(t, newId) => DoInsert(db, t, newId)
    case FindByKey(t, picked) => DoFindByKey(db, t, picked)
    case Update(t) => DoUpdate(db, t)
    case Commit(t) => DoCommit(db, t)
    case Abort(t) => Leave(db, t)
    case Diagnose(id, expected, report, now) => DoDiagnose(db, id, expected, report, now)
  }

  /** A disabled event is one that waits: nothing happens. */
  function Step(db: Db, e: Event): Db {
    if Enabled(db, e) then Next(db, e) else db
  }

  /** A run over a table that no transaction has open. */
  function Exec(start: Table, events: seq<Event>): Db {
    if events == [] then Fresh(start) else Step(Exec(start, events[..|events| - 1]), events[|events| - 1])
  }

  lemma ExecSnoc(start: Table, events: seq<Event>, e: Event)
    ensures Exec(start, events + [e]) == Step(Exec(start, events), e)
  {
    assert (events + [e])[..|events|] == events;
  }
}
