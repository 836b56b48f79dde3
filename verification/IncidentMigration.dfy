/** The incident lifecycle migration: closing duplicate active rows and filling the unique key. */
module IncidentMigration {
  import opened Wrap
  import Sums
  import Recency
  import Incidents
  import Text

  datatype Row = Row(
    rule: string, serviceId: string, streamId: Option<string>, severity: Incidents.Severity, status: Incidents.Status,
    summary: string, signalId: string, report: string, openedAt: int, updatedAt: int,
    resolvedAt: Option<int>, resolvedBySignalId: Option<string>, resolutionReason: Option<string>,
    occurrenceCount: int, lastSeenAt: Option<int>, dedupeKey: Option<string>)

  /** The table by primary key. */
  type Table = map<string, Row>

  predicate IsActive(t: Table, id: string) {
    id in t && !Incidents.Terminal(t[id].status)
  }

  /** The same rule, service and stream, where two missing streams are the same. */
  predicate SameGroup(a: Row, b: Row) {
    a.rule == b.rule && a.serviceId == b.serviceId && a.streamId == b.streamId
  }

  function StampOf(t: Table, id: string): Recency.Stamp
    requires id in t
  {
    Recency.Stamp(t[id].updatedAt, id)
  }

  predicate Newer(t: Table, a: string, b: string)
    requires a in t && b in t
  {
    Recency.Newer(StampOf(t, a), StampOf(t, b))
  }

  /** The join partner of a row that is to be closed. */
  predicate Supersedes(t: Table, newer: string, stale: string) {
    stale in t && IsActive(t, newer) && SameGroup(t[newer], t[stale]) && Newer(t, newer, stale)
  }

  ghost predicate IsStale(t: Table, id: string) {
    IsActive(t, id) && exists newer :: Supersedes(t, newer, id)
  }

  const MIGRATION_REASON := "migration_duplicate_consolidated"

  // ---- The three updates, each read on a snapshot ----

  function ResetRow(r: Row): Row {
    r.(occurrenceCount := if r.occurrenceCount < 1 then 1 else r.occurrenceCount,
       lastSeenAt := if r.lastSeenAt.None? then Some(r.updatedAt) else r.lastSeenAt,
       dedupeKey := None)
  }

  function ClosedRow(r: Row): Row {
    r.(status := Incidents.Resolved,
       resolvedAt := if r.resolvedAt.None? then Some(r.updatedAt) else r.resolvedAt,
       resolvedBySignalId := None,
       resolutionReason := if r.resolutionReason in {None, Some("")} then Some(MIGRATION_REASON) else r.resolutionReason,
       dedupeKey := None)
  }

  function GroupKey(r: Row): string {
    Incidents.Key(r.rule, r.serviceId, if r.streamId.None? then "" else r.streamId.value)
  }

  function KeyedRow(r: Row): Row {
    r.(dedupeKey := if Incidents.Terminal(r.status) then None else Some(GroupKey(r)))
  }

  function Reset(t: Table): Table {
    map id | id in t :: ResetRow(t[id])
  }

  ghost function Consolidated(t: Table): Table {
    map id | id in t :: if IsStale(t, id) then ClosedRow(t[id]) else t[id]
  }

  function Keyed(t: Table): Table {
    map id | id in t :: KeyedRow(t[id])
  }

  ghost function Migrated(t: Table): Table {
    Keyed(Consolidated(Reset(t)))
  }

  /** What CREATE UNIQUE INDEX demands: no two rows share a key that is not NULL. */
  ghost predicate UniqueKeys(t: Table) {
    forall a, b :: a in t && b in t && a != b && t[a].dedupeKey.Some? ==> t[a].dedupeKey != t[b].dedupeKey
  }

  // ---- Reading the table while it is updated ----

  ghost predicate IsTop(t: Table, top: string, id: string) {
    && id in t && IsActive(t, top) && !IsStale(t, top) && SameGroup(t[top], t[id])
    && (top == id || Newer(t, top, id))
  }

  /** Above every active row there is a row of its group that nothing supersedes. */
  lemma {:induction false} TopExists(t: Table, id: string) returns (top: string)
    requires IsActive(t, id)
    ensures IsTop(t, top, id)
    decreases |set n | n in t && Supersedes(t, n, id)|
  {
    if !IsStale(t, id) {
      top := id;
    } else {
      var n :| Supersedes(t, n, id);
      AboveShrinks(t, n, id);
      top := TopExists(t, n);
      if top != n {
        Recency.NewerTransitive(StampOf(t, top), StampOf(t, n), StampOf(t, id));
      }
    }
  }

  lemma AboveShrinks(t: Table, n: string, id: string)
    requires Supersedes(t, n, id)
    ensures |set m | m in t && Supersedes(t, m, n)| < |set m | m in t && Supersedes(t, m, id)|
  {
    var low, high := (set m | m in t && Supersedes(t, m, id)), (set m | m in t && Supersedes(t, m, n));
    forall m | m in high
      ensures m in low
    {
      Recency.NewerTransitive(StampOf(t, m), StampOf(t, n), StampOf(t, id));
    }
    Recency.NewerTotal(StampOf(t, n), StampOf(t, n));
    assert n in low && n !in high;
    assert high <= low - {n};
    Sums.CardSubset(high, low - {n});
  }

  /** Some stale rows of the table are closed already and nothing else has changed. */
  ghost predicate Between(t: Table, now: Table) {
    now.Keys == t.Keys && forall id :: id in t ==> now[id] == t[id] || (IsStale(t, id) && now[id] == ClosedRow(t[id]))
  }

  /** A row not yet closed is superseded in the half-updated table exactly when it was in the snapshot. */
  lemma StaleNow(t: Table, now: Table, id: string)
    requires Between(t, now) && id in t && now[id] == t[id]
    ensures IsStale(now, id) == IsStale(t, id)
  {
    if IsStale(t, id) {
      var top := TopExists(t, id);
      assert now[top] == t[top];
      assert Supersedes(now, top, id);
    }
    if IsStale(now, id) {
      var n :| Supersedes(now, n, id);
      assert now[n] == t[n];
      assert Supersedes(t, n, id);
    }
  }

  /** The row is as the snapshot reading leaves it. */
  ghost predicate Judged(t: Table, now: Table, id: string) {
    id in t && id in now ==> now[id] == if IsStale(t, id) then ClosedRow(t[id]) else t[id]
  }

  /** The table after one row has been judged by the table as it is. */
  ghost function JudgedNow(now: Table, id: string): Table {
    if IsStale(now, id) then now[id := ClosedRow(now[id])] else now
  }

  lemma JudgeRow(t: Table, now: Table, id: string)
    requires Between(t, now)
    ensures Between(t, JudgedNow(now, id)) && Judged(t, JudgedNow(now, id), id)
    ensures forall other :: Judged(t, now, other) ==> Judged(t, JudgedNow(now, id), other)
  {
    if id in t && now[id] == t[id] {
      StaleNow(t, now, id);
    }
  }

  class IncidentTable {
    var rows: Table

    constructor (rows: Table)
      ensures this.rows == rows
    {
      this.rows := rows;
    }

    /** The self-join update carried out one row at a time, each row judged by the table as it then is. Visiting the
        rows in any order, any of them more than once, gives what the snapshot reading gives. */
    method CloseDuplicates(order: seq<string>)
      requires forall id :: id in rows ==> id in order
      modifies this
      ensures rows == Consolidated(old(rows))
    {
      ghost var start := rows;
      for n := 0 to |order|
        invariant Between(start, rows)
        invariant forall i :: 0 <= i < n ==> Judged(start, rows, order[i])
      {
        var id := order[n];
        JudgeRow(start, rows, id);
        var superseded := id in rows && !Incidents.Terminal(rows[id].status) && exists newer | newer in rows :: Supersedes(rows, newer, id);
        assert superseded == IsStale(rows, id);
        if superseded {
          rows := rows[id := ClosedRow(rows[id])];
        }
      }
      forall id | id in start
        ensures rows[id] == Consolidated(start)[id]
      {
        assert Judged(start, rows, id);
      }
    }

    /** The whole migration; the answer says whether the unique index could be created. */
    method Migrate(order: seq<string>) returns (indexed: bool)
      requires forall id :: id in rows ==> id in order
      modifies this
      ensures rows == Migrated(old(rows))
      ensures indexed == UniqueKeys(rows)
    {
      rows := Reset(rows);
      CloseDuplicates(order);
      rows := Keyed(rows);
      indexed := forall a | a in rows :: forall b | b in rows :: a == b || rows[a].dedupeKey.None? || rows[a].dedupeKey != rows[b].dedupeKey;
    }
  }

  // ---- What the migration guarantees ----

  lemma ResetKeepsOrder(t: Table, a: string, b: string)
    ensures IsActive(Reset(t), a) == IsActive(t, a)
    ensures Supersedes(Reset(t), a, b) == Supersedes(t, a, b)
  {
  }

  lemma ResetKeepsStale(t: Table, id: string)
    ensures IsStale(Reset(t), id) == IsStale(t, id)
  {
    ResetKeepsOrder(t, id, id);
    if IsStale(t, id) {
      var n :| Supersedes(t, n, id);
      ResetKeepsOrder(t, n, id);
    }
    if IsStale(Reset(t), id) {
      var n :| Supersedes(Reset(t), n, id);
      ResetKeepsOrder(t, n, id);
    }
  }

  /** A row is active afterwards exactly when it was and no active row of its group is newer, and only such a row has a key. Of the other columns the
      occurrence count is raised to one and a missing last sighting filled in; a row that is closed here is resolved at its last update unless it had
      a time, by no signal, for the reason it had or the migration's. Nothing else changes. */
  lemma RowAfter(t: Table, id: string)
    requires id in t
    ensures Migrated(t).Keys == t.Keys
    ensures IsActive(Migrated(t), id) <==> IsActive(t, id) && forall n :: !Supersedes(t, n, id)
    ensures var was, r, closed := t[id], Migrated(t)[id], IsStale(t, id);
            && SameGroup(r, was) && r.severity == was.severity && r.summary == was.summary && r.signalId == was.signalId && r.report == was.report
            && r.openedAt == was.openedAt && r.updatedAt == was.updatedAt
            && r.occurrenceCount >= 1 && (was.occurrenceCount >= 1 ==> r.occurrenceCount == was.occurrenceCount)
            && (was.occurrenceCount < 1 ==> r.occurrenceCount == 1)
            && r.lastSeenAt == (if was.lastSeenAt == None then Some(was.updatedAt) else was.lastSeenAt)
            && r.status == (if closed then Incidents.Resolved else was.status)
            && r.resolvedAt == (if closed && was.resolvedAt == None then Some(was.updatedAt) else was.resolvedAt)
            && r.resolvedBySignalId == (if closed then None else was.resolvedBySignalId)
            && r.resolutionReason == (if closed && (was.resolutionReason == None || was.resolutionReason == Some("")) then Some(MIGRATION_REASON)
                                      else was.resolutionReason)
            && (r.dedupeKey == if IsActive(Migrated(t), id) then Some(GroupKey(was)) else None)
  {
    ResetKeepsStale(t, id);
  }

  /** Of the active rows of a group exactly one stays active: the one newest by update time, then identifier. */
  lemma OneSurvivor(t: Table, id: string) returns (top: string)
    requires IsActive(t, id)
    ensures IsActive(Migrated(t), top) && SameGroup(t[top], t[id])
    ensures forall a :: IsActive(t, a) && SameGroup(t[a], t[id]) && a != top ==>
                          t[top].updatedAt > t[a].updatedAt || (t[top].updatedAt == t[a].updatedAt && Text.Less(a, top))
    ensures forall a :: IsActive(Migrated(t), a) && SameGroup(t[a], t[id]) ==> a == top
  {
    top := TopExists(t, id);
    RowAfter(t, top);
    forall a | IsActive(t, a) && SameGroup(t[a], t[id]) && a != top
      ensures Newer(t, top, a)
      ensures !IsActive(Migrated(t), a)
    {
      Recency.NewerTotal(StampOf(t, top), StampOf(t, a));
      assert Newer(t, a, top) ==> Supersedes(t, a, top);
      assert Supersedes(t, top, a);
      RowAfter(t, a);
    }
    forall a | IsActive(Migrated(t), a)
      ensures IsActive(t, a)
    {
      RowAfter(t, a);
    }
  }

  /** Two active rows of one rule and service, one without a stream and one with the empty stream. */
  ghost predicate Clash(t: Table, a: string, b: string) {
    && IsActive(t, a) && IsActive(t, b) && t[a].rule == t[b].rule && t[a].serviceId == t[b].serviceId
    && t[a].streamId == None && t[b].streamId == Some("")
  }

  ghost predicate NulFreeTable(t: Table) {
    forall id :: id in t ==> Incidents.NulFree(t[id].rule) && Incidents.NulFree(t[id].serviceId)
  }

  lemma SameKey(a: Row, b: Row)
    requires Incidents.NulFree(a.rule) && Incidents.NulFree(a.serviceId) && Incidents.NulFree(b.rule) && Incidents.NulFree(b.serviceId)
    requires GroupKey(a) == GroupKey(b)
    ensures a.rule == b.rule && a.serviceId == b.serviceId
    ensures a.streamId == b.streamId || (a.streamId == None && b.streamId == Some("")) || (a.streamId == Some("") && b.streamId == None)
  {
    Incidents.KeyInjective(a.rule, a.serviceId, if a.streamId.None? then "" else a.streamId.value,
                           b.rule, b.serviceId, if b.streamId.None? then "" else b.streamId.value);
  }

  /** The index can be created exactly when no rule and service had active rows under both the missing
      and the empty stream: the duplicate test keeps those two apart, the key does not. */
  lemma IndexableIff(t: Table)
    requires NulFreeTable(t)
    ensures UniqueKeys(Migrated(t)) <==> forall a, b :: !Clash(t, a, b)
  {
    var m := Migrated(t);
    if a, b :| Clash(t, a, b) {
      ClashCollides(t, a, b);
    } else {
      forall a, b | a in m && b in m && a != b && m[a].dedupeKey.Some?
        ensures m[a].dedupeKey != m[b].dedupeKey
      {
        Distinct(t, a, b);
      }
    }
  }

  lemma ClashCollides(t: Table, a: string, b: string)
    requires Clash(t, a, b)
    ensures !UniqueKeys(Migrated(t))
  {
    var m := Migrated(t);
    var x := OneSurvivor(t, a);
    var y := OneSurvivor(t, b);
    RowAfter(t, x);
    RowAfter(t, y);
    assert x != y && m[x].dedupeKey.Some? && m[x].dedupeKey == m[y].dedupeKey;
  }

  lemma Distinct(t: Table, a: string, b: string)
    requires NulFreeTable(t) && a in t && b in t && a != b && !Clash(t, a, b) && !Clash(t, b, a)
    ensures var m := Migrated(t);
            m[a].dedupeKey.Some? ==> m[a].dedupeKey != m[b].dedupeKey
  {
    var m := Migrated(t);
    RowAfter(t, a);
    RowAfter(t, b);
    Recency.NewerTotal(StampOf(t, a), StampOf(t, b));
    if GroupKey(t[a]) == GroupKey(t[b]) {
      SameKey(t[a], t[b]);
      assert IsActive(t, a) && IsActive(t, b) ==> Supersedes(t, a, b) || Supersedes(t, b, a);
    }
  }

  /** A table on which the index creation does fail. */
  lemma ClashExample(r: Row)
    requires !Incidents.Terminal(r.status)
    ensures !UniqueKeys(Migrated(map["a" := r.(streamId := None), "b" := r.(streamId := Some(""))]))
  {
    ClashCollides(map["a" := r.(streamId := None), "b" := r.(streamId := Some(""))], "a", "b");
  }

  /** A row that is not stale is only reset and given its key. */
  lemma FreshRow(t: Table, id: string)
    requires id in t && !IsStale(t, id)
    ensures id in Migrated(t) && Migrated(t)[id] == KeyedRow(ResetRow(t[id]))
  {
    ResetKeepsStale(t, id);
  }

  lemma SettledRow(t: Table, id: string)
    requires id in t
    ensures id in Migrated(t) && KeyedRow(ResetRow(Migrated(t)[id])) == Migrated(t)[id]
  {
    ResetKeepsStale(t, id);
  }

  /** Migrating a second time changes nothing. */
  lemma MigratedTwice(t: Table)
    ensures Migrated(Migrated(t)) == Migrated(t)
  {
    var m := Migrated(t);
    forall id | id in m
      ensures id in Migrated(m) && Migrated(m)[id] == m[id]
    {
      NothingStale(t, id);
      FreshRow(m, id);
      SettledRow(t, id);
    }
  }

  lemma NothingStale(t: Table, id: string)
    requires id in t
    ensures !IsStale(Migrated(t), id)
  {
    var m := Migrated(t);
    if IsStale(m, id) {
      var n :| Supersedes(m, n, id);
      RowAfter(t, id);
      RowAfter(t, n);
      assert Supersedes(t, n, id);
      assert false;
    }
  }
}
