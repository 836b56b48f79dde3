/** What the lifecycle migration leaves is a table that the transactions may start from. */
module MigratedStart {
  import opened Wrap
  import opened IncidentMigration
  import Incidents
  import MariaIncidents
  import MariaProofs
  import Text

  function OrEmpty(s: Option<string>): string {
    if s.Some? then s.value else ""
  }

  /** A row as the store reads it: missing texts are empty, and a missing last sighting is the last update. */
  function LoadedRow(id: string, r: Row): MariaIncidents.Row {
    MariaIncidents.Row(
      Incidents.Incident(
        id, r.rule, r.serviceId, OrEmpty(r.streamId), r.severity, r.status, r.summary, r.signalId, r.report, r.openedAt, r.updatedAt,
        r.resolvedAt, r.occurrenceCount, if r.lastSeenAt.Some? then r.lastSeenAt.value else r.updatedAt,
        OrEmpty(r.resolvedBySignalId), OrEmpty(r.resolutionReason)),
      r.dedupeKey)
  }

  function Loaded(t: Table): MariaIncidents.Table {
    map id | id in t :: LoadedRow(id, t[id])
  }

  /** What earlier releases wrote: listed statuses, a resolution time on terminal rows only, identities without white space
      around them or NUL in them. */
  ghost predicate WrittenByStore(id: string, r: Row) {
    && Text.Trimmed(id) && Text.Trimmed(r.rule) && Text.Trimmed(r.serviceId) && Text.Trimmed(OrEmpty(r.streamId))
    && Incidents.NulFree(r.rule) && Incidents.NulFree(r.serviceId)
    && Incidents.ValidStatus(r.status) && (Incidents.Terminal(r.status) <==> r.resolvedAt.Some?)
    && (!Incidents.Terminal(r.status) ==> OrEmpty(r.resolvedBySignalId) == "")
  }

  lemma LoadedKey(id: string, r: Row)
    requires WrittenByStore(id, r)
    ensures MariaIncidents.RowKey(LoadedRow(id, r).incident) == GroupKey(r)
  {
    Text.TrimSpaceLaws(r.rule);
    Text.TrimSpaceLaws(r.serviceId);
    Text.TrimSpaceLaws(OrEmpty(r.streamId));
  }

  lemma RowLoads(t: Table, id: string)
    requires id in t && WrittenByStore(id, t[id])
    ensures MariaProofs.RowOk(id, LoadedRow(id, Migrated(t)[id]))
  {
    RowAfter(t, id);
    LoadedKey(id, t[id]);
  }

  /** Wherever the migration can create its index, its outcome is a sound starting table. */
  lemma MigratedIsSound(t: Table)
    requires forall id :: id in t ==> WrittenByStore(id, t[id])
    requires forall a, b :: !Clash(t, a, b)
    ensures MariaProofs.RowsSound(Loaded(Migrated(t)))
  {
    var rows := Loaded(Migrated(t));
    IndexableIff(t);
    forall id | id in rows
      ensures MariaProofs.RowOk(id, rows[id])
    {
      RowLoads(t, id);
    }
    forall a, b | a in rows && b in rows && rows[a].dedupeKey.Some? && rows[a].dedupeKey == rows[b].dedupeKey
      ensures a == b
    {
      assert Migrated(t)[a].dedupeKey == rows[a].dedupeKey && Migrated(t)[b].dedupeKey == rows[b].dedupeKey;
    }
  }
}
