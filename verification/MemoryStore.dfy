/** The in-memory store: the incident rows plus an index from key to the active row. Each
    mutex-held body is one method; the clock and the identifier generator are parameters. */
module MemoryStores {
  import opened Wrap
  import opened Incidents
  import IncidentRuns
  import Text

  datatype StatusOutcome = Updated(incident: Incident, statusChanged: bool) | InvalidStatus | InvalidTransition | NotFound

  datatype DiagnosticOutcome = Diagnosed(incident: Incident, updated: bool) | DiagnosticNotFound

  /** The index holds exactly the active rows, each under its own key. */
  ghost predicate IndexExact(rows: Rows, index: map<string, string>) {
    && (forall key :: key in index ==> Active(rows, key, index[key]))
    && (forall key, id :: Active(rows, key, id) ==> key in index && index[key] == id)
  }

  /** Looking a key up in an exact index gives what scanning the rows gives. */
  lemma IndexIsScan(rows: Rows, index: map<string, string>, key: string)
    requires IndexExact(rows, index)
    ensures ActiveId(rows, key) == if key in index then Some(index[key]) else None
    ensures UniqueActive(rows)
  {
  }

  /** Writing a row that stays active under an indexed or unused key keeps the index exact. */
  lemma IndexAfterOpenWrite(rows: Rows, index: map<string, string>, id: string, row: Incident)
    requires IndexExact(rows, index)
    requires !Terminal(row.status)
    requires if id in rows then Active(rows, KeyOf(row), id) else KeyOf(row) !in index
    ensures IndexExact(rows[id := row], index[KeyOf(row) := id])
  {
    var next := rows[id := row];
    assert forall key, a :: Active(next, key, a) && a != id ==> Active(rows, key, a);
    assert forall key :: key in index && index[key] != id ==> Active(next, key, index[key]);
  }

  /** Closing a row removes its own entry and no other. */
  lemma IndexAfterClose(rows: Rows, index: map<string, string>, id: string, row: Incident)
    requires IndexExact(rows, index)
    requires Active(rows, KeyOf(row), id) && Terminal(row.status)
    ensures IndexExact(rows[id := row], index - {KeyOf(row)})
  {
    var next := rows[id := row];
    assert forall key, a :: Active(next, key, a) ==> a != id && Active(rows, key, a);
    assert forall key :: key in index && index[key] != id ==> Active(next, key, index[key]);
  }

  /** A row that was active before and is stored as this terminal row after. */
  predicate ClosedBetween(before: Rows, after: Rows, r: Incident) {
    && r.id in before && !Terminal(before[r.id].status)
    && r.id in after && after[r.id] == r && Terminal(r.status)
  }

  /** The list names exactly the rows that changed, and each of them was closed. */
  ghost predicate Reported(before: Rows, after: Rows, resolved: seq<Incident>) {
    && after.Keys == before.Keys
    && (forall r :: r in resolved ==> ClosedBetween(before, after, r))
    && (forall id :: id in after && after[id] != before[id] ==> after[id] in resolved)
  }

  lemma ReportedStep(before: Rows, mid: Rows, resolved: seq<Incident>, closed: Incident)
    requires RowsWellFormed(mid) && Reported(before, mid, resolved)
    requires ClosedBetween(mid, mid[closed.id := closed], closed)
    ensures Reported(before, mid[closed.id := closed], resolved + [closed])
  {
    var after := mid[closed.id := closed];
    assert forall r :: r in resolved ==> r.id != closed.id && ClosedBetween(before, after, r);
    assert closed in resolved + [closed];
  }

  /** What an upsert does, told through the index. */
  lemma UpsertByIndex(rows: Rows, index: map<string, string>, d: Detected, newId: string, now: int)
    requires TableOk(rows) && IndexExact(rows, index) && newId !in rows
    ensures var key, next := DetectedKey(d), UpsertRows(rows, d, newId, now);
            && TableOk(next)
            && Landing(rows, d, newId) == (if key in index then index[key] else newId)
            && ((forall id :: !Active(rows, key, id)) <==> key !in index)
            && if key in index then
                 && Active(rows, key, index[key]) && rows[index[key]].id == index[key]
                 && next == rows[index[key] := Bump(rows[index[key]], d, now)]
                 && IndexExact(next, index)
               else
                 && next == rows[newId := NewRow(d, newId, now)]
                 && IndexExact(next, index[key := newId])
  {
    var key := DetectedKey(d);
    IncidentRuns.StepSound(rows, IncidentRuns.Upsert(d, newId, now));
    IndexIsScan(rows, index, key);
    if key in index {
      IndexAfterOpenWrite(rows, index, index[key], Bump(rows[index[key]], d, now));
      assert index[key := index[key]] == index;
    } else {
      IndexAfterOpenWrite(rows, index, newId, NewRow(d, newId, now));
    }
  }

  /** What resolving one rule does, told through the index. */
  lemma ResolveByIndex(rows: Rows, index: map<string, string>, key: string, signalId: string, reason: string, now: int)
    requires TableOk(rows) && IndexExact(rows, index)
    ensures var next := ResolveOne(rows, key, signalId, reason, now);
            && TableOk(next)
            && if key in index then
                 && Active(rows, key, index[key]) && rows[index[key]].id == index[key]
                 && next == rows[index[key] := ResolvedRow(rows[index[key]], signalId, reason, now)]
                 && IndexExact(next, index - {key})
               else next == rows
  {
    IncidentRuns.ResolveOneSound(rows, key, signalId, reason, now);
    IndexIsScan(rows, index, key);
    if key in index {
      IndexAfterClose(rows, index, index[key], ResolvedRow(rows[index[key]], signalId, reason, now));
    }
  }

  method UniqueNonEmptyStrings(values: seq<string>) returns (out: seq<string>)
    ensures out == UniqueNonEmpty(values)
  {
    out := [];
    var seen: set<string> := {};
    for i := 0 to |values|
      invariant out == UniqueNonEmpty(values[..i])
      invariant forall v :: v in seen <==> v in out
    {
      assert values[..i + 1][..i] == values[..i];
      var value := Text.TrimSpace(values[i]);
      if value == "" {
        continue;
      }
      if value in seen {
        continue;
      }
      seen := seen + {value};
      out := out + [value];
    }
    assert values[..|values|] == values;
  }

  class MemoryStore {
    var incidents: Rows
    var activeIncidents: map<string, string>

    ghost predicate Valid()
      reads this
    {
      TableOk(incidents) && IndexExact(incidents, activeIncidents)
    }

    constructor ()
      ensures Valid() && incidents == map[]
    {
      incidents, activeIncidents := map[], map[];
    }

    method UpsertIncident(d: Detected, newId: string, now: int)
      returns (stored: Incident, created: bool, severityChanged: bool)
      requires Valid()
      requires newId !in incidents
      modifies this
      ensures Valid()
      ensures incidents == UpsertRows(old(incidents), d, newId, now)
      ensures stored.id == Landing(old(incidents), d, newId) && stored == incidents[stored.id]
      ensures created <==> forall id :: !Active(old(incidents), DetectedKey(d), id)
      ensures severityChanged <==> !created && MoreSevere(d.severity, old(incidents)[stored.id].severity)
      ensures stored.severity == if created || severityChanged then d.severity else old(incidents)[stored.id].severity
      ensures stored.signalId == d.signalId && stored.summary == d.summary && stored.report == d.report
    {
      UpsertByIndex(incidents, activeIncidents, d, newId, now);
      var key := DetectedKey(d);
      if key in activeIncidents {
        var activeId := activeIncidents[key];
        if activeId !in incidents || Terminal(incidents[activeId].status) {
          assert false;  // index entries are always active, so no stale entry is ever dropped here
        } else {
          var existing := incidents[activeId];
          severityChanged := Rank(d.severity) > Rank(existing.severity);
          RankOrder(d.severity, existing.severity);
          if severityChanged {
            existing := existing.(severity := d.severity);
          }
          existing := existing.(signalId := d.signalId, summary := d.summary, report := d.report,
          updatedAt := now, lastSeenAt := now, occurrenceCount := existing.occurrenceCount + 1);
          incidents := incidents[existing.id := existing];
          return existing, false, severityChanged;
        }
      }
      stored := NewRow(d, newId, now);
      incidents := incidents[stored.id := stored];
      activeIncidents := activeIncidents[key := stored.id];
      created, severityChanged := true, false;
    }

    method UpdateIncidentStatus(id: string, status: Status, now: int) returns (outcome: StatusOutcome)
      requires Valid()
      modifies this
      ensures Valid()
      ensures incidents == SetStatusRows(old(incidents), id, status, now)
      ensures outcome.InvalidStatus? <==> !ValidStatus(status)
      ensures outcome.NotFound? <==> ValidStatus(status) && id !in old(incidents)
      ensures outcome.InvalidTransition? <==>
              ValidStatus(status) && id in old(incidents) && !CanTransition(old(incidents)[id].status, status)
      ensures outcome.Updated? ==> outcome.incident == incidents[id]
                                   && (outcome.statusChanged <==> StatusMoves(old(incidents), id, status))
    {
      IncidentRuns.StepSound(incidents, IncidentRuns.SetStatus(id, status, now));
      if !ValidStatus(status) {
        return InvalidStatus;
      }
      if id !in incidents {
        return NotFound;
      }
      var incident := incidents[id];
      if incident.status == status {
        return Updated(incident, false);
      }
      if !CanTransition(incident.status, status) {
        return InvalidTransition;
      }
      assert Active(incidents, KeyOf(incident), id);
      incident := incident.(status := status, updatedAt := now);
      if Terminal(status) {
        incident := incident.(resolvedAt := Some(now), resolutionReason := "manual");
        IndexAfterClose(incidents, activeIncidents, id, incident);
        activeIncidents := activeIncidents - {KeyOf(incident)};
      } else {
        incident := incident.(resolvedAt := None, resolvedBySignalId := "", resolutionReason := "");
        IndexAfterOpenWrite(incidents, activeIncidents, id, incident);
        assert activeIncidents[KeyOf(incident) := id] == activeIncidents;
      }
      incidents := incidents[id := incident];
      return Updated(incident, true);
    }

    /** The loop body of ResolveActiveIncidents. */
    method ResolveKey(key: string, signalId: string, reason: string, now: int) returns (closed: Option<Incident>)
      requires Valid()
      modifies this
      ensures Valid()
      ensures incidents == ResolveOne(old(incidents), key, signalId, reason, now)
      ensures closed.None? ==> incidents == old(incidents)
      ensures closed.Some? ==> incidents == old(incidents)[closed.value.id := closed.value]
                               && ClosedBetween(old(incidents), incidents, closed.value)
    {
      ResolveByIndex(incidents, activeIncidents, key, signalId, reason, now);
      if key !in activeIncidents {
        return None;
      }
      var id := activeIncidents[key];
      if id !in incidents || Terminal(incidents[id].status) {
        assert false;  // index entries are always active
      }
      var incident := incidents[id];
      incident := incident.(status := Resolved, updatedAt := now, resolvedAt := Some(now),
      resolvedBySignalId := Text.TrimSpace(signalId), resolutionReason := Text.TrimSpace(reason));
      incidents := incidents[id := incident];
      activeIncidents := activeIncidents - {key};
      return Some(incident);
    }

    method ResolveActiveIncidents(rules: seq<string>, serviceId: string, streamId: string,
                                  signalId: string, reason: string, now: int)
      returns (resolved: seq<Incident>)
      requires Valid()
      modifies this
      ensures Valid()
      ensures incidents == ResolveRows(old(incidents), UniqueNonEmpty(rules), serviceId, streamId, signalId, reason, now)
      ensures Reported(old(incidents), incidents, resolved)
    {
      var unique := UniqueNonEmptyStrings(rules);
      resolved := [];
      for n := 0 to |unique|
        invariant Valid()
        invariant incidents == ResolveRows(old(incidents), unique[..n], serviceId, streamId, signalId, reason, now)
        invariant Reported(old(incidents), incidents, resolved)
      {
        assert unique[..n + 1][..n] == unique[..n];
        ghost var was := incidents;
        var closed := ResolveKey(Key(unique[n], serviceId, streamId), signalId, reason, now);
        if closed.Some? {
          ReportedStep(old(incidents), was, resolved, closed.value);
          resolved := resolved + [closed.value];
        }
      }
      assert unique[..|unique|] == unique;
    }

    method UpdateIncidentDiagnostic(id: string, expectedSignalId: string, report: string, now: int)
      returns (outcome: DiagnosticOutcome)
      requires Valid()
      modifies this
      ensures Valid()
      ensures incidents == DiagnoseRows(old(incidents), id, expectedSignalId, report, now)
      ensures outcome.Diagnosed? ==> outcome.incident.id in incidents && outcome.incident == incidents[outcome.incident.id]
                                     && (outcome.updated <==> Diagnoses(old(incidents), id, expectedSignalId))
      ensures outcome.DiagnosticNotFound? <==>
              Text.TrimSpace(id) == "" || Text.TrimSpace(expectedSignalId) == "" || Text.TrimSpace(id) !in old(incidents)
    {
      IncidentRuns.StepSound(incidents, IncidentRuns.Diagnose(id, expectedSignalId, report, now));
      var id', expected := Text.TrimSpace(id), Text.TrimSpace(expectedSignalId);
      if id' == "" || expected == "" || id' !in incidents {
        return DiagnosticNotFound;
      }
      var incident := incidents[id'];
      if incident.signalId != expected {
        return Diagnosed(incident, false);
      }
      incident := incident.(report := report, updatedAt := now);
      ghost var was := incidents;
      incidents := incidents[id' := incident];
      assert forall key, a :: Active(incidents, key, a) <==> Active(was, key, a);
      return Diagnosed(incident, true);
    }
  }
}
