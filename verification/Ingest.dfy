/** Storing what a signal means: recoveries close incidents first, then the detected one is upserted. */
module Ingest {
  import opened Wrap
  import opened Incidents
  import opened Detection
  import opened MemoryStores
  import Text

  /** The identity of a stored signal, next to what the rules see of it. */
  datatype StoredSignal = StoredSignal(id: string, serviceId: string, streamId: string, seen: Signal)

  function RuleKey(signal: StoredSignal, rule: Rule): string {
    Key(RuleName(rule), signal.serviceId, signal.streamId)
  }

  /** Keys with the same service and stream differ when their rules do. */
  lemma KeyNamesRule(a: string, b: string, serviceId: string, streamId: string)
    requires Key(a, serviceId, streamId) == Key(b, serviceId, streamId)
    ensures a == b
  {
    var tail := "\0" + serviceId + "\0" + streamId;
    assert Key(a, serviceId, streamId) == a + tail && Key(b, serviceId, streamId) == b + tail;
    assert |a| == |b|;
    assert a == (a + tail)[..|a|] == (b + tail)[..|b|] == b;
  }

  lemma RuleKeyInjective(signal: StoredSignal, a: Rule, b: Rule)
    requires RuleKey(signal, a) == RuleKey(signal, b)
    ensures a == b
  {
    KeyNamesRule(RuleName(a), RuleName(b), signal.serviceId, signal.streamId);
    RuleNameInjective(a, b);
  }

  lemma RuleNameTidy(rule: Rule)
    ensures RuleName(rule) != "" && Text.Trimmed(RuleName(rule)) && Text.TrimSpace(RuleName(rule)) == RuleName(rule)
  {
    SignatureOfName(rule);
    SignatureTidy(rule);
    Text.TrimSpaceLaws(RuleName(rule));
  }

  lemma SignatureTidy(rule: Rule)
    ensures !Text.IsSpace(Signature(rule).1) && !Text.IsSpace(Signature(rule).2)
  {
  }

  // ---- Closing what recovered ----

  /** The row was resolved by the signal for a reason, and nothing else about it changed. */
  predicate ClosedBy(was: Incident, row: Incident, signal: StoredSignal, reason: Reason) {
    && row.status == Resolved && row.resolvedBySignalId == Text.TrimSpace(signal.id) && row.resolutionReason == Text.TrimSpace(ReasonName(reason))
    && row.resolvedAt == Some(row.updatedAt)
    && row == was.(status := row.status, resolvedBySignalId := row.resolvedBySignalId, resolutionReason := row.resolutionReason,
               resolvedAt := row.resolvedAt, updatedAt := row.updatedAt)
  }

  /** The first reason a list of recoveries gives for a key. */
  function ReasonFor(signal: StoredSignal, recoveries: seq<Recovery>, key: string): Option<Reason> {
    if recoveries == [] then None
    else
      var init, last := recoveries[..|recoveries| - 1], recoveries[|recoveries| - 1];
      if ReasonFor(signal, init, key).Some? then ReasonFor(signal, init, key)
      else if RuleKey(signal, last.rule) == key then Some(last.reason)
      else None
  }

  /** An active row under a recovered key is closed for that key's reason; every other row is as it was. */
  predicate RowClosed(was: Incident, row: Incident, signal: StoredSignal, recoveries: seq<Recovery>) {
    var reason := ReasonFor(signal, recoveries, KeyOf(was));
    if Terminal(was.status) || reason.None? then row == was else ClosedBy(was, row, signal, reason.value)
  }

  ghost predicate Closed(before: Rows, after: Rows, signal: StoredSignal, recoveries: seq<Recovery>) {
    after.Keys == before.Keys && forall id :: id in before ==> RowClosed(before[id], after[id], signal, recoveries)
  }

  lemma ReasonForSnoc(signal: StoredSignal, recoveries: seq<Recovery>, n: nat, key: string)
    requires n < |recoveries|
    ensures var was := ReasonFor(signal, recoveries[..n], key);
            ReasonFor(signal, recoveries[..n + 1], key)
              == if was.Some? then was else if RuleKey(signal, recoveries[n].rule) == key then Some(recoveries[n].reason) else None
  {
    assert recoveries[..n + 1][..n] == recoveries[..n];
  }

  lemma ClosedStep(before: Rows, mid: Rows, signal: StoredSignal, recoveries: seq<Recovery>, n: nat, now: int)
    requires n < |recoveries| && TableOk(mid) && Closed(before, mid, signal, recoveries[..n])
    ensures var after := ResolveOne(mid, RuleKey(signal, recoveries[n].rule), signal.id, ReasonName(recoveries[n].reason), now);
            Closed(before, after, signal, recoveries[..n + 1])
  {
    var key, reason := RuleKey(signal, recoveries[n].rule), recoveries[n].reason;
    var after := ResolveOne(mid, key, signal.id, ReasonName(reason), now);
    forall id | id in before
      ensures RowClosed(before[id], after[id], signal, recoveries[..n + 1])
    {
      ReasonForSnoc(signal, recoveries, n, KeyOf(before[id]));
      assert RowClosed(before[id], mid[id], signal, recoveries[..n]);
      assert Active(mid, key, id) ==> ActiveId(mid, key) == Some(id);
    }
  }

  lemma ResolveOneRule(rows: Rows, rule: Rule, signal: StoredSignal, reason: string, now: int)
    ensures ResolveRows(rows, UniqueNonEmpty([RuleName(rule)]), signal.serviceId, signal.streamId, signal.id, reason, now)
            == ResolveOne(rows, RuleKey(signal, rule), signal.id, reason, now)
  {
    RuleNameTidy(rule);
    var name := RuleName(rule);
    assert [name][..0] == [];
    assert UniqueNonEmpty([name][..0]) == [];
    assert UniqueNonEmpty([name]) == [name];
    assert ResolveRows(rows, [], signal.serviceId, signal.streamId, signal.id, reason, now) == rows;
  }

  /** The recovery loop. */
  method CloseRecovered(store: MemoryStore, signal: StoredSignal, recoveries: seq<Recovery>)
    requires store.Valid()
    modifies store
    ensures store.Valid()
    ensures Closed(old(store.incidents), store.incidents, signal, recoveries)
  {
    for n := 0 to |recoveries|
      invariant store.Valid()
      invariant Closed(old(store.incidents), store.incidents, signal, recoveries[..n])
    {
      var now: int := *;
      var rule, reason := recoveries[n].rule, ReasonName(recoveries[n].reason);
      ClosedStep(old(store.incidents), store.incidents, signal, recoveries, n, now);
      ResolveOneRule(store.incidents, rule, signal, reason, now);
      var resolved := store.ResolveActiveIncidents([RuleName(rule)], signal.serviceId, signal.streamId, signal.id, reason, now);
    }
    assert recoveries[..|recoveries|] == recoveries;
  }

  // ---- What a signal does to the table ----

  /** The keys a signal heals. */
  ghost predicate Recovers(signal: StoredSignal, cfg: Thresholds, key: string) {
    exists rule :: Healed(Read(signal.seen), cfg, rule).Some? && key == RuleKey(signal, rule)
  }

  ghost predicate Detects(signal: StoredSignal, cfg: Thresholds, key: string) {
    Meaning(Read(signal.seen), cfg).Some? && key == RuleKey(signal, Meaning(Read(signal.seen), cfg).value.rule)
  }

  lemma {:induction false} ReasonListed(signal: StoredSignal, recoveries: seq<Recovery>, rule: Rule)
    requires Distinct(recoveries)
    ensures ReasonFor(signal, recoveries, RuleKey(signal, rule)) == Listed(recoveries, rule)
  {
    if recoveries != [] {
      var init, last := recoveries[..|recoveries| - 1], recoveries[|recoveries| - 1].rule;
      ReasonListed(signal, init, rule);
      if last == rule {
        ListedNowhere(init, rule);
      } else if RuleKey(signal, last) == RuleKey(signal, rule) {
        RuleKeyInjective(signal, last, rule);
      }
    }
  }

  lemma {:induction false} ReasonNamesRule(signal: StoredSignal, recoveries: seq<Recovery>, key: string) returns (rule: Rule)
    requires ReasonFor(signal, recoveries, key).Some?
    ensures key == RuleKey(signal, rule)
  {
    var init := recoveries[..|recoveries| - 1];
    if ReasonFor(signal, init, key).Some? {
      rule := ReasonNamesRule(signal, init, key);
    } else {
      rule := recoveries[|recoveries| - 1].rule;
    }
  }

  /** The reason given for a key is the one for which the signal heals its rule. */
  lemma ReasonIsHealed(signal: StoredSignal, cfg: Thresholds, recoveries: seq<Recovery>, key: string)
    requires Distinct(recoveries) && forall q :: Listed(recoveries, q) == Healed(Read(signal.seen), cfg, q)
    ensures ReasonFor(signal, recoveries, key).Some? <==> Recovers(signal, cfg, key)
    ensures forall rule :: key == RuleKey(signal, rule) ==> ReasonFor(signal, recoveries, key) == Healed(Read(signal.seen), cfg, rule)
  {
    forall rule | key == RuleKey(signal, rule)
      ensures ReasonFor(signal, recoveries, key) == Healed(Read(signal.seen), cfg, rule)
    {
      ReasonListed(signal, recoveries, rule);
    }
    if ReasonFor(signal, recoveries, key).Some? {
      var rule := ReasonNamesRule(signal, recoveries, key);
      assert Healed(Read(signal.seen), cfg, rule).Some?;
    }
  }

  lemma DetectedNotRecovered(signal: StoredSignal, cfg: Thresholds, key: string)
    requires Detects(signal, cfg, key)
    ensures !Recovers(signal, cfg, key)
  {
    DetectExcludesRecovery(Read(signal.seen), cfg);
    forall rule | key == RuleKey(signal, rule)
      ensures Healed(Read(signal.seen), cfg, rule).None?
    {
      RuleKeyInjective(signal, rule, Meaning(Read(signal.seen), cfg).value.rule);
    }
  }

  /** The row of an incident that is detected again: one more occurrence, told by this signal, at the worse of the two severities. */
  predicate SeenAgain(was: Incident, row: Incident, signal: StoredSignal, severity: Severity, summary: string, report: string) {
    && row.occurrenceCount == was.occurrenceCount + 1 && row.lastSeenAt == row.updatedAt
    && row.signalId == signal.id && row.summary == summary && row.report == report
    && row.severity == (if MoreSevere(severity, was.severity) then severity else was.severity)
    && row == was.(occurrenceCount := row.occurrenceCount, lastSeenAt := row.lastSeenAt, updatedAt := row.updatedAt, signalId := row.signalId,
               summary := row.summary, report := row.report, severity := row.severity)
  }

  /** The row of an incident that is detected for the first time. */
  predicate OpenedFor(row: Incident, signal: StoredSignal, found: Found, summary: string, report: string) {
    && row.rule == RuleName(found.rule) && row.serviceId == signal.serviceId && row.streamId == signal.streamId
    && row.severity == found.severity && row.status == Open && row.signalId == signal.id && row.summary == summary && row.report == report
    && row.occurrenceCount == 1 && row.openedAt == row.updatedAt == row.lastSeenAt
    && row.resolvedAt == None && row.resolvedBySignalId == row.resolutionReason == ""
  }

  /** What ingesting does to a row that was there: the active row of the detected rule is seen again, the active row of a
      rule the signal heals is closed for that reason, and every other row stays as it was. */
  ghost predicate RowIngested(signal: StoredSignal, cfg: Thresholds, summary: string, report: string, was: Incident, row: Incident) {
    var key := KeyOf(was);
    if Terminal(was.status) then row == was
    else if Detects(signal, cfg, key) then SeenAgain(was, row, signal, Meaning(Read(signal.seen), cfg).value.severity, summary, report)
    else if Recovers(signal, cfg, key) then
      exists rule :: key == RuleKey(signal, rule) && Healed(Read(signal.seen), cfg, rule).Some?
                     && ClosedBy(was, row, signal, Healed(Read(signal.seen), cfg, rule).value)
    else row == was
  }

  /** What ingesting does to the table: the rows that were there as above, and one new row exactly if a rule is detected
      that had no active row. */
  ghost predicate TableIngested(signal: StoredSignal, cfg: Thresholds, newId: string, summary: string, report: string, before: Rows, after: Rows) {
    var found := Meaning(Read(signal.seen), cfg);
    var opens := found.Some? && forall id :: !Active(before, RuleKey(signal, found.value.rule), id);
    && after.Keys == (if opens then before.Keys + {newId} else before.Keys)
    && (opens ==> after[newId].id == newId && OpenedFor(after[newId], signal, found.value, summary, report))
    && (forall id :: id in before ==> RowIngested(signal, cfg, summary, report, before[id], after[id]))
  }

  lemma RowHealed(signal: StoredSignal, cfg: Thresholds, summary: string, report: string, recoveries: seq<Recovery>, was: Incident, row: Incident)
    requires Distinct(recoveries) && forall q :: Listed(recoveries, q) == Healed(Read(signal.seen), cfg, q)
    requires RowClosed(was, row, signal, recoveries)
    ensures !Detects(signal, cfg, KeyOf(was)) ==> RowIngested(signal, cfg, summary, report, was, row)
    ensures Detects(signal, cfg, KeyOf(was)) ==> row == was
  {
    var key := KeyOf(was);
    ReasonIsHealed(signal, cfg, recoveries, key);
    if Detects(signal, cfg, key) {
      DetectedNotRecovered(signal, cfg, key);
    } else if Recovers(signal, cfg, key) {
      var rule :| Healed(Read(signal.seen), cfg, rule).Some? && key == RuleKey(signal, rule);
    }
  }

  lemma NothingDetected(signal: StoredSignal, cfg: Thresholds, newId: string, summary: string, report: string, recoveries: seq<Recovery>,
                        before: Rows, mid: Rows)
    requires Distinct(recoveries) && forall q :: Listed(recoveries, q) == Healed(Read(signal.seen), cfg, q)
    requires Closed(before, mid, signal, recoveries) && Meaning(Read(signal.seen), cfg).None?
    ensures TableIngested(signal, cfg, newId, summary, report, before, mid)
  {
    forall id | id in before
      ensures RowIngested(signal, cfg, summary, report, before[id], mid[id])
    {
      RowHealed(signal, cfg, summary, report, recoveries, before[id], mid[id]);
    }
  }

  function DetectedFor(signal: StoredSignal, found: Found, summary: string, report: string): Detected {
    Detected(RuleName(found.rule), signal.serviceId, signal.streamId, found.severity, summary, signal.id, report)
  }

  /** Closing other keys first leaves the detected key's active row, if any, where it was. */
  lemma DetectedRowStays(signal: StoredSignal, cfg: Thresholds, recoveries: seq<Recovery>, before: Rows, mid: Rows, key: string, id: string)
    requires Distinct(recoveries) && forall q :: Listed(recoveries, q) == Healed(Read(signal.seen), cfg, q)
    requires Closed(before, mid, signal, recoveries) && Detects(signal, cfg, key)
    ensures Active(before, key, id) <==> Active(mid, key, id)
  {
    if id in before {
      assert RowClosed(before[id], mid[id], signal, recoveries);
      RowHealed(signal, cfg, "", "", recoveries, before[id], mid[id]);
    }
  }

  lemma BumpedIsSeenAgain(was: Incident, signal: StoredSignal, found: Found, summary: string, report: string, now: int)
    ensures SeenAgain(was, Bump(was, DetectedFor(signal, found, summary, report), now), signal, found.severity, summary, report)
  {
    RankOrder(found.severity, was.severity);
  }

  /** What an upsert does to each row that was there. */
  lemma UpsertedRow(rows: Rows, d: Detected, newId: string, now: int, id: string)
    requires UniqueActive(rows) && newId !in rows && id in rows
    ensures UpsertRows(rows, d, newId, now)[id] == if Active(rows, DetectedKey(d), id) then Bump(rows[id], d, now) else rows[id]
  {
  }

  lemma UpsertedKeys(rows: Rows, d: Detected, newId: string, now: int)
    requires newId !in rows
    ensures var after := UpsertRows(rows, d, newId, now);
            if forall id :: !Active(rows, DetectedKey(d), id)
            then after.Keys == rows.Keys + {newId} && after[newId] == NewRow(d, newId, now)
            else after.Keys == rows.Keys
  {
  }

  lemma RowDetected(signal: StoredSignal, cfg: Thresholds, summary: string, report: string, recoveries: seq<Recovery>,
                    was: Incident, mid: Incident, row: Incident, now: int)
    requires Distinct(recoveries) && forall q :: Listed(recoveries, q) == Healed(Read(signal.seen), cfg, q)
    requires RowClosed(was, mid, signal, recoveries) && Meaning(Read(signal.seen), cfg).Some?
    requires var found := Meaning(Read(signal.seen), cfg).value;
             row == if !Terminal(mid.status) && KeyOf(mid) == RuleKey(signal, found.rule)
                    then Bump(mid, DetectedFor(signal, found, summary, report), now) else mid
    ensures RowIngested(signal, cfg, summary, report, was, row)
  {
    RowHealed(signal, cfg, summary, report, recoveries, was, mid);
    if Detects(signal, cfg, KeyOf(was)) {
      BumpedIsSeenAgain(was, signal, Meaning(Read(signal.seen), cfg).value, summary, report, now);
    }
  }

  lemma OneDetected(signal: StoredSignal, cfg: Thresholds, newId: string, summary: string, report: string, recoveries: seq<Recovery>,
                    before: Rows, mid: Rows, now: int)
    requires Distinct(recoveries) && forall q :: Listed(recoveries, q) == Healed(Read(signal.seen), cfg, q)
    requires Closed(before, mid, signal, recoveries) && Meaning(Read(signal.seen), cfg).Some? && UniqueActive(mid) && newId !in before
    ensures var d := DetectedFor(signal, Meaning(Read(signal.seen), cfg).value, summary, report);
            TableIngested(signal, cfg, newId, summary, report, before, UpsertRows(mid, d, newId, now))
  {
    var found := Meaning(Read(signal.seen), cfg).value;
    var d := DetectedFor(signal, found, summary, report);
    var key, after := RuleKey(signal, found.rule), UpsertRows(mid, d, newId, now);
    forall id
      ensures Active(before, key, id) <==> Active(mid, key, id)
    {
      DetectedRowStays(signal, cfg, recoveries, before, mid, key, id);
    }
    UpsertedKeys(mid, d, newId, now);
    forall id | id in before
      ensures RowIngested(signal, cfg, summary, report, before[id], after[id])
    {
      UpsertedRow(mid, d, newId, now, id);
      RowDetected(signal, cfg, summary, report, recoveries, before[id], mid[id], after[id], now);
    }
  }

  /** The row that ingesting answers with: the active row of the detected rule. */
  ghost predicate Answered(signal: StoredSignal, cfg: Thresholds, after: Rows, row: Incident) {
    row.id in after && after[row.id] == row && Active(after, KeyOf(row), row.id) && Detects(signal, cfg, KeyOf(row))
  }

  lemma UpsertAnswers(signal: StoredSignal, cfg: Thresholds, summary: string, report: string, mid: Rows, newId: string, now: int, row: Incident)
    requires TableOk(mid) && newId !in mid && Meaning(Read(signal.seen), cfg).Some?
    requires var d := DetectedFor(signal, Meaning(Read(signal.seen), cfg).value, summary, report);
             row.id == Landing(mid, d, newId) && row == UpsertRows(mid, d, newId, now)[row.id]
    ensures var d := DetectedFor(signal, Meaning(Read(signal.seen), cfg).value, summary, report);
            Answered(signal, cfg, UpsertRows(mid, d, newId, now), row)
  {
  }

  /** Storing one detected incident. */
  method StoreDetected(store: MemoryStore, signal: StoredSignal, cfg: Thresholds, found: Found, newId: string, summary: string, report: string)
    returns (stored: Incident)
    requires store.Valid() && newId !in store.incidents && Meaning(Read(signal.seen), cfg) == Some(found)
    modifies store
    ensures store.Valid()
    ensures Upserted(old(store.incidents), store.incidents, DetectedFor(signal, found, summary, report), newId)
    ensures Answered(signal, cfg, store.incidents, stored)
  {
    var now: int := *;
    var d := DetectedFor(signal, found, summary, report);
    var incident, created, severityChanged := store.UpsertIncident(d, newId, now);
    UpsertAnswers(signal, cfg, summary, report, old(store.incidents), newId, now, incident);
    stored := incident;
  }

  ghost predicate Upserted(before: Rows, after: Rows, d: Detected, newId: string) {
    exists now :: after == UpsertRows(before, d, newId, now)
  }

  /** The detection loop; the list holds what the signal means and so at most one incident. */
  method StoreAll(store: MemoryStore, signal: StoredSignal, cfg: Thresholds, detected: seq<Found>, newId: string, summary: string, report: string)
    returns (stored: seq<Incident>)
    requires store.Valid() && newId !in store.incidents
    requires detected == if Meaning(Read(signal.seen), cfg).Some? then [Meaning(Read(signal.seen), cfg).value] else []
    modifies store
    ensures store.Valid() && |stored| == |detected|
    ensures detected == [] ==> store.incidents == old(store.incidents)
    ensures detected != [] ==> Upserted(old(store.incidents), store.incidents, DetectedFor(signal, detected[0], summary, report), newId)
    ensures forall i :: 0 <= i < |stored| ==> Answered(signal, cfg, store.incidents, stored[i])
  {
    stored := [];
    for n := 0 to |detected|
      invariant |stored| == n && store.Valid()
      invariant n == 0 ==> store.incidents == old(store.incidents)
      invariant n == 1 ==> Upserted(old(store.incidents), store.incidents, DetectedFor(signal, detected[0], summary, report), newId)
      invariant forall i :: 0 <= i < n ==> Answered(signal, cfg, store.incidents, stored[i])
    {
      var incident := StoreDetected(store, signal, cfg, detected[n], newId, summary, report);
      stored := stored + [incident];
    }
  }

  lemma Ingested(signal: StoredSignal, cfg: Thresholds, newId: string, summary: string, report: string, recoveries: seq<Recovery>,
                 before: Rows, mid: Rows, after: Rows)
    requires Distinct(recoveries) && forall q :: Listed(recoveries, q) == Healed(Read(signal.seen), cfg, q)
    requires Closed(before, mid, signal, recoveries) && UniqueActive(mid) && newId !in before
    requires var found := Meaning(Read(signal.seen), cfg);
             if found.Some? then Upserted(mid, after, DetectedFor(signal, found.value, summary, report), newId) else after == mid
    ensures TableIngested(signal, cfg, newId, summary, report, before, after)
  {
    var found := Meaning(Read(signal.seen), cfg);
    if found.Some? {
      var now :| after == UpsertRows(mid, DetectedFor(signal, found.value, summary, report), newId, now);
      OneDetected(signal, cfg, newId, summary, report, recoveries, before, mid, now);
    } else {
      NothingDetected(signal, cfg, newId, summary, report, recoveries, before, mid);
    }
  }

  /** Ingesting one signal. */
  method EvaluateAndStoreIncidents(store: MemoryStore, signal: StoredSignal, cfg: Thresholds, newId: string,
                                   summary: string, report: string)
    returns (stored: seq<Incident>)
    requires store.Valid() && newId !in store.incidents
    modifies store
    ensures store.Valid()
    ensures TableIngested(signal, cfg, newId, summary, report, old(store.incidents), store.incidents)
    ensures |stored| == if Meaning(Read(signal.seen), cfg).Some? then 1 else 0
    ensures forall i :: 0 <= i < |stored| ==> Answered(signal, cfg, store.incidents, stored[i])
  {
    var recoveries := EvaluateRecoveries(signal.seen, cfg);
    CloseRecovered(store, signal, recoveries);
    ghost var mid := store.incidents;
    var detected := EvaluateIncidents(signal.seen, cfg);
    stored := StoreAll(store, signal, cfg, detected, newId, summary, report);
    Ingested(signal, cfg, newId, summary, report, recoveries, old(store.incidents), mid, store.incidents);
  }

  // ---- The same, told by key ----

  ghost predicate NoneActive(rows: Rows, key: string) {
    forall id :: !Active(rows, key, id)
  }

  /** The active incident of a key, if any, is the very same row before and after. */
  ghost predicate SameActive(before: Rows, after: Rows, key: string) {
    && (forall id :: Active(before, key, id) <==> Active(after, key, id))
    && (forall id :: Active(before, key, id) ==> after[id] == before[id])
  }

  /** What ingesting a signal does to one key: the detected rule gets exactly one active incident,
      a recovered rule has none, and every other key keeps the active incident it had. */
  ghost predicate KeyIngested(signal: StoredSignal, cfg: Thresholds, before: Rows, after: Rows, key: string) {
    if Detects(signal, cfg, key) then exists id :: Active(after, key, id) && forall other :: Active(after, key, other) ==> other == id
    else if Recovers(signal, cfg, key) then NoneActive(after, key)
    else SameActive(before, after, key)
  }

  lemma KeyOfOpened(row: Incident, signal: StoredSignal, found: Found, summary: string, report: string)
    requires OpenedFor(row, signal, found, summary, report)
    ensures KeyOf(row) == RuleKey(signal, found.rule) && !Terminal(row.status)
  {
  }

  /** Which rows stay active, and under which key. */
  lemma RowStaysActive(signal: StoredSignal, cfg: Thresholds, summary: string, report: string, was: Incident, row: Incident)
    requires RowIngested(signal, cfg, summary, report, was, row)
    ensures KeyOf(row) == KeyOf(was)
    ensures Terminal(row.status) <==> Terminal(was.status) || (!Detects(signal, cfg, KeyOf(was)) && Recovers(signal, cfg, KeyOf(was)))
  {
  }

  lemma IngestedRow(signal: StoredSignal, cfg: Thresholds, newId: string, summary: string, report: string, before: Rows, after: Rows, key: string,
                    id: string)
    requires TableIngested(signal, cfg, newId, summary, report, before, after) && id in before
    ensures Active(after, key, id) <==> Active(before, key, id) && (Detects(signal, cfg, key) || !Recovers(signal, cfg, key))
    ensures Active(before, key, id) && !Detects(signal, cfg, key) && !Recovers(signal, cfg, key) ==> after[id] == before[id]
  {
    RowStaysActive(signal, cfg, summary, report, before[id], after[id]);
  }

  lemma IngestedNew(signal: StoredSignal, cfg: Thresholds, newId: string, summary: string, report: string, before: Rows, after: Rows, key: string,
                    id: string)
    requires TableIngested(signal, cfg, newId, summary, report, before, after) && newId !in before && id !in before
    ensures Active(after, key, id) <==> id == newId && Detects(signal, cfg, key) && forall other :: !Active(before, key, other)
  {
    if id in after {
      KeyOfOpened(after[newId], signal, Meaning(Read(signal.seen), cfg).value, summary, report);
    }
  }

  /** Ingesting leaves exactly the detected incident active among those that the signal is about. */
  lemma IngestedByKey(signal: StoredSignal, cfg: Thresholds, newId: string, summary: string, report: string, before: Rows, after: Rows, key: string)
    requires TableIngested(signal, cfg, newId, summary, report, before, after) && newId !in before && UniqueActive(after)
    ensures KeyIngested(signal, cfg, before, after, key)
  {
    forall id
      ensures id in before ==>
                (Active(after, key, id) <==> Active(before, key, id) && (Detects(signal, cfg, key) || !Recovers(signal, cfg, key)))
                && (Active(before, key, id) && !Detects(signal, cfg, key) && !Recovers(signal, cfg, key) ==> after[id] == before[id])
      ensures id !in before ==>
                (Active(after, key, id) <==> id == newId && Detects(signal, cfg, key) && forall other :: !Active(before, key, other))
    {
      if id in before {
        IngestedRow(signal, cfg, newId, summary, report, before, after, key, id);
      } else {
        IngestedNew(signal, cfg, newId, summary, report, before, after, key, id);
      }
    }
    if Detects(signal, cfg, key) {
      if id :| Active(before, key, id) {
        assert Active(after, key, id);
      } else {
        assert Active(after, key, newId);
      }
    }
  }
}
