/** The incident table: its rows, the status order, the severity rank, and what each store
    operation does to the rows when the active row of a key is found by scanning. */
module Incidents {
  import opened Wrap
  import Text

  /** One constructor per status literal; Unlisted is any other string. */
  datatype Status = Open | Acknowledged | Investigating | Mitigated | Resolved | Ignored | Unlisted(text: string)

  predicate ValidStatus(s: Status) {
    !s.Unlisted?
  }

  predicate Terminal(s: Status) {
    s.Resolved? || s.Ignored?
  }

  predicate CanTransition(current: Status, next: Status) {
    if current == next then true
    else if Terminal(current) then false
    else match current
      case Open => ValidStatus(next)
      case Acknowledged => next.Investigating? || next.Mitigated? || Terminal(next)
      case Investigating => next.Mitigated? || Terminal(next)
      case Mitigated => Terminal(next)
      case _ => false
  }

  /** Height in the status order; both terminal statuses share the top. */
  function Level(s: Status): int {
    match s
    case Open => 0
    case Acknowledged => 1
    case Investigating => 2
    case Mitigated => 3
    case Resolved => 4
    case Ignored => 4
    case Unlisted(_) => -1
  }

  /** The transition table is exactly the strict order by level on the listed statuses. */
  lemma TransitionIsClimb(current: Status, next: Status)
    ensures CanTransition(current, next) <==>
            current == next || (ValidStatus(current) && ValidStatus(next) && Level(current) < Level(next))
  {
  }

  /** One constructor per severity literal after trimming and lower-casing. */
  datatype Severity = Unranked(text: string) | Info | Warning | Error | Critical

  function Rank(s: Severity): nat {
    match s
    case Unranked(_) => 0
    case Info => 1
    case Warning => 2
    case Error => 3
    case Critical => 4
  }

  /** The order of severities, name by name: a text that is none of the four comes last. */
  predicate MoreSevere(a: Severity, b: Severity) {
    match a
    case Critical => !b.Critical?
    case Error => b.Warning? || b.Info? || b.Unranked?
    case Warning => b.Info? || b.Unranked?
    case Info => b.Unranked?
    case Unranked(_) => false
  }

  /** The rank sorts by exactly that order. */
  lemma RankOrder(a: Severity, b: Severity)
    ensures Rank(a) > Rank(b) <==> MoreSevere(a, b)
  {
  }

  datatype Incident = Incident(
    id: string, rule: string, serviceId: string, streamId: string,
    severity: Severity, status: Status, summary: string, signalId: string, report: string,
    openedAt: int, updatedAt: int, resolvedAt: Option<int>,
    occurrenceCount: int, lastSeenAt: int,
    resolvedBySignalId: string, resolutionReason: string)

  /** What the server hands to an upsert: an open incident without an identifier. */
  datatype Detected = Detected(
    rule: string, serviceId: string, streamId: string,
    severity: Severity, summary: string, signalId: string, report: string)

  datatype Identity = Identity(rule: string, serviceId: string, streamId: string)

  function IdentityOf(i: Incident): Identity {
    Identity(i.rule, i.serviceId, i.streamId)
  }

  function Key(rule: string, serviceId: string, streamId: string): string {
    rule + "\0" + serviceId + "\0" + streamId
  }

  function KeyOf(i: Incident): string {
    Key(i.rule, i.serviceId, i.streamId)
  }

  predicate NulFree(s: string) {
    '\0' !in s
  }

  /** Two triples whose first two parts are free of NUL share a key only when they are equal. */
  lemma KeyInjective(r: string, v: string, m: string, r': string, v': string, m': string)
    requires NulFree(r) && NulFree(v) && NulFree(r') && NulFree(v')
    requires Key(r, v, m) == Key(r', v', m')
    ensures r == r' && v == v' && m == m'
  {
    assert Key(r, v, m) == r + ['\0'] + (v + "\0" + m);
    assert Key(r', v', m') == r' + ['\0'] + (v' + "\0" + m');
    Text.SplitUnique(r, v + "\0" + m, r', v' + "\0" + m', '\0');
    Text.SplitUnique(v, m, v', m', '\0');
  }

  type Rows = map<string, Incident>

  predicate Active(rows: Rows, key: string, id: string) {
    id in rows && !Terminal(rows[id].status) && KeyOf(rows[id]) == key
  }

  /** The scan: the active row with this key, if there is one. */
  ghost function ActiveId(rows: Rows, key: string): (r: Option<string>)
    ensures r.Some? ==> Active(rows, key, r.value)
    ensures r.None? ==> forall id :: !Active(rows, key, id)
  {
    if id :| Active(rows, key, id) then Some(id) else None
  }

  ghost predicate UniqueActive(rows: Rows) {
    forall key, a, b :: Active(rows, key, a) && Active(rows, key, b) ==> a == b
  }

  ghost predicate RowsWellFormed(rows: Rows) {
    forall id :: id in rows ==>
                   && rows[id].id == id
                   && (Terminal(rows[id].status) <==> rows[id].resolvedAt.Some?)
                   && rows[id].occurrenceCount >= 1
                   && ValidStatus(rows[id].status)
  }

  ghost predicate TableOk(rows: Rows) {
    RowsWellFormed(rows) && UniqueActive(rows)
  }

  function Bump(row: Incident, d: Detected, now: int): Incident {
    row.(severity := if Rank(d.severity) > Rank(row.severity) then d.severity else row.severity,
         signalId := d.signalId, summary := d.summary, report := d.report,
         updatedAt := now, lastSeenAt := now, occurrenceCount := row.occurrenceCount + 1)
  }

  function NewRow(d: Detected, id: string, now: int): Incident {
    Incident(id, d.rule, d.serviceId, d.streamId, d.severity, Open, d.summary, d.signalId, d.report,
             now, now, None, 1, now, "", "")
  }

  function DetectedKey(d: Detected): string {
    Key(d.rule, d.serviceId, d.streamId)
  }

  /** The row an upsert lands on: the active row of its key, or the new one. */
  ghost function Landing(rows: Rows, d: Detected, newId: string): string {
    var found := ActiveId(rows, DetectedKey(d));
    if found.Some? then found.value else newId
  }

  ghost function UpsertRows(rows: Rows, d: Detected, newId: string, now: int): Rows {
    var found := ActiveId(rows, DetectedKey(d));
    if found.Some? then rows[found.value := Bump(rows[found.value], d, now)]
    else rows[newId := NewRow(d, newId, now)]
  }

  function WithStatus(row: Incident, status: Status, now: int): Incident {
    var moved := row.(status := status, updatedAt := now);
    if Terminal(status) then moved.(resolvedAt := Some(now), resolutionReason := "manual")
    else moved.(resolvedAt := None, resolvedBySignalId := "", resolutionReason := "")
  }

  predicate StatusMoves(rows: Rows, id: string, status: Status) {
    ValidStatus(status) && id in rows && rows[id].status != status && CanTransition(rows[id].status, status)
  }

  function SetStatusRows(rows: Rows, id: string, status: Status, now: int): Rows {
    if StatusMoves(rows, id, status) then rows[id := WithStatus(rows[id], status, now)] else rows
  }

  function ResolvedRow(row: Incident, signalId: string, reason: string, now: int): Incident {
    row.(status := Resolved, updatedAt := now, resolvedAt := Some(now),
         resolvedBySignalId := Text.TrimSpace(signalId), resolutionReason := Text.TrimSpace(reason))
  }

  ghost function ResolveOne(rows: Rows, key: string, signalId: string, reason: string, now: int): Rows {
    var found := ActiveId(rows, key);
    if found.Some? then rows[found.value := ResolvedRow(rows[found.value], signalId, reason, now)] else rows
  }

  /** Resolve one rule after another, in list order. */
  ghost function ResolveRows(rows: Rows, rules: seq<string>, serviceId: string, streamId: string,
                             signalId: string, reason: string, now: int): Rows
    decreases |rules|
  {
    if rules == [] then rows
    else
      var last := |rules| - 1;
      ResolveOne(ResolveRows(rows, rules[..last], serviceId, streamId, signalId, reason, now),
                 Key(rules[last], serviceId, streamId), signalId, reason, now)
  }

  predicate Diagnoses(rows: Rows, id: string, expectedSignalId: string) {
    var id, signal := Text.TrimSpace(id), Text.TrimSpace(expectedSignalId);
    id != "" && signal != "" && id in rows && rows[id].signalId == signal
  }

  function DiagnoseRows(rows: Rows, id: string, expectedSignalId: string, report: string, now: int): Rows {
    if Diagnoses(rows, id, expectedSignalId) then
      var id := Text.TrimSpace(id);
      rows[id := rows[id].(report := report, updatedAt := now)]
    else rows
  }

  /** Trimmed, non-empty, first occurrences only. */
  function UniqueNonEmpty(values: seq<string>): (r: seq<string>)
    ensures forall v :: v in r <==> v != "" && exists i :: 0 <= i < |values| && Text.TrimSpace(values[i]) == v
    ensures forall i, j :: 0 <= i < j < |r| ==> r[i] != r[j]
  {
    if values == [] then []
    else
      var init := UniqueNonEmpty(values[..|values| - 1]);
      var v := Text.TrimSpace(values[|values| - 1]);
      if v == "" || v in init then init else init + [v]
  }
}
