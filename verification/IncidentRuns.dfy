/** Whole runs of the incident store: what every sequence of operations keeps. */
module IncidentRuns {
  import opened Wrap
  import opened Incidents
  import Sums
  import Text

  datatype Op =
    | Upsert(d: Detected, newId: string, now: int)
    | SetStatus(id: string, status: Status, now: int)
    | Resolve(rules: seq<string>, serviceId: string, streamId: string, signalId: string, reason: string, now: int)
    | Diagnose(id: string, expectedSignalId: string, report: string, now: int)

  /** An identifier generated for a new row is fresh. */
  ghost predicate Admissible(rows: Rows, op: Op) {
    op.Upsert? && ActiveId(rows, DetectedKey(op.d)).None? ==> op.newId !in rows
  }

  ghost function Apply(rows: Rows, op: Op): Rows {
    match op
    case Upsert(d, newId, now) => UpsertRows(rows, d, newId, now)
    case SetStatus(id, status, now) => SetStatusRows(rows, id, status, now)
    case Resolve(rules, serviceId, streamId, signalId, reason, now) =>
      ResolveRows(rows, UniqueNonEmpty(rules), serviceId, streamId, signalId, reason, now)
    case Diagnose(id, expected, report, now) => DiagnoseRows(rows, id, expected, report, now)
  }

  ghost function Run(rows: Rows, ops: seq<Op>): Rows {
    if ops == [] then rows else Apply(Run(rows, ops[..|ops| - 1]), ops[|ops| - 1])
  }

  lemma RunAppend(rows: Rows, ops: seq<Op>, op: Op)
    ensures Run(rows, ops + [op]) == Apply(Run(rows, ops), op)
  {
    assert (ops + [op])[..|ops|] == ops;
  }

  ghost predicate AdmissibleRun(rows: Rows, ops: seq<Op>) {
    forall n :: 0 <= n < |ops| ==> Admissible(Run(rows, ops[..n]), ops[n])
  }

  lemma {:induction false} RunConcat(rows: Rows, a: seq<Op>, b: seq<Op>)
    ensures Run(rows, a + b) == Run(Run(rows, a), b)
  {
    if b == [] {
      assert a + b == a;
    } else {
      assert (a + b)[..|a + b| - 1] == a + b[..|b| - 1];
      RunConcat(rows, a, b[..|b| - 1]);
    }
  }

  lemma AdmissibleConcat(rows: Rows, a: seq<Op>, b: seq<Op>)
    requires AdmissibleRun(rows, a) && AdmissibleRun(Run(rows, a), b)
    ensures AdmissibleRun(rows, a + b)
  {
    forall n | 0 <= n < |a + b|
      ensures Admissible(Run(rows, (a + b)[..n]), (a + b)[n])
    {
      if n < |a| {
        assert (a + b)[..n] == a[..n];
      } else {
        assert (a + b)[..n] == a + b[..n - |a|];
        RunConcat(rows, a, b[..n - |a|]);
      }
    }
  }

  /** How one row may differ between two moments of a run. */
  ghost predicate RowEvolves(was: Incident, now: Incident) {
    && now.id == was.id && KeyOf(now) == KeyOf(was) && now.openedAt == was.openedAt
    && (now.status == was.status || Level(was.status) < Level(now.status))
    && Rank(was.severity) <= Rank(now.severity)
    && was.occurrenceCount <= now.occurrenceCount
    && (Terminal(was.status) ==> now == was.(report := now.report, updatedAt := now.updatedAt))
  }

  ghost predicate Evolves(before: Rows, after: Rows) {
    forall id :: id in before ==> id in after && RowEvolves(before[id], after[id])
  }

  lemma EvolvesTransitive(a: Rows, b: Rows, c: Rows)
    requires Evolves(a, b) && Evolves(b, c)
    ensures Evolves(a, c)
  {
    forall id | id in a
      ensures id in c && RowEvolves(a[id], c[id])
    {
      assert RowEvolves(a[id], b[id]) && RowEvolves(b[id], c[id]);
    }
  }

  /** Replacing one row keeps the table sound when the new row opens no second active row. */
  lemma ReplaceKeeps(rows: Rows, id: string, row: Incident)
    requires TableOk(rows)
    requires RowsWellFormed(map[id := row])
    requires id in rows ==> KeyOf(row) == KeyOf(rows[id]) && (Terminal(rows[id].status) ==> Terminal(row.status))
    requires id !in rows ==> forall other :: !Active(rows, KeyOf(row), other)
    ensures TableOk(rows[id := row])
  {
    var next := rows[id := row];
    assert map[id := row][id] == row;
    forall key, a, b | Active(next, key, a) && Active(next, key, b)
      ensures a == b
    {
      if a != id {
        assert Active(rows, key, a);
      }
      if b != id {
        assert Active(rows, key, b);
      }
      if id in rows && (a == id || b == id) {
        assert Active(rows, key, id);
      }
    }
  }

  lemma ResolveOneSound(rows: Rows, key: string, signalId: string, reason: string, now: int)
    requires TableOk(rows)
    ensures var next := ResolveOne(rows, key, signalId, reason, now);
            && TableOk(next) && Evolves(rows, next) && next.Keys == rows.Keys
            && (forall id :: !Active(next, key, id))
            && (forall id :: id in rows && KeyOf(rows[id]) != key ==> next[id] == rows[id])
            && Counts(next) == Counts(rows)
            && (forall id :: id in rows ==> next[id].severity == rows[id].severity)
  {
    var found := ActiveId(rows, key);
    if found.Some? {
      ReplaceKeeps(rows, found.value, ResolvedRow(rows[found.value], signalId, reason, now));
      ResolvedCounts(rows, found.value, signalId, reason, now);
      var next := ResolveOne(rows, key, signalId, reason, now);
      assert forall id :: id != found.value && Active(next, key, id) ==> Active(rows, key, id);
    }
  }

  lemma ResolvedCounts(rows: Rows, id: string, signalId: string, reason: string, now: int)
    requires id in rows
    ensures Counts(rows[id := ResolvedRow(rows[id], signalId, reason, now)]) == Counts(rows)
  {
  }

  lemma {:induction false} ResolveSound(rows: Rows, rules: seq<string>, serviceId: string, streamId: string,
                                        signalId: string, reason: string, now: int)
    requires TableOk(rows)
    ensures var next := ResolveRows(rows, rules, serviceId, streamId, signalId, reason, now);
            && TableOk(next) && Evolves(rows, next) && next.Keys == rows.Keys && Counts(next) == Counts(rows)
            && (forall id :: id in rows ==> next[id].severity == rows[id].severity)
  {
    if rules != [] {
      var last := |rules| - 1;
      var mid := ResolveRows(rows, rules[..last], serviceId, streamId, signalId, reason, now);
      ResolveSound(rows, rules[..last], serviceId, streamId, signalId, reason, now);
      ResolveOneSound(mid, Key(rules[last], serviceId, streamId), signalId, reason, now);
      EvolvesTransitive(rows, mid, ResolveRows(rows, rules, serviceId, streamId, signalId, reason, now));
    }
  }

  /** The incident is under the key of one of the rules. */
  predicate KeyAmong(i: Incident, rules: seq<string>, serviceId: string, streamId: string) {
    exists n :: 0 <= n < |rules| && KeyOf(i) == Key(rules[n], serviceId, streamId)
  }

  /** Every active row under one of the keys, closed at once. */
  function ResolvedTogether(rows: Rows, rules: seq<string>, serviceId: string, streamId: string,
                            signalId: string, reason: string, now: int): Rows {
    map id | id in rows ::
      if !Terminal(rows[id].status) && KeyAmong(rows[id], rules, serviceId, streamId) then ResolvedRow(rows[id], signalId, reason, now)
      else rows[id]
  }

  lemma KeyAmongSnoc(i: Incident, rules: seq<string>, serviceId: string, streamId: string)
    requires rules != []
    ensures var last := |rules| - 1;
            KeyAmong(i, rules, serviceId, streamId)
            == (KeyAmong(i, rules[..last], serviceId, streamId) || KeyOf(i) == Key(rules[last], serviceId, streamId))
  {
    var last := |rules| - 1;
    if KeyAmong(i, rules[..last], serviceId, streamId) {
      var n :| 0 <= n < last && KeyOf(i) == Key(rules[..last][n], serviceId, streamId);
      assert rules[n] == rules[..last][n];
    }
    if KeyAmong(i, rules, serviceId, streamId) && KeyOf(i) != Key(rules[last], serviceId, streamId) {
      var n :| 0 <= n <= last && KeyOf(i) == Key(rules[n], serviceId, streamId);
      assert rules[..last][n] == rules[n];
    }
  }

  /** What is still active once some keys are closed was active before and is under none of them. */
  lemma StillActive(rows: Rows, mid: Rows, rules: seq<string>, serviceId: string, streamId: string,
                    signalId: string, reason: string, now: int, key: string, id: string)
    requires mid == ResolvedTogether(rows, rules, serviceId, streamId, signalId, reason, now)
    ensures Active(mid, key, id) <==> Active(rows, key, id) && !KeyAmong(rows[id], rules, serviceId, streamId)
    ensures Active(mid, key, id) ==> mid[id] == rows[id]
  {
  }

  /** One more key closed one at a time is one more key closed at once. */
  lemma ResolveOneMore(rows: Rows, mid: Rows, rules: seq<string>, serviceId: string, streamId: string,
                       signalId: string, reason: string, now: int)
    requires UniqueActive(rows) && rules != []
    requires mid == ResolvedTogether(rows, rules[..|rules| - 1], serviceId, streamId, signalId, reason, now)
    ensures ResolveOne(mid, Key(rules[|rules| - 1], serviceId, streamId), signalId, reason, now)
            == ResolvedTogether(rows, rules, serviceId, streamId, signalId, reason, now)
  {
    var init, key := rules[..|rules| - 1], Key(rules[|rules| - 1], serviceId, streamId);
    var one := ResolveOne(mid, key, signalId, reason, now);
    var all := ResolvedTogether(rows, rules, serviceId, streamId, signalId, reason, now);
    forall id | id in rows
      ensures id in one && one[id] == all[id]
    {
      RowOneMore(rows, mid, rules, serviceId, streamId, signalId, reason, now, id);
    }
    assert one.Keys == mid.Keys == rows.Keys == all.Keys by {
      var found := ActiveId(mid, key);
      assert found.Some? ==> found.value in mid;
    }
  }

  lemma RowOneMore(rows: Rows, mid: Rows, rules: seq<string>, serviceId: string, streamId: string,
                   signalId: string, reason: string, now: int, id: string)
    requires UniqueActive(rows) && rules != [] && id in rows
    requires mid == ResolvedTogether(rows, rules[..|rules| - 1], serviceId, streamId, signalId, reason, now)
    ensures var one := ResolveOne(mid, Key(rules[|rules| - 1], serviceId, streamId), signalId, reason, now);
            id in one && one[id] == ResolvedTogether(rows, rules, serviceId, streamId, signalId, reason, now)[id]
  {
    var init, key := rules[..|rules| - 1], Key(rules[|rules| - 1], serviceId, streamId);
    var found := ActiveId(mid, key);
    StillActive(rows, mid, init, serviceId, streamId, signalId, reason, now, key, id);
    KeyAmongSnoc(rows[id], rules, serviceId, streamId);
    if found.Some? {
      StillActive(rows, mid, init, serviceId, streamId, signalId, reason, now, key, found.value);
    }
    assert Active(mid, key, id) <==> found == Some(id);
  }

  /** Resolving rule after rule closes exactly the active rows under their keys. */
  lemma {:induction false} ResolveTogether(rows: Rows, rules: seq<string>, serviceId: string, streamId: string,
                                           signalId: string, reason: string, now: int)
    requires UniqueActive(rows)
    ensures ResolveRows(rows, rules, serviceId, streamId, signalId, reason, now)
            == ResolvedTogether(rows, rules, serviceId, streamId, signalId, reason, now)
  {
    if rules == [] {
      assert ResolvedTogether(rows, [], serviceId, streamId, signalId, reason, now) == rows;
    } else {
      var init := rules[..|rules| - 1];
      ResolveTogether(rows, init, serviceId, streamId, signalId, reason, now);
      ResolveOneMore(rows, ResolveRows(rows, init, serviceId, streamId, signalId, reason, now), rules, serviceId, streamId,
                     signalId, reason, now);
    }
  }

  lemma StepSound(rows: Rows, op: Op)
    requires TableOk(rows) && Admissible(rows, op)
    ensures TableOk(Apply(rows, op)) && Evolves(rows, Apply(rows, op))
  {
    match op
    case Upsert(d, newId, now) =>
      var found := ActiveId(rows, DetectedKey(d));
      if found.Some? {
        ReplaceKeeps(rows, found.value, Bump(rows[found.value], d, now));
      } else {
        ReplaceKeeps(rows, newId, NewRow(d, newId, now));
      }
    case SetStatus(id, status, now) =>
      if StatusMoves(rows, id, status) {
        TransitionIsClimb(rows[id].status, status);
        ReplaceKeeps(rows, id, WithStatus(rows[id], status, now));
      }
    case Resolve(rules, serviceId, streamId, signalId, reason, now) =>
      ResolveSound(rows, UniqueNonEmpty(rules), serviceId, streamId, signalId, reason, now);
    case Diagnose(id, expected, report, now) =>
      if Diagnoses(rows, id, expected) {
        var id := Text.TrimSpace(id);
        ReplaceKeeps(rows, id, rows[id].(report := report, updatedAt := now));
      }
  }

  /** Every run keeps at most one active row per key, loses no row, and moves each row only
      upwards; a terminal row keeps everything but its report and update time. */
  lemma {:induction false} RunSound(rows: Rows, ops: seq<Op>)
    requires TableOk(rows) && AdmissibleRun(rows, ops)
    ensures TableOk(Run(rows, ops)) && Evolves(rows, Run(rows, ops))
  {
    if ops != [] {
      var init := ops[..|ops| - 1];
      assert forall n :: 0 <= n < |init| ==> init[..n] == ops[..n];
      RunSound(rows, init);
      StepSound(Run(rows, init), ops[|ops| - 1]);
      EvolvesTransitive(rows, Run(rows, init), Run(rows, ops));
    }
  }

  /** The same from any intermediate moment of the run to its end. */
  lemma {:induction false} RunSoundFrom(rows: Rows, ops: seq<Op>, n: nat)
    requires TableOk(rows) && AdmissibleRun(rows, ops) && n <= |ops|
    ensures Evolves(Run(rows, ops[..n]), Run(rows, ops))
    decreases |ops|
  {
    if n == |ops| {
      assert ops[..n] == ops;
      RunSound(rows, ops);
    } else {
      var init := ops[..|ops| - 1];
      assert forall k :: 0 <= k <= |init| ==> init[..k] == ops[..k];
      RunSoundFrom(rows, init, n);
      RunSound(rows, init);
      StepSound(Run(rows, init), ops[|ops| - 1]);
      EvolvesTransitive(Run(rows, ops[..n]), Run(rows, init), Run(rows, ops));
    }
  }

  // ---- Accounting over runs that start from the empty store ----

  /** The severities reported on one row, in order. */
  ghost function Reports(ops: seq<Op>, id: string): seq<Severity> {
    if ops == [] then []
    else
      var init, op := ops[..|ops| - 1], ops[|ops| - 1];
      var before := Reports(init, id);
      if op.Upsert? && Landing(Run(map[], init), op.d, op.newId) == id then before + [op.d.severity] else before
  }

  function MaxRank(reports: seq<Severity>): nat {
    if reports == [] then 0
    else
      var rest := MaxRank(reports[..|reports| - 1]);
      if Rank(reports[|reports| - 1]) > rest then Rank(reports[|reports| - 1]) else rest
  }

  function Upserts(ops: seq<Op>): nat {
    if ops == [] then 0 else Upserts(ops[..|ops| - 1]) + if ops[|ops| - 1].Upsert? then 1 else 0
  }

  function Counts(rows: Rows): map<string, int> {
    map id | id in rows :: rows[id].occurrenceCount
  }

  ghost predicate RowAccounted(rows: Rows, ops: seq<Op>, id: string) {
    if id in rows then
      && rows[id].occurrenceCount == |Reports(ops, id)|
      && Rank(rows[id].severity) == MaxRank(Reports(ops, id))
    else
      Reports(ops, id) == []
  }

  ghost predicate Accounted(rows: Rows, ops: seq<Op>) {
    && (forall id :: RowAccounted(rows, ops, id))
    && Sums.Sum(Counts(rows)) == Upserts(ops)
  }

  lemma QuietStepAccounts(before: Rows, op: Op)
    requires TableOk(before) && !op.Upsert?
    ensures var after := Apply(before, op);
            after.Keys == before.Keys && Counts(after) == Counts(before)
            && forall id :: id in before ==> after[id].severity == before[id].severity
  {
    match op
    case Resolve(rules, serviceId, streamId, signalId, reason, now) =>
      ResolveSound(before, UniqueNonEmpty(rules), serviceId, streamId, signalId, reason, now);
    case _ =>
  }

  lemma UpsertLands(before: Rows, d: Detected, newId: string, now: int)
    requires TableOk(before) && Admissible(before, Upsert(d, newId, now))
    ensures var id, after := Landing(before, d, newId), UpsertRows(before, d, newId, now);
            && after.Keys == before.Keys + {id}
            && (forall other :: other in before && other != id ==> after[other] == before[other])
            && after[id].occurrenceCount == (if id in before then before[id].occurrenceCount else 0) + 1
            && Counts(after) == Counts(before)[id := after[id].occurrenceCount]
            && var was := if id in before then Rank(before[id].severity) else 0;
            Rank(after[id].severity) == if Rank(d.severity) > was then Rank(d.severity) else was
  {
  }

  lemma {:induction false} UpsertAccountsRow(before: Rows, ops: seq<Op>, id: string)
    requires ops != [] && ops[|ops| - 1].Upsert?
    requires before == Run(map[], ops[..|ops| - 1]) && TableOk(before)
    requires Admissible(before, ops[|ops| - 1]) && RowAccounted(before, ops[..|ops| - 1], id)
    ensures RowAccounted(Apply(before, ops[|ops| - 1]), ops, id)
  {
    var op := ops[|ops| - 1];
    UpsertLands(before, op.d, op.newId, op.now);
    if id == Landing(before, op.d, op.newId) {
      var reports := Reports(ops, id);
      assert reports[..|reports| - 1] == Reports(ops[..|ops| - 1], id);
    }
  }

  lemma {:induction false} QuietAccountsRow(before: Rows, ops: seq<Op>, id: string)
    requires ops != [] && !ops[|ops| - 1].Upsert?
    requires TableOk(before) && RowAccounted(before, ops[..|ops| - 1], id)
    ensures RowAccounted(Apply(before, ops[|ops| - 1]), ops, id)
  {
    QuietStepAccounts(before, ops[|ops| - 1]);
    assert id in before ==> Counts(Apply(before, ops[|ops| - 1]))[id] == Counts(before)[id];
  }

  /** From the empty store: each row's count is the number of upserts that landed on it, its
      severity rank is the greatest one reported on it, and the counts add up to the upserts. */
  lemma {:induction false} RunAccounts(ops: seq<Op>)
    requires AdmissibleRun(map[], ops)
    ensures Accounted(Run(map[], ops), ops)
  {
    if ops != [] {
      var init, op := ops[..|ops| - 1], ops[|ops| - 1];
      assert forall n :: 0 <= n < |init| ==> init[..n] == ops[..n];
      RunAccounts(init);
      RunSound(map[], init);
      var before, after := Run(map[], init), Run(map[], ops);
      forall id
        ensures RowAccounted(after, ops, id)
      {
        assert RowAccounted(before, init, id);
        if op.Upsert? {
          UpsertAccountsRow(before, ops, id);
        } else {
          QuietAccountsRow(before, ops, id);
        }
      }
      if op.Upsert? {
        UpsertLands(before, op.d, op.newId, op.now);
        var id := Landing(before, op.d, op.newId);
        Sums.SumSet(Counts(before), id, after[id].occurrenceCount);
      } else {
        QuietStepAccounts(before, op);
      }
    }
  }

  // ---- Severities by name ----

  /** The strongest severity among the reports, name by name. */
  ghost predicate Strongest(s: Severity, reports: seq<Severity>) {
    && (s.Critical? <==> exists i :: 0 <= i < |reports| && reports[i].Critical?)
    && (s.Error? <==> (exists i :: 0 <= i < |reports| && reports[i].Error?) && forall i :: 0 <= i < |reports| ==> !reports[i].Critical?)
    && (s.Warning? <==> (exists i :: 0 <= i < |reports| && reports[i].Warning?)
                        && forall i :: 0 <= i < |reports| ==> !reports[i].Critical? && !reports[i].Error?)
    && (s.Info? <==> (exists i :: 0 <= i < |reports| && reports[i].Info?)
                     && forall i :: 0 <= i < |reports| ==> reports[i].Info? || reports[i].Unranked?)
  }

  lemma {:induction false} MaxRankBounds(reports: seq<Severity>)
    ensures forall i :: 0 <= i < |reports| ==> Rank(reports[i]) <= MaxRank(reports)
    ensures MaxRank(reports) == 0 || exists i :: 0 <= i < |reports| && Rank(reports[i]) == MaxRank(reports)
  {
    if reports != [] {
      var init, last := reports[..|reports| - 1], |reports| - 1;
      MaxRankBounds(init);
      assert forall i :: 0 <= i < last ==> init[i] == reports[i];
      if MaxRank(init) == MaxRank(reports) && MaxRank(init) != 0 {
        var i :| 0 <= i < last && Rank(init[i]) == MaxRank(init);
        assert Rank(reports[i]) == MaxRank(reports);
      }
    }
  }

  lemma RankNames(a: Severity, b: Severity)
    ensures Rank(a) == Rank(b) <==> (a.Critical? <==> b.Critical?) && (a.Error? <==> b.Error?) && (a.Warning? <==> b.Warning?) && (a.Info? <==> b.Info?)
  {
  }

  lemma MaxRankIsStrongest(s: Severity, reports: seq<Severity>)
    requires Rank(s) == MaxRank(reports)
    ensures Strongest(s, reports)
  {
    MaxRankBounds(reports);
    forall i | 0 <= i < |reports|
      ensures !MoreSevere(reports[i], s)
    {
      RankOrder(reports[i], s);
    }
    if MaxRank(reports) != 0 {
      var i :| 0 <= i < |reports| && Rank(reports[i]) == MaxRank(reports);
      RankNames(reports[i], s);
    }
  }

  /** From the empty store every row is of the strongest severity ever reported on it: critical exactly if that was reported, error
      exactly if that was and critical was not, and so on down. */
  lemma SeverityNamed(ops: seq<Op>, id: string)
    requires AdmissibleRun(map[], ops) && id in Run(map[], ops)
    ensures Strongest(Run(map[], ops)[id].severity, Reports(ops, id))
  {
    RunAccounts(ops);
    assert RowAccounted(Run(map[], ops), ops, id);
    MaxRankIsStrongest(Run(map[], ops)[id].severity, Reports(ops, id));
  }
}
