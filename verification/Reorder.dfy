/** Running the operations on some rows last: rows that are active at the end may as well have been created last. */
module Reorder {
  import opened Wrap
  import opened Incidents
  import opened IncidentRuns
  import Text

  /** The row an operation is about; a resolve is about keys instead. */
  ghost function Target(rows: Rows, op: Op): Option<string> {
    match op
    case Upsert(d, newId, _) => Some(Landing(rows, d, newId))
    case SetStatus(id, _, _) => Some(id)
    case Diagnose(id, _, _, _) => Some(Text.TrimSpace(id))
    case Resolve(_, _, _, _, _, _) => None
  }

  ghost predicate Touches(rows: Rows, op: Op, ids: set<string>) {
    Target(rows, op).Some? && Target(rows, op).value in ids
  }

  /** The operations that are not about the given rows, in order, and those that are. */
  ghost function Front(start: Rows, ops: seq<Op>, ids: set<string>): seq<Op> {
    if ops == [] then []
    else
      var init, op := ops[..|ops| - 1], ops[|ops| - 1];
      if Touches(Run(start, init), op, ids) then Front(start, init, ids) else Front(start, init, ids) + [op]
  }

  ghost function Back(start: Rows, ops: seq<Op>, ids: set<string>): seq<Op> {
    if ops == [] then []
    else
      var init, op := ops[..|ops| - 1], ops[|ops| - 1];
      if Touches(Run(start, init), op, ids) then Back(start, init, ids) + [op] else Back(start, init, ids)
  }

  lemma OneMoreFront<T>(front: seq<T>, back: seq<T>, all: seq<T>, x: T)
    requires multiset(front) + multiset(back) == multiset(all)
    ensures multiset(front + [x]) + multiset(back) == multiset(all + [x])
  {
  }

  lemma OneMoreBack<T>(front: seq<T>, back: seq<T>, all: seq<T>, x: T)
    requires multiset(front) + multiset(back) == multiset(all)
    ensures multiset(front) + multiset(back + [x]) == multiset(all + [x])
  {
  }

  lemma {:induction false} SplitKeepsAll(start: Rows, ops: seq<Op>, ids: set<string>)
    ensures multiset(Front(start, ops, ids)) + multiset(Back(start, ops, ids)) == multiset(ops)
  {
    if ops != [] {
      var init, op := ops[..|ops| - 1], ops[|ops| - 1];
      assert ops == init + [op];
      SplitKeepsAll(start, init, ids);
      if Touches(Run(start, init), op, ids) {
        OneMoreBack(Front(start, init, ids), Back(start, init, ids), init, op);
      } else {
        OneMoreFront(Front(start, init, ids), Back(start, init, ids), init, op);
      }
    }
  }

  function Only(rows: Rows, ids: set<string>): Rows {
    map id | id in rows && id in ids :: rows[id]
  }

  ghost predicate StayActive(rows: Rows, ids: set<string>) {
    forall id :: id in ids && id in rows ==> !Terminal(rows[id].status)
  }

  /** What was active at the end was active all along. */
  lemma ActiveBefore(rows: Rows, op: Op, ids: set<string>)
    requires TableOk(rows) && Admissible(rows, op) && StayActive(Apply(rows, op), ids)
    ensures StayActive(rows, ids)
  {
    StepSound(rows, op);
    forall id | id in ids && id in rows
      ensures !Terminal(rows[id].status)
    {
      assert RowEvolves(rows[id], Apply(rows, op)[id]);
    }
  }

  // ---- An operation that is not about the rows ----

  lemma UpsertAside(rows: Rows, op: Op, ids: set<string>)
    requires TableOk(rows) && op.Upsert? && Admissible(rows, op) && !Touches(rows, op, ids)
    ensures Apply(rows - ids, op) == Apply(rows, op) - ids && Only(Apply(rows, op), ids) == Only(rows, ids)
    ensures Admissible(rows - ids, op)
  {
    var key := DetectedKey(op.d);
    var found, left := ActiveId(rows, key), ActiveId(rows - ids, key);
    assert left.Some? ==> Active(rows, key, left.value);
    assert found.Some? ==> Active(rows - ids, key, found.value);
    assert left == found;
  }

  lemma ResolveAside(rows: Rows, op: Op, ids: set<string>)
    requires TableOk(rows) && op.Resolve? && StayActive(Apply(rows, op), ids)
    ensures Apply(rows - ids, op) == Apply(rows, op) - ids && Only(Apply(rows, op), ids) == Only(rows, ids)
  {
    var rules := UniqueNonEmpty(op.rules);
    assert UniqueActive(rows - ids) by {
      assert forall key, id :: Active(rows - ids, key, id) ==> Active(rows, key, id);
    }
    ResolveTogether(rows, rules, op.serviceId, op.streamId, op.signalId, op.reason, op.now);
    ResolveTogether(rows - ids, rules, op.serviceId, op.streamId, op.signalId, op.reason, op.now);
    TogetherAside(rows, rules, op, ids);
  }

  lemma TogetherAside(rows: Rows, rules: seq<string>, op: Op, ids: set<string>)
    requires op.Resolve?
    requires StayActive(ResolvedTogether(rows, rules, op.serviceId, op.streamId, op.signalId, op.reason, op.now), ids)
    ensures var all := ResolvedTogether(rows, rules, op.serviceId, op.streamId, op.signalId, op.reason, op.now);
            && ResolvedTogether(rows - ids, rules, op.serviceId, op.streamId, op.signalId, op.reason, op.now) == all - ids
            && Only(all, ids) == Only(rows, ids)
  {
  }

  lemma StepAside(rows: Rows, op: Op, ids: set<string>)
    requires TableOk(rows) && Admissible(rows, op) && StayActive(Apply(rows, op), ids) && !Touches(rows, op, ids)
    ensures Apply(rows - ids, op) == Apply(rows, op) - ids && Only(Apply(rows, op), ids) == Only(rows, ids)
    ensures Admissible(rows - ids, op)
  {
    if op.Upsert? {
      UpsertAside(rows, op, ids);
    } else if op.Resolve? {
      ResolveAside(rows, op, ids);
    } else if op.SetStatus? {
      StatusAside(rows, op, ids);
    } else {
      DiagnoseAside(rows, op, ids);
    }
  }

  lemma StatusAside(rows: Rows, op: Op, ids: set<string>)
    requires op.SetStatus? && op.id !in ids
    ensures Apply(rows - ids, op) == Apply(rows, op) - ids && Only(Apply(rows, op), ids) == Only(rows, ids)
  {
  }

  lemma DiagnoseAside(rows: Rows, op: Op, ids: set<string>)
    requires op.Diagnose? && Text.TrimSpace(op.id) !in ids
    ensures Apply(rows - ids, op) == Apply(rows, op) - ids && Only(Apply(rows, op), ids) == Only(rows, ids)
  {
  }

  // ---- An operation that is ----

  /** The base has none of the rows and nothing active under their keys. */
  ghost predicate Clear(base: Rows, rows: Rows, ids: set<string>) {
    && base.Keys !! ids
    && forall id, other :: id in ids && id in rows ==> !Active(base, KeyOf(rows[id]), other)
  }

  lemma ClearBefore(base: Rows, rows: Rows, op: Op, ids: set<string>)
    requires TableOk(rows) && Admissible(rows, op) && Clear(base, Apply(rows, op), ids)
    ensures Clear(base, rows, ids)
  {
    StepSound(rows, op);
    forall id, other | id in ids && id in rows
      ensures !Active(base, KeyOf(rows[id]), other)
    {
      assert RowEvolves(rows[id], Apply(rows, op)[id]);
    }
  }

  lemma UpsertOn(rows: Rows, op: Op, ids: set<string>, base: Rows)
    requires TableOk(rows) && op.Upsert? && Admissible(rows, op) && Touches(rows, op, ids) && Clear(base, Apply(rows, op), ids)
    ensures Apply(base + Only(rows, ids), op) == base + Only(Apply(rows, op), ids) && Apply(rows, op) - ids == rows - ids
    ensures Admissible(base + Only(rows, ids), op)
  {
    var key, moved := DetectedKey(op.d), base + Only(rows, ids);
    var id, found := Landing(rows, op.d, op.newId), ActiveId(rows, key);
    UpsertFindsIt(rows, op, ids, base);
    assert UpsertRows(moved, op.d, op.newId, op.now)
        == moved[id := if found.Some? then Bump(rows[id], op.d, op.now) else NewRow(op.d, id, op.now)];
    WriteOn(rows, ids, base, id, if found.Some? then Bump(rows[id], op.d, op.now) else NewRow(op.d, id, op.now));
  }

  /** Over the base the upsert finds the row it found in the run, or none. */
  lemma UpsertFindsIt(rows: Rows, op: Op, ids: set<string>, base: Rows)
    requires TableOk(rows) && op.Upsert? && Admissible(rows, op) && Touches(rows, op, ids) && Clear(base, Apply(rows, op), ids)
    ensures ActiveId(base + Only(rows, ids), DetectedKey(op.d)) == ActiveId(rows, DetectedKey(op.d))
  {
    var key, id, moved := DetectedKey(op.d), Landing(rows, op.d, op.newId), base + Only(rows, ids);
    var found, there := ActiveId(rows, key), ActiveId(moved, key);
    assert id in Apply(rows, op) && KeyOf(Apply(rows, op)[id]) == key;
    assert forall other :: !Active(base, key, other);
    if there.Some? {
      assert there.value !in Only(rows, ids) ==> Active(base, key, there.value);
      assert Active(rows, key, there.value);
    }
    assert found.Some? ==> Active(moved, key, found.value);
  }

  /** Writing one of the rows over the base. */
  lemma WriteOn(rows: Rows, ids: set<string>, base: Rows, id: string, row: Incident)
    requires base.Keys !! ids && id in ids
    ensures (base + Only(rows, ids))[id := row] == base + Only(rows[id := row], ids) && rows[id := row] - ids == rows - ids
  {
  }

  lemma StatusOn(rows: Rows, op: Op, ids: set<string>, base: Rows)
    requires op.SetStatus? && op.id in ids && base.Keys !! ids
    ensures Apply(base + Only(rows, ids), op) == base + Only(Apply(rows, op), ids) && Apply(rows, op) - ids == rows - ids
  {
    if StatusMoves(rows, op.id, op.status) {
      WriteOn(rows, ids, base, op.id, WithStatus(rows[op.id], op.status, op.now));
    }
  }

  lemma DiagnoseOn(rows: Rows, op: Op, ids: set<string>, base: Rows)
    requires op.Diagnose? && Text.TrimSpace(op.id) in ids && base.Keys !! ids
    ensures Apply(base + Only(rows, ids), op) == base + Only(Apply(rows, op), ids) && Apply(rows, op) - ids == rows - ids
  {
    var id := Text.TrimSpace(op.id);
    if Diagnoses(rows, op.id, op.expectedSignalId) {
      WriteOn(rows, ids, base, id, rows[id].(report := op.report, updatedAt := op.now));
    }
  }

  lemma StepOn(rows: Rows, op: Op, ids: set<string>, base: Rows)
    requires TableOk(rows) && Admissible(rows, op) && Touches(rows, op, ids) && Clear(base, Apply(rows, op), ids)
    ensures Apply(base + Only(rows, ids), op) == base + Only(Apply(rows, op), ids) && Apply(rows, op) - ids == rows - ids
    ensures Admissible(base + Only(rows, ids), op)
  {
    if op.Upsert? {
      UpsertOn(rows, op, ids, base);
    } else if op.SetStatus? {
      StatusOn(rows, op, ids, base);
    } else {
      DiagnoseOn(rows, op, ids, base);
    }
  }

  // ---- Whole runs ----

  lemma AdmissibleSnoc(start: Rows, ops: seq<Op>, op: Op)
    requires AdmissibleRun(start, ops) && Admissible(Run(start, ops), op)
    ensures AdmissibleRun(start, ops + [op])
  {
    var more := ops + [op];
    forall n | 0 <= n < |more|
      ensures Admissible(Run(start, more[..n]), more[n])
    {
      assert n < |ops| ==> more[..n] == ops[..n];
      assert n == |ops| ==> more[..n] == ops;
    }
  }

  lemma AdmissibleInit(start: Rows, ops: seq<Op>)
    requires ops != [] && AdmissibleRun(start, ops)
    ensures AdmissibleRun(start, ops[..|ops| - 1]) && Admissible(Run(start, ops[..|ops| - 1]), ops[|ops| - 1])
  {
    var init := ops[..|ops| - 1];
    assert forall n :: 0 <= n < |init| ==> init[..n] == ops[..n];
  }

  /** Without the operations on the rows the run ends without the rows and is otherwise the same. */
  lemma {:induction false} FrontRuns(start: Rows, ops: seq<Op>, ids: set<string>)
    requires TableOk(start) && AdmissibleRun(start, ops) && StayActive(Run(start, ops), ids) && start.Keys !! ids
    ensures Run(start, Front(start, ops, ids)) == Run(start, ops) - ids
    ensures AdmissibleRun(start, Front(start, ops, ids))
  {
    if ops == [] {
      assert start - ids == start;
    } else {
      var init, op := ops[..|ops| - 1], ops[|ops| - 1];
      AdmissibleInit(start, ops);
      RunSound(start, init);
      ActiveBefore(Run(start, init), op, ids);
      FrontRuns(start, init, ids);
      FrontStep(start, init, op, ids);
    }
  }

  lemma {:induction false} FrontStep(start: Rows, init: seq<Op>, op: Op, ids: set<string>)
    requires TableOk(Run(start, init)) && Admissible(Run(start, init), op) && StayActive(Apply(Run(start, init), op), ids)
    requires Run(start, Front(start, init, ids)) == Run(start, init) - ids && AdmissibleRun(start, Front(start, init, ids))
    ensures var front := if Touches(Run(start, init), op, ids) then Front(start, init, ids) else Front(start, init, ids) + [op];
            Run(start, front) == Apply(Run(start, init), op) - ids && AdmissibleRun(start, front)
  {
    var rows, front := Run(start, init), Front(start, init, ids);
    if Touches(rows, op, ids) {
      TouchKeepsRest(rows, op, ids);
    } else {
      StepAside(rows, op, ids);
      RunAppend(start, front, op);
      AdmissibleSnoc(start, front, op);
    }
  }

  lemma TouchKeepsRest(rows: Rows, op: Op, ids: set<string>)
    requires TableOk(rows) && Admissible(rows, op) && Touches(rows, op, ids)
    ensures Apply(rows, op) - ids == rows - ids
  {
    if op.Upsert? {
      UpsertLands(rows, op.d, op.newId, op.now);
    }
  }

  /** The operations on the rows, run over a base that is clear of them, add exactly the rows. */
  lemma {:induction false} BackRuns(start: Rows, ops: seq<Op>, ids: set<string>, base: Rows)
    requires TableOk(start) && AdmissibleRun(start, ops) && StayActive(Run(start, ops), ids) && start.Keys !! ids
    requires Clear(base, Run(start, ops), ids)
    ensures Run(base, Back(start, ops, ids)) == base + Only(Run(start, ops), ids)
    ensures AdmissibleRun(base, Back(start, ops, ids))
  {
    if ops == [] {
      assert base + Only(start, ids) == base;
    } else {
      var init, op := ops[..|ops| - 1], ops[|ops| - 1];
      AdmissibleInit(start, ops);
      RunSound(start, init);
      ActiveBefore(Run(start, init), op, ids);
      ClearBefore(base, Run(start, init), op, ids);
      BackRuns(start, init, ids, base);
      BackStep(start, init, op, ids, base);
    }
  }

  lemma {:induction false} BackStep(start: Rows, init: seq<Op>, op: Op, ids: set<string>, base: Rows)
    requires TableOk(Run(start, init)) && Admissible(Run(start, init), op) && StayActive(Apply(Run(start, init), op), ids)
    requires Clear(base, Apply(Run(start, init), op), ids)
    requires Run(base, Back(start, init, ids)) == base + Only(Run(start, init), ids) && AdmissibleRun(base, Back(start, init, ids))
    ensures var back := if Touches(Run(start, init), op, ids) then Back(start, init, ids) + [op] else Back(start, init, ids);
            Run(base, back) == base + Only(Apply(Run(start, init), op), ids) && AdmissibleRun(base, back)
  {
    var rows, back := Run(start, init), Back(start, init, ids);
    if Touches(rows, op, ids) {
      StepOn(rows, op, ids, base);
      RunAppend(base, back, op);
      AdmissibleSnoc(base, back, op);
    } else {
      StepAside(rows, op, ids);
    }
  }

  /** An operation put before those on the given rows: it acts on the run without them, and they then act on the outcome. */
  lemma {:induction false} PutBefore(start: Rows, ops: seq<Op>, ids: set<string>, op: Op)
    requires TableOk(start) && AdmissibleRun(start, ops) && StayActive(Run(start, ops), ids) && start.Keys !! ids
    requires op.Resolve? && Clear(Apply(Run(start, ops) - ids, op), Run(start, ops), ids)
    ensures var moved := Front(start, ops, ids) + [op] + Back(start, ops, ids);
            && Run(start, moved) == Apply(Run(start, ops) - ids, op) + Only(Run(start, ops), ids)
            && AdmissibleRun(start, moved) && multiset(moved) == multiset(ops + [op])
  {
    var front, back := Front(start, ops, ids), Back(start, ops, ids);
    var base := Apply(Run(start, ops) - ids, op);
    FrontRuns(start, ops, ids);
    RunAppend(start, front, op);
    AdmissibleSnoc(start, front, op);
    BackRuns(start, ops, ids, base);
    RunConcat(start, front + [op], back);
    AdmissibleConcat(start, front + [op], back);
    SplitKeepsAll(start, ops, ids);
  }
}
