/** Fenced, idempotent transitions of the service's own remediation state. */
module LocalTransitions {
  import opened Wrap
  import Text

  datatype LocalAction = RefreshServiceStatus | RerunDiagnostics | ClearStaleWarning | Unsupported(text: string)

  datatype Transition = Transition(
    actionId: string, action: LocalAction, expectedRevision: int, fence: int,
    idempotencyKey: string, auditId: string)

  /** The applied requests map each idempotency key to its digest; the digest is represented by the
      canonical text it is computed from. */
  datatype State = State(
    revision: int, fence: int, statusRefreshRevision: int, diagnosticsRevision: int, staleWarning: bool,
    applied: map<string, string>)

  datatype Error = InvalidRequest | IdempotencyConflict | RevisionConflict | StaleFence

  datatype Result = Result(state: State, replayed: bool, error: Option<Error>)

  const MAX_INT64 := 0x7FFF_FFFF_FFFF_FFFF

  predicate IsInt64(n: int) {
    -MAX_INT64 - 1 <= n <= MAX_INT64
  }

  /** A 64-bit increment wraps around. */
  function Increment(n: int): int {
    if n == MAX_INT64 then -MAX_INT64 - 1 else n + 1
  }

  // ---- Validation ----

  predicate IsIdChar(c: char) {
    'A' <= c <= 'Z' || 'a' <= c <= 'z' || '0' <= c <= '9' || c == '.' || c == '_' || c == ':' || c == '-'
  }

  predicate BoundedId(s: string) {
    && 1 <= |s| <= 128
    && (forall i :: 0 <= i < |s| ==> IsIdChar(s[i]))
    && s[0] != '.' && s[0] != '_' && s[0] != ':' && s[0] != '-'
  }

  predicate IdempotencyKeyOk(s: string) {
    1 <= |s| <= 128 && forall i :: 0 <= i < |s| ==> s[i] as int > 0x1F && s[i] as int != 0x7F
  }

  predicate ValidTransition(t: Transition) {
    && BoundedId(t.actionId) && BoundedId(t.auditId)
    && !t.action.Unsupported?
    && t.expectedRevision >= 1 && t.fence >= 1
    && IdempotencyKeyOk(t.idempotencyKey)
  }

  // ---- The canonical text ----

  function ActionName(a: LocalAction): string {
    match a
    case RefreshServiceStatus => "refresh_service_status"
    case RerunDiagnostics => "rerun_diagnostics"
    case ClearStaleWarning => "clear_stale_warning"
    case Unsupported(text) => text
  }

  function Number(n: int): string {
    if n < 0 then "-" + Text.Decimal(-n) else Text.Decimal(n)
  }

  /** The six fields joined by newlines. */
  function Canonical(t: Transition): string {
    t.actionId + "\n" + (ActionName(t.action) + "\n" + (Number(t.expectedRevision) + "\n"
    + (Number(t.fence) + "\n" + (t.idempotencyKey + "\n" + t.auditId))))
  }

  lemma FieldsHaveNoNewline(t: Transition)
    requires ValidTransition(t)
    ensures '\n' !in t.actionId && '\n' !in ActionName(t.action) && '\n' !in Number(t.expectedRevision)
    ensures '\n' !in Number(t.fence) && '\n' !in t.idempotencyKey
  {
    Text.DecimalDigits(t.expectedRevision);
    Text.DecimalDigits(t.fence);
  }

  /** Two valid requests with one canonical text are the same request. */
  lemma CanonicalInjective(a: Transition, b: Transition)
    requires ValidTransition(a) && ValidTransition(b) && Canonical(a) == Canonical(b)
    ensures a == b
  {
    FieldsHaveNoNewline(a);
    FieldsHaveNoNewline(b);
    var a4, b4 := a.idempotencyKey + "\n" + a.auditId, b.idempotencyKey + "\n" + b.auditId;
    var a3, b3 := Number(a.fence) + "\n" + a4, Number(b.fence) + "\n" + b4;
    var a2, b2 := Number(a.expectedRevision) + "\n" + a3, Number(b.expectedRevision) + "\n" + b3;
    var a1, b1 := ActionName(a.action) + "\n" + a2, ActionName(b.action) + "\n" + b2;
    Text.SplitUnique(a.actionId, a1, b.actionId, b1, '\n');
    Text.SplitUnique(ActionName(a.action), a2, ActionName(b.action), b2, '\n');
    Text.SplitUnique(Number(a.expectedRevision), a3, Number(b.expectedRevision), b3, '\n');
    Text.SplitUnique(Number(a.fence), a4, Number(b.fence), b4, '\n');
    Text.SplitUnique(a.idempotencyKey, a.auditId, b.idempotencyKey, b.auditId, '\n');
    Text.DecimalInjective(a.expectedRevision, b.expectedRevision);
    Text.DecimalInjective(a.fence, b.fence);
    assert |ActionName(a.action)| == |ActionName(b.action)|;
  }

  // ---- One request ----

  function Applied(s: State, t: Transition): State
    requires !t.action.Unsupported?
  {
    var next := match t.action
      case RefreshServiceStatus => s.(statusRefreshRevision := Increment(s.statusRefreshRevision))
      case RerunDiagnostics => s.(diagnosticsRevision := Increment(s.diagnosticsRevision))
      case ClearStaleWarning => s.(staleWarning := false);
    next.(revision := Increment(s.revision), fence := t.fence, applied := s.applied[t.idempotencyKey := Canonical(t)])
  }

  function ApplyLocalTransition(s: State, t: Transition): Result {
    if !ValidTransition(t) then Result(s, false, Some(InvalidRequest))
    else if t.idempotencyKey in s.applied then
      if Canonical(t) != s.applied[t.idempotencyKey] then Result(s, false, Some(IdempotencyConflict))
      else Result(s, true, None)
    else if t.expectedRevision != s.revision then Result(s, false, Some(RevisionConflict))
    else if t.fence <= s.fence then Result(s, false, Some(StaleFence))
    else Result(Applied(s, t), false, None)
  }

  /** The request took effect, as opposed to failing or being recognised as a replay. */
  predicate TakesEffect(s: State, t: Transition) {
    var r := ApplyLocalTransition(s, t);
    r.error.None? && !r.replayed
  }

  // ---- Request sequences ----

  function Run(start: State, requests: seq<Transition>): State {
    if requests == [] then start
    else ApplyLocalTransition(Run(start, requests[..|requests| - 1]), requests[|requests| - 1]).state
  }

  /** The requests that took effect, in order. */
  function Effective(start: State, requests: seq<Transition>): seq<Transition> {
    if requests == [] then []
    else
      var init, t := requests[..|requests| - 1], requests[|requests| - 1];
      Effective(start, init) + if TakesEffect(Run(start, init), t) then [t] else []
  }

  predicate Fresh(start: State) {
    start.applied == map[] && IsInt64(start.revision)
  }

  function Wrapped(n: int): int {
    if n <= MAX_INT64 then n else n - 2 * MAX_INT64 - 2
  }

  function LastFence(start: State, done: seq<Transition>): int {
    if done == [] then start.fence else done[|done| - 1].fence
  }

  /** Revision and fence follow the requests that took effect. */
  ghost predicate Numbered(start: State, s: State, done: seq<Transition>) {
    && start.revision + |done| <= MAX_INT64 + 1 && s.revision == Wrapped(start.revision + |done|)
    && s.fence == LastFence(start, done)
    && (forall i :: 0 <= i < |done| ==> done[i].expectedRevision == start.revision + i && start.fence < done[i].fence <= s.fence)
    && (forall i, j :: 0 <= i < j < |done| ==> done[i].fence < done[j].fence)
  }

  /** The applied map holds exactly their keys, each with its request's canonical text. */
  ghost predicate Keyed(s: State, done: seq<Transition>) {
    && |s.applied| == |done|
    && (forall i :: 0 <= i < |done| ==> Records(s.applied, done[i]))
    && (forall k :: k in s.applied ==> HasKey(done, k))
  }

  predicate Records(applied: map<string, string>, t: Transition) {
    ValidTransition(t) && t.idempotencyKey in applied && applied[t.idempotencyKey] == Canonical(t)
  }

  lemma RecordsMore(applied: map<string, string>, d: Transition, k: string, text: string)
    requires Records(applied, d) && k !in applied
    ensures Records(applied[k := text], d)
  {
  }

  predicate HasKey(done: seq<Transition>, k: string) {
    exists i :: 0 <= i < |done| && done[i].idempotencyKey == k
  }

  ghost predicate Tells(start: State, s: State, done: seq<Transition>) {
    Numbered(start, s, done) && Keyed(s, done)
  }

  lemma EffectNumbers(start: State, s: State, done: seq<Transition>, t: Transition, next: State)
    requires IsInt64(start.revision) && Numbered(start, s, done)
    requires t.expectedRevision == s.revision >= 1 && t.fence > s.fence
    requires next.revision == Increment(s.revision) && next.fence == t.fence
    ensures Numbered(start, next, done + [t])
  {
    var more := done + [t];
    assert forall i :: 0 <= i < |done| ==> more[i] == done[i];
    assert more[|done|] == t;
  }

  lemma EffectKeys(s: State, done: seq<Transition>, t: Transition, next: State)
    requires Keyed(s, done) && ValidTransition(t) && t.idempotencyKey !in s.applied
    requires next.applied == s.applied[t.idempotencyKey := Canonical(t)]
    ensures Keyed(next, done + [t])
  {
    var more := done + [t];
    forall i | 0 <= i < |more|
      ensures Records(next.applied, more[i])
    {
      if i < |done| {
        RecordsMore(s.applied, done[i], t.idempotencyKey, Canonical(t));
      }
    }
    HasKeyMore(s.applied, done, t);
  }

  lemma HasKeyMore(applied: map<string, string>, done: seq<Transition>, t: Transition)
    requires forall k :: k in applied ==> HasKey(done, k)
    ensures forall k :: k in applied || k == t.idempotencyKey ==> HasKey(done + [t], k)
  {
    var more := done + [t];
    forall k | k in applied || k == t.idempotencyKey
      ensures HasKey(more, k)
    {
      if k in applied {
        var i :| 0 <= i < |done| && done[i].idempotencyKey == k;
        assert more[i].idempotencyKey == k;
      } else {
        assert more[|done|].idempotencyKey == k;
      }
    }
  }

  /** Over any request sequence: the revision is the initial one plus the number of distinct applied
      keys (up to the 64-bit wrap, after which nothing takes effect), each request that took effect
      consumed its own revision, and their fences strictly increase. */
  lemma {:induction false} RunTells(start: State, requests: seq<Transition>)
    requires Fresh(start)
    ensures Tells(start, Run(start, requests), Effective(start, requests))
  {
    if requests != [] {
      var init, t := requests[..|requests| - 1], requests[|requests| - 1];
      RunTells(start, init);
      var s, done := Run(start, init), Effective(start, init);
      if TakesEffect(s, t) {
        EffectNumbers(start, s, done, t, Applied(s, t));
        EffectKeys(s, done, t, Applied(s, t));
      } else {
        NoEffectNoChange(s, t);
        assert done + [] == done;
      }
    } else {
      assert Keyed(start, []);
    }
  }

  /** A request that took effect can be sent again at any later time: nothing changes and it is
      reported as a replay. Any other valid request under its key is refused. */
  lemma ReplayOrConflict(start: State, requests: seq<Transition>, done: Transition, t: Transition)
    requires Fresh(start) && done in Effective(start, requests)
    requires t.idempotencyKey == done.idempotencyKey && ValidTransition(t)
    ensures var s := Run(start, requests);
            ApplyLocalTransition(s, t) == if t == done then Result(s, true, None) else Result(s, false, Some(IdempotencyConflict))
  {
    RunTells(start, requests);
    var s, all := Run(start, requests), Effective(start, requests);
    var i :| 0 <= i < |all| && all[i] == done;
    assert Records(s.applied, done);
    if Canonical(t) == Canonical(done) {
      CanonicalInjective(t, done);
    }
  }

  /** What takes effect at a given moment is decided exactly by the compare-and-set, the fence and the key. */
  lemma TakesEffectIff(start: State, requests: seq<Transition>, t: Transition)
    requires Fresh(start)
    ensures var s, done := Run(start, requests), Effective(start, requests);
            TakesEffect(s, t) <==>
            && ValidTransition(t) && !HasKey(done, t.idempotencyKey)
            && t.expectedRevision == start.revision + |done| <= MAX_INT64
            && t.fence > LastFence(start, done)
  {
    RunTells(start, requests);
    DecidedBy(start, Run(start, requests), Effective(start, requests), t);
  }

  lemma DecidedBy(start: State, s: State, done: seq<Transition>, t: Transition)
    requires IsInt64(start.revision) && Numbered(start, s, done) && Keyed(s, done)
    ensures TakesEffect(s, t) <==>
            && ValidTransition(t) && !HasKey(done, t.idempotencyKey)
            && t.expectedRevision == start.revision + |done| <= MAX_INT64
            && t.fence > LastFence(start, done)
  {
    KeyRecorded(s, done, t.idempotencyKey);
    DecidedWith(s, t, HasKey(done, t.idempotencyKey), start.revision + |done|, LastFence(start, done));
  }

  lemma KeyRecorded(s: State, done: seq<Transition>, k: string)
    requires Keyed(s, done)
    ensures k in s.applied <==> HasKey(done, k)
  {
    if HasKey(done, k) {
      var i :| 0 <= i < |done| && done[i].idempotencyKey == k;
      assert Records(s.applied, done[i]);
    }
  }

  lemma DecidedWith(s: State, t: Transition, known: bool, revision: int, fence: int)
    requires known <==> t.idempotencyKey in s.applied
    requires (IsInt64(revision) || revision == MAX_INT64 + 1) && s.revision == Wrapped(revision) && s.fence == fence
    ensures TakesEffect(s, t) <==> ValidTransition(t) && !known && t.expectedRevision == revision <= MAX_INT64 && t.fence > fence
  {
  }

  /** A request that does not take effect leaves the state alone. */
  lemma NoEffectNoChange(s: State, t: Transition)
    ensures !TakesEffect(s, t) ==> ApplyLocalTransition(s, t).state == s
    ensures TakesEffect(s, t) ==> ApplyLocalTransition(s, t).state == Applied(s, t)
  {
  }

  // ---- What the actions do ----

  /** How many of the requests ask for an action. */
  function CountOf(done: seq<Transition>, action: LocalAction): nat {
    if done == [] then 0 else CountOf(done[..|done| - 1], action) + if done[|done| - 1].action == action then 1 else 0
  }

  predicate Asked(done: seq<Transition>, action: LocalAction) {
    exists i :: 0 <= i < |done| && done[i].action == action
  }

  /** A 64-bit counter after so many increments. */
  function Counted(start: int, n: nat): int {
    if n == 0 then start else Increment(Counted(start, n - 1))
  }

  /** Below the wrap that is the sum. */
  lemma {:induction false} CountedIsSum(start: int, n: nat)
    requires start + n <= MAX_INT64
    ensures Counted(start, n) == start + n
  {
    if n > 0 {
      CountedIsSum(start, n - 1);
    }
  }

  lemma AskedSnoc(done: seq<Transition>, t: Transition, action: LocalAction)
    ensures Asked(done + [t], action) <==> Asked(done, action) || t.action == action
    ensures CountOf(done + [t], action) == CountOf(done, action) + if t.action == action then 1 else 0
  {
    var more := done + [t];
    assert more[..|done|] == done && more[|done|] == t;
    if Asked(done, action) {
      var i :| 0 <= i < |done| && done[i].action == action;
      assert more[i].action == action;
    }
    if Asked(more, action) && t.action != action {
      var i :| 0 <= i < |more| && more[i].action == action;
      assert done[i] == more[i];
    }
  }

  /** Each action moves its own part of the state: refreshes count in the status revision, reruns in the diagnostics revision, and the
      stale warning stands exactly if it stood at the start and nothing cleared it. */
  ghost predicate ActionsTold(start: State, s: State, done: seq<Transition>) {
    && s.statusRefreshRevision == Counted(start.statusRefreshRevision, CountOf(done, RefreshServiceStatus))
    && s.diagnosticsRevision == Counted(start.diagnosticsRevision, CountOf(done, RerunDiagnostics))
    && (s.staleWarning <==> start.staleWarning && !Asked(done, ClearStaleWarning))
  }

  lemma {:induction false} RunActs(start: State, requests: seq<Transition>)
    ensures ActionsTold(start, Run(start, requests), Effective(start, requests))
  {
    if requests != [] {
      var init, t := requests[..|requests| - 1], requests[|requests| - 1];
      RunActs(start, init);
      var s, done := Run(start, init), Effective(start, init);
      NoEffectNoChange(s, t);
      if TakesEffect(s, t) {
        AskedSnoc(done, t, RefreshServiceStatus);
        AskedSnoc(done, t, RerunDiagnostics);
        AskedSnoc(done, t, ClearStaleWarning);
      } else {
        assert done + [] == done;
      }
    }
  }

  /** What takes effect passed every check of the request, field by field. */
  lemma {:induction false} EffectiveChecked(start: State, requests: seq<Transition>, t: Transition)
    requires t in Effective(start, requests)
    ensures t in requests && t.expectedRevision >= 1 && t.fence >= 1 && !t.action.Unsupported?
    ensures 1 <= |t.actionId| <= 128 && 1 <= |t.auditId| <= 128 && 1 <= |t.idempotencyKey| <= 128
    ensures forall i :: 0 <= i < |t.idempotencyKey| ==> t.idempotencyKey[i] as int > 0x1F && t.idempotencyKey[i] as int != 0x7F
  {
    if requests != [] {
      var init, last := requests[..|requests| - 1], requests[|requests| - 1];
      if t in Effective(start, init) {
        EffectiveChecked(start, init, t);
      }
    }
  }
}
