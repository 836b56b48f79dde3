/** Remediation actions: how they are built, approved, executed and handed to the Control Panel. */
module Remediation {
  import opened Wrap
  import Text

  datatype Mode = ModeDisabled | SuggestOnly | SafeAuto | ManualApproval

  function NormalizeMode(mode: string): Mode {
    var m := Text.ToLower(Text.TrimSpace(mode));
    if m == "disabled" then ModeDisabled
    else if m == "safe_auto" then SafeAuto
    else if m == "manual_approval" then ManualApproval
    else SuggestOnly
  }

  datatype Status = Disabled | Suggested | PendingApproval | Approved | Executed | Blocked

  predicate Terminal(s: Status) {
    s.Executed? || s.Blocked?
  }

  datatype ActionClass = Unknown | LocalTransition | ApplicationProposal | HostProposalOnly | Forbidden

  predicate IsDangerous(action: string) {
    action in ["delete_archives", "rotate_credentials", "change_roles", "stop_live_stream",
               "recreate_youtube_broadcast", "revoke_service_tokens"]
  }

  predicate IsLocalTransition(action: string) {
    Text.TrimSpace(action) in ["refresh_service_status", "rerun_diagnostics", "clear_stale_warning"]
  }

  predicate IsRetryProposal(action: string) {
    Text.TrimSpace(action) in ["retry_gdrive_upload", "retry_package_remux"]
  }

  predicate IsHostAction(action: string) {
    action in ["restart_service", "restart_encoder_recorder", "restart_youtube_rtmps_output", "reconnect_discord_voice",
               "restart_discord_bot", "restart_worker"]
  }

  predicate IsSafeAuto(action: string) {
    action in ["retry_gdrive_upload", "refresh_service_status", "rerun_diagnostics", "clear_stale_warning", "retry_package_remux"]
  }

  function Classify(action: string): ActionClass {
    var a := Text.TrimSpace(action);
    if IsDangerous(a) then Forbidden
    else if IsLocalTransition(a) then LocalTransition
    else if IsRetryProposal(a) then ApplicationProposal
    else if IsHostAction(a) then HostProposalOnly
    else Unknown
  }

  predicate RequiresDispatch(action: string) {
    Classify(action).ApplicationProposal?
  }

  datatype Note =
    | NoNote | AlreadyTerminal | RemediationDisabled | ModeIsSuggestOnly | ApprovalRequired | NeverAutoExecuted
    | UnsupportedAction | NotMarkedSafe | RecordedNoop | LocalRecorded | ProposalReady
    | NoIncident | NoStream | DispatchFailed | DispatchExecuted

  datatype Action = Action(
    name: string, mode: Mode, status: Status, safeAuto: bool, requiresApproval: bool, result: Note, executedAt: Option<int>)

  // ---- Building ----

  function InitialStatus(mode: Mode, requiresApproval: bool): Status {
    if mode.ModeDisabled? then Disabled
    else if requiresApproval || mode.ManualApproval? then PendingApproval
    else Suggested
  }

  predicate Buildable(name: string) {
    name != "" && !Classify(name).Unknown? && !Classify(name).Forbidden?
  }

  function Built(name: string, mode: Mode, requiresApproval: bool): Action {
    Action(name, mode, InitialStatus(mode, requiresApproval), !requiresApproval && IsSafeAuto(name), requiresApproval, NoNote, None)
  }

  /** The trimmed candidates that pass and were not seen before, at their first occurrence. */
  function Picked(candidates: seq<string>, keep: string -> bool, skip: set<string>): seq<string> {
    if candidates == [] then []
    else
      var before := Picked(candidates[..|candidates| - 1], keep, skip);
      var name := Text.TrimSpace(candidates[|candidates| - 1]);
      if keep(name) && name !in skip && name !in before then before + [name] else before
  }

  predicate Offers(candidates: seq<string>, name: string) {
    exists i :: 0 <= i < |candidates| && Text.TrimSpace(candidates[i]) == name
  }

  lemma OffersSnoc(candidates: seq<string>, name: string)
    requires candidates != []
    ensures var last := |candidates| - 1;
            Offers(candidates, name) == (Offers(candidates[..last], name) || Text.TrimSpace(candidates[last]) == name)
  {
    var last := |candidates| - 1;
    if Offers(candidates[..last], name) {
      var i :| 0 <= i < last && Text.TrimSpace(candidates[..last][i]) == name;
      assert candidates[i] == candidates[..last][i];
    }
    if Offers(candidates, name) && Text.TrimSpace(candidates[last]) != name {
      var i :| 0 <= i <= last && Text.TrimSpace(candidates[i]) == name;
      assert candidates[..last][i] == candidates[i];
    }
  }

  lemma {:induction false} PickedMember(candidates: seq<string>, keep: string -> bool, skip: set<string>, name: string)
    ensures name in Picked(candidates, keep, skip) <==> Offers(candidates, name) && keep(name) && name !in skip
  {
    if candidates != [] {
      PickedMember(candidates[..|candidates| - 1], keep, skip, name);
      OffersSnoc(candidates, name);
    }
  }

  predicate NoRepeat(names: seq<string>) {
    forall i, j :: 0 <= i < j < |names| ==> names[i] != names[j]
  }

  lemma NoRepeatSnoc(names: seq<string>, name: string)
    requires NoRepeat(names) && name !in names
    ensures NoRepeat(names + [name])
  {
  }

  lemma {:induction false} PickedOnce(candidates: seq<string>, keep: string -> bool, skip: set<string>)
    ensures NoRepeat(Picked(candidates, keep, skip))
  {
    if candidates != [] {
      var before, name := Picked(candidates[..|candidates| - 1], keep, skip), Text.TrimSpace(candidates[|candidates| - 1]);
      PickedOnce(candidates[..|candidates| - 1], keep, skip);
      if name !in before {
        NoRepeatSnoc(before, name);
      }
    }
  }

  lemma {:induction false} PickedGrows(candidates: seq<string>, keep: string -> bool, skip: set<string>, n: nat)
    requires n <= |candidates|
    ensures Picked(candidates[..n], keep, skip) <= Picked(candidates, keep, skip)
    decreases |candidates|
  {
    if n == |candidates| {
      assert candidates[..n] == candidates;
    } else {
      var init := candidates[..|candidates| - 1];
      assert init[..n] == candidates[..n];
      PickedGrows(init, keep, skip, n);
    }
  }

  /** A name is picked exactly when some candidate trims to it, it passes and it is not skipped; never twice;
      and the picks of a longer list extend those of a shorter one, so the order is that of first occurrence. */
  lemma PickedLaws(candidates: seq<string>, keep: string -> bool, skip: set<string>, name: string, n: nat)
    requires n <= |candidates|
    ensures var p := Picked(candidates, keep, skip);
            && (name in p <==> Offers(candidates, name) && keep(name) && name !in skip)
            && NoRepeat(p) && Picked(candidates[..n], keep, skip) <= p
  {
    PickedMember(candidates, keep, skip, name);
    PickedOnce(candidates, keep, skip);
    PickedGrows(candidates, keep, skip, n);
  }

  /** One of the two loops: an action for every pick, in order, and what is seen afterwards. */
  method BuildList(candidates: seq<string>, keep: string -> bool, make: string -> Action, skip: set<string>)
      returns (actions: seq<Action>, seen: set<string>)
    ensures var p := Picked(candidates, keep, skip);
            && |actions| == |p| && (forall i :: 0 <= i < |p| ==> actions[i] == make(p[i]))
            && seen == skip + set name | name in p
  {
    actions, seen := [], skip;
    ghost var p := [];
    for n := 0 to |candidates|
      invariant p == Picked(candidates[..n], keep, skip)
      invariant |actions| == |p| && forall i :: 0 <= i < |p| ==> actions[i] == make(p[i])
      invariant forall name :: name in seen <==> name in skip || name in p
    {
      var name := Text.TrimSpace(candidates[n]);
      assert candidates[..n + 1][..n] == candidates[..n];
      if !keep(name) || name in seen {
        continue;
      }
      seen := seen + {name};
      actions := actions + [make(name)];
      p := p + [name];
    }
    assert candidates[..|candidates|] == candidates;
  }

  /** Each known, not forbidden candidate becomes one action in order of first occurrence; a name that is
      also a safe candidate needs no approval. */
  method BuildActions(safe: seq<string>, approval: seq<string>, configured: string) returns (safeActions: seq<Action>, approvalActions: seq<Action>)
    ensures var mode, p := NormalizeMode(configured), Picked(safe, Buildable, {});
            && |safeActions| == |p| && (forall i :: 0 <= i < |p| ==> safeActions[i] == Built(p[i], mode, false))
    ensures var mode, p := NormalizeMode(configured), Picked(approval, Buildable, set name | name in Picked(safe, Buildable, {}));
            && |approvalActions| == |p| && (forall i :: 0 <= i < |p| ==> approvalActions[i] == Built(p[i], mode, true))
  {
    var mode := NormalizeMode(configured);
    var seen;
    safeActions, seen := BuildList(safe, Buildable, name => Built(name, mode, false), {});
    assert seen == set name | name in Picked(safe, Buildable, {});
    approvalActions, seen := BuildList(approval, Buildable, name => Built(name, mode, true), seen);
  }

  // ---- Approving and executing ----

  function Approve(a: Action): Action {
    if a.status.PendingApproval? then a.(status := Approved) else a
  }

  function Block(a: Action, note: Note): Action {
    a.(status := Blocked, result := note)
  }

  /** Executing an action of a given class. */
  function ExecuteAs(a: Action, kind: ActionClass, now: int): Action {
    if Terminal(a.status) then (if a.result.NoNote? then a.(result := AlreadyTerminal) else a)
    else if a.mode.ModeDisabled? || a.status.Disabled? then Block(a, RemediationDisabled)
    else if a.mode.SuggestOnly? then Block(a, ModeIsSuggestOnly)
    else if a.mode.ManualApproval? && !a.status.Approved? then Block(a, ApprovalRequired)
    else if kind.Forbidden? then Block(a, NeverAutoExecuted)
    else if kind.Unknown? then Block(a, UnsupportedAction)
    else if a.requiresApproval && !a.status.Approved? then Block(a, ApprovalRequired)
    else if !a.safeAuto && !a.requiresApproval then Block(a, NotMarkedSafe)
    else if kind.HostProposalOnly? then a.(status := Executed, result := RecordedNoop, executedAt := Some(now))
    else a.(status := Executed, result := if kind.LocalTransition? then LocalRecorded else ProposalReady, executedAt := Some(now))
  }

  function Execute(a: Action, now: int): Action {
    ExecuteAs(a, Classify(a.name), now)
  }

  /** What the surroundings answer to one execute request. */
  datatype Env = Env(incidentFound: bool, streamBlank: bool, dispatchAccepted: bool, stored: bool, now: int)

  /** Whether the handler calls the Control Panel for an action of a given class. */
  predicate DispatchesAs(a: Action, kind: ActionClass, env: Env) {
    && !Terminal(a.status) && ExecuteAs(a, kind, env.now).status.Executed? && kind.ApplicationProposal?
    && env.incidentFound && !env.streamBlank
  }

  predicate Dispatches(a: Action, env: Env) {
    DispatchesAs(a, Classify(a.name), env)
  }

  /** The action of a given class that the execute handler tries to store. */
  function HandledAs(a: Action, kind: ActionClass, env: Env): Action {
    if Terminal(a.status) then a
    else
      var done := ExecuteAs(a, kind, env.now);
      if done.status.Executed? && kind.ApplicationProposal? then
        if !env.incidentFound then done.(status := Blocked, result := NoIncident, executedAt := None)
        else if env.streamBlank then done.(status := Blocked, result := NoStream, executedAt := None)
        else if !env.dispatchAccepted then done.(status := Blocked, result := DispatchFailed, executedAt := None)
        else done.(result := DispatchExecuted)
      else done
  }

  function Handled(a: Action, env: Env): Action {
    HandledAs(a, Classify(a.name), env)
  }

  datatype Step = ApproveStep(stored: bool) | ExecuteStep(env: Env)

  function AfterAs(a: Action, kind: ActionClass, s: Step): Action {
    match s
    case ApproveStep(stored) => if stored then Approve(a) else a
    case ExecuteStep(env) => if env.stored then HandledAs(a, kind, env) else a
  }

  function After(a: Action, s: Step): Action {
    AfterAs(a, Classify(a.name), s)
  }

  function Run(a: Action, steps: seq<Step>): Action {
    if steps == [] then a else After(Run(a, steps[..|steps| - 1]), steps[|steps| - 1])
  }

  predicate DispatchesAt(a: Action, s: Step) {
    s.ExecuteStep? && Dispatches(a, s.env)
  }

  predicate DispatchesAtAs(a: Action, kind: ActionClass, s: Step) {
    s.ExecuteStep? && DispatchesAs(a, kind, s.env)
  }

  function Dispatched(a: Action, steps: seq<Step>): nat {
    if steps == [] then 0
    else
      var before := Run(a, steps[..|steps| - 1]);
      Dispatched(a, steps[..|steps| - 1]) + if DispatchesAt(before, steps[|steps| - 1]) then 1 else 0
  }

  /** Dispatches whose outcome was then not stored. */
  function Lost(a: Action, steps: seq<Step>): nat {
    if steps == [] then 0
    else
      var before, s := Run(a, steps[..|steps| - 1]), steps[|steps| - 1];
      Lost(a, steps[..|steps| - 1]) + if DispatchesAt(before, s) && !s.env.stored then 1 else 0
  }

  /** An approval was stored at some earlier step. */
  predicate WasApproved(a: Action, steps: seq<Step>) {
    steps != [] && (WasApproved(a, steps[..|steps| - 1])
                    || (steps[|steps| - 1] == ApproveStep(true) && Run(a, steps[..|steps| - 1]).status.PendingApproval?))
  }

  predicate NeedsApproval(a: Action) {
    a.mode.ManualApproval? || a.requiresApproval
  }

  /** What a run that reached an action keeps, given whether it was approved and how often it was dispatched and lost. */
  predicate KeptSoFar(start: Action, kind: ActionClass, a: Action, approved: bool, dispatched: nat, lost: nat) {
    && a.name == start.name && a.mode == start.mode && a.safeAuto == start.safeAuto && a.requiresApproval == start.requiresApproval
    && (a.status.Disabled? ==> a.mode.ModeDisabled?)
    && (a.status.Approved? ==> approved)
    && (NeedsApproval(a) && (a.status.Executed? || dispatched > 0) ==> approved)
    && (a.mode.ModeDisabled? || a.mode.SuggestOnly? ==> !a.status.Executed? && dispatched == 0)
    && (dispatched > 0 ==> kind.ApplicationProposal?)
    && dispatched <= lost + (if Terminal(a.status) then 1 else 0)
  }

  ghost predicate Kept(start: Action, steps: seq<Step>) {
    KeptSoFar(start, Classify(start.name), Run(start, steps), WasApproved(start, steps), Dispatched(start, steps), Lost(start, steps))
  }

  lemma StepKept(start: Action, kind: ActionClass, a: Action, approved: bool, dispatched: nat, lost: nat, s: Step)
    requires KeptSoFar(start, kind, a, approved, dispatched, lost)
    ensures KeptSoFar(start, kind, AfterAs(a, kind, s), approved || (s == ApproveStep(true) && a.status.PendingApproval?),
                      dispatched + (if DispatchesAtAs(a, kind, s) then 1 else 0),
                      lost + if DispatchesAtAs(a, kind, s) && !s.env.stored then 1 else 0)
  {
  }

  /** Over any sequence of approve and execute requests on a built action: what needs approval ran or
      was dispatched only after an approval, nothing runs or is dispatched in the disabled and suggest-only
      modes, only application proposals are dispatched, and each action is dispatched at most once
      plus once more for every dispatch whose outcome was not stored. */
  lemma {:induction false} RunKept(name: string, mode: Mode, requiresApproval: bool, steps: seq<Step>)
    ensures Kept(Built(name, mode, requiresApproval), steps)
  {
    if steps != [] {
      RunKept(name, mode, requiresApproval, steps[..|steps| - 1]);
      var start, before, s := Built(name, mode, requiresApproval), steps[..|steps| - 1], steps[|steps| - 1];
      StepKept(start, Classify(start.name), Run(start, before), WasApproved(start, before), Dispatched(start, before), Lost(start, before), s);
    }
  }

  /** Dispatches whose outcome was stored. */
  function Settled(a: Action, steps: seq<Step>): nat {
    if steps == [] then 0
    else
      var before, s := Run(a, steps[..|steps| - 1]), steps[|steps| - 1];
      Settled(a, steps[..|steps| - 1]) + if DispatchesAt(before, s) && s.env.stored then 1 else 0
  }

  lemma {:induction false} DispatchesSplit(start: Action, steps: seq<Step>)
    ensures Dispatched(start, steps) == Lost(start, steps) + Settled(start, steps)
  {
    if steps != [] {
      DispatchesSplit(start, steps[..|steps| - 1]);
    }
  }

  /** Each dispatch of a built action either lost its outcome or is the one whose outcome was stored. */
  lemma DispatchedIsLostPlusOne(name: string, mode: Mode, requiresApproval: bool, steps: seq<Step>)
    ensures var start := Built(name, mode, requiresApproval);
            && Dispatched(start, steps) == Lost(start, steps) + Settled(start, steps)
            && Settled(start, steps) <= 1 && (Settled(start, steps) == 1 ==> Terminal(Run(start, steps).status))
  {
    DispatchesSplit(Built(name, mode, requiresApproval), steps);
    RunKept(name, mode, requiresApproval, steps);
  }

  predicate AllStored(steps: seq<Step>) {
    forall i :: 0 <= i < |steps| ==> steps[i].ExecuteStep? ==> steps[i].env.stored
  }

  /** With every outcome stored, each action is dispatched at most once. */
  lemma DispatchedAtMostOnce(name: string, mode: Mode, requiresApproval: bool, steps: seq<Step>)
    requires AllStored(steps)
    ensures Dispatched(Built(name, mode, requiresApproval), steps) <= 1
  {
    RunKept(name, mode, requiresApproval, steps);
    assert [] + steps == steps;
    LostStays(Built(name, mode, requiresApproval), [], steps);
  }

  /** Storing every outcome from now on loses none. */
  lemma {:induction false} LostStays(start: Action, steps: seq<Step>, more: seq<Step>)
    requires AllStored(more)
    ensures Lost(start, steps + more) == Lost(start, steps)
  {
    if more == [] {
      assert steps + more == steps;
    } else {
      var init := more[..|more| - 1];
      assert forall i :: 0 <= i < |init| ==> init[i] == more[i];
      LostStays(start, steps, init);
      assert (steps + more)[..|steps + more| - 1] == steps + init;
    }
  }

  /** Nothing is dispatched from a terminal action. */
  lemma {:induction false} TerminalStays(start: Action, steps: seq<Step>, more: seq<Step>)
    requires Terminal(Run(start, steps).status)
    ensures Run(start, steps + more) == Run(start, steps) && Dispatched(start, steps + more) == Dispatched(start, steps)
  {
    if more == [] {
      assert steps + more == steps;
    } else {
      TerminalStays(start, steps, more[..|more| - 1]);
      assert (steps + more)[..|steps + more| - 1] == steps + more[..|more| - 1];
      ExecuteEndsTerminal(Run(start, steps), Env(true, false, true, true, 0), more[|more| - 1]);
    }
  }

  /** An action that lost an outcome and is not terminal is dispatched again as soon as it is executed. */
  lemma {:induction false} LostRemainsOpen(start: Action, steps: seq<Step>, now: int)
    requires Lost(start, steps) > 0
    ensures Terminal(Run(start, steps).status) || WouldDispatch(Run(start, steps), now)
  {
    var init, s := steps[..|steps| - 1], steps[|steps| - 1];
    if Lost(start, init) > 0 {
      LostRemainsOpen(start, init, now);
      OpenStep(Run(start, init), s, now);
    }
  }

  lemma OpenStep(a: Action, s: Step, now: int)
    requires Terminal(a.status) || WouldDispatch(a, now)
    ensures Terminal(After(a, s).status) || WouldDispatch(After(a, s), now)
  {
    if !Terminal(a.status) && s.ExecuteStep? {
      ExecuteEndsTerminal(a, s.env, s);
    }
  }

  /** Dispatched at most once in all, however the run goes on with every outcome stored. */
  ghost predicate OnceFrom(start: Action, steps: seq<Step>) {
    forall more :: AllStored(more) ==> Dispatched(start, steps + more) <= 1
  }

  /** That is so exactly when no outcome was lost so far, or the only dispatch was lost and the action has ended since. */
  lemma OnceFromIff(name: string, mode: Mode, requiresApproval: bool, steps: seq<Step>)
    ensures var start := Built(name, mode, requiresApproval);
            OnceFrom(start, steps) <==> Lost(start, steps) == 0 || (Dispatched(start, steps) == 1 && Terminal(Run(start, steps).status))
  {
    var start := Built(name, mode, requiresApproval);
    if Lost(start, steps) == 0 || (Dispatched(start, steps) == 1 && Terminal(Run(start, steps).status)) {
      forall more | AllStored(more)
        ensures Dispatched(start, steps + more) <= 1
      {
        OnceSuffices(name, mode, requiresApproval, steps, more);
      }
    } else {
      OnceFails(name, mode, requiresApproval, steps);
    }
  }

  lemma OnceSuffices(name: string, mode: Mode, requiresApproval: bool, steps: seq<Step>, more: seq<Step>)
    requires AllStored(more)
    requires var start := Built(name, mode, requiresApproval);
             Lost(start, steps) == 0 || (Dispatched(start, steps) == 1 && Terminal(Run(start, steps).status))
    ensures Dispatched(Built(name, mode, requiresApproval), steps + more) <= 1
  {
    var start := Built(name, mode, requiresApproval);
    if Lost(start, steps) == 0 {
      LostStays(start, steps, more);
      DispatchedIsLostPlusOne(name, mode, requiresApproval, steps + more);
    } else {
      TerminalStays(start, steps, more);
    }
  }

  lemma OnceFails(name: string, mode: Mode, requiresApproval: bool, steps: seq<Step>)
    requires var start := Built(name, mode, requiresApproval);
             Lost(start, steps) > 0 && !(Dispatched(start, steps) == 1 && Terminal(Run(start, steps).status))
    ensures !OnceFrom(Built(name, mode, requiresApproval), steps)
  {
    var start, again := Built(name, mode, requiresApproval), ExecuteStep(Env(true, false, true, true, 0));
    DispatchesSplit(start, steps);
    if Dispatched(start, steps) > 1 {
      assert AllStored([]) && steps + [] == steps;
    } else {
      LostRemainsOpen(start, steps, 0);
      assert (steps + [again])[..|steps|] == steps;
      assert AllStored([again]) && Dispatched(start, steps + [again]) == 2;
    }
  }

  lemma RetryIsDispatched()
    ensures RequiresDispatch("retry_gdrive_upload")
  {
    var name := "retry_gdrive_upload";
    Text.TrimSpaceLaws(name);
    assert name[2] == 't' && !IsDangerous(name) && !IsLocalTransition(name);
  }

  /** A lost outcome does lead to a second dispatch. */
  lemma LostOutcomeDispatchesAgain(now: int)
    ensures var start := Built("retry_gdrive_upload", SafeAuto, false);
            var lost := ExecuteStep(Env(true, false, true, false, now));
            Dispatched(start, [lost, lost]) == 2
  {
    RetryIsDispatched();
    var start := Built("retry_gdrive_upload", SafeAuto, false);
    var lost := ExecuteStep(Env(true, false, true, false, now));
    assert [lost, lost][..1] == [lost] && [lost][..0] == [];
    assert Run(start, []) == start && Run(start, [lost]) == start;
    assert Dispatched(start, []) == 0;
    assert Dispatched(start, [lost]) == 1;
  }

  /** An execute request whose outcome is stored ends terminal, and nothing changes a terminal action. */
  lemma ExecuteEndsTerminal(a: Action, env: Env, s: Step)
    ensures Terminal(Handled(a, env).status)
    ensures Terminal(a.status) ==> After(a, s) == a && !DispatchesAt(a, s)
  {
    EndsTerminalAs(a, Classify(a.name), env, s);
  }

  lemma EndsTerminalAs(a: Action, kind: ActionClass, env: Env, s: Step)
    ensures Terminal(HandledAs(a, kind, env).status)
    ensures Terminal(a.status) ==> AfterAs(a, kind, s) == a && !DispatchesAtAs(a, kind, s)
  {
  }

  // ---- The dispatch context ----

  predicate DispatchExecutable(a: Action) {
    DispatchExecutableAs(a, Classify(a.name), IsDangerous(a.name))
  }

  predicate DispatchExecutableAs(a: Action, kind: ActionClass, dangerous: bool) {
    if Terminal(a.status) || dangerous || !kind.ApplicationProposal? then false
    else if a.mode.ModeDisabled? || a.mode.SuggestOnly? then false
    else if a.mode.ManualApproval? && !a.status.Approved? then false
    else if a.requiresApproval && !a.status.Approved? then false
    else a.safeAuto || a.requiresApproval
  }

  /** What executing the action now would do, given an incident with a stream. */
  predicate WouldDispatch(a: Action, now: int) {
    Dispatches(a, Env(true, false, true, true, now))
  }

  lemma DangerousIsForbidden(name: string)
    requires IsDangerous(name)
    ensures Classify(name).Forbidden?
  {
    DangerousIsTrimmed(name);
    Text.TrimSpaceLaws(name);
  }

  lemma DangerousIsTrimmed(name: string)
    requires IsDangerous(name)
    ensures Text.Trimmed(name)
  {
    assert name[0] in "drsc" && name[|name| - 1] in "esmt";
  }

  /** The context agrees with the execution except for a safe, disabled proposal stored under the automatic mode. */
  lemma ContextAgreesIff(a: Action, now: int)
    ensures DispatchExecutable(a) == WouldDispatch(a, now)
            <==> !(a.status.Disabled? && a.mode.SafeAuto? && a.safeAuto && !a.requiresApproval && RequiresDispatch(a.name))
  {
    if IsDangerous(a.name) {
      DangerousIsForbidden(a.name);
    }
    ContextAgreesAs(a, Classify(a.name), IsDangerous(a.name), now);
  }

  lemma ContextAgreesAs(a: Action, kind: ActionClass, dangerous: bool, now: int)
    requires dangerous ==> kind.Forbidden?
    ensures DispatchExecutableAs(a, kind, dangerous) == DispatchesAs(a, kind, Env(true, false, true, true, now))
            <==> !(a.status.Disabled? && a.mode.SafeAuto? && a.safeAuto && !a.requiresApproval && kind.ApplicationProposal?)
  {
  }

  /** Such an action is never reached, so along every run the two agree. */
  lemma ContextAgreesOnRuns(name: string, mode: Mode, requiresApproval: bool, steps: seq<Step>, now: int)
    ensures var a := Run(Built(name, mode, requiresApproval), steps);
            DispatchExecutable(a) == WouldDispatch(a, now)
  {
    RunKept(name, mode, requiresApproval, steps);
    ContextAgreesIff(Run(Built(name, mode, requiresApproval), steps), now);
  }

  // ---- Which names run, and when ----

  const LOCAL_NAMES := {"refresh_service_status", "rerun_diagnostics", "clear_stale_warning"}

  const RETRY_NAMES := {"retry_gdrive_upload", "retry_package_remux"}

  const HOST_NAMES := {
    "restart_service", "restart_encoder_recorder", "restart_youtube_rtmps_output", "reconnect_discord_voice",
    "restart_discord_bot", "restart_worker"}

  const DANGEROUS_NAMES := {
    "delete_archives", "rotate_credentials", "change_roles", "stop_live_stream", "recreate_youtube_broadcast", "revoke_service_tokens"}

  lemma DangerousShape(t: string)
    requires t in DANGEROUS_NAMES
    ensures |t| in {12, 15, 16, 18, 21, 26} && (|t| == 15 ==> t[0] == 'd')
  {
  }

  lemma LocalShape(t: string)
    requires t in LOCAL_NAMES
    ensures |t| in {17, 19, 22} && (|t| == 19 ==> t[0] == 'c')
  {
  }

  lemma RetryShape(t: string)
    requires t in RETRY_NAMES
    ensures |t| == 19 && t[0] == 'r' && t[2] == 't'
  {
  }

  lemma HostShape(t: string)
    requires t in HOST_NAMES
    ensures |t| in {14, 15, 19, 23, 24, 28} && t[0] == 'r' && (|t| == 19 ==> t[2] == 's')
  {
  }

  /** The class of a name, by the names themselves: the four lists do not overlap, and every other name is unknown. */
  lemma ClassNamed(name: string)
    ensures var t := Text.TrimSpace(name);
            && (Classify(name).Forbidden? <==> t in DANGEROUS_NAMES)
            && (Classify(name).LocalTransition? <==> t in LOCAL_NAMES)
            && (Classify(name).ApplicationProposal? <==> t in RETRY_NAMES)
            && (Classify(name).HostProposalOnly? <==> t in HOST_NAMES)
  {
    var t := Text.TrimSpace(name);
    Text.TrimSpaceLaws(name);
    ListsNamed(t);
    if t in DANGEROUS_NAMES {
      DangerousShape(t);
    }
    if t in LOCAL_NAMES {
      LocalShape(t);
    }
    if t in RETRY_NAMES {
      RetryShape(t);
    }
    if t in HOST_NAMES {
      HostShape(t);
    }
  }

  lemma ListsNamed(t: string)
    requires Text.TrimSpace(t) == t
    ensures IsDangerous(t) <==> t in DANGEROUS_NAMES
    ensures IsLocalTransition(t) <==> t in LOCAL_NAMES
    ensures IsRetryProposal(t) <==> t in RETRY_NAMES
    ensures IsHostAction(t) <==> t in HOST_NAMES
  {
  }

  predicate NoneStored(steps: seq<Step>) {
    forall i :: 0 <= i < |steps| && steps[i].ExecuteStep? ==> !steps[i].env.stored
  }

  predicate ApproveStored(steps: seq<Step>) {
    exists i :: 0 <= i < |steps| && steps[i] == ApproveStep(true)
  }

  /** Until its first stored execution an action waits: disabled, suggested, or for the approval that it or the mode asks for, and once an approval
      is stored it is kept. */
  lemma {:induction false} BeforeFirst(name: string, mode: Mode, requiresApproval: bool, steps: seq<Step>)
    requires NoneStored(steps)
    ensures var start := Built(name, mode, requiresApproval);
            Run(start, steps) == start.(status := if start.status.PendingApproval? && ApproveStored(steps) then Approved else start.status)
    ensures Run(Built(name, mode, requiresApproval), steps).status
            == if mode.ModeDisabled? then Disabled
               else if !requiresApproval && !mode.ManualApproval? then Suggested
               else if ApproveStored(steps) then Approved
               else PendingApproval
  {
    if steps != [] {
      var init, last := steps[..|steps| - 1], |steps| - 1;
      assert forall i :: 0 <= i < last ==> init[i] == steps[i];
      BeforeFirst(name, mode, requiresApproval, init);
      ApproveStoredSnoc(steps);
    }
  }

  lemma ApproveStoredSnoc(steps: seq<Step>)
    requires steps != []
    ensures ApproveStored(steps) <==> ApproveStored(steps[..|steps| - 1]) || steps[|steps| - 1] == ApproveStep(true)
  {
    var init, last := steps[..|steps| - 1], |steps| - 1;
    if i :| 0 <= i < last && init[i] == ApproveStep(true) {
      assert steps[i] == ApproveStep(true);
    }
    if i :| 0 <= i < last && steps[i] == ApproveStep(true) {
      assert init[i] == ApproveStep(true);
    }
  }

  /** Executing an action that waits or has been approved, by its class. */
  lemma ExecutedAs(name: string, kind: ActionClass, mode: Mode, requiresApproval: bool, approved: bool, safe: bool, env: Env)
    ensures var first := InitialStatus(mode, requiresApproval);
            var a := Action(name, mode, if first.PendingApproval? && approved then Approved else first, safe, requiresApproval, NoNote, None);
            var done := HandledAs(a, kind, env);
            && (done.status.Executed? <==>
                && (mode.SafeAuto? || mode.ManualApproval?) && !kind.Unknown? && !kind.Forbidden?
                && (safe || requiresApproval) && (mode.ManualApproval? || requiresApproval ==> approved)
                && (kind.ApplicationProposal? ==> env.incidentFound && !env.streamBlank && env.dispatchAccepted))
            && done.executedAt == (if done.status.Executed? then Some(env.now) else None)
            && (done.status.Executed? ==>
                  done.result == if kind.HostProposalOnly? then RecordedNoop else if kind.LocalTransition? then LocalRecorded else DispatchExecuted)
  {
  }

  /** A built action's first stored execution ends executed exactly when the mode is automatic or manual, the name is on one of the three lists, it
      is marked safe or requires approval, where approval is needed one was stored before, and a retry found its incident and its stream and was
      accepted by the Control Panel. A host action is then only recorded, a local one too, and a retry has been dispatched. */
  lemma FirstExecuteIff(name: string, mode: Mode, requiresApproval: bool, before: seq<Step>, env: Env)
    requires NoneStored(before) && env.stored
    ensures var a, t := Run(Built(name, mode, requiresApproval), before + [ExecuteStep(env)]), Text.TrimSpace(name);
            && (a.status.Executed? <==>
                && (mode.SafeAuto? || mode.ManualApproval?) && (t in LOCAL_NAMES || t in RETRY_NAMES || t in HOST_NAMES)
                && (requiresApproval || name in LOCAL_NAMES || name in RETRY_NAMES)
                && (mode.ManualApproval? || requiresApproval ==> ApproveStored(before))
                && (t in RETRY_NAMES ==> env.incidentFound && !env.streamBlank && env.dispatchAccepted))
            && (!a.status.Executed? ==> a.status.Blocked?)
            && a.executedAt == (if a.status.Executed? then Some(env.now) else None)
            && (a.status.Executed? ==>
                  a.result == if t in HOST_NAMES then RecordedNoop else if t in LOCAL_NAMES then LocalRecorded else DispatchExecuted)
  {
    var start, s := Built(name, mode, requiresApproval), ExecuteStep(env);
    BeforeFirst(name, mode, requiresApproval, before);
    assert (before + [s])[..|before|] == before;
    var waiting := Run(start, before);
    ClassNamed(name);
    SafeNamed(name);
    ExecutedAs(name, Classify(name), mode, requiresApproval, ApproveStored(before), start.safeAuto, env);
    EndsTerminalAs(waiting, Classify(name), env, s);
  }

  lemma DispatchedAs(name: string, kind: ActionClass, mode: Mode, requiresApproval: bool, approved: bool, safe: bool, env: Env)
    ensures var first := InitialStatus(mode, requiresApproval);
            var a := Action(name, mode, if first.PendingApproval? && approved then Approved else first, safe, requiresApproval, NoNote, None);
            DispatchesAs(a, kind, env) <==>
            && (mode.SafeAuto? || mode.ManualApproval?) && kind.ApplicationProposal?
            && (safe || requiresApproval) && (mode.ManualApproval? || requiresApproval ==> approved)
            && env.incidentFound && !env.streamBlank
  {
  }

  /** The Control Panel is called by the first execution exactly for a retry that would run and has an incident and a stream, whether it then accepts or
      the outcome can be stored or not. */
  lemma FirstDispatchIff(name: string, mode: Mode, requiresApproval: bool, before: seq<Step>, env: Env)
    requires NoneStored(before)
    ensures DispatchesAt(Run(Built(name, mode, requiresApproval), before), ExecuteStep(env)) <==>
            && (mode.SafeAuto? || mode.ManualApproval?) && Text.TrimSpace(name) in RETRY_NAMES
            && (requiresApproval || name in LOCAL_NAMES || name in RETRY_NAMES)
            && (mode.ManualApproval? || requiresApproval ==> ApproveStored(before))
            && env.incidentFound && !env.streamBlank
  {
    BeforeFirst(name, mode, requiresApproval, before);
    ClassNamed(name);
    SafeNamed(name);
    DispatchedAs(name, Classify(name), mode, requiresApproval, ApproveStored(before), Built(name, mode, requiresApproval).safeAuto, env);
  }

  lemma SafeNamed(name: string)
    ensures IsSafeAuto(name) <==> name in LOCAL_NAMES || name in RETRY_NAMES
  {
  }

  /** The configured mode, by its text; anything else only suggests. */
  lemma ModeNamed(mode: string)
    ensures var m := Text.ToLower(Text.TrimSpace(mode));
            && (NormalizeMode(mode).ModeDisabled? <==> m == "disabled") && (NormalizeMode(mode).SafeAuto? <==> m == "safe_auto")
            && (NormalizeMode(mode).ManualApproval? <==> m == "manual_approval")
  {
    var m := Text.ToLower(Text.TrimSpace(mode));
    assert |"disabled"| == 8 && |"safe_auto"| == 9 && |"manual_approval"| == 15;
  }
}
