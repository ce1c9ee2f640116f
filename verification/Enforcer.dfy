/** The client half of the protocol: a protected action runs only after the platform let it. Between any
    two of the client's own steps everybody else may take any number of theirs. */
module Enforcement {
  import opened Domain
  import opened Sequences
  import opened Text
  import opened Labels
  import opened Matching
  import opened PolicyEngine
  import opened PolicyMeaning
  import opened Protocol
  import opened Provenance

  // ----- What permits an event ---------------------------------------------------------

  /** The decisions on which the client must not go on. */
  predicate Objects(decision: Decision) {
    decision == Redact || decision == RequireApproval || decision == Deny
  }

  /** No policy in force for the event asks for redaction, approval or denial. */
  ghost predicate NoneObjects(cfg: Config, s: Sys, event: RuntimeEvent) {
    if cfg.hasPacks then
      forall k, q | ComesFrom(q, s.packs, k, event.tenantID) && Applies(q, event) :: !Objects(q.decision)
    else
      cfg.engine.Some? ==> forall p | p in cfg.engine.value && Applies(p, event) :: !Objects(p.decision)
  }

  /** A stored request named by the event is approved and binds it. */
  ghost predicate ApprovalHolds(s: Sys, event: RuntimeEvent) {
    exists k | k in s.requests ::
      k == Key(event.tenantID, event.approvalID) && s.requests[k].status == Approved
      && Binding(s.requests[k].event) == Binding(event)
  }

  ghost predicate Permitted(cfg: Config, s: Sys, event: RuntimeEvent) {
    if event.approvalID == "" then NoneObjects(cfg, s, event) else cfg.hasApprovals && ApprovalHolds(s, event)
  }

  /** The engine lets an event proceed exactly when no applicable policy objects. */
  lemma JudgedToProceed(policies: seq<Policy>, event: RuntimeEvent)
    ensures Judge(policies, event).decision.Proceeds()
      <==> forall p | p in policies && Applies(p, event) :: !Objects(p.decision)
  {
    var matching := MatchingPolicies(policies, event);
    BestRank(matching);
    forall p ensures p in matching <==> p in policies && Applies(p, event) {
      FilterMember(policies, Applicable(event), p);
    }
  }

  lemma NoneObjectsIff(cfg: Config, s: Sys, event: RuntimeEvent, keys: seq<string>)
    requires Enumerates(keys, s.packs.Keys)
    ensures Judge(PoliciesFor(cfg, s.packs, keys, event), event).decision.Proceeds() <==> NoneObjects(cfg, s, event)
  {
    var policies := PoliciesFor(cfg, s.packs, keys, event);
    JudgedToProceed(policies, event);
    if cfg.hasPacks {
      forall q ensures q in policies <==> exists k :: ComesFrom(q, s.packs, k, event.tenantID) {
        PolicyInForce(s.packs, event.tenantID, keys, q);
      }
    }
  }

  /** A judgement lets an event proceed exactly when it is permitted; only the reading of an approval can
      fail without an error, and then it does not proceed. */
  lemma ProceedingIsPermitted(cfg: Config, s: Sys, event: RuntimeEvent, keys: seq<string>, cancelled: bool)
    requires Enumerates(keys, s.packs.Keys)
    ensures Judgement(cfg, s, event, keys, cancelled).decision.Proceeds()
       <==> Permitted(cfg, s, event) && (event.approvalID != "" ==> !cancelled)
  {
    if event.approvalID == "" {
      NoneObjectsIff(cfg, s, event, keys);
    } else {
      ApprovalAnswers(cfg, s.requests, event, cancelled);
    }
  }

  // ----- What a returned result proves -------------------------------------------------

  /** Call `c` was begun at step `p` or later than `from` with `event`, read it at step `l` in a state that
      permitted it, and wrote its record at step `m`, before step `until`; `result` is what it returned. */
  ghost predicate Cleared(cfg: Config, b: Behavior, from: nat, until: nat, c: nat, p: nat, l: nat, m: nat,
                          event: RuntimeEvent, result: EvaluationResult)
  {
    && from <= p < l < m < until <= |b.steps| < |b.states|
    && b.steps[p].Begin? && b.steps[p].c == c && b.steps[p].event == event
    && b.steps[l].Look? && b.steps[l].c == c
    && c in b.states[l].calls && b.states[l].calls[c].Looking?
    && Started(event, b.steps[p].now) == b.states[l].calls[c]
    && Permitted(cfg, b.states[l], b.states[l].calls[c].event)
    && b.steps[m] == Append(c)
    && exists record ::
      AppendedAt(b, m, c, |b.states[m].records|, record)
      && record.event == b.states[l].calls[c].event
      && record.result.decision.Proceeds()
      && result == record.result.(auditID := record.id)
  }

  /** A call that returned leave to proceed was cleared in full, after it was begun. */
  lemma ReturnIsCleared(cfg: Config, b: Behavior, c: nat, p: nat, event: RuntimeEvent) returns (l: nat, m: nat)
    requires b.Valid(cfg) && c in b.Last().calls && b.Last().calls[c].Done? && b.Last().calls[c].outcome.Returned?
    requires b.Last().calls[c].outcome.result.decision.Proceeds()
    requires p < |b.steps| && b.steps[p].Begin? && b.steps[p].c == c && b.steps[p].event == event
    ensures Cleared(cfg, b, p, |b.steps|, c, p, l, m, event, b.Last().calls[c].outcome.result)
  {
    m := ReturnOrigin(cfg, b, |b.steps|, c);
    var record := b.states[m].calls[c].record;
    var i, judged;
    l, i, judged := CallOrigin(cfg, b, m, c);
    assert record.result == judged;
    var p' := EventOrigin(cfg, b, l, c);
    BeginsOnce(cfg, b, p, p', c);
    assert b.Follows(cfg, l);
    ProceedingIsPermitted(cfg, b.states[l], record.event, b.steps[l].keys, b.steps[l].cancelled);
    assert AppendedAt(b, m, c, |b.states[m].records|, record);
  }

  /** Before step `l`, a request with the tenant, the binding and the approval identifier of `event` was
      created pending and then approved in time. */
  ghost predicate HasHistory(b: Behavior, l: nat, event: RuntimeEvent) {
    exists i: nat, j: nat, created, approved ::
      i < j < l && CreatedAt(b, i, created) && ApprovedAt(b, j, created, approved)
      && created.tenantID == event.tenantID && created.id == event.approvalID
      && Binding(created.event) == Binding(event)
  }

  /** The approval that permits an event has its history. */
  lemma ApprovalHasHistory(cfg: Config, b: Behavior, l: nat, event: RuntimeEvent)
    requires b.Valid(cfg) && l <= |b.steps| && ApprovalHolds(b.states[l], event)
    ensures HasHistory(b, l, event)
  {
    var k := Key(event.tenantID, event.approvalID);
    var i, j, created := ApprovalOrigin(cfg, b, l, k);
    assert ApprovedAt(b, j, created, b.states[l].requests[k]);
    assert created.tenantID == event.tenantID by {
      ShapeHolds(cfg, b, i + 1);
      ShapeHolds(cfg, b, l);
    }
    KeyCollision(created.tenantID, created.id, event.tenantID, event.approvalID);
  }

  // ----- The platform as a client meets it ---------------------------------------------

  /** An upper bound on the steps a call has still to take. */
  function StepsLeft(call: Call): nat {
    match call
    case Looking(_) => 5
    case Creating(_, _, _) => 4
    case Inserting(_, _) => 3
    case Appending(_, _) => 2
    case Recording(_, _) => 1
    case Done(_) => 0
  }

  class Platform {
    const cfg: Config
    var sys: Sys
    /** What everybody else will try to do; any script is possible. */
    var script: seq<Step>
    /** The behaviour so far. */
    ghost var past: Behavior

    ghost predicate Valid()
      reads this
    {
      past.Valid(cfg) && past.Last() == sys
    }

    constructor (cfg: Config, script: seq<Step>)
      ensures Valid() && past == Behavior([INITIAL], []) && this.cfg == cfg
    {
      this.cfg, this.script := cfg, script;
      sys, past := INITIAL, Behavior([INITIAL], []);
    }

    method Take(step: Step)
      requires Valid() && Enabled(sys, step)
      modifies this`sys, this`past
      ensures Valid() && sys == Apply(cfg, old(sys), step) && past == Extend(cfg, old(past), step)
    {
      ExtendIsValid(cfg, past, step);
      past := Extend(cfg, past, step);
      sys := Apply(cfg, sys, step);
    }

    /** Everybody but call `mine` takes any number of steps. */
    method Interfere(mine: nat)
      requires Valid()
      modifies this
      ensures Valid() && Prolongs(old(past), past)
      ensures mine in sys.calls <==> mine in old(sys).calls
      ensures mine in sys.calls ==> sys.calls[mine] == old(sys).calls[mine]
    {
      var turns: nat := *;
      while turns > 0 && script != []
        invariant Valid() && Prolongs(old(past), past)
        invariant mine in sys.calls <==> mine in old(sys).calls
        invariant mine in sys.calls ==> sys.calls[mine] == old(sys).calls[mine]
        decreases turns
      {
        var step := script[0];
        script, turns := script[1..], turns - 1;
        if Enabled(sys, step) && !step.OfCall(mine) {
          OtherCallsStay(cfg, sys, step, mine);
          Take(step);
        }
      }
    }

    /** An unused call number. */
    method NewCall() returns (c: nat)
      ensures c !in sys.calls
    {
      c := 0;
      ghost var below: set<nat> := {};
      while c in sys.calls
        invariant below <= sys.calls.Keys && |below| == c
        invariant forall d :: d in below ==> d < c
        decreases sys.calls.Keys - below
      {
        below := below + {c};
        c := c + 1;
      }
    }

    /** Takes the next step of call `c`, with whatever clock, map order and cancellation it meets. */
    method Advance(c: nat)
      requires Valid() && c in sys.calls && !sys.calls[c].Done?
      modifies this`sys, this`past
      ensures Valid() && Prolongs(old(past), past)
      ensures c in sys.calls && StepsLeft(sys.calls[c]) < StepsLeft(old(sys).calls[c])
    {
      var now: int := *;
      var cancelled: bool := *;
      match sys.calls[c]
      case Looking(_) =>
        var keys := MapOrder(sys.packs.Keys);
        Take(Look(c, keys, now, cancelled));
      case Creating(_, _, _) => Take(Number(c, now, cancelled));
      case Inserting(_, _) => Take(Insert(c));
      case Appending(_, _) => Take(NumberRecord(c, now, cancelled));
      case Recording(_, _) => Take(Append(c));
    }

    /** Evaluates an event, everybody else free to move at every point. */
    method Evaluate(event: RuntimeEvent) returns (out: Outcome, ghost c: nat, ghost p: nat)
      requires Valid()
      modifies this
      ensures Valid() && Prolongs(old(past), past)
      ensures |old(past).steps| <= p < |past.steps|
      ensures past.steps[p].Begin? && past.steps[p].c == c && past.steps[p].event == event
      ensures c in sys.calls && sys.calls[c] == Done(out)
    {
      var d := NewCall();
      var now: int := *;
      c, p := d, |past.steps|;
      Take(Begin(d, event, now));
      while !sys.calls[d].Done?
        invariant Valid() && Prolongs(old(past), past) && d == c && d in sys.calls
        invariant |old(past).steps| <= p < |past.steps|
        invariant past.steps[p].Begin? && past.steps[p].c == c && past.steps[p].event == event
        decreases StepsLeft(sys.calls[d])
      {
        Interfere(d);
        Advance(d);
      }
      out := sys.calls[d].outcome;
      Interfere(d);
    }
  }

  // ----- The enforcer ------------------------------------------------------------------

  /** A protected action; what it yields is its own affair. */
  class Action {
    const output: string
    const fails: bool
    var runs: nat
    /** How many platform steps had been taken when the action last started. */
    ghost var startedAt: nat

    constructor (output: string, fails: bool)
      ensures runs == 0
    {
      this.output, this.fails, runs, startedAt := output, fails, 0, 0;
    }

    method Run(ghost platform: Platform) returns (ok: bool)
      modifies this
      ensures runs == old(runs) + 1 && startedAt == |platform.past.steps| && ok == !fails
    {
      runs := runs + 1;
      startedAt := |platform.past.steps|;
      ok := !fails;
    }
  }

  datatype ExecuteError =
    | ActionRequired
    | EvaluateFailed(error: EvaluateError)
    | Blocked(decision: Decision, reason: string, approvalID: string)
    | WaiterFailed
    | ActionFailed

  /** The zero values of the source's result are `None` here. */
  datatype EnforcementResult = EnforcementResult(
    evaluation: Option<EvaluationResult>, approval: Option<ApprovalRequest>, output: Option<string>)

  function EnforcementError(result: EvaluationResult): ExecuteError {
    Blocked(result.decision, result.reason, result.approvalID)
  }

  /** `event` was cleared; if it names an approval, that approval has its history. */
  ghost predicate ActionCleared(cfg: Config, b: Behavior, from: nat, until: nat, event: RuntimeEvent,
                                result: EvaluationResult)
  {
    exists c: nat, p: nat, l: nat, m: nat ::
      Cleared(cfg, b, from, until, c, p, l, m, event, result)
      && (event.approvalID != "" ==> HasHistory(b, l, b.states[l].calls[c].event))
  }

  lemma ReturnClearsAction(cfg: Config, b: Behavior, from: nat, c: nat, p: nat, event: RuntimeEvent,
                           result: EvaluationResult)
    requires b.Valid(cfg) && c in b.Last().calls && b.Last().calls[c] == Done(Returned(result))
      && result.decision.Proceeds()
    requires from <= p < |b.steps| && b.steps[p].Begin? && b.steps[p].c == c && b.steps[p].event == event
    ensures ActionCleared(cfg, b, from, |b.steps|, event, result)
  {
    var l, m := ReturnIsCleared(cfg, b, c, p, event);
    assert Cleared(cfg, b, from, |b.steps|, c, p, l, m, event, result);
    if event.approvalID != "" {
      ApprovalHasHistory(cfg, b, l, b.states[l].calls[c].event);
    }
  }

  /** One evaluation as a client sees it: its call, the step that began it, its event and its outcome. */
  datatype PlatformCall = PlatformCall(c: nat, begun: nat, event: RuntimeEvent, out: Outcome)

  /** The call was begun at step `from` or later and has ended. */
  ghost predicate Made(b: Behavior, from: nat, call: PlatformCall) {
    && from <= call.begun < |b.steps| < |b.states|
    && b.steps[call.begun].Begin? && b.steps[call.begun].c == call.c && b.steps[call.begun].event == call.event
    && call.c in b.Last().calls && b.Last().calls[call.c] == Done(call.out)
  }

  lemma MadeStays(cfg: Config, b: Behavior, more: Behavior, from: nat, call: PlatformCall)
    requires b.Valid(cfg) && more.Valid(cfg) && Prolongs(b, more) && Made(b, from, call)
    ensures Made(more, from, call)
  {
    assert b.Last() == more.states[|b.steps|];
    Grows(cfg, more, |b.steps|, |more.steps|);
  }

  /** The outcome is leave to go on. */
  predicate GoesOn(out: Outcome) {
    out.Returned? && (out.result.decision == Allow || out.result.decision == Record)
  }

  predicate DemandsApproval(out: Outcome) {
    out.Returned? && out.result.decision == RequireApproval
  }

  class Enforcer {
    const client: Platform
    /** Whether an approval waiter is configured. */
    const hasWaiter: bool

    constructor (client: Platform, hasWaiter: bool)
      ensures this.client == client && this.hasWaiter == hasWaiter
    {
      this.client, this.hasWaiter := client, hasWaiter;
    }

    method ExecuteAllowed(result: EvaluationResult, approval: Option<ApprovalRequest>, action: Action)
      returns (r: EnforcementResult, error: Option<ExecuteError>)
      modifies action
      ensures action.runs == old(action.runs) + 1 && action.startedAt == |client.past.steps|
      ensures error == if action.fails then Some(ActionFailed) else None
      ensures r == EnforcementResult(Some(result), approval, if action.fails then None else Some(action.output))
    {
      var ok := action.Run(client);
      if !ok {
        return EnforcementResult(Some(result), approval, None), Some(ActionFailed);
      }
      return EnforcementResult(Some(result), approval, Some(action.output)), None;
    }

    /** Asks the platform about an event; leave to go on means that the event was cleared since step `from`. */
    method Ask(event: RuntimeEvent, ghost from: nat) returns (out: Outcome, ghost call: PlatformCall)
      requires client.Valid() && from <= |client.past.steps|
      modifies client
      ensures client.Valid() && Prolongs(old(client.past), client.past)
      ensures Made(client.past, |old(client.past).steps|, call) && call.event == event && call.out == out
      ensures GoesOn(out) ==> ActionCleared(client.cfg, client.past, from, |client.past.steps|, event, out.result)
    {
      ghost var c, p;
      out, c, p := client.Evaluate(event);
      call := PlatformCall(c, p, event, out);
      if GoesOn(out) {
        ReturnClearsAction(client.cfg, client.past, from, c, p, event, out.result);
      }
    }

    /** Evaluates the event, waits for approval if it must, evaluates again, and only then runs the action.
        `answer` is what the waiter returns if it is asked, `None` when it fails; it may be anything at all, and
        meanwhile anybody may do anything. `first` and `second` are the evaluations made. */
    method Execute(event: RuntimeEvent, answer: Option<ApprovalRequest>, action: Action?)
      returns (r: EnforcementResult, error: Option<ExecuteError>,
               ghost first: Option<PlatformCall>, ghost second: Option<PlatformCall>)
      requires client.Valid()
      modifies client, action
      ensures client.Valid() && Prolongs(old(client.past), client.past)
      // Which evaluations are made.
      ensures first.Some? <==> action != null
      ensures first.Some? ==> Made(client.past, |old(client.past).steps|, first.value) && first.value.event == event
      ensures second.Some? <==> (first.Some? && DemandsApproval(first.value.out) && hasWaiter
                                 && answer.Some? && answer.value.status == Approved)
      ensures second.Some? ==>
        Made(client.past, first.value.begun + 1, second.value)
        && second.value.event == event.(approvalID := answer.value.id)
      // What is reported.
      ensures r.evaluation ==
        if first.None? || first.value.out.Failed? then None
        else if second.Some? && second.value.out.Returned? then Some(second.value.out.result)
        else Some(first.value.out.result)
      ensures r.approval ==
        if first.Some? && DemandsApproval(first.value.out) && hasWaiter then answer else None
      ensures r.output ==
        if action != null && action.runs != old(action.runs) && !action.fails then Some(action.output) else None
      ensures action == null <==> error == Some(ActionRequired)
      ensures action != null && action.runs != old(action.runs) ==>
        error == if action.fails then Some(ActionFailed) else None
      ensures action != null && action.runs == old(action.runs) ==>
        error == Some(if first.value.out.Failed? then EvaluateFailed(first.value.out.error)
                      else if second.Some? && second.value.out.Failed? then EvaluateFailed(second.value.out.error)
                      else if second.None? && r.approval.Some? then
                        Blocked(RequireApproval, StatusIs.Text() + answer.value.status.Name(), answer.value.id)
                      else if DemandsApproval(first.value.out) && hasWaiter && answer.None? then WaiterFailed
                      else Blocked(r.evaluation.value.decision, r.evaluation.value.reason,
                                   r.evaluation.value.approvalID))
      // When the action runs, and what cleared it.
      ensures action != null ==>
        action.runs == old(action.runs)
        + if GoesOn(first.value.out) || (second.Some? && GoesOn(second.value.out)) then 1 else 0
      ensures action != null && action.runs != old(action.runs) ==>
        ActionCleared(client.cfg, client.past, |old(client.past).steps|, action.startedAt,
                      event.(approvalID := if second.Some? then answer.value.id else event.approvalID),
                      r.evaluation.value)
    {
      first, second := None, None;
      if action == null {
        return EnforcementResult(None, None, None), Some(ActionRequired), first, second;
      }
      ghost var from := |client.past.steps|;
      var out;
      ghost var call;
      out, call := Ask(event, from);
      first := Some(call);
      if out.Failed? {
        return EnforcementResult(None, None, None), Some(EvaluateFailed(out.error)), first, second;
      }
      var result := out.result;
      if result.decision.Proceeds() {
        r, error := ExecuteAllowed(result, None, action);
        return r, error, first, second;
      }
      if result.decision != RequireApproval {
        return EnforcementResult(Some(result), None, None), Some(EnforcementError(result)), first, second;
      }
      if !hasWaiter {
        return EnforcementResult(Some(result), None, None), Some(EnforcementError(result)), first, second;
      }
      if answer.None? {
        return EnforcementResult(Some(result), None, None), Some(WaiterFailed), first, second;
      }
      var approval := answer.value;
      if approval.status != Approved {
        return EnforcementResult(Some(result), Some(approval), None),
          Some(Blocked(result.decision, StatusIs.Text() + approval.status.Name(), approval.id)), first, second;
      }
      var approvedEvent := event;
      approvedEvent := approvedEvent.(approvalID := approval.id);
      ghost var before := client.past;
      out, call := Ask(approvedEvent, from);
      MadeStays(client.cfg, before, client.past, from, first.value);
      second := Some(call);
      if out.Failed? {
        return EnforcementResult(Some(result), Some(approval), None), Some(EvaluateFailed(out.error)), first, second;
      }
      var approvedResult := out.result;
      if !approvedResult.decision.Proceeds() {
        return EnforcementResult(Some(approvedResult), Some(approval), None),
          Some(EnforcementError(approvedResult)), first, second;
      }
      r, error := ExecuteAllowed(approvedResult, Some(approval), action);
    }
  }
}
