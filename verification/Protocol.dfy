/** The evaluate-approve-resubmit protocol as a system of small steps. Any number of evaluations are in
    flight at once; every access to shared memory is one step, so taking a number from a counter and
    inserting under the lock are two. */
module Protocol {
  import opened Domain
  import opened Sequences
  import opened Text
  import opened Labels
  import opened PolicyEngine
  import opened ApprovalStore
  import AuditStore
  import PackStore

  // ----- What one evaluation computes --------------------------------------------------

  /** Fifteen minutes, in nanoseconds. */
  const DEFAULT_TTL: int := 900_000_000_000

  /** How a service is put together: a fixed engine, a pack store, an approval store, a time to live. */
  datatype Config = Config(engine: Option<seq<Policy>>, hasPacks: bool, hasApprovals: bool, ttl: int)
  {
    function TTL(): int {
      if ttl <= 0 then DEFAULT_TTL else ttl
    }
  }

  function Answer(decision: Decision, reason: string, approvalID: string): EvaluationResult {
    EvaluationResult(decision, reason, [], "", approvalID)
  }

  /** The answer to an event that names an approval. */
  function EvaluateApproval(cfg: Config, requests: Requests, event: RuntimeEvent, cancelled: bool): EvaluationResult {
    if !cfg.hasApprovals then Answer(Deny, StoreNotConfigured.Text(), "")
    else
      match Lookup(requests, event.tenantID, event.approvalID, cancelled)
      case Err(_) => Answer(Deny, RequestNotFound.Text(), "")
      case Ok(request) =>
        if request.status != Approved then Answer(Deny, StatusIs.Text() + request.status.Name(), request.id)
        else if !Agrees(request.event, event) then Answer(Deny, RequestMismatch.Text(), request.id)
        else Answer(Allow, RequestMatched.Text(), request.id)
  }

  /** The policies an event is judged by, with the pack map walked in the order `keys`. */
  function PoliciesFor(cfg: Config, packs: PackStore.Packs, keys: seq<string>, event: RuntimeEvent): seq<Policy> {
    if cfg.hasPacks then PoliciesOf(PackStore.EnabledListing(packs, keys, event.tenantID))
    else if cfg.engine.Some? then cfg.engine.value
    else []
  }

  /** The answer to an event that names an approval, case by case: it allows exactly when the store holds,
      under the event's tenant and that identifier, an approved request that binds the same nine fields;
      every other answer denies. The answer names the request that was found, if one was. */
  lemma ApprovalAnswers(cfg: Config, requests: Requests, event: RuntimeEvent, cancelled: bool)
    ensures var r := EvaluateApproval(cfg, requests, event, cancelled);
      var k := Key(event.tenantID, event.approvalID);
      var found := cfg.hasApprovals && !cancelled && k in requests;
      && (r.decision == Allow
          <==> found && requests[k].status == Approved && Binding(requests[k].event) == Binding(event))
      && (r.decision == Deny <==> r.decision != Allow)
      && r.approvalID == (if found then requests[k].id else "")
      && r.matchedPolicyIDs == [] && r.auditID == ""
      && (r.reason == RequestMatched.Text() <== r.decision == Allow)
      && (found && requests[k].status != Approved ==> r.reason == StatusIs.Text() + requests[k].status.Name())
      && (found && requests[k].status == Approved && r.decision == Deny ==> r.reason == RequestMismatch.Text())
      && (!found ==> r.reason == if cfg.hasApprovals then RequestNotFound.Text() else StoreNotConfigured.Text())
  {
    var k := Key(event.tenantID, event.approvalID);
    if k in requests {
      AgreesIffSameBinding(requests[k].event, event);
    }
  }

  // ----- States ------------------------------------------------------------------------

  datatype EvaluateError = InvalidEvent | ListFailed | CreateFailed | AppendFailed

  datatype Outcome = Returned(result: EvaluationResult) | Failed(error: EvaluateError)

  /** How far one evaluation has come. `serial` counts the numbers its counter had handed out. */
  datatype Call =
    | Looking(event: RuntimeEvent)
    | Creating(event: RuntimeEvent, result: EvaluationResult, expiresAt: int)
    | Inserting(request: ApprovalRequest, serial: nat)
    | Appending(event: RuntimeEvent, result: EvaluationResult)
    | Recording(record: AuditRecord, serial: nat)
    | Done(outcome: Outcome)
  {
    function Event(): RuntimeEvent
      requires !Done?
    {
      match this
      case Looking(event) => event
      case Creating(event, _, _) => event
      case Inserting(request, _) => request.event
      case Appending(event, _) => event
      case Recording(record, _) => record.event
    }

    function Result(): EvaluationResult
      requires !Done? && !Looking?
    {
      match this
      case Creating(_, result, _) => result
      case Inserting(request, _) => request.result
      case Appending(_, result) => result
      case Recording(record, _) => record.result
    }
  }

  /** `numbered` and `logged` count the numbers taken from the approval and the audit counter; the
      counters themselves hold their last 64 bits. */
  datatype Sys = Sys(
    packs: PackStore.Packs,
    requests: Requests,
    numbered: nat,
    records: seq<AuditRecord>,
    logged: nat,
    calls: map<nat, Call>)

  const INITIAL: Sys := Sys(map[], map[], 0, [], 0, map[])

  // ----- Steps -------------------------------------------------------------------------

  /** Times, map orders and cancellations are chosen by the environment. */
  datatype Step =
    | Begin(c: nat, event: RuntimeEvent, now: int)
    | Look(c: nat, keys: seq<string>, now: int, cancelled: bool)
    | Number(c: nat, now: int, cancelled: bool)
    | Insert(c: nat)
    | NumberRecord(c: nat, now: int, cancelled: bool)
    | Append(c: nat)
    | Decide(tenantID: string, approvalID: string, input: DecisionInput, clock: int, cancelled: bool)
    | Upsert(pack: PolicyPack, cancelled: bool)
    | SetEnabled(tenantID: string, packID: string, enabled: bool, cancelled: bool)
  {
    predicate OfCall(d: nat) {
      !Decide? && !Upsert? && !SetEnabled? && c == d
    }
  }

  predicate Enabled(s: Sys, step: Step) {
    match step
    case Begin(c, _, _) => c !in s.calls
    case Look(c, keys, _, _) => c in s.calls && s.calls[c].Looking? && Enumerates(keys, s.packs.Keys)
    case Number(c, _, _) => c in s.calls && s.calls[c].Creating?
    case Insert(c) => c in s.calls && s.calls[c].Inserting?
    case NumberRecord(c, _, _) => c in s.calls && s.calls[c].Appending?
    case Append(c) => c in s.calls && s.calls[c].Recording?
    case _ => true
  }

  function Started(event: RuntimeEvent, now: int): Call {
    match event.Normalize()
    case None => Done(Failed(InvalidEvent))
    case Some(e) => Looking(if e.timestamp == 0 then e.(timestamp := now) else e)
  }

  /** Exactly the acceptable events are read; an evaluation works on the caller's event, the schema version and
      a missing time filled in. Any other ends at once as invalid. */
  lemma StartedIff(event: RuntimeEvent, now: int)
    ensures Started(event, now) ==
      if Acceptable(event) then
        Looking(event.(schemaVersion := RuntimeEventV1.Text(),
                       timestamp := if event.timestamp != 0 then event.timestamp else now))
      else Done(Failed(InvalidEvent))
  {
    NormalizesIff(event);
  }

  /** The judgement of an event by approval or by policies. */
  function Judgement(cfg: Config, s: Sys, event: RuntimeEvent, keys: seq<string>, cancelled: bool): EvaluationResult {
    if event.approvalID != "" then EvaluateApproval(cfg, s.requests, event, cancelled)
    else Judge(PoliciesFor(cfg, s.packs, keys, event), event)
  }

  function Looked(cfg: Config, s: Sys, event: RuntimeEvent, keys: seq<string>, now: int, cancelled: bool): Call {
    if event.approvalID == "" && cfg.hasPacks && cancelled then Done(Failed(ListFailed))
    else
      var result := Judgement(cfg, s, event, keys, cancelled);
      if event.approvalID == "" && result.decision == RequireApproval && cfg.hasApprovals
      then Creating(event, result, now + cfg.TTL())
      else Appending(event, result)
  }

  /** The request `Evaluate` asks the store to create. */
  function NewRequest(event: RuntimeEvent, result: EvaluationResult, expiresAt: int): ApprovalRequest {
    ApprovalRequest("", event.tenantID, OtherStatus(""), event, result, result.reason, 0, expiresAt, 0, "", "")
  }

  function Apply(cfg: Config, s: Sys, step: Step): Sys
    requires Enabled(s, step)
  {
    match step
    case Begin(c, event, now) =>
      s.(calls := s.calls[c := Started(event, now)])
    case Look(c, keys, now, cancelled) =>
      s.(calls := s.calls[c := Looked(cfg, s, s.calls[c].event, keys, now, cancelled)])
    case Number(c, now, cancelled) =>
      var Creating(event, result, expiresAt) := s.calls[c];
      if cancelled then s.(calls := s.calls[c := Done(Failed(CreateFailed))])
      else
        var n := s.numbered + 1;
        s.(numbered := n,
           calls := s.calls[c := Inserting(Filled(NewRequest(event, result, expiresAt), ApprovalID(n), now), n)])
    case Insert(c) =>
      var request := s.calls[c].request;
      s.(requests := Stored(s.requests, request),
         calls := s.calls[c := Appending(request.event, request.result.(approvalID := request.id))])
    case NumberRecord(c, now, cancelled) =>
      var Appending(event, result) := s.calls[c];
      if cancelled then s.(calls := s.calls[c := Done(Failed(AppendFailed))])
      else
        var n := s.logged + 1;
        s.(logged := n,
           calls := s.calls[c := Recording(AuditRecord(AuditStore.AuditID(n), now, event, result), n)])
    case Append(c) =>
      var record := s.calls[c].record;
      s.(records := s.records + [record],
         calls := s.calls[c := Done(Returned(record.result.(auditID := record.id)))])
    case Decide(tenantID, approvalID, input, clock, cancelled) =>
      s.(requests := AfterDecide(s.requests, Key(tenantID, approvalID), input, clock, cancelled))
    case Upsert(pack, cancelled) =>
      s.(packs := PackStore.AfterUpsert(s.packs, pack, cancelled))
    case SetEnabled(tenantID, packID, enabled, cancelled) =>
      s.(packs := PackStore.AfterSetEnabled(s.packs, tenantID, packID, enabled, cancelled))
  }

  // ----- Behaviours --------------------------------------------------------------------

  /** A run: the states passed through and the steps between them. */
  datatype Behavior = Behavior(states: seq<Sys>, steps: seq<Step>)
  {
    predicate Valid(cfg: Config) {
      && |states| == |steps| + 1
      && states[0] == INITIAL
      && forall i | 0 <= i < |steps| :: Follows(cfg, i)
    }

    predicate Follows(cfg: Config, i: nat)
      requires |states| == |steps| + 1 && i < |steps|
    {
      Enabled(states[i], steps[i]) && states[i + 1] == Apply(cfg, states[i], steps[i])
    }

    function Last(): Sys
      requires states != []
    {
      states[|states| - 1]
    }
  }

  /** A behaviour prolonged by one step. */
  function Extend(cfg: Config, b: Behavior, step: Step): Behavior
    requires b.Valid(cfg) && Enabled(b.Last(), step)
  {
    Behavior(b.states + [Apply(cfg, b.Last(), step)], b.steps + [step])
  }

  /** `more` is `b` with steps added at the end. */
  ghost predicate Prolongs(b: Behavior, more: Behavior) {
    b.states <= more.states && b.steps <= more.steps
  }

  lemma ExtendIsValid(cfg: Config, b: Behavior, step: Step)
    requires b.Valid(cfg) && Enabled(b.Last(), step)
    ensures Extend(cfg, b, step).Valid(cfg)
  {
    var e := Extend(cfg, b, step);
    forall i | 0 <= i < |e.steps| ensures e.Follows(cfg, i) {
      if i < |b.steps| {
        assert b.Follows(cfg, i);
      }
    }
  }

  /** A step of another call leaves this one alone. */
  lemma OtherCallsStay(cfg: Config, s: Sys, step: Step, c: nat)
    requires Enabled(s, step) && !step.OfCall(c)
    ensures c in Apply(cfg, s, step).calls <==> c in s.calls
    ensures c in s.calls ==> Apply(cfg, s, step).calls[c] == s.calls[c]
  {
  }

  /** Counters, log and calls only grow; a finished call stays finished. */
  lemma StepGrows(cfg: Config, s: Sys, step: Step)
    requires Enabled(s, step)
    ensures var t := Apply(cfg, s, step);
      && s.numbered <= t.numbered && s.logged <= t.logged && s.records <= t.records
      && s.requests.Keys <= t.requests.Keys && s.calls.Keys <= t.calls.Keys
      && forall c | c in s.calls && s.calls[c].Done? :: t.calls[c] == s.calls[c]
  {
  }

  lemma {:induction false} Grows(cfg: Config, b: Behavior, m: nat, n: nat)
    requires b.Valid(cfg) && m <= n <= |b.steps|
    ensures var s, t := b.states[m], b.states[n];
      && s.numbered <= t.numbered && s.logged <= t.logged && s.records <= t.records
      && s.requests.Keys <= t.requests.Keys && s.calls.Keys <= t.calls.Keys
      && forall c | c in s.calls && s.calls[c].Done? :: t.calls[c] == s.calls[c]
  {
    if m < n {
      Grows(cfg, b, m, n - 1);
      assert b.Follows(cfg, n - 1);
      StepGrows(cfg, b.states[n - 1], b.steps[n - 1]);
    }
  }
}
