/** Where approved answers come from: tracing calls, requests and records back through a behaviour. */
module Provenance {
  import opened Domain
  import opened Text
  import opened Labels
  import opened ApprovalStore
  import opened Protocol

  // ----- What requests and calls look like ---------------------------------------------

  /** A request the service asked for: it carries the tenant of its event and the engine's demand. */
  predicate WellMade(request: ApprovalRequest) {
    && NulFree(request.id)
    && request.tenantID == request.event.tenantID
    && request.event.approvalID == ""
    && request.result.decision == RequireApproval
    && request.result.approvalID == ""
  }

  lemma ApprovalIDNulFree(n: nat)
    ensures NulFree(ApprovalID(n))
  {
    DecimalFree(n % COUNTER_RANGE, NUL);
  }

  /** With an approval store, a demand for approval names the request to be approved. */
  predicate Identified(cfg: Config, result: EvaluationResult) {
    cfg.hasApprovals && result.decision == RequireApproval ==> result.approvalID != ""
  }

  predicate CallShape(cfg: Config, call: Call) {
    match call
    case Creating(event, result, _) => cfg.hasApprovals && WellMade(NewRequest(event, result, 0))
    case Inserting(request, serial) =>
      && cfg.hasApprovals && WellMade(request) && request.status == Pending
      && request.decidedBy == "" && request.decidedAt == 0
      && serial >= 1 && request.id == ApprovalID(serial)
    case Appending(_, result) => Identified(cfg, result)
    case Recording(record, serial) => serial >= 1 && record.id == AuditStore.AuditID(serial)
      && Identified(cfg, record.result)
    case Done(Returned(result)) => Identified(cfg, result)
    case _ => true
  }

  /** Stored requests sit at their keys; calls in flight are as the service makes them. */
  ghost predicate Shape(cfg: Config, s: Sys) {
    && (forall k | k in s.requests :: k == KeyOf(s.requests[k]) && WellMade(s.requests[k]))
    && (forall c | c in s.calls :: CallShape(cfg, s.calls[c]))
  }

  lemma CallStep(cfg: Config, s: Sys, step: Step, c: nat)
    requires c in s.calls ==> CallShape(cfg, s.calls[c])
    requires Enabled(s, step) && step.OfCall(c)
    ensures CallShape(cfg, Apply(cfg, s, step).calls[c])
  {
    ApprovalIDNulFree(s.numbered + 1);
  }

  lemma OtherStepsKeepRequests(cfg: Config, s: Sys, step: Step)
    requires Enabled(s, step) && !step.Insert? && !step.Decide?
    ensures Apply(cfg, s, step).requests == s.requests
  {
  }

  lemma RequestsStep(cfg: Config, s: Sys, step: Step)
    requires Shape(cfg, s) && Enabled(s, step)
    ensures var t := Apply(cfg, s, step);
      forall k | k in t.requests :: k == KeyOf(t.requests[k]) && WellMade(t.requests[k])
  {
    if step.Insert? {
      assert CallShape(cfg, s.calls[step.c]);
    } else if step.Decide? {
      DecideOutcome(s.requests, Key(step.tenantID, step.approvalID), step.input, step.clock, step.cancelled);
    } else {
      OtherStepsKeepRequests(cfg, s, step);
    }
  }

  lemma ShapeStep(cfg: Config, s: Sys, step: Step)
    requires Shape(cfg, s) && Enabled(s, step)
    ensures Shape(cfg, Apply(cfg, s, step))
  {
    RequestsStep(cfg, s, step);
    forall c | c in Apply(cfg, s, step).calls ensures CallShape(cfg, Apply(cfg, s, step).calls[c]) {
      if step.OfCall(c) {
        CallStep(cfg, s, step, c);
      } else {
        OtherCallsStay(cfg, s, step, c);
      }
    }
  }

  lemma {:induction false} ShapeHolds(cfg: Config, b: Behavior, n: nat)
    requires b.Valid(cfg) && n <= |b.steps|
    ensures Shape(cfg, b.states[n])
  {
    if n > 0 {
      ShapeHolds(cfg, b, n - 1);
      assert b.Follows(cfg, n - 1);
      ShapeStep(cfg, b.states[n - 1], b.steps[n - 1]);
    }
  }

  // ----- Requests ----------------------------------------------------------------------

  /** Step `i` inserts the pending request `request`, made by an evaluation that demanded approval. */
  ghost predicate CreatedAt(b: Behavior, i: nat, request: ApprovalRequest) {
    && i < |b.steps| && i + 1 < |b.states| && b.steps[i].Insert?
    && b.steps[i].c in b.states[i].calls && b.states[i].calls[b.steps[i].c].Inserting?
    && b.states[i].calls[b.steps[i].c].request == request
    && request.status == Pending && WellMade(request)
    && KeyOf(request) in b.states[i + 1].requests && b.states[i + 1].requests[KeyOf(request)] == request
  }

  /** Step `j` is a decision, not after expiry, that approves the pending request `before`. */
  ghost predicate ApprovedAt(b: Behavior, j: nat, before: ApprovalRequest, after: ApprovalRequest) {
    && j < |b.steps| && j + 1 < |b.states| && b.steps[j].Decide? && !b.steps[j].cancelled
    && b.steps[j].input.status == Approved
    && Key(b.steps[j].tenantID, b.steps[j].approvalID) == KeyOf(before)
    && KeyOf(before) in b.states[j].requests && b.states[j].requests[KeyOf(before)] == before
    && before.status == Pending && (before.expiresAt == 0 || after.decidedAt <= before.expiresAt)
    && after == before.(status := Approved, decidedAt := after.decidedAt, decidedBy := b.steps[j].input.decidedBy,
                        decisionReason := b.steps[j].input.reason)
    && after.decidedAt == (if b.steps[j].input.now != 0 then b.steps[j].input.now else b.steps[j].clock)
    && KeyOf(before) in b.states[j + 1].requests && b.states[j + 1].requests[KeyOf(before)] == after
  }

  /** Where the request at `k` after a step comes from: inserted by it, or evolved from the one before. */
  ghost predicate InsertedBy(s: Sys, step: Step, t: Sys, k: string) {
    && step.Insert? && step.c in s.calls && s.calls[step.c].Inserting? && k in t.requests
    && t.requests[k] == s.calls[step.c].request && KeyOf(t.requests[k]) == k
    && t.requests[k].status == Pending && WellMade(t.requests[k])
  }

  ghost predicate EvolvedBy(s: Sys, step: Step, t: Sys, k: string) {
    && k in s.requests && k in t.requests && Evolves(s.requests[k], t.requests[k])
    && (t.requests[k] != s.requests[k] && t.requests[k].status == Approved ==>
          step.Decide? && !step.cancelled && step.input.status == Approved && Key(step.tenantID, step.approvalID) == k
          && Timely(s.requests[k], DecisionTime(step.input, step.clock))
          && t.requests[k] == Decided(s.requests[k], step.input, step.clock))
  }

  lemma InsertStep(cfg: Config, s: Sys, step: Step, k: string)
    requires Shape(cfg, s) && Enabled(s, step) && step.Insert? && k in Apply(cfg, s, step).requests
    ensures InsertedBy(s, step, Apply(cfg, s, step), k) || EvolvedBy(s, step, Apply(cfg, s, step), k)
  {
    assert CallShape(cfg, s.calls[step.c]);
  }

  lemma RequestStep(cfg: Config, s: Sys, step: Step, k: string)
    requires Shape(cfg, s) && Enabled(s, step) && k in Apply(cfg, s, step).requests
    ensures InsertedBy(s, step, Apply(cfg, s, step), k) || EvolvedBy(s, step, Apply(cfg, s, step), k)
  {
    if step.Insert? {
      InsertStep(cfg, s, step, k);
    } else if step.Decide? {
      DecideOutcome(s.requests, Key(step.tenantID, step.approvalID), step.input, step.clock, step.cancelled);
    } else {
      OtherStepsKeepRequests(cfg, s, step);
    }
  }

  lemma RequestAt(cfg: Config, b: Behavior, n: nat, k: string)
    requires b.Valid(cfg) && 0 < n <= |b.steps| && k in b.states[n].requests
    ensures InsertedBy(b.states[n - 1], b.steps[n - 1], b.states[n], k)
         || EvolvedBy(b.states[n - 1], b.steps[n - 1], b.states[n], k)
  {
    assert b.Follows(cfg, n - 1);
    ShapeHolds(cfg, b, n - 1);
    RequestStep(cfg, b.states[n - 1], b.steps[n - 1], k);
  }

  /** A stored request was created pending, by the latest insertion at its key, and has only evolved since. */
  lemma {:induction false} RequestOrigin(cfg: Config, b: Behavior, n: nat, k: string)
    returns (i: nat, created: ApprovalRequest)
    requires b.Valid(cfg) && n <= |b.steps| && k in b.states[n].requests
    ensures i < n && CreatedAt(b, i, created) && KeyOf(created) == k
    ensures Evolves(created, b.states[n].requests[k])
    ensures b.states[n].requests[k].status == Pending ==> b.states[n].requests[k] == created
  {
    RequestAt(cfg, b, n, k);
    if InsertedBy(b.states[n - 1], b.steps[n - 1], b.states[n], k) {
      i, created := n - 1, b.states[n].requests[k];
    } else {
      i, created := RequestOrigin(cfg, b, n - 1, k);
      EvolvesTransitive(created, b.states[n - 1].requests[k], b.states[n].requests[k]);
    }
  }

  /** An approved request was created pending and then approved in time. */
  lemma {:induction false} ApprovalOrigin(cfg: Config, b: Behavior, n: nat, k: string)
    returns (i: nat, j: nat, created: ApprovalRequest)
    requires b.Valid(cfg) && n <= |b.steps| && k in b.states[n].requests && b.states[n].requests[k].status == Approved
    ensures i < j < n && CreatedAt(b, i, created) && KeyOf(created) == k
    ensures ApprovedAt(b, j, created, b.states[n].requests[k])
  {
    RequestAt(cfg, b, n, k);
    if b.states[n - 1].requests[k] == b.states[n].requests[k] {
      i, j, created := ApprovalOrigin(cfg, b, n - 1, k);
    } else {
      i, created := RequestOrigin(cfg, b, n - 1, k);
      j := n - 1;
    }
  }

  // ----- Calls -------------------------------------------------------------------------

  /** Step `l` is the reading step of call `c`, on the event `event`; its judgement is `result`. */
  ghost predicate LookedAt(cfg: Config, b: Behavior, l: nat, c: nat, event: RuntimeEvent, result: EvaluationResult) {
    && l < |b.steps| && l < |b.states| && b.steps[l].Look? && b.steps[l].c == c
    && c in b.states[l].calls && b.states[l].calls[c] == Looking(event)
    && result == Judgement(cfg, b.states[l], event, b.steps[l].keys, b.steps[l].cancelled)
    && !(event.approvalID == "" && cfg.hasPacks && b.steps[l].cancelled)
  }

  /** What a call answers once it has read: the judgement, or the judgement with the identifier of the
      request that step `i` created for it. */
  ghost predicate Answers(b: Behavior, l: nat, i: nat, n: nat, c: nat, judged: EvaluationResult,
                          answer: EvaluationResult)
  {
    || answer == judged
    || (exists request :: l < i < n && CreatedAt(b, i, request) && b.steps[i].c == c
          && request.result == judged && answer == judged.(approvalID := request.id))
  }

  /** How a call that has read its event stands after a step. */
  ghost predicate CallFollows(cfg: Config, s: Sys, step: Step, t: Sys, c: nat)
    requires c in t.calls && !t.calls[c].Looking? && !t.calls[c].Done?
  {
    && c in s.calls && !s.calls[c].Done? && s.calls[c].Event() == t.calls[c].Event()
    && (s.calls[c].Looking? <==> step.Look? && step.c == c)
    && (s.calls[c].Looking? ==>
          t.calls[c].Result() == Judgement(cfg, s, t.calls[c].Event(), step.keys, step.cancelled)
          && !(t.calls[c].Event().approvalID == "" && cfg.hasPacks && step.cancelled)
          && !t.calls[c].Inserting? && (t.calls[c].Creating? ==> t.calls[c].expiresAt == step.now + cfg.TTL()))
    && (!s.calls[c].Looking? ==>
          || t.calls[c] == s.calls[c]
          || (step.Insert? && step.c == c && s.calls[c].Inserting?
              && InsertedBy(s, step, t, KeyOf(s.calls[c].request)) && t.calls[c].Appending?
              && t.calls[c].result == s.calls[c].Result().(approvalID := s.calls[c].request.id))
          || (s.calls[c].Creating? && t.calls[c].Inserting? && t.calls[c].Result() == s.calls[c].Result()
              && t.calls[c].request.expiresAt == s.calls[c].expiresAt
              && t.calls[c].request.reason == s.calls[c].result.reason)
          || (s.calls[c].Appending? && t.calls[c].Recording? && t.calls[c].Result() == s.calls[c].Result()))
  }

  lemma CallFollowsStep(cfg: Config, s: Sys, step: Step, c: nat)
    requires Shape(cfg, s) && Enabled(s, step) && c in Apply(cfg, s, step).calls
    requires !Apply(cfg, s, step).calls[c].Looking? && !Apply(cfg, s, step).calls[c].Done?
    ensures CallFollows(cfg, s, step, Apply(cfg, s, step), c)
  {
    if !step.OfCall(c) {
      OtherCallsStay(cfg, s, step, c);
    } else if step.Insert? {
      assert CallShape(cfg, s.calls[c]);
    }
  }

  lemma CallAt(cfg: Config, b: Behavior, n: nat, c: nat)
    requires b.Valid(cfg) && n <= |b.steps| && c in b.states[n].calls
    requires !b.states[n].calls[c].Looking? && !b.states[n].calls[c].Done?
    ensures n > 0 && CallFollows(cfg, b.states[n - 1], b.steps[n - 1], b.states[n], c)
  {
    assert b.Follows(cfg, n - 1);
    ShapeHolds(cfg, b, n - 1);
    CallFollowsStep(cfg, b.states[n - 1], b.steps[n - 1], c);
  }

  /** A call that has read an event did so at one earlier step, and answers from what it read there. */
  lemma {:induction false} CallOrigin(cfg: Config, b: Behavior, n: nat, c: nat)
    returns (l: nat, i: nat, judged: EvaluationResult)
    requires b.Valid(cfg) && n <= |b.steps| && c in b.states[n].calls
    requires !b.states[n].calls[c].Looking? && !b.states[n].calls[c].Done?
    ensures l < n && LookedAt(cfg, b, l, c, b.states[n].calls[c].Event(), judged)
    ensures Answers(b, l, i, n, c, judged, b.states[n].calls[c].Result())
    ensures b.states[n].calls[c].Creating? || b.states[n].calls[c].Inserting? ==>
      b.states[n].calls[c].Result() == judged
    ensures b.states[n].calls[c].Creating? ==> b.states[n].calls[c].expiresAt == b.steps[l].now + cfg.TTL()
    ensures b.states[n].calls[c].Inserting? ==> var r := b.states[n].calls[c].request;
      r.expiresAt == b.steps[l].now + cfg.TTL() && r.reason == judged.reason
  {
    CallAt(cfg, b, n, c);
    var s, step := b.states[n - 1], b.steps[n - 1];
    if step.Look? && step.c == c {
      l, i := n - 1, 0;
      judged := Judgement(cfg, s, s.calls[c].event, step.keys, step.cancelled);
    } else {
      l, i, judged := CallOrigin(cfg, b, n - 1, c);
      if s.calls[c].Inserting? && b.states[n].calls[c].Appending? {
        i := n - 1;
        assert CreatedAt(b, i, s.calls[c].request);
      }
    }
  }

  ghost predicate EventFollows(s: Sys, step: Step, t: Sys, c: nat)
    requires c in t.calls && !t.calls[c].Done?
  {
    if step.Begin? && step.c == c then c !in s.calls && Started(step.event, step.now) == Looking(t.calls[c].Event())
    else c in s.calls && !s.calls[c].Done? && s.calls[c].Event() == t.calls[c].Event()
  }

  lemma EventFollowsStep(cfg: Config, s: Sys, step: Step, c: nat)
    requires Enabled(s, step) && c in Apply(cfg, s, step).calls && !Apply(cfg, s, step).calls[c].Done?
    ensures EventFollows(s, step, Apply(cfg, s, step), c)
  {
    if !step.OfCall(c) {
      OtherCallsStay(cfg, s, step, c);
    }
  }

  /** A call's event is the normalised event it was begun with. */
  lemma {:induction false} EventOrigin(cfg: Config, b: Behavior, n: nat, c: nat) returns (p: nat)
    requires b.Valid(cfg) && n <= |b.steps| && c in b.states[n].calls && !b.states[n].calls[c].Done?
    ensures p < n && b.steps[p].Begin? && b.steps[p].c == c
    ensures Started(b.steps[p].event, b.steps[p].now) == Looking(b.states[n].calls[c].Event())
    ensures c !in b.states[p].calls
  {
    assert EventFollows(b.states[n - 1], b.steps[n - 1], b.states[n], c) by {
      assert b.Follows(cfg, n - 1);
      EventFollowsStep(cfg, b.states[n - 1], b.steps[n - 1], c);
    }
    if b.steps[n - 1].Begin? && b.steps[n - 1].c == c {
      p := n - 1;
    } else {
      p := EventOrigin(cfg, b, n - 1, c);
    }
  }

  /** A call is begun once. */
  lemma BeginsOnce(cfg: Config, b: Behavior, p: nat, q: nat, c: nat)
    requires b.Valid(cfg)
    requires p < |b.steps| && b.steps[p].Begin? && b.steps[p].c == c
    requires q < |b.steps| && b.steps[q].Begin? && b.steps[q].c == c
    ensures p == q
  {
    assert b.Follows(cfg, p) && b.Follows(cfg, q);
    if p < q {
      Grows(cfg, b, p + 1, q);
    } else if q < p {
      Grows(cfg, b, q + 1, p);
    }
  }

  /** A request records the event and the judgement that called for it, and expires one time to live - never
      a negative or empty span - after the policies were read. */
  lemma CreatedRequestIsDue(cfg: Config, b: Behavior, i: nat, request: ApprovalRequest) returns (l: nat)
    requires b.Valid(cfg) && CreatedAt(b, i, request)
    ensures l < i && LookedAt(cfg, b, l, b.steps[i].c, request.event, request.result)
    ensures request.reason == request.result.reason && request.decidedBy == "" && request.decidedAt == 0
    ensures request.expiresAt == b.steps[l].now + cfg.TTL() > b.steps[l].now
    ensures request.expiresAt == b.steps[l].now + if cfg.ttl > 0 then cfg.ttl else 15 * 60 * 1_000_000_000
  {
    ShapeHolds(cfg, b, i);
    assert CallShape(cfg, b.states[i].calls[b.steps[i].c]);
    var j, judged;
    l, j, judged := CallOrigin(cfg, b, i, b.steps[i].c);
  }

  // ----- Records and returned results --------------------------------------------------

  /** Step `m` appends `record` for call `c`, at position `x` of the log. */
  ghost predicate AppendedAt(b: Behavior, m: nat, c: nat, x: nat, record: AuditRecord) {
    && m < |b.steps| && m + 1 < |b.states| && b.steps[m].Append? && b.steps[m].c == c
    && c in b.states[m].calls && b.states[m].calls[c].Recording? && b.states[m].calls[c].record == record
    && |b.states[m].records| == x && b.states[m + 1].records == b.states[m].records + [record]
    && c in b.states[m + 1].calls
    && b.states[m + 1].calls[c] == Done(Returned(record.result.(auditID := record.id)))
  }

  lemma {:induction false} RecordOrigin(cfg: Config, b: Behavior, n: nat, x: nat) returns (m: nat)
    requires b.Valid(cfg) && n <= |b.steps| && x < |b.states[n].records|
    ensures m < n && b.steps[m].Append? && AppendedAt(b, m, b.steps[m].c, x, b.states[n].records[x])
  {
    assert b.Follows(cfg, n - 1);
    if x < |b.states[n - 1].records| {
      m := RecordOrigin(cfg, b, n - 1, x);
    } else {
      m := n - 1;
    }
  }

  lemma {:induction false} ReturnOrigin(cfg: Config, b: Behavior, n: nat, c: nat) returns (m: nat)
    requires b.Valid(cfg) && n <= |b.steps| && c in b.states[n].calls
    requires b.states[n].calls[c].Done? && b.states[n].calls[c].outcome.Returned?
    ensures m < n && m < |b.states| && c in b.states[m].calls && b.states[m].calls[c].Recording?
    ensures AppendedAt(b, m, c, |b.states[m].records|, b.states[m].calls[c].record)
    ensures b.states[n].calls[c].outcome.result ==
      b.states[m].calls[c].record.result.(auditID := b.states[m].calls[c].record.id)
  {
    assert b.Follows(cfg, n - 1);
    var s, step := b.states[n - 1], b.steps[n - 1];
    if !step.OfCall(c) {
      OtherCallsStay(cfg, s, step, c);
      m := ReturnOrigin(cfg, b, n - 1, c);
    } else {
      m := n - 1;
    }
  }

  /** Step `i` is where call `c` fails with `error`: it was begun on an unacceptable event, or a store call it
      needed found the context cancelled. */
  ghost predicate FailsAt(cfg: Config, b: Behavior, i: nat, c: nat, error: EvaluateError) {
    && i < |b.steps| < |b.states| && b.steps[i].OfCall(c)
    && match error
       case InvalidEvent => b.steps[i].Begin? && !Acceptable(b.steps[i].event)
       case ListFailed => b.steps[i].Look? && b.steps[i].cancelled && cfg.hasPacks
         && c in b.states[i].calls && b.states[i].calls[c].Looking? && b.states[i].calls[c].event.approvalID == ""
       case CreateFailed => b.steps[i].Number? && b.steps[i].cancelled
       case AppendFailed => b.steps[i].NumberRecord? && b.steps[i].cancelled
  }

  lemma FailureStep(cfg: Config, b: Behavior, n: nat, c: nat, error: EvaluateError)
    requires b.Valid(cfg) && n < |b.steps| && b.steps[n].OfCall(c)
    requires c in b.states[n + 1].calls && b.states[n + 1].calls[c] == Done(Failed(error))
    ensures FailsAt(cfg, b, n, c, error)
  {
    assert b.Follows(cfg, n);
    if b.steps[n].Begin? {
      StartedIff(b.steps[n].event, b.steps[n].now);
    }
  }

  /** A failed call failed at one step, for one of these reasons. */
  lemma {:induction false} FailureOrigin(cfg: Config, b: Behavior, n: nat, c: nat, error: EvaluateError)
    returns (i: nat)
    requires b.Valid(cfg) && n <= |b.steps| && c in b.states[n].calls && b.states[n].calls[c] == Done(Failed(error))
    ensures i < n && FailsAt(cfg, b, i, c, error)
  {
    if b.steps[n - 1].OfCall(c) {
      FailureStep(cfg, b, n - 1, c, error);
      i := n - 1;
    } else {
      assert b.Follows(cfg, n - 1);
      OtherCallsStay(cfg, b.states[n - 1], b.steps[n - 1], c);
      i := FailureOrigin(cfg, b, n - 1, c, error);
    }
  }

  /** A call begun on an acceptable event, none of whose store calls is cancelled, can only end by returning;
      one begun on any other event can only end as invalid. */
  lemma UncancelledCallReturns(cfg: Config, b: Behavior, c: nat, p: nat, n: nat)
    requires b.Valid(cfg) && p < n <= |b.steps| && b.steps[p].Begin? && b.steps[p].c == c
    requires c in b.states[n].calls && b.states[n].calls[c].Done?
    requires forall i | 0 <= i < |b.steps| && b.steps[i].OfCall(c) ::
      b.steps[i].Look? || b.steps[i].Number? || b.steps[i].NumberRecord? ==> !b.steps[i].cancelled
    ensures b.states[n].calls[c].outcome.Returned? <==> Acceptable(b.steps[p].event)
    ensures b.states[n].calls[c].outcome.Failed? ==> b.states[n].calls[c].outcome.error == InvalidEvent
  {
    if b.states[n].calls[c].outcome.Failed? {
      var i := FailureOrigin(cfg, b, n, c, b.states[n].calls[c].outcome.error);
      if b.steps[i].Begin? {
        BeginsOnce(cfg, b, p, i, c);
      }
    } else {
      var m := ReturnOrigin(cfg, b, n, c);
      var q := EventOrigin(cfg, b, m, c);
      BeginsOnce(cfg, b, p, q, c);
      StartedIff(b.steps[p].event, b.steps[p].now);
    }
  }

  /** The result a call returned comes from what it read, at one step after it was begun. */
  lemma ReturnedJudgement(cfg: Config, b: Behavior, n: nat, c: nat, p: nat)
    returns (l: nat, event: RuntimeEvent, judged: EvaluationResult)
    requires b.Valid(cfg) && n <= |b.steps| && c in b.states[n].calls
    requires b.states[n].calls[c].Done? && b.states[n].calls[c].outcome.Returned?
    requires p < |b.steps| && b.steps[p].Begin? && b.steps[p].c == c
    ensures p < l < n && LookedAt(cfg, b, l, c, event, judged)
    ensures Started(b.steps[p].event, b.steps[p].now) == Looking(event)
    ensures var result := b.states[n].calls[c].outcome.result;
      && result.decision == judged.decision && result.reason == judged.reason
      && result.matchedPolicyIDs == judged.matchedPolicyIDs
  {
    var m := ReturnOrigin(cfg, b, n, c);
    event := b.states[m].calls[c].Event();
    var i;
    l, i, judged := CallOrigin(cfg, b, m, c);
    var q := EventOrigin(cfg, b, l, c);
    BeginsOnce(cfg, b, p, q, c);
  }

  // ----- The theorem -------------------------------------------------------------------

  /** Step `m` of call `c` appends `record` on the strength of a request that step `i` created and step `j`
      approved, as step `l` of the same call found. */
  ghost predicate BackedByApproval(cfg: Config, b: Behavior, c: nat, i: nat, j: nat, l: nat, m: nat,
                                   record: AuditRecord)
  {
    exists created, approved, judged ::
      && i < j < l < m < |b.steps| < |b.states|
      && CreatedAt(b, i, created) && created.id == record.result.approvalID && created.tenantID == record.event.tenantID
      && Binding(created.event) == Binding(record.event)
      && ApprovedAt(b, j, created, approved)
      && LookedAt(cfg, b, l, c, record.event, judged) && judged == record.result
      && KeyOf(created) in b.states[l].requests && b.states[l].requests[KeyOf(created)] == approved
  }

  /** An allowing answer with an identifier comes from an approved request that binds the same event. */
  lemma AllowComesFromApproval(cfg: Config, s: Sys, event: RuntimeEvent, keys: seq<string>, cancelled: bool)
    requires Shape(cfg, s)
    requires var r := Judgement(cfg, s, event, keys, cancelled); r.decision == Allow && r.approvalID != ""
    ensures var k := Key(event.tenantID, event.approvalID);
      && event.approvalID != "" && !cancelled && k in s.requests && s.requests[k].status == Approved
      && Agrees(s.requests[k].event, event)
      && s.requests[k].id == Judgement(cfg, s, event, keys, cancelled).approvalID
      && s.requests[k].tenantID == event.tenantID && KeyOf(s.requests[k]) == k
  {
    assert event.approvalID != "";
  }

  /** In every behaviour, every audit record that allows an event under an approval identifier is backed by
      a request with that identifier and tenant, created by an evaluation that demanded approval, bound to
      the same nine fields, and approved by a decision not after its expiry - all before the record was
      written. Nothing is assumed of tenants, identifiers or counters. */
  lemma ApprovedAllowProvenance(cfg: Config, b: Behavior, x: nat)
    requires b.Valid(cfg) && x < |b.Last().records|
    requires b.Last().records[x].result.decision == Allow && b.Last().records[x].result.approvalID != ""
    ensures exists c: nat, i: nat, j: nat, l: nat, m: nat ::
      (AppendedAt(b, m, c, x, b.Last().records[x]) && BackedByApproval(cfg, b, c, i, j, l, m, b.Last().records[x]))
  {
    var record := b.Last().records[x];
    var m := RecordOrigin(cfg, b, |b.steps|, x);
    var c := b.steps[m].c;
    var l, i', judged := CallOrigin(cfg, b, m, c);
    assert record.result == judged;
    ShapeHolds(cfg, b, l);
    AllowComesFromApproval(cfg, b.states[l], record.event, b.steps[l].keys, b.steps[l].cancelled);
    var k := Key(record.event.tenantID, record.event.approvalID);
    var i, j, created := ApprovalOrigin(cfg, b, l, k);
    AgreesIffSameBinding(b.states[l].requests[k].event, record.event);
    assert ApprovedAt(b, j, created, b.states[l].requests[k]);
    assert BackedByApproval(cfg, b, c, i, j, l, m, record);
  }
}
