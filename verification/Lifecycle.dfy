/** The life of an approval request across a whole behaviour. The results hold while no other request is
    inserted at its key; until 2^64 requests have been numbered none is. */
module Lifecycle {
  import opened Domain
  import opened Text
  import opened ApprovalStore
  import opened Protocol
  import opened Provenance
  import opened Labels

  // ----- Generated identifiers are fresh -----------------------------------------------

  /** Numbers in flight are distinct and belong to no stored request, nor does any number still to come. */
  ghost predicate Distinct(s: Sys) {
    && (forall c | c in s.calls && s.calls[c].Inserting? ::
          1 <= s.calls[c].serial <= s.numbered && KeyOf(s.calls[c].request) !in s.requests)
    && (forall c, d | c in s.calls && d in s.calls && c != d && s.calls[c].Inserting? && s.calls[d].Inserting? ::
          s.calls[c].serial != s.calls[d].serial)
    && (forall k, n: nat | k in s.requests && s.numbered < n <= COUNTER_RANGE :: s.requests[k].id != ApprovalID(n))
  }

  /** Generated keys never collide, for any tenants whatever, while the counter has not gone round. */
  lemma GeneratedKeysDiffer(t1: string, m: nat, t2: string, n: nat)
    requires 1 <= m <= COUNTER_RANGE && 1 <= n <= COUNTER_RANGE
    ensures Key(t1, ApprovalID(m)) == Key(t2, ApprovalID(n)) <==> t1 == t2 && m == n
  {
    ApprovalIDNulFree(m);
    ApprovalIDNulFree(n);
    KeyInjectiveIds(t1, ApprovalID(m), t2, ApprovalID(n));
    GeneratedIDInjective(ApprovalStore.ID_PREFIX, m, n);
  }

  lemma NumberStaysDistinct(cfg: Config, s: Sys, step: Step)
    requires Shape(cfg, s) && Distinct(s) && Enabled(s, step) && step.Number? && !step.cancelled
    requires s.numbered + 1 <= COUNTER_RANGE
    ensures Distinct(Apply(cfg, s, step))
  {
    var t := Apply(cfg, s, step);
    var request := t.calls[step.c].request;
    ApprovalIDNulFree(s.numbered + 1);
    assert KeyOf(request) !in s.requests by {
      forall k | k in s.requests ensures k != KeyOf(request) {
        KeyInjectiveIds(s.requests[k].tenantID, s.requests[k].id, request.tenantID, request.id);
      }
    }
  }

  lemma InsertStaysDistinct(cfg: Config, s: Sys, step: Step)
    requires Shape(cfg, s) && Distinct(s) && Enabled(s, step) && step.Insert?
    requires s.numbered <= COUNTER_RANGE
    ensures Distinct(Apply(cfg, s, step))
  {
    var t := Apply(cfg, s, step);
    var c := step.c;
    assert CallShape(cfg, s.calls[c]);
    forall d | d in t.calls && t.calls[d].Inserting? ensures KeyOf(t.calls[d].request) !in t.requests {
      assert CallShape(cfg, s.calls[d]);
      GeneratedKeysDiffer(s.calls[c].request.tenantID, s.calls[c].serial, s.calls[d].request.tenantID,
                          s.calls[d].serial);
    }
    forall k, n: nat | k in t.requests && t.numbered < n <= COUNTER_RANGE ensures t.requests[k].id != ApprovalID(n) {
      GeneratedIDInjective(ApprovalStore.ID_PREFIX, s.calls[c].serial, n);
    }
  }

  /** No request is stored or numbered between `s` and `t`. */
  ghost predicate SameNumbers(s: Sys, t: Sys) {
    && t.numbered == s.numbered && t.requests.Keys == s.requests.Keys
    && (forall k | k in s.requests :: t.requests[k].id == s.requests[k].id)
    && (forall c | c in t.calls && t.calls[c].Inserting? :: c in s.calls && s.calls[c] == t.calls[c])
  }

  lemma NothingNew(cfg: Config, s: Sys, step: Step)
    requires Enabled(s, step) && !step.Insert? && !(step.Number? && !step.cancelled)
    ensures SameNumbers(s, Apply(cfg, s, step))
  {
  }

  lemma DistinctFrame(s: Sys, t: Sys)
    requires Distinct(s) && SameNumbers(s, t)
    ensures Distinct(t)
  {
  }

  lemma DistinctStep(cfg: Config, s: Sys, step: Step)
    requires Shape(cfg, s) && Distinct(s) && Enabled(s, step) && Apply(cfg, s, step).numbered <= COUNTER_RANGE
    ensures Distinct(Apply(cfg, s, step))
  {
    if step.Number? && !step.cancelled {
      NumberStaysDistinct(cfg, s, step);
    } else if step.Insert? {
      InsertStaysDistinct(cfg, s, step);
    } else {
      NothingNew(cfg, s, step);
      DistinctFrame(s, Apply(cfg, s, step));
    }
  }

  lemma {:induction false} DistinctHolds(cfg: Config, b: Behavior, n: nat)
    requires b.Valid(cfg) && n <= |b.steps| && b.states[n].numbered <= COUNTER_RANGE
    ensures Distinct(b.states[n])
  {
    if n > 0 {
      assert b.Follows(cfg, n - 1);
      Grows(cfg, b, n - 1, n);
      DistinctHolds(cfg, b, n - 1);
      ShapeHolds(cfg, b, n - 1);
      DistinctStep(cfg, b.states[n - 1], b.steps[n - 1]);
    }
  }

  // ----- Requests only evolve ----------------------------------------------------------

  /** Step `i` inserts a request at key `k`. */
  ghost predicate InsertsAt(b: Behavior, i: nat, k: string) {
    && i < |b.steps| < |b.states| && b.steps[i].Insert?
    && b.steps[i].c in b.states[i].calls && b.states[i].calls[b.steps[i].c].Inserting?
    && KeyOf(b.states[i].calls[b.steps[i].c].request) == k
  }

  /** No step from `m` on and before `n` does. */
  ghost predicate NoInsert(b: Behavior, m: nat, n: nat, k: string) {
    forall i | m <= i < n :: !InsertsAt(b, i, k)
  }

  lemma EvolvesAt(cfg: Config, b: Behavior, n: nat, k: string)
    requires b.Valid(cfg) && n < |b.steps| && k in b.states[n].requests && !InsertsAt(b, n, k)
    ensures k in b.states[n + 1].requests && Evolves(b.states[n].requests[k], b.states[n + 1].requests[k])
  {
    assert b.Follows(cfg, n);
    var s, step := b.states[n], b.steps[n];
    if step.Decide? {
      DecideOutcome(s.requests, Key(step.tenantID, step.approvalID), step.input, step.clock, step.cancelled);
    }
  }

  /** A stored request stays stored until another is inserted at its key. Its event, result, times of request
      and expiry never change; once approved, rejected or expired it never changes at all. */
  lemma {:induction false} RequestsEvolve(cfg: Config, b: Behavior, m: nat, n: nat, k: string)
    requires b.Valid(cfg) && m <= n <= |b.steps|
    requires k in b.states[m].requests && NoInsert(b, m, n, k)
    ensures k in b.states[n].requests && Evolves(b.states[m].requests[k], b.states[n].requests[k])
  {
    if m < n {
      RequestsEvolve(cfg, b, m, n - 1, k);
      EvolvesAt(cfg, b, n - 1, k);
      EvolvesTransitive(b.states[m].requests[k], b.states[n - 1].requests[k], b.states[n].requests[k]);
    }
  }

  /** While the counter has not gone round, no other request is. */
  lemma NoInsertBeforeWrap(cfg: Config, b: Behavior, m: nat, n: nat, k: string)
    requires b.Valid(cfg) && m <= n <= |b.steps| && b.states[n].numbered <= COUNTER_RANGE
    requires k in b.states[m].requests
    ensures NoInsert(b, m, n, k)
  {
    forall i | m <= i < n ensures !InsertsAt(b, i, k) {
      Grows(cfg, b, m, i);
      Grows(cfg, b, i, n);
      DistinctHolds(cfg, b, i);
    }
  }

  /** So until then requests only evolve. */
  lemma RequestsEvolveBeforeWrap(cfg: Config, b: Behavior, m: nat, n: nat, k: string)
    requires b.Valid(cfg) && m <= n <= |b.steps| && b.states[n].numbered <= COUNTER_RANGE
    requires k in b.states[m].requests
    ensures k in b.states[n].requests && Evolves(b.states[m].requests[k], b.states[n].requests[k])
  {
    NoInsertBeforeWrap(cfg, b, m, n, k);
    RequestsEvolve(cfg, b, m, n, k);
  }

  /** Step `j` is a decision that succeeds on the request at key `k`. */
  ghost predicate SucceedsAt(b: Behavior, j: nat, k: string) {
    && j < |b.steps| < |b.states| && b.steps[j].Decide? && Key(b.steps[j].tenantID, b.steps[j].approvalID) == k
    && DecideError(b.states[j].requests, k, b.steps[j].input, b.steps[j].clock, b.steps[j].cancelled).None?
  }

  /** Between two decisions that succeed at one key, another request has been inserted there. */
  lemma OneDecisionPerInsertion(cfg: Config, b: Behavior, i: nat, j: nat, k: string)
    requires b.Valid(cfg) && i < j && SucceedsAt(b, i, k) && SucceedsAt(b, j, k)
    ensures exists x :: i < x < j && InsertsAt(b, x, k)
  {
    assert b.Follows(cfg, i);
    if NoInsert(b, i + 1, j, k) {
      RequestsEvolve(cfg, b, i + 1, j, k);
    }
  }

  /** At most one decision per request ever succeeds, while the counter has not gone round. */
  lemma OneDecisionSucceeds(cfg: Config, b: Behavior, i: nat, j: nat, k: string)
    requires b.Valid(cfg) && b.Last().numbered <= COUNTER_RANGE
    requires SucceedsAt(b, i, k) && SucceedsAt(b, j, k)
    ensures i == j
  {
    if i != j {
      var first, second := if i < j then i else j, if i < j then j else i;
      Grows(cfg, b, second, |b.steps|);
      NoInsertBeforeWrap(cfg, b, first, second, k);
      OneDecisionPerInsertion(cfg, b, first, second, k);
    }
  }

  // ----- Resubmission ------------------------------------------------------------------

  /** The step is a decision that, if it finds a pending request at key `k`, decides or expires it. */
  predicate Decides(step: Step, k: string) {
    && step.Decide? && Key(step.tenantID, step.approvalID) == k && !step.cancelled
    && (step.input.status == Approved || step.input.status == Rejected)
  }

  ghost predicate NoDecision(b: Behavior, m: nat, n: nat, k: string) {
    forall j | m <= j < n && j < |b.steps| :: !Decides(b.steps[j], k)
  }

  lemma UndecidedAt(cfg: Config, b: Behavior, n: nat, k: string)
    requires b.Valid(cfg) && n < |b.steps| && k in b.states[n].requests
    requires !InsertsAt(b, n, k) && !Decides(b.steps[n], k)
    ensures k in b.states[n + 1].requests && b.states[n + 1].requests[k] == b.states[n].requests[k]
  {
    assert b.Follows(cfg, n);
    var s, step := b.states[n], b.steps[n];
    if step.Decide? {
      DecideOutcome(s.requests, Key(step.tenantID, step.approvalID), step.input, step.clock, step.cancelled);
    }
  }

  lemma {:induction false} UndecidedStays(cfg: Config, b: Behavior, m: nat, n: nat, k: string)
    requires b.Valid(cfg) && m <= n <= |b.steps| && k in b.states[m].requests
    requires NoInsert(b, m, n, k) && NoDecision(b, m, n, k)
    ensures k in b.states[n].requests && b.states[n].requests[k] == b.states[m].requests[k]
  {
    if m < n {
      UndecidedStays(cfg, b, m, n - 1, k);
      UndecidedAt(cfg, b, n - 1, k);
    }
  }

  lemma InsertedIsPending(cfg: Config, b: Behavior, i: nat, k: string)
    requires b.Valid(cfg) && InsertsAt(b, i, k)
    ensures k in b.states[i + 1].requests && b.states[i + 1].requests[k] == b.states[i].calls[b.steps[i].c].request
    ensures b.states[i + 1].requests[k].status == Pending
  {
    assert b.Follows(cfg, i);
    ShapeHolds(cfg, b, i);
    assert CallShape(cfg, b.states[i].calls[b.steps[i].c]);
  }

  /** No judgement both demands approval and names a request. */
  lemma JudgedDemandIsUnnamed(cfg: Config, s: Sys, event: RuntimeEvent, keys: seq<string>, cancelled: bool)
    ensures var r := Judgement(cfg, s, event, keys, cancelled); r.decision == RequireApproval ==> r.approvalID == ""
  {
  }

  /** A record that demands approval under an identifier was preceded by the creation of that request. */
  lemma DemandOrigin(cfg: Config, b: Behavior, m: nat, c: nat) returns (i: nat, request: ApprovalRequest)
    requires b.Valid(cfg) && m <= |b.steps| && c in b.states[m].calls && b.states[m].calls[c].Recording?
    requires var r := b.states[m].calls[c].record.result; r.decision == RequireApproval && r.approvalID != ""
    ensures i < m && CreatedAt(b, i, request) && b.steps[i].c == c
    ensures request.id == b.states[m].calls[c].record.result.approvalID
  {
    var l, j, judged := CallOrigin(cfg, b, m, c);
    var answer := b.states[m].calls[c].record.result;
    ShapeHolds(cfg, b, l);
    JudgedDemandIsUnnamed(cfg, b.states[l], b.states[m].calls[c].Event(), b.steps[l].keys, b.steps[l].cancelled);
    assert answer != judged;
    i := j;
    request :| l < i < m && CreatedAt(b, i, request) && b.steps[i].c == c
      && request.result == judged && answer == judged.(approvalID := request.id);
  }

  lemma CreatedForEvent(cfg: Config, b: Behavior, i: nat, request: ApprovalRequest, p: nat, e: RuntimeEvent, t: int)
    requires b.Valid(cfg) && CreatedAt(b, i, request)
    requires p < |b.steps| && b.steps[p] == Begin(b.steps[i].c, e, t)
    ensures Binding(request.event) == Binding(e) && request.tenantID == e.tenantID
  {
    var p' := EventOrigin(cfg, b, i, b.steps[i].c);
    BeginsOnce(cfg, b, p, p', b.steps[i].c);
  }

  /** In state `n`, call `c` has returned a demand for approval under the identifier `a`. */
  ghost predicate DemandedAt(b: Behavior, n: nat, c: nat, a: string) {
    && n <= |b.steps| < |b.states| && c in b.states[n].calls
    && b.states[n].calls[c].Done? && b.states[n].calls[c].outcome.Returned?
    && b.states[n].calls[c].outcome.result.decision == RequireApproval
    && b.states[n].calls[c].outcome.result.approvalID == a
  }

  /** In state `n`, a request with identifier `a` that binds `e` is stored at key `k`. */
  ghost predicate BoundAt(b: Behavior, n: nat, k: string, a: string, e: RuntimeEvent) {
    && n < |b.states| && k in b.states[n].requests
    && b.states[n].requests[k].id == a && Binding(b.states[n].requests[k].event) == Binding(e)
  }

  /** No request is inserted at key `k` after the one that call `c` inserts there. */
  ghost predicate LastInsertedBy(b: Behavior, c: nat, k: string) {
    forall i: nat, j: nat | InsertsAt(b, i, k) && b.steps[i].c == c && InsertsAt(b, j, k) :: j <= i
  }

  /** A call that returned a demand for approval with an identifier had inserted its request; until another
      is inserted in its place the request is there, bound to the event the call was begun with. */
  lemma DemandLeavesRequest(cfg: Config, b: Behavior, c: nat, p: nat, e: RuntimeEvent, t: int, n: nat, a: string)
    returns (i: nat)
    requires b.Valid(cfg)
    requires p < |b.steps| && b.steps[p] == Begin(c, e, t)
    requires DemandedAt(b, n, c, a) && a != ""
    ensures i < n && InsertsAt(b, i, Key(e.tenantID, a)) && b.steps[i].c == c
    ensures forall q | i < q <= |b.steps| && NoInsert(b, i + 1, q, Key(e.tenantID, a)) ::
      BoundAt(b, q, Key(e.tenantID, a), a, e)
  {
    var k := Key(e.tenantID, a);
    var m := ReturnOrigin(cfg, b, n, c);
    var request;
    i, request := DemandOrigin(cfg, b, m, c);
    CreatedForEvent(cfg, b, i, request, p, e, t);
    forall q | i < q <= |b.steps| && NoInsert(b, i + 1, q, k) ensures BoundAt(b, q, k, a, e) {
      RequestsEvolve(cfg, b, i + 1, q, k);
    }
  }

  /** While the counter has not gone round, it is there when the call has returned. */
  lemma DemandLeavesRequestBeforeWrap(cfg: Config, b: Behavior, c: nat, p: nat, e: RuntimeEvent, t: int, n: nat,
                                      a: string)
    requires b.Valid(cfg) && n <= |b.steps| && b.states[n].numbered <= COUNTER_RANGE
    requires p < |b.steps| && b.steps[p] == Begin(c, e, t)
    requires DemandedAt(b, n, c, a) && a != ""
    ensures BoundAt(b, n, Key(e.tenantID, a), a, e)
  {
    var i := DemandLeavesRequest(cfg, b, c, p, e, t, n, a);
    InsertedIsPending(cfg, b, i, Key(e.tenantID, a));
    NoInsertBeforeWrap(cfg, b, i + 1, n, Key(e.tenantID, a));
  }

  /** Step `q` approves, in time, the request it finds at key `k`, if that is pending. */
  ghost predicate ApprovesAt(b: Behavior, q: nat, k: string) {
    && q < |b.steps| < |b.states| && Decides(b.steps[q], k) && b.steps[q].input.status == Approved
    && k in b.states[q].requests
    && var t := if b.steps[q].input.now != 0 then b.steps[q].input.now else b.steps[q].clock;
       b.states[q].requests[k].expiresAt == 0 || t <= b.states[q].requests[k].expiresAt
  }

  lemma ApprovalSticks(cfg: Config, b: Behavior, i: nat, q: nat, k: string, n: nat)
    requires b.Valid(cfg) && InsertsAt(b, i, k) && NoInsert(b, i + 1, |b.steps|, k)
    requires i < q && ApprovesAt(b, q, k) && NoDecision(b, i + 1, q, k) && q < n <= |b.steps|
    ensures k in b.states[n].requests && b.states[n].requests[k].status == Approved
  {
    InsertedIsPending(cfg, b, i, k);
    UndecidedStays(cfg, b, i + 1, q, k);
    assert b.Follows(cfg, q);
    RequestsEvolve(cfg, b, q + 1, n, k);
  }

  predicate AllowsUnder(result: EvaluationResult, id: string) {
    result.decision == Allow && result.approvalID == id
  }

  /** The stages of a call on `event` that ends in an allowing answer under `id`. */
  predicate OnTheWay(call: Call, event: RuntimeEvent, id: string) {
    match call
    case Looking(e) => e == event
    case Appending(_, result) => AllowsUnder(result, id)
    case Recording(record, _) => AllowsUnder(record.result, id)
    case Done(Returned(result)) => AllowsUnder(result, id)
    case _ => false
  }

  lemma BeginsOnTheWay(cfg: Config, b: Behavior, w: nat, d: nat, event: RuntimeEvent)
    requires b.Valid(cfg) && w < |b.steps|
    requires b.steps[w].Begin? && b.steps[w].c == d && Started(b.steps[w].event, b.steps[w].now) == Looking(event)
    ensures d in b.states[w + 1].calls && b.states[w + 1].calls[d] == Looking(event)
  {
    assert b.Follows(cfg, w);
  }

  /** The request at `k` is approved and binds `event`, which names it. */
  ghost predicate Grants(s: Sys, k: string, event: RuntimeEvent) {
    && event.approvalID != "" && k == Key(event.tenantID, event.approvalID)
    && k in s.requests && s.requests[k].status == Approved && s.requests[k].id == event.approvalID
    && Binding(s.requests[k].event) == Binding(event)
  }

  /** From step `from` on, it always is. */
  ghost predicate GrantedFrom(b: Behavior, from: nat, k: string, event: RuntimeEvent) {
    forall j {:trigger Grants(b.states[j], k, event)} | from <= j < |b.states| :: Grants(b.states[j], k, event)
  }

  lemma OnTheWayStep(cfg: Config, s: Sys, step: Step, d: nat, event: RuntimeEvent, k: string)
    requires cfg.hasApprovals && Enabled(s, step) && d in s.calls && OnTheWay(s.calls[d], event, event.approvalID)
    requires step.OfCall(d) && (step.Look? || step.Number? || step.NumberRecord?) ==> !step.cancelled
    requires Grants(s, k, event)
    ensures d in Apply(cfg, s, step).calls && OnTheWay(Apply(cfg, s, step).calls[d], event, event.approvalID)
  {
    if !step.OfCall(d) {
      OtherCallsStay(cfg, s, step, d);
    } else {
      AgreesIffSameBinding(s.requests[k].event, event);
    }
  }

  /** No store call made for call `d` sees a cancelled context. */
  ghost predicate Unfailing(b: Behavior, d: nat) {
    forall j | 0 <= j < |b.steps| && b.steps[j].OfCall(d) ::
      (b.steps[j].Look? || b.steps[j].Number? || b.steps[j].NumberRecord?) ==> !b.steps[j].cancelled
  }

  lemma OnTheWayAt(cfg: Config, b: Behavior, d: nat, j: nat, event: RuntimeEvent, k: string)
    requires b.Valid(cfg) && cfg.hasApprovals && j < |b.steps|
    requires GrantedFrom(b, j, k, event) && Unfailing(b, d)
    requires d in b.states[j].calls && OnTheWay(b.states[j].calls[d], event, event.approvalID)
    ensures d in b.states[j + 1].calls && OnTheWay(b.states[j + 1].calls[d], event, event.approvalID)
  {
    assert b.Follows(cfg, j);
    assert Grants(b.states[j], k, event);
    OnTheWayStep(cfg, b.states[j], b.steps[j], d, event, k);
  }

  lemma {:induction false} ResubmissionProceeds(cfg: Config, b: Behavior, d: nat, w: nat, event: RuntimeEvent,
                                                k: string, n: nat)
    requires b.Valid(cfg) && cfg.hasApprovals && w < n <= |b.steps|
    requires b.steps[w].Begin? && b.steps[w].c == d && Started(b.steps[w].event, b.steps[w].now) == Looking(event)
    requires GrantedFrom(b, w, k, event) && Unfailing(b, d)
    ensures d in b.states[n].calls && OnTheWay(b.states[n].calls[d], event, event.approvalID)
  {
    if n - 1 > w {
      ResubmissionProceeds(cfg, b, d, w, event, k, n - 1);
      OnTheWayAt(cfg, b, d, n - 1, event, k);
    } else {
      BeginsOnTheWay(cfg, b, w, d, event);
    }
  }

  /** The approval given by the first decision holds for any event that names the request and is bound by it. */
  lemma ApprovalHolds(cfg: Config, b: Behavior, i: nat, q: nat, k: string, w: nat, event: RuntimeEvent)
    requires b.Valid(cfg) && InsertsAt(b, i, k) && NoInsert(b, i + 1, |b.steps|, k)
    requires i < q && ApprovesAt(b, q, k) && NoDecision(b, i + 1, q, k) && q < w < |b.steps|
    requires event.approvalID != "" && k == Key(event.tenantID, event.approvalID)
    requires forall n | i < n <= |b.steps| :: BoundAt(b, n, k, event.approvalID, event)
    ensures GrantedFrom(b, w, k, event)
  {
    forall j | w <= j < |b.states| ensures Grants(b.states[j], k, event) {
      ApprovalSticks(cfg, b, i, q, k, j);
      assert BoundAt(b, j, k, event.approvalID, event);
    }
  }

  /** Naming an approval does not affect validity, nor what an approval would bind. */
  lemma NormalizeResubmitted(e: RuntimeEvent, a: string)
    ensures e.(approvalID := a).Normalize().Some? <==> e.Normalize().Some?
    ensures e.Normalize().Some? ==> var n := e.(approvalID := a).Normalize().value;
      n == e.Normalize().value.(approvalID := a) && Binding(n) == Binding(e)
  {
  }

  /** A valid event, begun again naming approval `a`, is looked up under `a` with its nine fields unchanged. */
  lemma ResubmittedStarts(e: RuntimeEvent, a: string, step: Step) returns (event: RuntimeEvent)
    requires e.Normalize().Some? && step.Begin? && step.event == e.(approvalID := a)
    ensures Started(step.event, step.now) == Looking(event)
    ensures event.approvalID == a && event.tenantID == e.tenantID && Binding(event) == Binding(e)
  {
    NormalizeResubmitted(e, a);
    event := Started(step.event, step.now).event;
  }

  lemma DemandedEventIsValid(cfg: Config, b: Behavior, c: nat, p: nat, e: RuntimeEvent, t: int, n: nat, a: string)
    requires b.Valid(cfg) && p < |b.steps| && b.steps[p] == Begin(c, e, t)
    requires DemandedAt(b, n, c, a)
    ensures e.Normalize().Some?
  {
    var m := ReturnOrigin(cfg, b, n, c);
    var q := EventOrigin(cfg, b, m, c);
    BeginsOnce(cfg, b, p, q, c);
  }

  lemma DemandIsNamed(cfg: Config, b: Behavior, c: nat, n: nat, a: string)
    requires b.Valid(cfg) && cfg.hasApprovals && DemandedAt(b, n, c, a)
    ensures a != ""
  {
    ShapeHolds(cfg, b, n);
    assert CallShape(cfg, b.states[n].calls[c]);
  }

  lemma NoInsertShorter(b: Behavior, m: nat, n: nat, q: nat, k: string)
    requires NoInsert(b, m, n, k) && q <= n
    ensures NoInsert(b, m, q, k)
  {
  }

  /** Resubmission progress. Call `c`, begun with event `e`, demands approval `a` of the request it inserted at
      step `i`, and no other is inserted in its place. The first decision after that approves it in time, at
      step `q` - after call `c` has returned, or already while it is writing its record. Then, whatever steps
      anyone has taken before and after - pack changes included - a call begun later with `e` naming `a` can
      only end, if no store call fails, by allowing the event under `a`. */
  lemma ApprovedResubmission(cfg: Config, b: Behavior, c: nat, p: nat, e: RuntimeEvent, t: int, n: nat, a: string,
                             i: nat, q: nat, d: nat, w: nat)
    requires b.Valid(cfg) && cfg.hasApprovals
    requires p < |b.steps| && b.steps[p] == Begin(c, e, t)
    requires DemandedAt(b, n, c, a)
    requires InsertsAt(b, i, Key(e.tenantID, a)) && b.steps[i].c == c && LastInsertedBy(b, c, Key(e.tenantID, a))
    requires i < q && ApprovesAt(b, q, Key(e.tenantID, a)) && NoDecision(b, i + 1, q, Key(e.tenantID, a))
    requires q < w < |b.steps| && b.steps[w].Begin? && b.steps[w].c == d && b.steps[w].event == e.(approvalID := a)
    requires Unfailing(b, d) && d in b.Last().calls && b.Last().calls[d].Done?
    ensures a != "" && b.Last().calls[d].outcome.Returned? && AllowsUnder(b.Last().calls[d].outcome.result, a)
  {
    var k := Key(e.tenantID, a);
    DemandIsNamed(cfg, b, c, n, a);
    DemandedEventIsValid(cfg, b, c, p, e, t, n, a);
    var event := ResubmittedStarts(e, a, b.steps[w]);
    var i' := DemandLeavesRequest(cfg, b, c, p, e, t, n, a);
    assert i' == i;
    forall x | i < x <= |b.steps| ensures BoundAt(b, x, k, event.approvalID, event) {
      NoInsertShorter(b, i + 1, |b.steps|, x, k);
      assert BoundAt(b, x, k, a, e);
    }
    ApprovalHolds(cfg, b, i, q, k, w, event);
    ResubmissionProceeds(cfg, b, d, w, event, k, |b.steps|);
  }

  /** Step `q` is the first decision to reach a request at key `k`. */
  ghost predicate FirstToReach(b: Behavior, q: nat, k: string) {
    forall j | 0 <= j < q && j < |b.steps| && j < |b.states| && Decides(b.steps[j], k) :: k !in b.states[j].requests
  }

  lemma BeforeWrap(cfg: Config, b: Behavior, i: nat, q: nat, c: nat, k: string)
    requires b.Valid(cfg) && b.Last().numbered <= COUNTER_RANGE
    requires InsertsAt(b, i, k) && b.steps[i].c == c && ApprovesAt(b, q, k) && FirstToReach(b, q, k)
    ensures LastInsertedBy(b, c, k) && i < q && NoDecision(b, i + 1, q, k)
  {
    forall x: nat | InsertsAt(b, x, k) ensures k !in b.states[x].requests && NoInsert(b, x + 1, |b.steps|, k) {
      Grows(cfg, b, x, |b.steps|);
      DistinctHolds(cfg, b, x);
      InsertedIsPending(cfg, b, x, k);
      NoInsertBeforeWrap(cfg, b, x + 1, |b.steps|, k);
    }
    if q <= i {
      Grows(cfg, b, q, i);
    }
    forall j | i + 1 <= j < q ensures k in b.states[j].requests {
      InsertedIsPending(cfg, b, i, k);
      Grows(cfg, b, i + 1, j);
    }
  }

  /** While the counter has not gone round it is enough that step `q` is the first decision to reach a request
      under `a`. */
  lemma ApprovedResubmissionBeforeWrap(cfg: Config, b: Behavior, c: nat, p: nat, e: RuntimeEvent, t: int, n: nat,
                                       a: string, q: nat, d: nat, w: nat)
    requires b.Valid(cfg) && cfg.hasApprovals && b.Last().numbered <= COUNTER_RANGE
    requires p < |b.steps| && b.steps[p] == Begin(c, e, t)
    requires DemandedAt(b, n, c, a)
    requires ApprovesAt(b, q, Key(e.tenantID, a)) && FirstToReach(b, q, Key(e.tenantID, a))
    requires q < w < |b.steps| && b.steps[w].Begin? && b.steps[w].c == d && b.steps[w].event == e.(approvalID := a)
    requires Unfailing(b, d) && d in b.Last().calls && b.Last().calls[d].Done?
    ensures a != "" && b.Last().calls[d].outcome.Returned? && AllowsUnder(b.Last().calls[d].outcome.result, a)
  {
    DemandIsNamed(cfg, b, c, n, a);
    var i := DemandLeavesRequest(cfg, b, c, p, e, t, n, a);
    BeforeWrap(cfg, b, i, q, c, Key(e.tenantID, a));
    ApprovedResubmission(cfg, b, c, p, e, t, n, a, i, q, d, w);
  }
}
