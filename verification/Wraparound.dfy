/** What happens to approval requests once the identifier counter has gone round. */
module Wraparound {
  import opened Domain
  import opened Text
  import opened Matching
  import opened PolicyEngine
  import opened ApprovalStore
  import opened Protocol
  import opened Provenance
  import opened Lifecycle

  // ----- One step ----------------------------------------------------------------------

  /** The step inserts a request where a different one is stored. */
  predicate Replaces(s: Sys, step: Step) {
    && step.Insert? && step.c in s.calls && s.calls[step.c].Inserting?
    && var request := s.calls[step.c].request;
       KeyOf(request) in s.requests && s.requests[KeyOf(request)] != request
  }

  /** Such a step undoes the life cycle of the request it replaces, and no other step does so. */
  lemma EvolvesUnlessReplaced(cfg: Config, s: Sys, step: Step)
    requires Shape(cfg, s) && Enabled(s, step)
    ensures var t := Apply(cfg, s, step);
      (forall k | k in s.requests :: k in t.requests && Evolves(s.requests[k], t.requests[k])) <==> !Replaces(s, step)
  {
    if step.Insert? {
      assert CallShape(cfg, s.calls[step.c]);
    } else if step.Decide? {
      DecideOutcome(s.requests, Key(step.tenantID, step.approvalID), step.input, step.clock, step.cancelled);
    } else {
      OtherStepsKeepRequests(cfg, s, step);
    }
  }

  // ----- A behaviour -------------------------------------------------------------------

  /** Step `j` takes the number `serial` from the counter for call `c`. */
  ghost predicate NumberedAt(b: Behavior, j: nat, c: nat, serial: nat) {
    && j < |b.steps| && j + 1 < |b.states| && b.steps[j].Number? && b.steps[j].c == c
    && b.states[j].numbered + 1 == serial == b.states[j + 1].numbered
  }

  lemma NumberFollows(cfg: Config, b: Behavior, n: nat, c: nat)
    requires b.Valid(cfg) && n < |b.steps| && c in b.states[n + 1].calls && b.states[n + 1].calls[c].Inserting?
    ensures (c in b.states[n].calls && b.states[n].calls[c] == b.states[n + 1].calls[c])
         || NumberedAt(b, n, c, b.states[n + 1].calls[c].serial)
  {
    assert b.Follows(cfg, n);
    if !b.steps[n].OfCall(c) {
      OtherCallsStay(cfg, b.states[n], b.steps[n], c);
    }
  }

  /** A call about to insert took its number at one earlier step. */
  lemma {:induction false} NumberOrigin(cfg: Config, b: Behavior, n: nat, c: nat) returns (j: nat)
    requires b.Valid(cfg) && n <= |b.steps| && c in b.states[n].calls && b.states[n].calls[c].Inserting?
    ensures j < n && NumberedAt(b, j, c, b.states[n].calls[c].serial)
  {
    NumberFollows(cfg, b, n - 1, c);
    if NumberedAt(b, n - 1, c, b.states[n].calls[c].serial) {
      j := n - 1;
    } else {
      j := NumberOrigin(cfg, b, n - 1, c);
    }
  }

  /** A number is handed out once. */
  lemma NumberIsOwn(cfg: Config, b: Behavior, i: nat, c: nat, j: nat, d: nat, serial: nat)
    requires b.Valid(cfg) && NumberedAt(b, i, c, serial) && NumberedAt(b, j, d, serial)
    ensures i == j && c == d
  {
    if i < j {
      Grows(cfg, b, i + 1, j);
    } else if j < i {
      Grows(cfg, b, j + 1, i);
    }
  }

  /** Call `c` has not come past inserting a request. */
  predicate Early(s: Sys, c: nat) {
    c in s.calls ==> s.calls[c].Looking? || s.calls[c].Creating? || s.calls[c].Inserting?
  }

  lemma EarlyBefore(cfg: Config, b: Behavior, n: nat, c: nat)
    requires b.Valid(cfg) && n < |b.steps| && Early(b.states[n + 1], c)
    ensures Early(b.states[n], c) && !(b.steps[n].Insert? && b.steps[n].c == c)
  {
    assert b.Follows(cfg, n);
    if !b.steps[n].OfCall(c) {
      OtherCallsStay(cfg, b.states[n], b.steps[n], c);
    }
  }

  lemma {:induction false} NotYetInserted(cfg: Config, b: Behavior, m: nat, n: nat, c: nat)
    requires b.Valid(cfg) && m < n <= |b.steps| && Early(b.states[n], c)
    ensures !(b.steps[m].Insert? && b.steps[m].c == c)
  {
    EarlyBefore(cfg, b, n - 1, c);
    if m < n - 1 {
      NotYetInserted(cfg, b, m, n - 1, c);
    }
  }

  /** The number of the request that step `i` inserts, and the tenant it is for. */
  ghost predicate Inserts(b: Behavior, i: nat, tenant: string, serial: nat) {
    && i < |b.steps| < |b.states| && b.steps[i].Insert?
    && b.steps[i].c in b.states[i].calls && b.states[i].calls[b.steps[i].c].Inserting?
    && b.states[i].calls[b.steps[i].c].serial == serial
    && b.states[i].calls[b.steps[i].c].request.tenantID == tenant
  }

  /** Different insertions have different numbers. */
  lemma SerialsDiffer(cfg: Config, b: Behavior, i: nat, t1: string, m: nat, j: nat, t2: string, n: nat)
    requires b.Valid(cfg) && i < j && Inserts(b, i, t1, m) && Inserts(b, j, t2, n)
    ensures m != n
  {
    if m == n {
      var x := NumberOrigin(cfg, b, i, b.steps[i].c);
      var y := NumberOrigin(cfg, b, j, b.steps[j].c);
      NumberIsOwn(cfg, b, x, b.steps[i].c, y, b.steps[j].c, m);
      NotYetInserted(cfg, b, i, j, b.steps[i].c);
    }
  }

  lemma InsertsKey(cfg: Config, b: Behavior, i: nat, tenant: string, serial: nat)
    requires b.Valid(cfg) && Inserts(b, i, tenant, serial)
    ensures InsertsAt(b, i, Key(tenant, ApprovalID(serial))) && NulFree(ApprovalID(serial))
  {
    ShapeHolds(cfg, b, i);
    assert CallShape(cfg, b.states[i].calls[b.steps[i].c]);
    ApprovalIDNulFree(serial);
  }

  /** Exactly when an insertion finds its key occupied: when an earlier insertion for the same tenant had
      another number that agrees with this one modulo 2^64. */
  lemma OccupiedIff(cfg: Config, b: Behavior, n: nat, tenant: string, serial: nat)
    requires b.Valid(cfg) && Inserts(b, n, tenant, serial)
    ensures Key(tenant, ApprovalID(serial)) in b.states[n].requests <==>
      exists i: nat, earlier: nat ::
        i < n && Inserts(b, i, tenant, earlier) && earlier != serial
          && earlier % COUNTER_RANGE == serial % COUNTER_RANGE
  {
    var k := Key(tenant, ApprovalID(serial));
    InsertsKey(cfg, b, n, tenant, serial);
    if k in b.states[n].requests {
      var i, created := RequestOrigin(cfg, b, n, k);
      var earlier := b.states[i].calls[b.steps[i].c].serial;
      InsertsKey(cfg, b, i, created.tenantID, earlier);
      KeyInjectiveIds(tenant, ApprovalID(serial), created.tenantID, ApprovalID(earlier));
      GeneratedIDCollision(ApprovalStore.ID_PREFIX, serial, earlier);
      SerialsDiffer(cfg, b, i, tenant, earlier, n, tenant, serial);
      assert Inserts(b, i, tenant, earlier);
    }
    if i: nat, earlier: nat :| (i < n && Inserts(b, i, tenant, earlier) && earlier != serial
                                && earlier % COUNTER_RANGE == serial % COUNTER_RANGE)
    {
      InsertsKey(cfg, b, i, tenant, earlier);
      GeneratedIDCollision(ApprovalStore.ID_PREFIX, serial, earlier);
      InsertedIsPending(cfg, b, i, k);
      Grows(cfg, b, i + 1, n);
    }
  }

  // ----- It happens --------------------------------------------------------------------

  /** Two numbers a full turn apart give one tenant the same key. */
  lemma GeneratedKeysWrap(t: string, n: nat)
    ensures Key(t, ApprovalID(n)) == Key(t, ApprovalID(n + COUNTER_RANGE))
  {
    GeneratedIDCollision(ApprovalStore.ID_PREFIX, n, n + COUNTER_RANGE);
  }

  /** So an insertion puts an undecided request where a decided one stood. */
  lemma InsertAfterWrapForgets(cfg: Config, s: Sys, c: nat, n: nat, request: ApprovalRequest)
    requires c in s.calls && s.calls[c] == Inserting(request, n + COUNTER_RANGE)
    requires request.id == ApprovalID(n + COUNTER_RANGE) && request.status == Pending
    requires var k := Key(request.tenantID, ApprovalID(n)); k in s.requests && s.requests[k].status == Approved
    ensures Apply(cfg, s, Insert(c)).requests[Key(request.tenantID, ApprovalID(n))].status == Pending
  {
    GeneratedKeysWrap(request.tenantID, n);
  }

  /** Evaluating `event` demands approval. */
  predicate Asks(cfg: Config, event: RuntimeEvent) {
    && cfg.hasApprovals && !cfg.hasPacks && cfg.engine.Some?
    && event.approvalID == "" && Started(event, 0) == Looking(event)
    && Judge(cfg.engine.value, event).decision == RequireApproval
  }

  /** Nothing but calls below `c` has happened: no packs, `numbered` numbers taken, `requests` stored. */
  ghost predicate Idle(cfg: Config, b: Behavior, c: nat, numbered: nat, requests: Requests) {
    && b.Valid(cfg) && b.Last().packs == map[] && b.Last().numbered == numbered && b.Last().requests == requests
    && forall d | d in b.Last().calls :: d < c
  }

  lemma OneMoreDemand(cfg: Config, b: Behavior, event: RuntimeEvent, c: nat, numbered: nat, requests: Requests)
    returns (more: Behavior)
    requires Asks(cfg, event) && Idle(cfg, b, c, numbered, requests)
    ensures Idle(cfg, more, c + 1, numbered, requests)
    ensures c in more.Last().calls && more.Last().calls[c].Creating?
    ensures more.Last().calls[c].event == event && more.Last().calls[c].expiresAt > 0
  {
    ExtendIsValid(cfg, b, Begin(c, event, 0));
    more := Extend(cfg, b, Begin(c, event, 0));
    assert more.Last().calls[c] == Looking(event);
    ExtendIsValid(cfg, more, Look(c, [], 0, false));
    more := Extend(cfg, more, Look(c, [], 0, false));
  }

  /** Any behaviour can go on with a call that takes a number and stops short of inserting. */
  lemma OneMoreNumber(cfg: Config, b: Behavior, event: RuntimeEvent, c: nat, numbered: nat, requests: Requests)
    returns (more: Behavior)
    requires Asks(cfg, event) && Idle(cfg, b, c, numbered, requests)
    ensures Idle(cfg, more, c + 1, numbered + 1, requests)
    ensures c in more.Last().calls && more.Last().calls[c].Inserting? && more.Last().calls[c].serial == numbered + 1
    ensures var request := more.Last().calls[c].request;
      && request.id == ApprovalID(numbered + 1) && request.tenantID == event.tenantID
      && request.status == Pending && request.expiresAt > 0
  {
    more := OneMoreDemand(cfg, b, event, c, numbered, requests);
    ExtendIsValid(cfg, more, Number(c, 0, false));
    more := Extend(cfg, more, Number(c, 0, false));
  }

  lemma {:induction false} MoreNumbers(cfg: Config, b: Behavior, event: RuntimeEvent, c: nat, numbered: nat, n: nat,
                                       requests: Requests)
    returns (more: Behavior)
    requires Asks(cfg, event) && Idle(cfg, b, c, numbered, requests)
    ensures Idle(cfg, more, c + n, numbered + n, requests)
  {
    more := b;
    if n > 0 {
      more := MoreNumbers(cfg, b, event, c, numbered, n - 1, requests);
      more := OneMoreNumber(cfg, more, event, c + n - 1, numbered + n - 1, requests);
    }
  }

  /** A policy that demands approval of everything. */
  const DEMANDING: Policy :=
    Policy("p", "", "", "", true, 0, PolicyConditions([], [], [], [], [], [], [], [], [], [], [], []),
           RequireApproval, "")

  lemma DemandsApproval(event: RuntimeEvent)
    ensures Judge([DEMANDING], event).decision == RequireApproval
  {
    assert Applies(DEMANDING, event);
    StrictestDecisionWins([DEMANDING], event);
    assert DEMANDING in [DEMANDING];
    assert Demanded([DEMANDING], event, RequireApproval);
  }

  lemma StartsAsIs(event: RuntimeEvent, now: int)
    requires event.Valid() && event.schemaVersion == RuntimeEventV1.Text() && event.timestamp != 0
    ensures Started(event, now) == Looking(event)
  {
    NormalizeIsStable(event);
  }

  /** There is a service that demands approval of some event. */
  lemma Askable() returns (cfg: Config, event: RuntimeEvent)
    ensures Asks(cfg, event)
  {
    cfg := Config(Some([DEMANDING]), false, true, 0);
    event := RuntimeEvent(RuntimeEventV1.Text(), "", 1, "t", "t", "t", "t", Prompt, Subject("", "", [], [], ""),
                          "", "", "", "t", "", "", [], "");
    DemandsApproval(event);
    StartsAsIs(event, 0);
  }

  /** One request is inserted and approved in time. */
  lemma OneApproved(cfg: Config, event: RuntimeEvent) returns (b: Behavior, requests: Requests)
    requires Asks(cfg, event)
    ensures Idle(cfg, b, 1, 1, requests)
    ensures var k := Key(event.tenantID, ApprovalID(1)); k in requests && requests[k].status == Approved
  {
    b := Behavior([INITIAL], []);
    b := OneMoreNumber(cfg, b, event, 0, 0, map[]);
    var decide := Decide(event.tenantID, ApprovalID(1), DecisionInput(Approved, "", "", 0), 0, false);
    ExtendIsValid(cfg, b, Insert(0));
    b := Extend(cfg, b, Insert(0));
    ExtendIsValid(cfg, b, decide);
    b := Extend(cfg, b, decide);
    requests := b.Last().requests;
  }

  /** There is a behaviour at whose last step an approved request becomes pending again: one request is
      approved, 2^64 - 1 evaluations take numbers, and the next one inserts. */
  lemma WrapForgets() returns (cfg: Config, b: Behavior, n: nat, k: string)
    ensures b.Valid(cfg) && |b.steps| == n + 1 && b.steps[n].Insert?
    ensures k in b.states[n].requests && b.states[n].requests[k].status == Approved
    ensures k in b.states[n + 1].requests && b.states[n + 1].requests[k].status == Pending
  {
    var event, requests;
    cfg, event := Askable();
    b, requests := OneApproved(cfg, event);
    b := MoreNumbers(cfg, b, event, 1, 1, COUNTER_RANGE - 1, requests);
    b := OneMoreNumber(cfg, b, event, COUNTER_RANGE, COUNTER_RANGE, requests);
    n, k := |b.steps|, Key(event.tenantID, ApprovalID(1));
    InsertAfterWrapForgets(cfg, b.Last(), COUNTER_RANGE, 1, b.Last().calls[COUNTER_RANGE].request);
    ExtendIsValid(cfg, b, Insert(COUNTER_RANGE));
    b := Extend(cfg, b, Insert(COUNTER_RANGE));
  }
}
