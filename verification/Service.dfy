/** The runtime service over its stores, and its place in the protocol: evaluating an event on its own is
    a run of protocol steps. */
module RuntimeService {
  import opened Domain
  import opened Sequences
  import opened Text
  import opened Labels
  import opened PolicyEngine
  import opened Protocol
  import ApprovalStore
  import AuditStore
  import PackStore

  // ----- One evaluation on its own -----------------------------------------------------

  /** The clock readings one evaluation takes, in order. */
  datatype Clock = Clock(event: int, expiry: int, request: int, record: int)

  /** Which of the store calls of one evaluation find the context cancelled. */
  datatype Faults = Faults(read: bool, create: bool, append: bool)

  /** The steps that store the request of call `c`. */
  ghost function CreateAlone(cfg: Config, s: Sys, c: nat, now: int, cancelled: bool): Sys
    requires c in s.calls && s.calls[c].Creating?
  {
    var t := Apply(cfg, s, Number(c, now, cancelled));
    if t.calls[c].Done? then t else Apply(cfg, t, Insert(c))
  }

  lemma Overwrite(calls: map<nat, Call>, c: nat, first: Call, second: Call)
    ensures calls[c := first][c := second] == calls[c := second]
  {
  }

  lemma CreateAloneIs(cfg: Config, s: Sys, calls: map<nat, Call>, c: nat, event: RuntimeEvent,
                      result: EvaluationResult, expiresAt: int,
                      now: int, cancelled: bool, created: Option<ApprovalRequest>)
    requires s.calls == calls[c := Creating(event, result, expiresAt)]
    requires created == if cancelled then None
      else Some(ApprovalStore.Filled(NewRequest(event, result, expiresAt), ApprovalStore.ApprovalID(s.numbered + 1),
                                     now))
    ensures CreateAlone(cfg, s, c, now, cancelled) ==
      if created.None? then s.(calls := calls[c := Done(Failed(CreateFailed))])
      else s.(numbered := s.numbered + 1, requests := ApprovalStore.Stored(s.requests, created.value),
              calls := calls[c := Appending(event, result.(approvalID := created.value.id))])
  {
    var t := CreateAlone(cfg, s, c, now, cancelled);
    Overwrite(calls, c, s.calls[c], t.calls[c]);
    if !cancelled {
      var u := Apply(cfg, s, Number(c, now, cancelled));
      Overwrite(calls, c, s.calls[c], u.calls[c]);
      Overwrite(calls, c, u.calls[c], t.calls[c]);
    }
  }

  /** The steps that write the record of call `c`. */
  ghost function AppendAlone(cfg: Config, s: Sys, c: nat, now: int, cancelled: bool): Sys
    requires c in s.calls && s.calls[c].Appending?
  {
    var t := Apply(cfg, s, NumberRecord(c, now, cancelled));
    if t.calls[c].Done? then t else Apply(cfg, t, Append(c))
  }

  lemma AppendAloneIs(cfg: Config, s: Sys, c: nat, event: RuntimeEvent, result: EvaluationResult, now: int,
                      cancelled: bool)
    ensures var id := AuditStore.AuditID(s.logged + 1);
      AppendAlone(cfg, s.(calls := s.calls[c := Appending(event, result)]), c, now, cancelled) ==
        if cancelled then s.(calls := s.calls[c := Done(Failed(AppendFailed))])
        else s.(logged := s.logged + 1,
                records := s.records + [AuditStore.Filled(AuditRecord("", 0, event, result), id, now)],
                calls := s.calls[c := Done(Returned(result.(auditID := id)))])
  {
    var t := AppendAlone(cfg, s.(calls := s.calls[c := Appending(event, result)]), c, now, cancelled);
    Overwrite(s.calls, c, Appending(event, result), t.calls[c]);
    if !cancelled {
      var u := Apply(cfg, s.(calls := s.calls[c := Appending(event, result)]), NumberRecord(c, now, cancelled));
      Overwrite(s.calls, c, Appending(event, result), u.calls[c]);
      Overwrite(s.calls, c, u.calls[c], t.calls[c]);
    }
  }

  /** Call `c` after it has begun and read, nobody else moving. */
  ghost function LookedAlone(cfg: Config, s: Sys, c: nat, event: RuntimeEvent, clock: Clock, keys: seq<string>,
                             cancelled: bool): Sys
    requires Started(event, clock.event).Looking?
  {
    s.(calls := s.calls[c := Looked(cfg, s, Started(event, clock.event).event, keys, clock.expiry, cancelled)])
  }

  /** Call `c` after it has read, to its end. */
  ghost function FinishAlone(cfg: Config, s: Sys, c: nat, clock: Clock, faults: Faults): Sys
    requires c in s.calls
  {
    match s.calls[c]
    case Creating(_, _, _) =>
      var ready := CreateAlone(cfg, s, c, clock.request, faults.create);
      if ready.calls[c].Appending? then AppendAlone(cfg, ready, c, clock.record, faults.append) else ready
    case Appending(_, _) => AppendAlone(cfg, s, c, clock.record, faults.append)
    case _ => s
  }

  /** Call `c` from beginning to end, nobody else moving. */
  ghost function EvaluateAlone(cfg: Config, s: Sys, c: nat, event: RuntimeEvent, clock: Clock, keys: seq<string>,
                               faults: Faults): Sys
  {
    if Started(event, clock.event).Done? then s.(calls := s.calls[c := Started(event, clock.event)])
    else FinishAlone(cfg, LookedAlone(cfg, s, c, event, clock, keys, faults.read), c, clock, faults)
  }

  lemma AloneFinishes(cfg: Config, s: Sys, c: nat, event: RuntimeEvent, clock: Clock, keys: seq<string>,
                      faults: Faults, e: RuntimeEvent, call: Call)
    requires Started(event, clock.event) == Looking(e)
    requires call == Looked(cfg, s, e, keys, clock.expiry, faults.read)
    ensures EvaluateAlone(cfg, s, c, event, clock, keys, faults)
      == FinishAlone(cfg, s.(calls := s.calls[c := call]), c, clock, faults)
  {
  }

  /** The event an evaluation works on. */
  function Filled(event: RuntimeEvent, now: int): RuntimeEvent {
    event.(schemaVersion := RuntimeEventV1.Text(), timestamp := if event.timestamp != 0 then event.timestamp else now)
  }

  /** The policies cannot be listed: the packs are read, and that reading finds the context cancelled. */
  predicate CannotList(cfg: Config, event: RuntimeEvent, faults: Faults) {
    event.approvalID == "" && cfg.hasPacks && faults.read
  }

  /** The judgement demands approval, and there is a store to request it in. */
  predicate Requests(cfg: Config, event: RuntimeEvent, judged: EvaluationResult) {
    event.approvalID == "" && judged.decision == RequireApproval && cfg.hasApprovals
  }

  /** The request an evaluation leaves behind. */
  function RequestFor(cfg: Config, e: RuntimeEvent, judged: EvaluationResult, id: string,
                      clock: Clock): ApprovalRequest
  {
    var ttl := if cfg.ttl > 0 then cfg.ttl else 15 * 60 * 1_000_000_000;
    ApprovalRequest(id, e.tenantID, Pending, e, judged, judged.reason, clock.request, clock.expiry + ttl, 0, "", "")
  }

  /** The call of an evaluation that has read and judged. */
  function CallJudged(cfg: Config, e: RuntimeEvent, judged: EvaluationResult, clock: Clock): Call {
    if Requests(cfg, e, judged) then Creating(e, judged, clock.expiry + cfg.TTL()) else Appending(e, judged)
  }

  /** Evaluating `event` on its own in `s` reads it as `e` and judges it so. */
  predicate JudgesAs(cfg: Config, s: Sys, event: RuntimeEvent, clock: Clock, keys: seq<string>, faults: Faults,
                     e: RuntimeEvent, judged: EvaluationResult)
  {
    && Acceptable(event) && !CannotList(cfg, event, faults)
    && e == Filled(event, clock.event) && judged == Judgement(cfg, s, e, keys, faults.read)
  }

  lemma LooksAsJudged(cfg: Config, s: Sys, event: RuntimeEvent, clock: Clock, keys: seq<string>, faults: Faults,
                      e: RuntimeEvent, judged: EvaluationResult)
    requires JudgesAs(cfg, s, event, clock, keys, faults, e, judged)
    ensures Started(event, clock.event) == Looking(e)
    ensures Looked(cfg, s, e, keys, clock.expiry, faults.read) == CallJudged(cfg, e, judged, clock)
  {
    StartedIff(event, clock.event);
  }

  lemma JudgedAlone(cfg: Config, s: Sys, c: nat, event: RuntimeEvent, clock: Clock, keys: seq<string>, faults: Faults,
                    e: RuntimeEvent, judged: EvaluationResult, call: Call)
    requires JudgesAs(cfg, s, event, clock, keys, faults, e, judged) && call == CallJudged(cfg, e, judged, clock)
    ensures EvaluateAlone(cfg, s, c, event, clock, keys, faults)
      == FinishAlone(cfg, s.(calls := s.calls[c := call]), c, clock, faults)
  {
    LooksAsJudged(cfg, s, event, clock, keys, faults, e, judged);
    AloneFinishes(cfg, s, c, event, clock, keys, faults, e, call);
  }

  /** An evaluation of an unacceptable event changes nothing and fails as invalid; one that cannot list the
      policies changes nothing and says so. */
  lemma RefusedAlone(cfg: Config, s: Sys, c: nat, event: RuntimeEvent, clock: Clock, keys: seq<string>, faults: Faults)
    requires !Acceptable(event) || CannotList(cfg, event, faults)
    ensures EvaluateAlone(cfg, s, c, event, clock, keys, faults) ==
      s.(calls := s.calls[c := Done(Failed(if !Acceptable(event) then InvalidEvent else ListFailed))])
  {
    StartedIff(event, clock.event);
  }

  /** The state after the audit log has been asked to record `result` for call `c`. */
  function Logged(s: Sys, c: nat, e: RuntimeEvent, result: EvaluationResult, now: int, cancelled: bool): Sys {
    if cancelled then s.(calls := s.calls[c := Done(Failed(AppendFailed))])
    else
      var id := AuditStore.AuditID(s.logged + 1);
      s.(logged := s.logged + 1, records := s.records + [AuditRecord(id, now, e, result)],
         calls := s.calls[c := Done(Returned(result.(auditID := id)))])
  }

  lemma LoggedAlone(cfg: Config, s: Sys, c: nat, e: RuntimeEvent, result: EvaluationResult, now: int, cancelled: bool)
    ensures AppendAlone(cfg, s.(calls := s.calls[c := Appending(e, result)]), c, now, cancelled)
      == Logged(s, c, e, result, now, cancelled)
  {
    AppendAloneIs(cfg, s, c, e, result, now, cancelled);
  }

  lemma FinishAppending(cfg: Config, s: Sys, c: nat, e: RuntimeEvent, result: EvaluationResult, clock: Clock,
                        faults: Faults)
    ensures FinishAlone(cfg, s.(calls := s.calls[c := Appending(e, result)]), c, clock, faults)
      == Logged(s, c, e, result, clock.record, faults.append)
  {
    LoggedAlone(cfg, s, c, e, result, clock.record, faults.append);
  }

  /** An evaluation that demands no approval, or has nowhere to request it, answers with its judgement and the
      identifier of the one record it appends, or fails at the log; it changes nothing else. */
  lemma AnsweredAlone(cfg: Config, s: Sys, c: nat, event: RuntimeEvent, clock: Clock, keys: seq<string>, faults: Faults,
                      e: RuntimeEvent, judged: EvaluationResult)
    requires JudgesAs(cfg, s, event, clock, keys, faults, e, judged) && !Requests(cfg, e, judged)
    ensures EvaluateAlone(cfg, s, c, event, clock, keys, faults)
      == Logged(s, c, e, judged, clock.record, faults.append)
  {
    JudgedAlone(cfg, s, c, event, clock, keys, faults, e, judged, Appending(e, judged));
    FinishAppending(cfg, s, c, e, judged, clock, faults);
  }

  /** The state after the request for call `c` has been created. */
  function Requested(cfg: Config, s: Sys, e: RuntimeEvent, judged: EvaluationResult, clock: Clock): Sys {
    var id := ApprovalStore.ApprovalID(s.numbered + 1);
    s.(numbered := s.numbered + 1, requests := s.requests[Key(e.tenantID, id) := RequestFor(cfg, e, judged, id, clock)])
  }

  lemma RequestedAlone(cfg: Config, s: Sys, c: nat, e: RuntimeEvent, judged: EvaluationResult, clock: Clock,
                       cancelled: bool)
    ensures var id := ApprovalStore.ApprovalID(s.numbered + 1);
      var begun := s.(calls := s.calls[c := Creating(e, judged, clock.expiry + cfg.TTL())]);
      CreateAlone(cfg, begun, c, clock.request, cancelled) ==
        if cancelled then s.(calls := s.calls[c := Done(Failed(CreateFailed))])
        else Requested(cfg, s, e, judged, clock).(calls := s.calls[c := Appending(e, judged.(approvalID := id))])
  {
    var begun := s.(calls := s.calls[c := Creating(e, judged, clock.expiry + cfg.TTL())]);
    var id := ApprovalStore.ApprovalID(s.numbered + 1);
    CreateAloneIs(cfg, begun, s.calls, c, e, judged, clock.expiry + cfg.TTL(), clock.request, cancelled,
                  if cancelled then None else Some(RequestFor(cfg, e, judged, id, clock)));
  }

  lemma FinishCreating(cfg: Config, s: Sys, c: nat, e: RuntimeEvent, judged: EvaluationResult, clock: Clock,
                       faults: Faults)
    ensures var id := ApprovalStore.ApprovalID(s.numbered + 1);
      FinishAlone(cfg, s.(calls := s.calls[c := Creating(e, judged, clock.expiry + cfg.TTL())]), c, clock, faults) ==
        if faults.create then s.(calls := s.calls[c := Done(Failed(CreateFailed))])
        else Logged(Requested(cfg, s, e, judged, clock), c, e, judged.(approvalID := id), clock.record, faults.append)
  {
    RequestedAlone(cfg, s, c, e, judged, clock, faults.create);
    LoggedAlone(cfg, Requested(cfg, s, e, judged, clock), c, e,
                judged.(approvalID := ApprovalStore.ApprovalID(s.numbered + 1)), clock.record, faults.append);
  }

  /** An evaluation that demands approval stores one pending request, under a new identifier, for its tenant, with
      the event and the judgement and due one time to live after the policies were read; it answers with that
      identifier and records the answer. If the store refuses it records nothing. */
  lemma DemandedAlone(cfg: Config, s: Sys, c: nat, event: RuntimeEvent, clock: Clock, keys: seq<string>, faults: Faults,
                      e: RuntimeEvent, judged: EvaluationResult)
    requires JudgesAs(cfg, s, event, clock, keys, faults, e, judged) && Requests(cfg, e, judged)
    ensures var answer := judged.(approvalID := ApprovalStore.ApprovalID(s.numbered + 1));
      EvaluateAlone(cfg, s, c, event, clock, keys, faults) ==
        if faults.create then s.(calls := s.calls[c := Done(Failed(CreateFailed))])
        else Logged(Requested(cfg, s, e, judged, clock), c, e, answer, clock.record, faults.append)
  {
    JudgedAlone(cfg, s, c, event, clock, keys, faults, e, judged, Creating(e, judged, clock.expiry + cfg.TTL()));
    FinishCreating(cfg, s, c, e, judged, clock, faults);
  }

  /** How an evaluation ends: as invalid exactly when its event is not acceptable, and with a result whenever the
      event is and no store call is cancelled. */
  lemma OutcomeAlone(cfg: Config, s: Sys, c: nat, event: RuntimeEvent, clock: Clock, keys: seq<string>, faults: Faults)
    ensures var t := EvaluateAlone(cfg, s, c, event, clock, keys, faults);
      && c in t.calls && t.calls[c].Done?
      && (t.calls[c].outcome == Failed(InvalidEvent) <==> !Acceptable(event))
      && (Acceptable(event) && !faults.read && !faults.create && !faults.append ==> t.calls[c].outcome.Returned?)
  {
    if !Acceptable(event) || CannotList(cfg, event, faults) {
      RefusedAlone(cfg, s, c, event, clock, keys, faults);
    } else {
      var e := Filled(event, clock.event);
      var judged := Judgement(cfg, s, e, keys, faults.read);
      if Requests(cfg, e, judged) {
        DemandedAlone(cfg, s, c, event, clock, keys, faults, e, judged);
      } else {
        AnsweredAlone(cfg, s, c, event, clock, keys, faults, e, judged);
      }
    }
  }

  lemma OutcomeKnown(cfg: Config, s: Sys, c: nat, event: RuntimeEvent, clock: Clock, keys: seq<string>, faults: Faults,
                     t: Sys, out: Outcome)
    requires t == EvaluateAlone(cfg, s, c, event, clock, keys, faults) && c in t.calls && t.calls[c] == Done(out)
    ensures out == Failed(InvalidEvent) <==> !Acceptable(event)
    ensures Acceptable(event) && !faults.read && !faults.create && !faults.append ==> out.Returned?
  {
    OutcomeAlone(cfg, s, c, event, clock, keys, faults);
  }

  /** The call after policies have judged, or failed to be listed. */
  function AfterJudging(cfg: Config, e: RuntimeEvent, judged: Option<EvaluationResult>, expiresAt: int): Call {
    if judged.None? then Done(Failed(ListFailed))
    else if judged.value.decision == RequireApproval && cfg.hasApprovals then Creating(e, judged.value, expiresAt)
    else Appending(e, judged.value)
  }

  lemma LookedByPolicies(cfg: Config, s: Sys, e: RuntimeEvent, keys: seq<string>, now: int, cancelled: bool,
                         judged: Option<EvaluationResult>)
    requires e.approvalID == ""
    requires judged == if cfg.hasPacks && cancelled then None else Some(Judge(PoliciesFor(cfg, s.packs, keys, e), e))
    ensures Looked(cfg, s, e, keys, now, cancelled) == AfterJudging(cfg, e, judged, now + cfg.TTL())
  {
  }

  lemma LookedByApproval(cfg: Config, s: Sys, e: RuntimeEvent, keys: seq<string>, now: int, cancelled: bool)
    requires e.approvalID != ""
    ensures Looked(cfg, s, e, keys, now, cancelled) == Appending(e, EvaluateApproval(cfg, s.requests, e, cancelled))
  {
  }

  /** Reading depends on the stores alone. */
  lemma LookIgnoresCalls(cfg: Config, s: Sys, t: Sys, event: RuntimeEvent, keys: seq<string>, now: int, cancelled: bool)
    requires s.packs == t.packs && s.requests == t.requests
    ensures Looked(cfg, s, event, keys, now, cancelled) == Looked(cfg, t, event, keys, now, cancelled)
  {
  }

  /** `more` prolongs `b`, by steps of call `c` only, to the state `t`. */
  ghost predicate ContinuesTo(cfg: Config, b: Behavior, more: Behavior, c: nat, t: Sys) {
    && more.Valid(cfg) && more.Last() == t
    && Prolongs(b, more)
    && forall i | |b.steps| <= i < |more.steps| :: more.steps[i].OfCall(c)
  }

  lemma OneStepOn(cfg: Config, b: Behavior, more: Behavior, c: nat, t: Sys, step: Step) returns (most: Behavior)
    requires b.Valid(cfg) && ContinuesTo(cfg, b, more, c, t) && Enabled(t, step) && step.OfCall(c)
    ensures ContinuesTo(cfg, b, most, c, Apply(cfg, t, step))
  {
    ExtendIsValid(cfg, more, step);
    most := Extend(cfg, more, step);
  }

  lemma LookContinues(cfg: Config, b: Behavior, c: nat, event: RuntimeEvent, clock: Clock, keys: seq<string>,
                      cancelled: bool)
    returns (more: Behavior)
    requires b.Valid(cfg) && c !in b.Last().calls && Enumerates(keys, b.Last().packs.Keys)
    requires Started(event, clock.event).Looking?
    ensures ContinuesTo(cfg, b, more, c, LookedAlone(cfg, b.Last(), c, event, clock, keys, cancelled))
  {
    var s, look := b.Last(), Look(c, keys, clock.expiry, cancelled);
    var begun := s.(calls := s.calls[c := Started(event, clock.event)]);
    more := OneStepOn(cfg, b, b, c, s, Begin(c, event, clock.event));
    more := OneStepOn(cfg, b, more, c, begun, look);
    assert Apply(cfg, begun, look) == LookedAlone(cfg, s, c, event, clock, keys, cancelled) by {
      LookIgnoresCalls(cfg, s, begun, Started(event, clock.event).event, keys, clock.expiry, cancelled);
      Overwrite(s.calls, c, Started(event, clock.event),
                LookedAlone(cfg, s, c, event, clock, keys, cancelled).calls[c]);
    }
  }

  lemma AppendContinues(cfg: Config, b: Behavior, more: Behavior, s: Sys, c: nat, now: int, cancelled: bool)
    returns (most: Behavior)
    requires b.Valid(cfg) && ContinuesTo(cfg, b, more, c, s) && c in s.calls && s.calls[c].Appending?
    ensures ContinuesTo(cfg, b, most, c, AppendAlone(cfg, s, c, now, cancelled))
  {
    var t := Apply(cfg, s, NumberRecord(c, now, cancelled));
    most := OneStepOn(cfg, b, more, c, s, NumberRecord(c, now, cancelled));
    if !t.calls[c].Done? {
      most := OneStepOn(cfg, b, most, c, t, Append(c));
    }
  }

  lemma CreateContinues(cfg: Config, b: Behavior, more: Behavior, s: Sys, c: nat, now: int, cancelled: bool)
    returns (most: Behavior)
    requires b.Valid(cfg) && ContinuesTo(cfg, b, more, c, s) && c in s.calls && s.calls[c].Creating?
    ensures ContinuesTo(cfg, b, most, c, CreateAlone(cfg, s, c, now, cancelled))
  {
    var t := Apply(cfg, s, Number(c, now, cancelled));
    most := OneStepOn(cfg, b, more, c, s, Number(c, now, cancelled));
    if !t.calls[c].Done? {
      most := OneStepOn(cfg, b, most, c, t, Insert(c));
    }
  }

  lemma FinishContinues(cfg: Config, b: Behavior, more: Behavior, s: Sys, c: nat, clock: Clock, faults: Faults)
    returns (most: Behavior)
    requires b.Valid(cfg) && ContinuesTo(cfg, b, more, c, s) && c in s.calls
    ensures ContinuesTo(cfg, b, most, c, FinishAlone(cfg, s, c, clock, faults))
  {
    most := more;
    if s.calls[c].Creating? {
      var ready := CreateAlone(cfg, s, c, clock.request, faults.create);
      most := CreateContinues(cfg, b, more, s, c, clock.request, faults.create);
      if ready.calls[c].Appending? {
        most := AppendContinues(cfg, b, most, ready, c, clock.record, faults.append);
      }
    } else if s.calls[c].Appending? {
      most := AppendContinues(cfg, b, more, s, c, clock.record, faults.append);
    }
  }

  /** An evaluation on its own is one of the interleavings of the protocol: every behaviour can go on with
      it, so what holds of all behaviours holds after any sequence of service calls. */
  lemma AloneIsABehavior(cfg: Config, b: Behavior, c: nat, event: RuntimeEvent, clock: Clock, keys: seq<string>,
                         faults: Faults)
    returns (more: Behavior)
    requires b.Valid(cfg) && c !in b.Last().calls && Enumerates(keys, b.Last().packs.Keys)
    ensures ContinuesTo(cfg, b, more, c, EvaluateAlone(cfg, b.Last(), c, event, clock, keys, faults))
  {
    if Started(event, clock.event).Done? {
      more := OneStepOn(cfg, b, b, c, b.Last(), Begin(c, event, clock.event));
      return;
    }
    more := LookContinues(cfg, b, c, event, clock, keys, faults.read);
    more := FinishContinues(cfg, b, more, LookedAlone(cfg, b.Last(), c, event, clock, keys, faults.read), c, clock,
                            faults);
  }

  // ----- The service -------------------------------------------------------------------

  /** Reads the slices of the packs a store handed out. */
  method Dereference(refs: seq<PackStore.PackRef>, ghost values: seq<PolicyPack>) returns (packs: seq<PolicyPack>)
    requires PackStore.Denote(refs, values)
    ensures packs == values
  {
    packs := [];
    for i := 0 to |refs|
      invariant packs == values[..i]
    {
      packs := packs + [refs[i].Value()];
    }
  }

  class Service {
    const engine: Option<Engine>
    const packStore: PackStore.MemoryStore?
    const store: AuditStore.MemoryStore
    const approvalStore: ApprovalStore.MemoryStore?
    const approvalTTL: int

    constructor (engine: Option<Engine>, packStore: PackStore.MemoryStore?, store: AuditStore.MemoryStore,
                 approvalStore: ApprovalStore.MemoryStore?, approvalTTL: int)
      ensures this.engine == engine && this.packStore == packStore && this.store == store
      ensures this.approvalStore == approvalStore && this.approvalTTL == approvalTTL
    {
      this.engine, this.packStore, this.store := engine, packStore, store;
      this.approvalStore, this.approvalTTL := approvalStore, approvalTTL;
    }

    ghost function Cfg(): Config {
      var policies := if engine.Some? then Some(engine.value.policies) else None;
      Config(policies, packStore != null, approvalStore != null, approvalTTL)
    }

    ghost predicate Valid()
      reads store, packStore, approvalStore
      reads if packStore == null then {} else packStore.Repr
    {
      && store.Valid()
      && (packStore != null ==> packStore.Valid())
      && (approvalStore != null ==> approvalStore.Valid())
    }

    /** The stores as a protocol state, beside the given calls in flight. */
    ghost function View(calls: map<nat, Call>): Sys
      reads store, packStore, approvalStore
    {
      Sys(if packStore == null then map[] else packStore.Contents,
          if approvalStore == null then map[] else approvalStore.requests,
          if approvalStore == null then 0 else approvalStore.taken,
          store.records, store.taken, calls)
    }

    method EvaluateApproval(event: RuntimeEvent, cancelled: bool) returns (result: EvaluationResult)
      requires Valid()
      ensures result == Protocol.EvaluateApproval(Cfg(), View(map[]).requests, event, cancelled)
    {
      if approvalStore == null {
        return Answer(Deny, StoreNotConfigured.Text(), "");
      }
      var request := approvalStore.Get(event.tenantID, event.approvalID, cancelled);
      if request.Err? {
        return Answer(Deny, RequestNotFound.Text(), "");
      }
      if request.value.status != Approved {
        return Answer(Deny, StatusIs.Text() + request.value.status.Name(), request.value.id);
      }
      var matches := ApprovalEventMatches(request.value.event, event);
      if !matches {
        return Answer(Deny, RequestMismatch.Text(), request.value.id);
      }
      result := Answer(Allow, RequestMatched.Text(), request.value.id);
    }

    /** Judges an event by the policies in force; `None` when the packs cannot be listed. */
    method JudgeByPolicies(event: RuntimeEvent, cancelled: bool)
      returns (result: Option<EvaluationResult>, ghost keys: seq<string>)
      requires Valid()
      ensures Enumerates(keys, View(map[]).packs.Keys)
      ensures result == if packStore != null && cancelled then None
        else Some(Judge(PoliciesFor(Cfg(), View(map[]).packs, keys, event), event))
    {
      var current := engine;
      keys := SomeOrder(View(map[]).packs.Keys);
      if packStore != null {
        var refs, order := packStore.ListEnabled(event.tenantID, cancelled);
        if refs.None? {
          return None, keys;
        }
        keys := order;
        var packs := Dereference(refs.value, PackStore.EnabledListing(packStore.Contents, order, event.tenantID));
        var fromPacks := NewEngineFromPacks(packs);
        current := Some(fromPacks);
      }
      if current.None? {
        current := Some(Engine([]));
      }
      var judged := current.value.Evaluate(event);
      result := Some(judged);
    }

    /** Writes the audit record: the last steps of an evaluation. */
    method AppendAudit(event: RuntimeEvent, result: EvaluationResult, now: int, cancelled: bool, ghost c: nat,
                       ghost calls: map<nat, Call>)
      returns (r: Outcome)
      requires Valid()
      modifies store
      ensures Valid()
      ensures View(calls[c := Done(r)])
        == AppendAlone(Cfg(), old(View(calls[c := Appending(event, result)])), c, now, cancelled)
    {
      AppendAloneIs(Cfg(), View(calls), c, event, result, now, cancelled);
      var record := store.Append(AuditRecord("", 0, event, result), now, cancelled);
      if record.None? {
        r := Failed(AppendFailed);
      } else {
        r := Returned(result.(auditID := record.value.id));
      }
    }

    /** Stores the approval request for a demand; `None` when the store refuses. */
    method StoreRequest(event: RuntimeEvent, result: EvaluationResult, clock: Clock, cancelled: bool)
      returns (created: Option<ApprovalRequest>)
      requires Valid() && approvalStore != null && event.tenantID != ""
      modifies approvalStore
      ensures Valid()
      ensures created == if cancelled then None
        else Some(ApprovalStore.Filled(NewRequest(event, result, clock.expiry + Cfg().TTL()),
                                       ApprovalStore.ApprovalID(old(approvalStore.taken) + 1), clock.request))
      ensures approvalStore.taken == old(approvalStore.taken) + if created.Some? then 1 else 0
      ensures approvalStore.requests ==
        if created.Some? then ApprovalStore.Stored(old(approvalStore.requests), created.value)
        else old(approvalStore.requests)
    {
      var ttl := approvalTTL;
      if ttl <= 0 {
        ttl := DEFAULT_TTL;
      }
      var request := ApprovalRequest("", event.tenantID, OtherStatus(""), event, result, result.reason, 0,
                                     clock.expiry + ttl, 0, "", "");
      assert request == NewRequest(event, result, clock.expiry + Cfg().TTL());
      var answer := approvalStore.Create(request, clock.request, cancelled);
      created := if answer.Ok? then Some(answer.value) else None;
    }

    /** Names the approval request created for a demand: the first steps after reading. */
    method CreateRequest(event: RuntimeEvent, result: EvaluationResult, clock: Clock, cancelled: bool, ghost c: nat,
                         ghost calls: map<nat, Call>)
      returns (named: Option<EvaluationResult>)
      requires Valid() && approvalStore != null && event.tenantID != ""
      modifies approvalStore
      ensures Valid()
      ensures View(calls[c := if named.None? then Done(Failed(CreateFailed)) else Appending(event, named.value)])
        == CreateAlone(Cfg(), old(View(calls[c := Creating(event, result, clock.expiry + Cfg().TTL())])), c,
                       clock.request, cancelled)
    {
      ghost var s, expiresAt := View(calls), clock.expiry + Cfg().TTL();
      var created := StoreRequest(event, result, clock, cancelled);
      CreateAloneIs(Cfg(), s.(calls := calls[c := Creating(event, result, expiresAt)]), calls, c, event, result,
                    expiresAt, clock.request, cancelled, created);
      named := if created.Some? then Some(result.(approvalID := created.value.id)) else None;
    }

    /** Asks for approval where the judgement demands it, then writes the record. */
    method Conclude(e: RuntimeEvent, judged: Option<EvaluationResult>, clock: Clock, faults: Faults, ghost c: nat,
                    ghost calls: map<nat, Call>)
      returns (r: Outcome)
      requires Valid() && e.tenantID != ""
      modifies store, approvalStore
      ensures Valid()
      ensures var call := AfterJudging(Cfg(), e, judged, clock.expiry + Cfg().TTL());
        View(calls[c := Done(r)]) == FinishAlone(Cfg(), old(View(calls[c := call])), c, clock, faults)
    {
      if judged.None? {
        return Failed(ListFailed);
      }
      var result := judged.value;
      if result.decision == RequireApproval && approvalStore != null {
        var named := CreateRequest(e, result, clock, faults.create, c, calls);
        if named.None? {
          return Failed(CreateFailed);
        }
        result := named.value;
      }
      r := AppendAudit(e, result, clock.record, faults.append, c, calls);
    }

    /** Evaluates an event that names an approval; `read` and `append` say which store calls find the context
        cancelled. */
    method EvaluateNamed(e: RuntimeEvent, now: int, read: bool, append: bool, ghost c: nat, ghost calls: map<nat, Call>)
      returns (r: Outcome, ghost answer: EvaluationResult)
      requires Valid()
      modifies store
      ensures Valid()
      ensures answer == Protocol.EvaluateApproval(Cfg(), old(View(calls)).requests, e, read)
      ensures View(calls[c := Done(r)])
        == AppendAlone(Cfg(), old(View(calls[c := Appending(e, answer)])), c, now, append)
    {
      var found := EvaluateApproval(e, read);
      answer := found;
      r := AppendAudit(e, found, now, append, c, calls);
    }

    /** Evaluates a normalised event; `call` is what the protocol call holds once it has read. */
    method EvaluateNormalized(e: RuntimeEvent, clock: Clock, faults: Faults, ghost c: nat, ghost calls: map<nat, Call>)
      returns (r: Outcome, ghost keys: seq<string>, ghost call: Call)
      requires Valid() && e.tenantID != ""
      modifies store, approvalStore
      ensures Valid() && Enumerates(keys, old(View(calls)).packs.Keys)
      ensures call == Looked(Cfg(), old(View(calls)), e, keys, clock.expiry, faults.read)
      ensures View(calls[c := Done(r)]) == FinishAlone(Cfg(), old(View(calls[c := call])), c, clock, faults)
    {
      if e.approvalID != "" {
        ghost var answer;
        ghost var s := View(calls);
        keys := SomeOrder(s.packs.Keys);
        r, answer := EvaluateNamed(e, clock.record, faults.read, faults.append, c, calls);
        LookedByApproval(Cfg(), s, e, keys, clock.expiry, faults.read);
        return r, keys, Appending(e, answer);
      }
      var judged;
      judged, keys := JudgeByPolicies(e, faults.read);
      call := AfterJudging(Cfg(), e, judged, clock.expiry + Cfg().TTL());
      LookedByPolicies(Cfg(), View(calls), e, keys, clock.expiry, faults.read, judged);
      r := Conclude(e, judged, clock, faults, c, calls);
    }

    /** Evaluates an event in the steps of one protocol call `c`, beside any calls in flight. */
    method EvaluateOnce(event: RuntimeEvent, clock: Clock, faults: Faults, ghost c: nat, ghost calls: map<nat, Call>)
      returns (r: Outcome, ghost keys: seq<string>)
      requires Valid() && c !in calls
      modifies store, approvalStore
      ensures Valid() && Enumerates(keys, old(View(calls)).packs.Keys)
      ensures View(calls[c := Done(r)]) == EvaluateAlone(Cfg(), old(View(calls)), c, event, clock, keys, faults)
    {
      var normalized := event.Normalize();
      ghost var s := View(calls);
      if normalized.None? {
        keys := SomeOrder(View(calls).packs.Keys);
        return Failed(InvalidEvent), keys;
      }
      var e := normalized.value;
      if e.timestamp == 0 {
        e := e.(timestamp := clock.event);
      }
      ghost var call := Looking(e);
      r, keys, call := EvaluateNormalized(e, clock, faults, c, calls);
      AloneFinishes(Cfg(), s, c, event, clock, keys, faults, e, call);
    }

    /** Evaluates an event: exactly the steps of one protocol call; which events it refuses, and when it answers. */
    method Evaluate(event: RuntimeEvent, clock: Clock, faults: Faults, ghost c: nat, ghost calls: map<nat, Call>)
      returns (r: Outcome, ghost keys: seq<string>)
      requires Valid() && c !in calls
      modifies store, approvalStore
      ensures Valid() && Enumerates(keys, old(View(calls)).packs.Keys)
      ensures View(calls[c := Done(r)]) == EvaluateAlone(Cfg(), old(View(calls)), c, event, clock, keys, faults)
      ensures r == Failed(InvalidEvent) <==> !Acceptable(event)
      ensures Acceptable(event) && !faults.read && !faults.create && !faults.append ==> r.Returned?
    {
      r, keys := EvaluateOnce(event, clock, faults, c, calls);
      OutcomeKnown(Cfg(), old(View(calls)), c, event, clock, keys, faults, View(calls[c := Done(r)]), r);
    }
  }

  // ----- Sequences of calls ------------------------------------------------------------

  /** What clients and administrators ask of a running service. */
  datatype Request =
    | EvaluateEvent(event: RuntimeEvent, clock: Clock, faults: Faults)
    | DecideApproval(tenantID: string, approvalID: string, input: ApprovalStore.DecisionInput, now: int,
                     cancelled: bool)
    | UpsertPack(pack: PolicyPack, cancelled: bool)
    | SwitchPack(tenantID: string, packID: string, enabled: bool, cancelled: bool)

  /** The service's stores are where the behaviour has come to. */
  ghost predicate At(svc: Service, b: Behavior)
    reads svc.store, svc.packStore, svc.approvalStore
    reads if svc.packStore == null then {} else svc.packStore.Repr
  {
    svc.Valid() && b.Valid(svc.Cfg()) && svc.View(b.Last().calls) == b.Last()
  }

  /** A service with empty stores is at the start of a behaviour. */
  lemma StartsAtInitial(svc: Service)
    requires svc.Valid() && svc.View(map[]) == INITIAL
    ensures At(svc, Behavior([INITIAL], []))
  {
  }

  /** An unused call number. */
  lemma UnusedCall(calls: map<nat, Call>) returns (c: nat)
    ensures c !in calls
  {
    c := 0;
    var below: set<nat> := {};
    while c in calls
      invariant below <= calls.Keys && |below| == c
      invariant forall d :: d in below ==> d < c
      decreases calls.Keys - below
    {
      below := below + {c};
      c := c + 1;
    }
  }

  method ServeEvaluation(svc: Service, event: RuntimeEvent, clock: Clock, faults: Faults, ghost b: Behavior)
    returns (out: Outcome, ghost more: Behavior, ghost c: nat)
    requires At(svc, b)
    modifies svc.store, svc.approvalStore
    ensures At(svc, more) && Prolongs(b, more)
    ensures c !in b.Last().calls && c in more.Last().calls && more.Last().calls[c] == Done(out)
  {
    c := UnusedCall(b.Last().calls);
    ghost var keys;
    out, keys := svc.Evaluate(event, clock, faults, c, b.Last().calls);
    more := AloneIsABehavior(svc.Cfg(), b, c, event, clock, keys, faults);
  }

  method ServeDecision(svc: Service, tenantID: string, approvalID: string, input: ApprovalStore.DecisionInput,
                       clock: int, cancelled: bool,
                       ghost b: Behavior) returns (ghost more: Behavior)
    requires At(svc, b)
    modifies svc.approvalStore
    ensures At(svc, more) && Prolongs(b, more)
  {
    more := b;
    if svc.approvalStore != null {
      var _ := svc.approvalStore.Decide(tenantID, approvalID, input, clock, cancelled);
      ExtendIsValid(svc.Cfg(), b, Decide(tenantID, approvalID, input, clock, cancelled));
      more := Extend(svc.Cfg(), b, Decide(tenantID, approvalID, input, clock, cancelled));
    }
  }

  method ServeUpsert(svc: Service, pack: PolicyPack, cancelled: bool, ghost b: Behavior) returns (ghost more: Behavior)
    requires At(svc, b)
    modifies svc.packStore
    ensures At(svc, more) && Prolongs(b, more)
    ensures svc.packStore != null ==> fresh(svc.packStore.Repr - old(svc.packStore.Repr))
  {
    more := b;
    if svc.packStore != null {
      var slice := new Policy[|pack.policies|](i requires 0 <= i < |pack.policies| => pack.policies[i]);
      assert slice[..] == pack.policies;
      var ref := PackStore.PackRef(pack.id, pack.tenantID, pack.name, pack.version, pack.enabled, slice);
      assert ref.Value() == pack;
      var _ := svc.packStore.Upsert(ref, cancelled);
      ExtendIsValid(svc.Cfg(), b, Upsert(pack, cancelled));
      more := Extend(svc.Cfg(), b, Upsert(pack, cancelled));
    }
  }

  method ServeSwitch(svc: Service, tenantID: string, packID: string, enabled: bool, cancelled: bool, ghost b: Behavior)
    returns (ghost more: Behavior)
    requires At(svc, b)
    modifies svc.packStore
    ensures At(svc, more) && Prolongs(b, more)
    ensures svc.packStore != null ==> svc.packStore.Repr == old(svc.packStore.Repr)
  {
    more := b;
    if svc.packStore != null {
      var _ := svc.packStore.SetEnabled(tenantID, packID, enabled, cancelled);
      ExtendIsValid(svc.Cfg(), b, SetEnabled(tenantID, packID, enabled, cancelled));
      more := Extend(svc.Cfg(), b, SetEnabled(tenantID, packID, enabled, cancelled));
    }
  }

  /** Every evaluation answered is a finished call of the behaviour, with the answer as its outcome. */
  ghost predicate Answered(b: Behavior, outcomes: seq<Outcome>, numbers: seq<nat>) {
    && b.states != [] && |numbers| == |outcomes|
    && (forall i | 0 <= i < |numbers| ::
        numbers[i] in b.Last().calls && b.Last().calls[numbers[i]] == Done(outcomes[i]))
    && (forall i, j | 0 <= i < j < |numbers| :: numbers[i] != numbers[j])
  }

  lemma StaysAnswered(cfg: Config, b: Behavior, more: Behavior, outcomes: seq<Outcome>, numbers: seq<nat>)
    requires b.Valid(cfg) && more.Valid(cfg) && Prolongs(b, more) && Answered(b, outcomes, numbers)
    ensures Answered(more, outcomes, numbers)
  {
    assert b.Last() == more.states[|b.steps|];
    Grows(cfg, more, |b.steps|, |more.steps|);
  }

  /** One request. */
  method ServeOne(svc: Service, request: Request, ghost b: Behavior)
    returns (out: Option<Outcome>, ghost more: Behavior, ghost c: nat)
    requires At(svc, b)
    modifies svc.store, svc.packStore, svc.approvalStore
    ensures At(svc, more) && Prolongs(b, more)
    ensures out.Some? <==> request.EvaluateEvent?
    ensures out.Some? ==> c !in b.Last().calls && c in more.Last().calls && more.Last().calls[c] == Done(out.value)
  {
    out, c := None, 0;
    match request
    case EvaluateEvent(event, clock, faults) =>
      var answer;
      answer, more, c := ServeEvaluation(svc, event, clock, faults, b);
      out := Some(answer);
    case DecideApproval(tenantID, approvalID, input, now, cancelled) =>
      more := ServeDecision(svc, tenantID, approvalID, input, now, cancelled, b);
    case UpsertPack(pack, cancelled) =>
      more := ServeUpsert(svc, pack, cancelled, b);
    case SwitchPack(tenantID, packID, enabled, cancelled) =>
      more := ServeSwitch(svc, tenantID, packID, enabled, cancelled, b);
  }

  /** Any sequence of requests served one after another is a behaviour of the protocol, and the service's stores
      are where it ends. */
  method Serve(svc: Service, requests: seq<Request>, ghost b: Behavior)
    returns (outcomes: seq<Outcome>, ghost more: Behavior, ghost numbers: seq<nat>)
    requires At(svc, b)
    modifies svc.store, svc.packStore, svc.approvalStore
    ensures At(svc, more) && Prolongs(b, more) && Answered(more, outcomes, numbers)
    ensures |outcomes| == |Filter(requests, (r: Request) => r.EvaluateEvent?)|
  {
    outcomes, more, numbers := [], b, [];
    for i := 0 to |requests|
      invariant At(svc, more) && Prolongs(b, more) && Answered(more, outcomes, numbers)
      invariant |outcomes| == |Filter(requests[..i], (r: Request) => r.EvaluateEvent?)|
    {
      ghost var before := more;
      var out;
      ghost var c;
      out, more, c := ServeOne(svc, requests[i], before);
      StaysAnswered(svc.Cfg(), before, more, outcomes, numbers);
      assert requests[..i + 1] == requests[..i] + [requests[i]];
      FilterSnoc(requests[..i], requests[i], (r: Request) => r.EvaluateEvent?);
      if out.Some? {
        outcomes, numbers := outcomes + [out.value], numbers + [c];
      }
    }
    assert requests[..|requests|] == requests;
  }
}
