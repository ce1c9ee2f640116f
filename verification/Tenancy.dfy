/** Tenants do not affect each other, as long as no tenant name contains the key separator. */
module Tenancy {
  import opened Domain
  import opened Sequences
  import opened Text
  import opened Labels
  import opened PolicyEngine
  import opened ApprovalStore
  import opened Protocol
  import opened Provenance
  import AuditStore
  import PackStore

  // ----- Flat keys and pairs -----------------------------------------------------------

  /** Every entry of the flat map sits at the key of its own NUL-free tenant and identifier. */
  ghost predicate Keyed<V(!new)>(flat: map<string, V>, at: V -> (string, string)) {
    forall k | k in flat :: k == Key(at(flat[k]).0, at(flat[k]).1) && NulFree(at(flat[k]).0)
  }

  /** The two-level map, by tenant and identifier, that a flat map stands for. */
  ghost function Pairs<V(!new)>(flat: map<string, V>, at: V -> (string, string)): map<(string, string), V>
    requires Keyed(flat, at)
  {
    map k | k in flat :: at(flat[k]) := flat[k]
  }

  /** Looking up a flat key is looking up the pair. */
  lemma PairsLookup<V(!new)>(flat: map<string, V>, at: V -> (string, string), tenant: string, id: string)
    requires Keyed(flat, at) && NulFree(tenant)
    ensures Key(tenant, id) in flat <==> (tenant, id) in Pairs(flat, at)
    ensures Key(tenant, id) in flat ==> Pairs(flat, at)[(tenant, id)] == flat[Key(tenant, id)]
  {
    var k := Key(tenant, id);
    if k in flat {
      KeyInjectiveTenants(tenant, id, at(flat[k]).0, at(flat[k]).1);
    }
  }

  lemma PairAfter<V(!new)>(flat: map<string, V>, at: V -> (string, string), v: V, p: (string, string))
    requires Keyed(flat, at) && Keyed(flat[Key(at(v).0, at(v).1) := v], at)
    requires forall k | k in flat :: k == Key(at(v).0, at(v).1) <==> at(flat[k]) == at(v)
    ensures var ps, qs := Pairs(flat[Key(at(v).0, at(v).1) := v], at), Pairs(flat, at)[at(v) := v];
      (p in ps <==> p in qs) && (p in ps ==> ps[p] == qs[p])
  {
    var key := Key(at(v).0, at(v).1);
    var after := flat[key := v];
    if p == at(v) {
      assert key in after && at(after[key]) == p;
    } else if p in Pairs(flat, at) {
      var k :| k in flat && at(flat[k]) == p;
      assert k in after && at(after[k]) == p;
    }
  }

  lemma PairsExtensional<V(!new)>(flat: map<string, V>, at: V -> (string, string), v: V)
    requires Keyed(flat, at) && Keyed(flat[Key(at(v).0, at(v).1) := v], at)
    requires forall k | k in flat :: k == Key(at(v).0, at(v).1) <==> at(flat[k]) == at(v)
    ensures Pairs(flat[Key(at(v).0, at(v).1) := v], at) == Pairs(flat, at)[at(v) := v]
  {
    var after := flat[Key(at(v).0, at(v).1) := v];
    forall p ensures (p in Pairs(after, at) <==> p in Pairs(flat, at)[at(v) := v])
      && (p in Pairs(after, at) ==> Pairs(after, at)[p] == Pairs(flat, at)[at(v) := v][p])
    {
      PairAfter(flat, at, v, p);
    }
  }

  /** Storing at the flat key is storing at the pair: no other pair is touched. */
  lemma PairsUpdate<V(!new)>(flat: map<string, V>, at: V -> (string, string), v: V)
    requires Keyed(flat, at) && NulFree(at(v).0)
    ensures var after := flat[Key(at(v).0, at(v).1) := v];
      Keyed(after, at) && Pairs(after, at) == Pairs(flat, at)[at(v) := v]
  {
    var key := Key(at(v).0, at(v).1);
    forall k | k in flat ensures k == key <==> at(flat[k]) == at(v) {
      KeyInjectiveTenants(at(flat[k]).0, at(flat[k]).1, at(v).0, at(v).1);
    }
    PairsExtensional(flat, at, v);
  }

  function PackPair(pack: PolicyPack): (string, string) {
    (pack.tenantID, pack.id)
  }

  function RequestPair(request: ApprovalRequest): (string, string) {
    (request.tenantID, request.id)
  }

  /** A decision through the flat key is a decision on the pair. */
  lemma DecideOnPairs(requests: Requests, tenant: string, id: string, input: DecisionInput, clock: int, cancelled: bool)
    requires Keyed(requests, RequestPair) && NulFree(tenant)
    ensures var pairs := Pairs(requests, RequestPair);
      var after := AfterDecide(requests, Key(tenant, id), input, clock, cancelled);
      && Keyed(after, RequestPair)
      && match DecideError(requests, Key(tenant, id), input, clock, cancelled)
         case None => (tenant, id) in pairs
           && Pairs(after, RequestPair) == pairs[(tenant, id) := Decided(pairs[(tenant, id)], input, clock)]
         case Some(RequestExpired) =>
           (tenant, id) in pairs
             && Pairs(after, RequestPair) == pairs[(tenant, id) := pairs[(tenant, id)].(status := Expired)]
         case Some(NotFound) => (tenant, id) !in pairs && after == requests
         case Some(_) => after == requests
  {
    var key := Key(tenant, id);
    PairsLookup(requests, RequestPair, tenant, id);
    if key in requests {
      KeyInjectiveTenants(tenant, id, requests[key].tenantID, requests[key].id);
      PairsUpdate(requests, RequestPair, AfterDecide(requests, key, input, clock, cancelled)[key]);
    }
  }

  // ----- Separate tenants --------------------------------------------------------------

  /** Both stores are two-level maps, and calls in flight are for NUL-free tenants. */
  ghost predicate Separate(s: Sys) {
    && Keyed(s.packs, PackPair)
    && Keyed(s.requests, RequestPair)
    && forall c | c in s.calls && !s.calls[c].Done? :: NulFree(s.calls[c].Event().tenantID)
  }

  function CallTenant(s: Sys, c: nat): string {
    if c in s.calls && !s.calls[c].Done? then s.calls[c].Event().tenantID else ""
  }

  /** The tenant a step is taken for; a step of a call is taken for the tenant of its event. */
  function TenantOf(s: Sys, step: Step): string {
    match step
    case Begin(_, event, _) => event.tenantID
    case Look(c, _, _, _) => CallTenant(s, c)
    case Number(c, _, _) => CallTenant(s, c)
    case Insert(c) => CallTenant(s, c)
    case NumberRecord(c, _, _) => CallTenant(s, c)
    case Append(c) => CallTenant(s, c)
    case Decide(tenantID, _, _, _, _) => tenantID
    case Upsert(pack, _) => pack.tenantID
    case SetEnabled(tenantID, _, _, _) => tenantID
  }

  lemma PacksStayKeyed(cfg: Config, s: Sys, step: Step)
    requires Separate(s) && Enabled(s, step) && NulFree(TenantOf(s, step))
    ensures Keyed(Apply(cfg, s, step).packs, PackPair)
  {
    match step
    case Upsert(pack, cancelled) =>
      if PackStore.UpsertError(pack, cancelled).None? {
        assert Apply(cfg, s, step).packs == s.packs[PackStore.KeyOf(pack) := PackStore.DefaultPack(pack)];
      }
    case SetEnabled(tenantID, packID, enabled, cancelled) =>
      if !cancelled && Key(tenantID, packID) in s.packs {
        assert Apply(cfg, s, step).packs
          == s.packs[Key(tenantID, packID) := s.packs[Key(tenantID, packID)].(enabled := enabled)];
      }
    case _ =>
      assert Apply(cfg, s, step).packs == s.packs;
  }

  lemma RequestsStayKeyed(cfg: Config, s: Sys, step: Step)
    requires Shape(cfg, s) && Separate(s) && Enabled(s, step) && NulFree(TenantOf(s, step))
    ensures Keyed(Apply(cfg, s, step).requests, RequestPair)
  {
    if step.Insert? {
      assert CallShape(cfg, s.calls[step.c]);
      assert Apply(cfg, s, step).requests == Stored(s.requests, s.calls[step.c].request);
    } else if step.Decide? {
      DecideOutcome(s.requests, Key(step.tenantID, step.approvalID), step.input, step.clock, step.cancelled);
    } else {
      OtherStepsKeepRequests(cfg, s, step);
    }
  }

  lemma CallTenantStays(cfg: Config, s: Sys, step: Step, c: nat)
    requires Enabled(s, step) && c in Apply(cfg, s, step).calls && !Apply(cfg, s, step).calls[c].Done?
    ensures var t := Apply(cfg, s, step);
      if step.OfCall(c) then t.calls[c].Event().tenantID == TenantOf(s, step)
      else c in s.calls && s.calls[c] == t.calls[c]
  {
    if step.OfCall(c) {
      EventFollowsStep(cfg, s, step, c);
    } else {
      OtherCallsStay(cfg, s, step, c);
    }
  }

  lemma SeparateStep(cfg: Config, s: Sys, step: Step)
    requires Shape(cfg, s) && Separate(s) && Enabled(s, step) && NulFree(TenantOf(s, step))
    ensures Separate(Apply(cfg, s, step))
  {
    PacksStayKeyed(cfg, s, step);
    RequestsStayKeyed(cfg, s, step);
    var t := Apply(cfg, s, step);
    forall c | c in t.calls && !t.calls[c].Done? ensures NulFree(t.calls[c].Event().tenantID) {
      CallTenantStays(cfg, s, step, c);
    }
  }

  // ----- Views -------------------------------------------------------------------------

  function RequestView(requests: Requests, tenant: string): Requests {
    map k | k in requests && requests[k].tenantID == tenant :: requests[k]
  }

  function IsOf(tenant: string): AuditRecord -> bool {
    (record: AuditRecord) => record.event.tenantID == tenant
  }

  function RecordView(records: seq<AuditRecord>, tenant: string): seq<AuditRecord> {
    Filter(records, IsOf(tenant))
  }

  /** A tenant's evaluations in flight. */
  function CallView(calls: map<nat, Call>, tenant: string): map<nat, Call> {
    map c | c in calls && !calls[c].Done? && calls[c].Event().tenantID == tenant :: calls[c]
  }

  /** Two states look the same to a tenant. */
  predicate SameTo(s: Sys, t: Sys, tenant: string) {
    && PackStore.View(s.packs, tenant) == PackStore.View(t.packs, tenant)
    && RequestView(s.requests, tenant) == RequestView(t.requests, tenant)
    && RecordView(s.records, tenant) == RecordView(t.records, tenant)
    && CallView(s.calls, tenant) == CallView(t.calls, tenant)
  }

  lemma RequestStoredElsewhere(requests: Requests, request: ApprovalRequest, tenant: string)
    requires Keyed(requests, RequestPair) && NulFree(request.tenantID) && request.tenantID != tenant
    ensures RequestView(requests[KeyOf(request) := request], tenant) == RequestView(requests, tenant)
  {
    var k := KeyOf(request);
    if k in requests {
      KeyInjectiveTenants(request.tenantID, request.id, requests[k].tenantID, requests[k].id);
    }
  }

  lemma PackStoredElsewhere(packs: PackStore.Packs, pack: PolicyPack, tenant: string)
    requires Keyed(packs, PackPair) && NulFree(pack.tenantID) && pack.tenantID != tenant
    ensures PackStore.View(packs[PackStore.KeyOf(pack) := pack], tenant) == PackStore.View(packs, tenant)
  {
    var k := PackStore.KeyOf(pack);
    if k in packs {
      KeyInjectiveTenants(pack.tenantID, pack.id, packs[k].tenantID, packs[k].id);
    }
  }

  lemma DecideElsewhere(requests: Requests, tenantID: string, id: string, input: DecisionInput, clock: int,
                        cancelled: bool, tenant: string)
    requires Keyed(requests, RequestPair) && NulFree(tenantID) && tenantID != tenant
    ensures RequestView(AfterDecide(requests, Key(tenantID, id), input, clock, cancelled), tenant)
      == RequestView(requests, tenant)
  {
    var k := Key(tenantID, id);
    var after := AfterDecide(requests, k, input, clock, cancelled);
    DecideOutcome(requests, k, input, clock, cancelled);
    if k in requests {
      KeyInjectiveTenants(tenantID, id, requests[k].tenantID, requests[k].id);
      RequestStoredElsewhere(requests, after[k], tenant);
      assert after == requests[k := after[k]];
    }
  }

  lemma SetEnabledElsewhere(packs: PackStore.Packs, tenantID: string, id: string, enabled: bool, cancelled: bool,
                            tenant: string)
    requires Keyed(packs, PackPair) && NulFree(tenantID) && tenantID != tenant
    ensures PackStore.View(PackStore.AfterSetEnabled(packs, tenantID, id, enabled, cancelled), tenant)
      == PackStore.View(packs, tenant)
  {
    var k := Key(tenantID, id);
    if k in packs {
      KeyInjectiveTenants(tenantID, id, packs[k].tenantID, packs[k].id);
      PackStoredElsewhere(packs, packs[k].(enabled := enabled), tenant);
    }
  }

  lemma PacksElsewhere(cfg: Config, s: Sys, step: Step, tenant: string)
    requires Separate(s) && Enabled(s, step) && NulFree(TenantOf(s, step))
    requires TenantOf(s, step) == tenant ==> !step.Upsert? && !step.SetEnabled?
    ensures PackStore.View(s.packs, tenant) == PackStore.View(Apply(cfg, s, step).packs, tenant)
  {
    match step
    case Upsert(pack, _) =>
      PackStoredElsewhere(s.packs, PackStore.DefaultPack(pack), tenant);
    case SetEnabled(tenantID, id, enabled, cancelled) =>
      SetEnabledElsewhere(s.packs, tenantID, id, enabled, cancelled, tenant);
    case _ =>
  }

  lemma RequestsElsewhere(cfg: Config, s: Sys, step: Step, tenant: string)
    requires Shape(cfg, s) && Separate(s) && Enabled(s, step) && NulFree(TenantOf(s, step))
    requires TenantOf(s, step) == tenant ==> !step.Insert? && !step.Decide?
    ensures RequestView(s.requests, tenant) == RequestView(Apply(cfg, s, step).requests, tenant)
  {
    if step.Insert? {
      assert CallShape(cfg, s.calls[step.c]);
      RequestStoredElsewhere(s.requests, s.calls[step.c].request, tenant);
    } else if step.Decide? {
      DecideElsewhere(s.requests, step.tenantID, step.approvalID, step.input, step.clock, step.cancelled, tenant);
    } else {
      OtherStepsKeepRequests(cfg, s, step);
    }
  }

  lemma RecordsElsewhere(cfg: Config, s: Sys, step: Step, tenant: string)
    requires Enabled(s, step) && TenantOf(s, step) != tenant
    ensures RecordView(s.records, tenant) == RecordView(Apply(cfg, s, step).records, tenant)
  {
    if step.Append? {
      FilterSnoc(s.records, s.calls[step.c].record, IsOf(tenant));
    }
  }

  lemma CallElsewhere(cfg: Config, s: Sys, step: Step, tenant: string, c: nat)
    requires Enabled(s, step) && TenantOf(s, step) != tenant
    ensures var u, v := CallView(s.calls, tenant), CallView(Apply(cfg, s, step).calls, tenant);
      (c in u <==> c in v) && (c in u ==> u[c] == v[c])
  {
    var t := Apply(cfg, s, step);
    if !step.OfCall(c) {
      OtherCallsStay(cfg, s, step, c);
    } else if c in t.calls && !t.calls[c].Done? {
      EventFollowsStep(cfg, s, step, c);
    }
  }

  lemma CallsElsewhere(cfg: Config, s: Sys, step: Step, tenant: string)
    requires Enabled(s, step) && TenantOf(s, step) != tenant
    ensures CallView(s.calls, tenant) == CallView(Apply(cfg, s, step).calls, tenant)
  {
    var u, v := CallView(s.calls, tenant), CallView(Apply(cfg, s, step).calls, tenant);
    forall c: nat ensures (c in u <==> c in v) && (c in u ==> u[c] == v[c]) {
      CallElsewhere(cfg, s, step, tenant, c);
    }
  }

  /** A step taken for one tenant does not show to another. */
  lemma StepElsewhere(cfg: Config, s: Sys, step: Step, tenant: string)
    requires Shape(cfg, s) && Separate(s) && Enabled(s, step) && NulFree(TenantOf(s, step))
    requires TenantOf(s, step) != tenant
    ensures SameTo(s, Apply(cfg, s, step), tenant)
  {
    PacksElsewhere(cfg, s, step, tenant);
    RequestsElsewhere(cfg, s, step, tenant);
    CallsElsewhere(cfg, s, step, tenant);
    RecordsElsewhere(cfg, s, step, tenant);
  }

  lemma SameToTransitive(s: Sys, t: Sys, u: Sys, tenant: string)
    requires SameTo(s, t, tenant) && SameTo(t, u, tenant)
    ensures SameTo(s, u, tenant)
  {
  }

  // ----- Over a behaviour --------------------------------------------------------------

  /** All steps before `n` are taken for NUL-free tenants. */
  ghost predicate NulFreeTenants(cfg: Config, b: Behavior, n: nat)
    requires b.Valid(cfg) && n <= |b.steps|
  {
    forall i | 0 <= i < n :: NulFree(TenantOf(b.states[i], b.steps[i]))
  }

  lemma {:induction false} SeparateHolds(cfg: Config, b: Behavior, n: nat)
    requires b.Valid(cfg) && n <= |b.steps| && NulFreeTenants(cfg, b, n)
    ensures Separate(b.states[n])
  {
    if n > 0 {
      SeparateHolds(cfg, b, n - 1);
      ShapeHolds(cfg, b, n - 1);
      assert b.Follows(cfg, n - 1);
      SeparateStep(cfg, b.states[n - 1], b.steps[n - 1]);
    }
  }

  /** While only other tenants take steps, a tenant's packs, requests, records and evaluations in flight
      stay as they are. */
  lemma {:induction false} NonInterference(cfg: Config, b: Behavior, m: nat, n: nat, tenant: string)
    requires b.Valid(cfg) && m <= n <= |b.steps| && NulFreeTenants(cfg, b, n)
    requires forall i | m <= i < n :: TenantOf(b.states[i], b.steps[i]) != tenant
    ensures SameTo(b.states[m], b.states[n], tenant)
  {
    if m < n {
      NonInterference(cfg, b, m, n - 1, tenant);
      assert SameTo(b.states[n - 1], b.states[n], tenant) by {
        SeparateHolds(cfg, b, n - 1);
        ShapeHolds(cfg, b, n - 1);
        assert b.Follows(cfg, n - 1);
        StepElsewhere(cfg, b.states[n - 1], b.steps[n - 1], tenant);
      }
      SameToTransitive(b.states[m], b.states[n - 1], b.states[n], tenant);
    }
  }

  /** A query for one tenant sees that tenant's records only. */
  lemma {:induction false} QueryFromView(records: seq<AuditRecord>, opts: AuditStore.ListOptions)
    requires opts.tenantID != ""
    ensures Filter(records, AuditStore.Selected(opts))
      == Filter(RecordView(records, opts.tenantID), AuditStore.Selected(opts))
  {
    if records != [] {
      QueryFromView(records[1..], opts);
    }
  }

  /** So a tenant's audit query gets the same page whatever other tenants do in between. */
  lemma TenantsQueryAlone(cfg: Config, b: Behavior, m: nat, n: nat, opts: AuditStore.ListOptions)
    requires b.Valid(cfg) && m <= n <= |b.steps| && NulFreeTenants(cfg, b, n) && opts.tenantID != ""
    requires forall i | m <= i < n :: TenantOf(b.states[i], b.steps[i]) != opts.tenantID
    ensures AuditStore.Page(b.states[m].records, opts) == AuditStore.Page(b.states[n].records, opts)
  {
    NonInterference(cfg, b, m, n, opts.tenantID);
    QueryFromView(b.states[m].records, opts.Normalize());
    QueryFromView(b.states[n].records, opts.Normalize());
  }

  /** The part of the stores that judging `event` reads is the same. */
  ghost predicate SameBasis(s: Sys, t: Sys, event: RuntimeEvent) {
    if event.approvalID == "" then PackStore.View(s.packs, event.tenantID) == PackStore.View(t.packs, event.tenantID)
    else RequestView(s.requests, event.tenantID) == RequestView(t.requests, event.tenantID)
  }

  /** The step is the tenant's own and may change that part. */
  predicate Disturbs(s: Sys, step: Step, event: RuntimeEvent) {
    && TenantOf(s, step) == event.tenantID
    && if event.approvalID == "" then step.Upsert? || step.SetEnabled? else step.Insert? || step.Decide?
  }

  lemma BasisStep(cfg: Config, s: Sys, step: Step, event: RuntimeEvent)
    requires Shape(cfg, s) && Separate(s) && Enabled(s, step) && NulFree(TenantOf(s, step))
    requires !Disturbs(s, step, event)
    ensures SameBasis(s, Apply(cfg, s, step), event)
  {
    if event.approvalID == "" {
      PacksElsewhere(cfg, s, step, event.tenantID);
    } else {
      RequestsElsewhere(cfg, s, step, event.tenantID);
    }
  }

  ghost predicate Undisturbed(b: Behavior, m: nat, n: nat, event: RuntimeEvent) {
    forall i | m <= i < n && i < |b.steps| && i < |b.states| :: !Disturbs(b.states[i], b.steps[i], event)
  }

  lemma {:induction false} BasisStays(cfg: Config, b: Behavior, m: nat, n: nat, event: RuntimeEvent)
    requires b.Valid(cfg) && m <= n <= |b.steps| && NulFreeTenants(cfg, b, n) && Undisturbed(b, m, n, event)
    ensures SameBasis(b.states[m], b.states[n], event)
  {
    if m < n {
      BasisStays(cfg, b, m, n - 1, event);
      assert SameBasis(b.states[n - 1], b.states[n], event) by {
        SeparateHolds(cfg, b, n - 1);
        ShapeHolds(cfg, b, n - 1);
        assert b.Follows(cfg, n - 1);
        BasisStep(cfg, b.states[n - 1], b.steps[n - 1], event);
      }
    }
  }

  /** States with the same basis for an event judge it alike. */
  lemma SameJudgement(cfg: Config, s: Sys, t: Sys, event: RuntimeEvent, keys: seq<string>, otherKeys: seq<string>,
                      cancelled: bool)
    requires Separate(s) && Separate(t) && SameBasis(s, t, event) && NulFree(event.tenantID)
    requires Enumerates(keys, s.packs.Keys) && Enumerates(otherKeys, t.packs.Keys)
    ensures var r, q := Judgement(cfg, s, event, keys, cancelled), Judgement(cfg, t, event, otherKeys, cancelled);
      r.decision == q.decision && multiset(r.matchedPolicyIDs) == multiset(q.matchedPolicyIDs)
  {
    if event.approvalID != "" {
      var k := Key(event.tenantID, event.approvalID);
      if k in s.requests {
        KeyInjectiveTenants(event.tenantID, event.approvalID, s.requests[k].tenantID, s.requests[k].id);
        assert k in RequestView(s.requests, event.tenantID);
      }
      if k in t.requests {
        KeyInjectiveTenants(event.tenantID, event.approvalID, t.requests[k].tenantID, t.requests[k].id);
        assert k in RequestView(t.requests, event.tenantID);
      }
      assert RequestView(s.requests, event.tenantID) == RequestView(t.requests, event.tenantID);
    } else if cfg.hasPacks {
      PackStore.ListingFromView(s.packs, keys, t.packs, otherKeys, event.tenantID);
      PackOrderIndependence(PackStore.EnabledListing(s.packs, keys, event.tenantID),
                            PackStore.EnabledListing(t.packs, otherKeys, event.tenantID), event);
    }
  }

  lemma AgreesIgnoresTime(approved: RuntimeEvent, event: RuntimeEvent, t: int)
    ensures Agrees(approved, event.(timestamp := t)) == Agrees(approved, event)
  {
    AgreesIffSameBinding(approved, event.(timestamp := t));
    AgreesIffSameBinding(approved, event);
  }

  /** A judgement does not depend on the time of the event. */
  lemma JudgementIgnoresTime(cfg: Config, s: Sys, event: RuntimeEvent, keys: seq<string>, cancelled: bool, t: int)
    ensures Judgement(cfg, s, event.(timestamp := t), keys, cancelled) == Judgement(cfg, s, event, keys, cancelled)
  {
    if event.approvalID == "" {
      JudgeIgnoresTime(PoliciesFor(cfg, s.packs, keys, event), event, t);
    } else if Key(event.tenantID, event.approvalID) in s.requests {
      AgreesIgnoresTime(s.requests[Key(event.tenantID, event.approvalID)].event, event, t);
    }
  }

  /** So whatever other tenants do in between, and whatever the tenant itself does that leaves its packs or,
      for an event that names an approval, its requests alone, the event gets the same decision from the
      same matched policies. */
  lemma TenantsDecideAlone(cfg: Config, b: Behavior, m: nat, n: nat, event: RuntimeEvent,
                           keys: seq<string>, otherKeys: seq<string>, cancelled: bool)
    requires b.Valid(cfg) && m <= n <= |b.steps| && NulFreeTenants(cfg, b, n) && NulFree(event.tenantID)
    requires Undisturbed(b, m, n, event)
    requires Enumerates(keys, b.states[m].packs.Keys) && Enumerates(otherKeys, b.states[n].packs.Keys)
    ensures var r := Judgement(cfg, b.states[m], event, keys, cancelled);
      var q := Judgement(cfg, b.states[n], event, otherKeys, cancelled);
      r.decision == q.decision && multiset(r.matchedPolicyIDs) == multiset(q.matchedPolicyIDs)
  {
    BasisStays(cfg, b, m, n, event);
    SeparateHolds(cfg, b, m);
    SeparateHolds(cfg, b, n);
    SameJudgement(cfg, b.states[m], b.states[n], event, keys, otherKeys, cancelled);
  }

  /** The readings of an approval by calls `c` and `d` are not cancelled. */
  ghost predicate ReadsSucceed(b: Behavior, c: nat, d: nat) {
    forall i | 0 <= i < |b.steps| && (b.steps[i].OfCall(c) || b.steps[i].OfCall(d)) && b.steps[i].Look? ::
      !b.steps[i].cancelled
  }

  lemma ReadAlike(cfg: Config, b: Behavior, from: nat, event: RuntimeEvent, c: nat, l: nat, e: RuntimeEvent,
                  judged: EvaluationResult, d: nat, m: nat, f: RuntimeEvent, other: EvaluationResult)
    requires b.Valid(cfg) && NulFreeTenants(cfg, b, |b.steps|) && NulFree(event.tenantID)
    requires LookedAt(cfg, b, l, c, e, judged) && LookedAt(cfg, b, m, d, f, other) && from <= l <= m
    requires e.tenantID == event.tenantID && e.approvalID == event.approvalID && f == e.(timestamp := f.timestamp)
    requires Undisturbed(b, from, |b.steps|, event)
    requires event.approvalID != "" ==> ReadsSucceed(b, c, d)
    ensures judged.decision == other.decision && multiset(judged.matchedPolicyIDs) == multiset(other.matchedPolicyIDs)
  {
    assert b.Follows(cfg, l) && b.Follows(cfg, m);
    assert Undisturbed(b, l, m, e);
    TenantsDecideAlone(cfg, b, l, m, e, b.steps[l].keys, b.steps[m].keys, b.steps[l].cancelled);
    JudgementIgnoresTime(cfg, b.states[m], e, b.steps[m].keys, b.steps[l].cancelled, f.timestamp);
  }

  /** Two evaluations of the same event, begun at any times, that both return have returned the same decision
      from the same matched policies, if from the earlier beginning on the tenant has left its packs or,
      where the event names an approval, its requests alone. Everybody else may do anything. */
  lemma TenantsEvaluateAlone(cfg: Config, b: Behavior, event: RuntimeEvent, c: nat, p: nat, t: int, d: nat, r: nat,
                             u: int)
    requires b.Valid(cfg) && NulFreeTenants(cfg, b, |b.steps|)
    requires p < |b.steps| && b.steps[p] == Begin(c, event, t) && r < |b.steps| && b.steps[r] == Begin(d, event, u)
    requires c in b.Last().calls && b.Last().calls[c].Done? && b.Last().calls[c].outcome.Returned?
    requires d in b.Last().calls && b.Last().calls[d].Done? && b.Last().calls[d].outcome.Returned?
    requires Undisturbed(b, if p < r then p else r, |b.steps|, event)
    requires event.approvalID != "" ==> ReadsSucceed(b, c, d)
    ensures var x, y := b.Last().calls[c].outcome.result, b.Last().calls[d].outcome.result;
      x.decision == y.decision && multiset(x.matchedPolicyIDs) == multiset(y.matchedPolicyIDs)
  {
    var l, e, judged := ReturnedJudgement(cfg, b, |b.steps|, c, p);
    var m, f, other := ReturnedJudgement(cfg, b, |b.steps|, d, r);
    StartedIff(event, t);
    StartedIff(event, u);
    var from := if p < r then p else r;
    assert NulFree(event.tenantID) by {
      assert TenantOf(b.states[p], b.steps[p]) == event.tenantID;
    }
    if l <= m {
      ReadAlike(cfg, b, from, event, c, l, e, judged, d, m, f, other);
    } else {
      ReadAlike(cfg, b, from, event, d, m, f, other, c, l, e, judged);
    }
  }

  // ----- With NUL in tenant names ------------------------------------------------------

  /** The pairs share a key although they are different. */
  ghost predicate Collide(t1: string, i1: string, t2: string, i2: string) {
    Extends(t1, i1, t2, i2) || Extends(t2, i2, t1, i1)
  }

  /** Exactly when an upsert for another tenant removes one of this tenant's packs: when it succeeds and
      some stored pack of this tenant has an identifier that collides with it. */
  lemma UpsertInterferesIff(packs: PackStore.Packs, pack: PolicyPack, cancelled: bool, tenant: string)
    requires pack.tenantID != tenant
    requires forall k | k in packs :: k == PackStore.KeyOf(packs[k])
    ensures PackStore.View(PackStore.AfterUpsert(packs, pack, cancelled), tenant) != PackStore.View(packs, tenant)
       <==> (PackStore.UpsertError(pack, cancelled).None?
             && exists k | k in packs ::
               packs[k].tenantID == tenant && Collide(pack.tenantID, pack.id, tenant, packs[k].id))
  {
    var key := PackStore.KeyOf(pack);
    var before := PackStore.View(packs, tenant);
    var after := PackStore.View(PackStore.AfterUpsert(packs, pack, cancelled), tenant);
    forall k | k in packs && packs[k].tenantID == tenant
      ensures k == key <==> Collide(pack.tenantID, pack.id, tenant, packs[k].id)
    {
      KeyCollision(pack.tenantID, pack.id, tenant, packs[k].id);
    }
    if PackStore.UpsertError(pack, cancelled).None? && key in packs && packs[key].tenantID == tenant {
      assert key in before && key !in after;
    } else {
      assert after == before;
    }
  }

  /** Exactly when switching another tenant's pack switches one of this tenant's: when the call is not
      cancelled and some stored pack of this tenant collides with the named one and stands the other way. */
  lemma SetEnabledInterferesIff(packs: PackStore.Packs, t: string, id: string, enabled: bool, cancelled: bool,
                                tenant: string)
    requires t != tenant
    requires forall k | k in packs :: k == PackStore.KeyOf(packs[k])
    ensures var after := PackStore.AfterSetEnabled(packs, t, id, enabled, cancelled);
      PackStore.View(after, tenant) != PackStore.View(packs, tenant) <==>
        (!cancelled
         && exists k | k in packs ::
           packs[k].tenantID == tenant && Collide(t, id, tenant, packs[k].id) && packs[k].enabled != enabled)
  {
    var key, all := Key(t, id), PackStore.AfterSetEnabled(packs, t, id, enabled, cancelled);
    var before, after := PackStore.View(packs, tenant), PackStore.View(all, tenant);
    forall k | k in packs && packs[k].tenantID == tenant ensures k == key <==> Collide(t, id, tenant, packs[k].id) {
      KeyCollision(t, id, tenant, packs[k].id);
    }
    if !cancelled && key in packs && packs[key].tenantID == tenant && packs[key].enabled != enabled {
      assert before[key].enabled != after[key].enabled;
    } else {
      assert after == before;
    }
  }

  /** Exactly when a decision for another tenant reaches one of this tenant's requests: when it succeeds or
      finds the request expired, and some stored request of this tenant collides with the named one. */
  lemma DecideInterferesIff(requests: Requests, t: string, id: string, input: DecisionInput, clock: int,
                            cancelled: bool, tenant: string)
    requires t != tenant
    requires forall k | k in requests :: k == KeyOf(requests[k])
    ensures var after := AfterDecide(requests, Key(t, id), input, clock, cancelled);
      RequestView(after, tenant) != RequestView(requests, tenant) <==>
        (DecideError(requests, Key(t, id), input, clock, cancelled) in {None, Some(RequestExpired)}
         && exists k | k in requests :: requests[k].tenantID == tenant && Collide(t, id, tenant, requests[k].id))
  {
    var key, all := Key(t, id), AfterDecide(requests, Key(t, id), input, clock, cancelled);
    var before, after := RequestView(requests, tenant), RequestView(all, tenant);
    forall k | k in requests && requests[k].tenantID == tenant
      ensures k == key <==> Collide(t, id, tenant, requests[k].id)
    {
      KeyCollision(t, id, tenant, requests[k].id);
    }
    DecideOutcome(requests, key, input, clock, cancelled);
    if DecideError(requests, key, input, clock, cancelled) in {None, Some(RequestExpired)}
      && requests[key].tenantID == tenant
    {
      assert before[key].status != after[key].status;
    } else {
      assert after == before;
    }
  }

  /** So a decider for the tenant "a" can approve a request of the tenant "a", NUL, "b". */
  lemma DecideAcrossTenantsExample(requests: Requests, request: ApprovalRequest, input: DecisionInput, clock: int)
    requires request.tenantID == ['a', NUL, 'b'] && request.id == "approval-1"
    requires KeyOf(request) in requests && requests[KeyOf(request)] == request
    requires request.status == Pending && input.status == Approved && Timely(request, DecisionTime(input, clock))
    ensures AfterDecide(requests, Key("a", ['b', NUL] + "approval-1"), input, clock, false)
      == requests[KeyOf(request) := Decided(request, input, clock)]
  {
    assert Key("a", ['b', NUL] + "approval-1") == ['a', NUL, 'b', NUL] + "approval-1";
    assert KeyOf(request) == ['a', NUL, 'b', NUL] + "approval-1";
  }

  /** A NUL-free tenant's requests never collide with what another tenant names: the service makes NUL-free
      identifiers. */
  lemma NothingCollides(t: string, id: string, tenant: string, own: string)
    requires NulFree(tenant) && NulFree(own)
    ensures !Collide(t, id, tenant, own)
  {
  }

  lemma RequestStepElsewhere(cfg: Config, s: Sys, step: Step, tenant: string)
    requires Shape(cfg, s) && Enabled(s, step) && NulFree(tenant) && TenantOf(s, step) != tenant
    ensures RequestView(s.requests, tenant) == RequestView(Apply(cfg, s, step).requests, tenant)
  {
    if step.Insert? {
      assert CallShape(cfg, s.calls[step.c]);
      var request := s.calls[step.c].request;
      forall k | k in s.requests && s.requests[k].tenantID == tenant ensures k != KeyOf(request) {
        KeyInjectiveIds(tenant, s.requests[k].id, request.tenantID, request.id);
      }
    } else if step.Decide? {
      forall k | k in s.requests && s.requests[k].tenantID == tenant
        ensures !Collide(step.tenantID, step.approvalID, tenant, s.requests[k].id)
      {
        NothingCollides(step.tenantID, step.approvalID, tenant, s.requests[k].id);
      }
      DecideInterferesIff(s.requests, step.tenantID, step.approvalID, step.input, step.clock, step.cancelled, tenant);
    } else {
      OtherStepsKeepRequests(cfg, s, step);
    }
  }

  lemma ApprovalsAreOwnAt(cfg: Config, b: Behavior, n: nat, tenant: string)
    requires b.Valid(cfg) && n < |b.steps| && NulFree(tenant) && TenantOf(b.states[n], b.steps[n]) != tenant
    ensures RequestView(b.states[n].requests, tenant) == RequestView(b.states[n + 1].requests, tenant)
  {
    ShapeHolds(cfg, b, n);
    assert b.Follows(cfg, n);
    RequestStepElsewhere(cfg, b.states[n], b.steps[n], tenant);
  }

  /** A NUL-free tenant's approval requests are its own, whatever the other tenants are called: no evaluation
      and no decision for another tenant changes them. */
  lemma {:induction false} ApprovalsAreOwn(cfg: Config, b: Behavior, m: nat, n: nat, tenant: string)
    requires b.Valid(cfg) && m <= n <= |b.steps| && NulFree(tenant)
    requires forall i | m <= i < n :: TenantOf(b.states[i], b.steps[i]) != tenant
    ensures RequestView(b.states[m].requests, tenant) == RequestView(b.states[n].requests, tenant)
  {
    if m < n {
      ApprovalsAreOwn(cfg, b, m, n - 1, tenant);
      ApprovalsAreOwnAt(cfg, b, n - 1, tenant);
    }
  }
}
