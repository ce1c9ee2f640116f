/** The policy simulator, and why its verdict is the one the live service would give. */
module Simulation {
  import opened Domain
  import opened Sequences
  import opened Text
  import opened Matching
  import opened PolicyEngine
  import opened PolicyMeaning
  import opened Protocol
  import opened Provenance
  import opened PackStore

  datatype SimulationResult = SimulationResult(schemaVersion: string, result: EvaluationResult)

  /** Normalise, build an engine from the candidate packs, evaluate. */
  function Simulate(event: RuntimeEvent, packs: seq<PolicyPack>): Option<SimulationResult> {
    match event.Normalize()
    case None => None
    case Some(e) => Some(SimulationResult(PolicySimulationV1.Text(), Judge(PoliciesOf(packs), e)))
  }

  /** The simulator refuses exactly the events the platform refuses; otherwise it judges the event, nothing but
      the schema version filled in, by the policies of the candidate packs. */
  lemma SimulatesIff(event: RuntimeEvent, packs: seq<PolicyPack>)
    ensures Simulate(event, packs).Some? <==> Acceptable(event)
    ensures Acceptable(event) ==> var answer := Simulate(event, packs).value;
      answer.schemaVersion == PolicySimulationV1.Text()
      && answer.result == Judge(PoliciesOf(packs), event.(schemaVersion := RuntimeEventV1.Text()))
  {
    NormalizesIff(event);
  }

  // ----- Defaulting is absorbed --------------------------------------------------------

  lemma {:induction false} DefaultsAbsorbed(policies: seq<Policy>, pack: PolicyPack, stored: PolicyPack)
    requires stored.tenantID == pack.tenantID && stored.id == pack.id
    ensures ResolveAll(DefaultPolicies(policies, pack.tenantID, pack.id), stored) == ResolveAll(policies, pack)
  {
    if policies != [] {
      DefaultsAbsorbed(policies[1..], pack, stored);
      var defaults := DefaultPolicies(policies, pack.tenantID, pack.id);
      assert defaults == [defaults[0]] + DefaultPolicies(policies[1..], pack.tenantID, pack.id);
      assert Resolve(defaults[0], stored) == Resolve(policies[0], pack);
    }
  }

  /** A stored pack yields the policies of the pack that was upserted. */
  lemma StoredPackPolicies(pack: PolicyPack)
    ensures PackPolicies(DefaultPack(pack)) == PackPolicies(pack)
  {
    DefaultsAbsorbed(pack.policies, pack, DefaultPack(pack));
  }

  // ----- Upserting a list of packs -----------------------------------------------------

  function UpsertAll(packs: Packs, list: seq<PolicyPack>): Packs {
    if list == [] then packs else AfterUpsert(UpsertAll(packs, list[..|list| - 1]), list[|list| - 1], false)
  }

  /** Of any upserts into any store, with identifiers repeated or not, the last one for a key that is not
      refused is what is stored there. */
  lemma {:induction false} LastUpsertStands(packs: Packs, list: seq<PolicyPack>, i: nat)
    requires i < |list| && list[i].tenantID != "" && list[i].id != ""
    requires forall j | i < j < |list| && list[j].tenantID != "" && list[j].id != "" ::
      Key(list[j].tenantID, list[j].id) != Key(list[i].tenantID, list[i].id)
    ensures var key := Key(list[i].tenantID, list[i].id);
      key in UpsertAll(packs, list) && StoredAs(UpsertAll(packs, list)[key], list[i])
  {
    var n := |list| - 1;
    UpsertStores(UpsertAll(packs, list[..n]), list[n], false);
    if i < n {
      LastUpsertStands(packs, list[..n], i);
    }
  }

  /** A key that no upsert is for keeps what it holds. */
  lemma {:induction false} OtherKeysStand(packs: Packs, list: seq<PolicyPack>, k: string)
    requires forall j | 0 <= j < |list| && list[j].tenantID != "" && list[j].id != "" ::
      Key(list[j].tenantID, list[j].id) != k
    ensures k in UpsertAll(packs, list) <==> k in packs
    ensures k in packs ==> UpsertAll(packs, list)[k] == packs[k]
  {
    if list != [] {
      var n := |list| - 1;
      UpsertStores(UpsertAll(packs, list[..n]), list[n], false);
      OtherKeysStand(packs, list[..n], k);
    }
  }

  /** After an upsert the policies that come from its key are those of the upserted pack, whatever was there
      before, and those that come from other keys are the same as before. */
  lemma UpsertPutsInForce(packs: Packs, pack: PolicyPack, q: Policy, k: string)
    requires pack.tenantID != "" && pack.id != ""
    ensures var after := AfterUpsert(packs, pack, false);
      if k == Key(pack.tenantID, pack.id) then
        ComesFrom(q, after, k, pack.tenantID) <==>
          pack.enabled && exists p | p in pack.policies ::
            q == p.(tenantID := Else(p.tenantID, pack.tenantID), policyPackID := Else(p.policyPackID, pack.id))
      else forall tenantID :: ComesFrom(q, after, k, tenantID) <==> ComesFrom(q, packs, k, tenantID)
  {
    UpsertStores(packs, pack, false);
    if k == Key(pack.tenantID, pack.id) && pack.enabled {
      StoredPackPolicies(pack);
      MembersComeFrom(q, AfterUpsert(packs, pack, false), k, pack.tenantID);
      MembersComeFrom(q, map[k := pack], k, pack.tenantID);
    }
  }

  /** Candidate packs of one tenant with distinct, non-empty identifiers. */
  predicate Candidates(list: seq<PolicyPack>, tenant: string) {
    && tenant != ""
    && (forall i | 0 <= i < |list| :: list[i].tenantID == tenant && list[i].id != "")
    && (forall i, j | 0 <= i < j < |list| :: list[i].id != list[j].id)
  }

  function KeysOf(list: seq<PolicyPack>): seq<string> {
    seq(|list|, i requires 0 <= i < |list| => PackStore.KeyOf(list[i]))
  }

  lemma KeysDistinct(list: seq<PolicyPack>, tenant: string)
    requires Candidates(list, tenant)
    ensures NoDuplicates(KeysOf(list))
  {
    forall i, j | 0 <= i < j < |list| ensures KeysOf(list)[i] != KeysOf(list)[j] {
      assert Key(tenant, list[i].id)[|tenant| + 1..] == list[i].id;
      assert Key(tenant, list[j].id)[|tenant| + 1..] == list[j].id;
    }
  }

  /** `packs` holds the stored forms of the candidates and nothing else. */
  ghost predicate Holds(packs: Packs, list: seq<PolicyPack>) {
    && Enumerates(KeysOf(list), packs.Keys)
    && forall i | 0 <= i < |list| :: KeysOf(list)[i] in packs && packs[KeysOf(list)[i]] == DefaultPack(list[i])
  }

  lemma HoldsOneMore(packs: Packs, list: seq<PolicyPack>, pack: PolicyPack)
    requires Holds(packs, list) && NoDuplicates(KeysOf(list + [pack]))
    ensures Holds(packs[PackStore.KeyOf(pack) := DefaultPack(pack)], list + [pack])
  {
    var n := |list|;
    var more := KeysOf(list + [pack]);
    assert more == KeysOf(list) + [PackStore.KeyOf(pack)];
    forall i | 0 <= i < n ensures more[i] == KeysOf(list)[i] != more[n] {
    }
  }

  lemma {:induction false} UpsertAllContents(list: seq<PolicyPack>, tenant: string)
    requires Candidates(list, tenant)
    ensures Holds(UpsertAll(map[], list), list)
  {
    if list != [] {
      var n := |list| - 1;
      UpsertAllContents(list[..n], tenant);
      KeysDistinct(list, tenant);
      assert list[..n] + [list[n]] == list;
      HoldsOneMore(UpsertAll(map[], list[..n]), list[..n], list[n]);
    }
  }

  /** Listing the stored packs in upsert order yields the policies of the candidates. */
  lemma {:induction false} ListedPolicies(packs: Packs, list: seq<PolicyPack>, tenant: string)
    requires forall p | p in list ::
      p.tenantID == tenant && PackStore.KeyOf(p) in packs && packs[PackStore.KeyOf(p)] == DefaultPack(p)
    ensures PoliciesOf(EnabledListing(packs, KeysOf(list), tenant)) == PoliciesOf(list)
  {
    if list != [] {
      var p := list[0];
      assert p in list && forall q :: q in list[1..] ==> q in list;
      ListedPolicies(packs, list[1..], tenant);
      assert KeysOf(list)[1..] == KeysOf(list[1..]);
      StoredPackPolicies(p);
      var head := EnabledOfTenant(packs, tenant)(PackStore.KeyOf(p));
      FlatMapConcat(head, EnabledListing(packs, KeysOf(list[1..]), tenant), PackPolicies);
      assert FlatMap(head, PackPolicies) == PackPolicies(p);
    }
  }

  lemma HeldPolicies(packs: Packs, list: seq<PolicyPack>, tenant: string)
    requires Candidates(list, tenant) && Holds(packs, list)
    ensures PoliciesOf(EnabledListing(packs, KeysOf(list), tenant)) == PoliciesOf(list)
  {
    forall p | p in list
      ensures p.tenantID == tenant && PackStore.KeyOf(p) in packs && packs[PackStore.KeyOf(p)] == DefaultPack(p)
    {
      var i :| 0 <= i < |list| && list[i] == p;
      assert KeysOf(list)[i] == PackStore.KeyOf(p);
    }
    ListedPolicies(packs, list, tenant);
  }

  // ----- Agreement ---------------------------------------------------------------------

  /** Dry run agrees with live: when the tenant's packs are those that upserting the candidates into an empty
      store leaves, a service that lists them - in whatever order the map yields - judges the event with the
      simulator's decision and the same matched policies. */
  lemma DryRunAgreesWithJudgement(cfg: Config, s: Sys, list: seq<PolicyPack>, event: RuntimeEvent, now: int,
                                  keys: seq<string>, cancelled: bool)
    requires cfg.hasPacks && event.approvalID == "" && event.Normalize().Some?
    requires Candidates(list, event.tenantID)
    requires View(s.packs, event.tenantID) == View(UpsertAll(map[], list), event.tenantID)
    requires Enumerates(keys, s.packs.Keys)
    ensures Started(event, now).Looking?
    ensures var live := Judgement(cfg, s, Started(event, now).event, keys, cancelled);
      var dry := Simulate(event, list).value.result;
      live.decision == dry.decision && multiset(live.matchedPolicyIDs) == multiset(dry.matchedPolicyIDs)
  {
    var tenant := event.tenantID;
    var e := event.Normalize().value;
    var live := Started(event, now).event;
    var packs := UpsertAll(map[], list);
    UpsertAllContents(list, tenant);
    ListingFromView(s.packs, keys, packs, KeysOf(list), tenant);
    PackOrderIndependence(EnabledListing(s.packs, keys, tenant), EnabledListing(packs, KeysOf(list), tenant), live);
    HeldPolicies(packs, list, tenant);
    MatchingIgnoresTime(PoliciesOf(list), e, live.timestamp);
  }

  /** So an evaluation that returns, having run while the tenant's packs were those, returns the simulator's
      decision and matched policies, whatever other steps were taken. */
  lemma DryRunAgreesWithLive(cfg: Config, b: Behavior, n: nat, c: nat, p: nat, list: seq<PolicyPack>,
                             event: RuntimeEvent, now: int)
    requires b.Valid(cfg) && cfg.hasPacks && event.approvalID == "" && Candidates(list, event.tenantID)
    requires p < n <= |b.steps| && b.steps[p] == Begin(c, event, now)
    requires c in b.states[n].calls && b.states[n].calls[c].Done? && b.states[n].calls[c].outcome.Returned?
    requires forall j | p < j < n ::
      View(b.states[j].packs, event.tenantID) == View(UpsertAll(map[], list), event.tenantID)
    ensures event.Normalize().Some?
    ensures var live := b.states[n].calls[c].outcome.result;
      var dry := Simulate(event, list).value.result;
      live.decision == dry.decision && multiset(live.matchedPolicyIDs) == multiset(dry.matchedPolicyIDs)
  {
    var l, e, judged := ReturnedJudgement(cfg, b, n, c, p);
    assert b.Follows(cfg, l);
    DryRunAgreesWithJudgement(cfg, b.states[l], list, event, now, b.steps[l].keys, b.steps[l].cancelled);
  }

  /** Disabled packs contribute nothing, whatever they hold. */
  lemma DisabledContributesNothing(packs: seq<PolicyPack>, event: RuntimeEvent)
    ensures Judge(PoliciesOf(packs), event) == Judge(PoliciesOf(Filter(packs, IsEnabled)), event)
  {
    FlatMapOfFilter(packs, IsEnabled, PackPolicies);
  }

  // ----- Enabling and disabling --------------------------------------------------------

  function LiveRank(packs: Packs, keys: seq<string>, event: RuntimeEvent): int {
    Judge(PoliciesOf(EnabledListing(packs, keys, event.tenantID)), event).decision.Priority()
  }

  /** Every enabled pack of the tenant is also one in the other store. */
  lemma MorePacksRankHigher(packs: Packs, keys: seq<string>, more: Packs, moreKeys: seq<string>, event: RuntimeEvent)
    requires Enumerates(keys, packs.Keys) && Enumerates(moreKeys, more.Keys)
    requires forall k | k in packs && packs[k].tenantID == event.tenantID && packs[k].enabled ::
      k in more && more[k] == packs[k]
    ensures LiveRank(packs, keys, event) <= LiveRank(more, moreKeys, event)
  {
    var ps, qs := EnabledListing(packs, keys, event.tenantID), EnabledListing(more, moreKeys, event.tenantID);
    forall p | p in PoliciesOf(ps) ensures p in PoliciesOf(qs) {
      FlatMapMember(ps, PackPolicies, p);
      var pack :| pack in ps && p in PackPolicies(pack);
      EnabledListingMembers(packs, keys, event.tenantID, pack);
      EnabledListingMembers(more, moreKeys, event.tenantID, pack);
      FlatMapMember(qs, PackPolicies, p);
    }
    RankMonotone(PoliciesOf(ps), PoliciesOf(qs), event);
  }

  /** Enabling a pack never lowers the rank of any event's decision, and disabling one never raises it,
      in whatever orders the maps are listed. */
  lemma EnablingRestricts(packs: Packs, keys: seq<string>, tenantID: string, packID: string, cancelled: bool,
                          onKeys: seq<string>, offKeys: seq<string>, event: RuntimeEvent)
    requires Enumerates(keys, packs.Keys)
    requires Enumerates(onKeys, AfterSetEnabled(packs, tenantID, packID, true, cancelled).Keys)
    requires Enumerates(offKeys, AfterSetEnabled(packs, tenantID, packID, false, cancelled).Keys)
    ensures LiveRank(packs, keys, event)
      <= LiveRank(AfterSetEnabled(packs, tenantID, packID, true, cancelled), onKeys, event)
    ensures LiveRank(AfterSetEnabled(packs, tenantID, packID, false, cancelled), offKeys, event)
      <= LiveRank(packs, keys, event)
  {
    MorePacksRankHigher(packs, keys, AfterSetEnabled(packs, tenantID, packID, true, cancelled), onKeys, event);
    MorePacksRankHigher(AfterSetEnabled(packs, tenantID, packID, false, cancelled), offKeys, packs, keys, event);
  }
}
