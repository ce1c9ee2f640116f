/** What a policy says: which events it applies to, and which policies are in force for a tenant. */
module PolicyMeaning {
  import opened Domain
  import opened Sequences
  import opened Text
  import opened Matching
  import opened PolicyEngine
  import PackStore

  // ----- Names -------------------------------------------------------------------------

  /** Two texts match exactly when what stands between their outer white space is the same up to the case of
      letters. */
  lemma SameTextIff(a: string, a1: string, x: string, a2: string, b: string, b1: string, y: string, b2: string)
    requires a == a1 + x + a2 && AllWhite(a1) && Bare(x) && AllWhite(a2)
    requires b == b1 + y + b2 && AllWhite(b1) && Bare(y) && AllWhite(b2)
    ensures SameText(a, b) <==> |x| == |y| && forall i :: 0 <= i < |x| ==> SameLetter(x[i], y[i])
  {
    TrimOf(a1, x, a2);
    TrimOf(b1, y, b2);
    EqualFoldIff(x, y);
  }

  /** The list names the text. */
  predicate Names(list: seq<string>, text: string) {
    exists item | item in list :: SameText(item, text)
  }

  /** The list names one of the texts. */
  predicate NamesOne(list: seq<string>, texts: seq<string>) {
    exists text | text in texts :: Names(list, text)
  }

  /** Some pattern that is not blank, trimmed, occurs in the resource or is it up to case. */
  ghost predicate Covers(patterns: seq<string>, resource: string) {
    exists p | p in patterns :: Visible(p)
      && ((exists before: string, after: string :: resource == before + Trim(p) + after)
          || (|Trim(p)| == |resource| && forall i :: 0 <= i < |resource| ==> SameLetter(Trim(p)[i], resource[i])))
  }

  lemma CoversIff(patterns: seq<string>, resource: string)
    ensures MatchResource(patterns, resource) <==> patterns == [] || Covers(patterns, resource)
  {
    forall p | p in patterns
      ensures Visible(p) <==> !IsBlank(p)
      ensures Contains(resource, Trim(p)) <==> exists a: string, b: string :: resource == a + Trim(p) + b
      ensures EqualFold(Trim(p), resource) <==>
        |Trim(p)| == |resource| && forall i :: 0 <= i < |resource| ==> SameLetter(Trim(p)[i], resource[i])
    {
      BlankIffWhite(p);
      ContainsIff(resource, Trim(p));
      EqualFoldIff(Trim(p), resource);
    }
  }

  // ----- Conditions --------------------------------------------------------------------

  /** A policy applies when it is enabled, is for every tenant or this one, and each list that is not empty
      names the event's own value for that field. */
  lemma NamedEventIsHit(policy: Policy, event: RuntimeEvent)
    requires policy.enabled && (AllWhite(policy.tenantID) || SameText(policy.tenantID, event.tenantID))
    requires policy.conditions.eventTypes == [] || event.eventType in policy.conditions.eventTypes
    requires policy.conditions.toolNames == [] || Names(policy.conditions.toolNames, event.toolName)
    requires policy.conditions.resources == [] || Covers(policy.conditions.resources, event.resource)
    requires policy.conditions.actions == [] || Names(policy.conditions.actions, event.action)
    requires policy.conditions.dataLabels == [] || NamesOne(policy.conditions.dataLabels, event.dataLabels)
    requires policy.conditions.agentIDs == [] || Names(policy.conditions.agentIDs, event.agentID)
    requires policy.conditions.userIDs == [] || Names(policy.conditions.userIDs, event.userID)
    requires policy.conditions.subjectTypes == [] || event.subject.subjectType in policy.conditions.subjectTypes
    requires policy.conditions.subjectIDs == [] || Names(policy.conditions.subjectIDs, event.subject.id)
    requires policy.conditions.subjectRoles == [] || NamesOne(policy.conditions.subjectRoles, event.subject.roles)
    requires policy.conditions.subjectGroups == [] || NamesOne(policy.conditions.subjectGroups, event.subject.groups)
    requires policy.conditions.subjectRiskLevels == []
      || Names(policy.conditions.subjectRiskLevels, event.subject.riskLevel)
    ensures Applies(policy, event)
  {
    BlankIffWhite(policy.tenantID);
    CoversIff(policy.conditions.resources, event.resource);
  }

  lemma AppliedNames(policy: Policy, event: RuntimeEvent)
    requires Applies(policy, event)
    ensures policy.enabled && (AllWhite(policy.tenantID) || SameText(policy.tenantID, event.tenantID))
    ensures policy.conditions.eventTypes == [] || event.eventType in policy.conditions.eventTypes
    ensures policy.conditions.toolNames == [] || Names(policy.conditions.toolNames, event.toolName)
    ensures policy.conditions.resources == [] || Covers(policy.conditions.resources, event.resource)
    ensures policy.conditions.actions == [] || Names(policy.conditions.actions, event.action)
    ensures policy.conditions.dataLabels == [] || NamesOne(policy.conditions.dataLabels, event.dataLabels)
    ensures policy.conditions.agentIDs == [] || Names(policy.conditions.agentIDs, event.agentID)
    ensures policy.conditions.userIDs == [] || Names(policy.conditions.userIDs, event.userID)
    ensures policy.conditions.subjectTypes == [] || event.subject.subjectType in policy.conditions.subjectTypes
    ensures policy.conditions.subjectIDs == [] || Names(policy.conditions.subjectIDs, event.subject.id)
    ensures policy.conditions.subjectRoles == [] || NamesOne(policy.conditions.subjectRoles, event.subject.roles)
    ensures policy.conditions.subjectGroups == [] || NamesOne(policy.conditions.subjectGroups, event.subject.groups)
    ensures policy.conditions.subjectRiskLevels == []
      || Names(policy.conditions.subjectRiskLevels, event.subject.riskLevel)
  {
    BlankIffWhite(policy.tenantID);
    CoversIff(policy.conditions.resources, event.resource);
  }

  /** A policy that is disabled, is for another tenant, or has a list that does not name the event's own value
      for that field does not apply. */
  lemma UnnamedEventIsMissed(policy: Policy, event: RuntimeEvent)
    requires
      || !policy.enabled || (Visible(policy.tenantID) && !SameText(policy.tenantID, event.tenantID))
      || (policy.conditions.eventTypes != [] && event.eventType !in policy.conditions.eventTypes)
      || (policy.conditions.toolNames != [] && !Names(policy.conditions.toolNames, event.toolName))
      || (policy.conditions.resources != [] && !Covers(policy.conditions.resources, event.resource))
      || (policy.conditions.actions != [] && !Names(policy.conditions.actions, event.action))
      || (policy.conditions.dataLabels != [] && !NamesOne(policy.conditions.dataLabels, event.dataLabels))
      || (policy.conditions.agentIDs != [] && !Names(policy.conditions.agentIDs, event.agentID))
      || (policy.conditions.userIDs != [] && !Names(policy.conditions.userIDs, event.userID))
      || (policy.conditions.subjectTypes != [] && event.subject.subjectType !in policy.conditions.subjectTypes)
      || (policy.conditions.subjectIDs != [] && !Names(policy.conditions.subjectIDs, event.subject.id))
      || (policy.conditions.subjectRoles != [] && !NamesOne(policy.conditions.subjectRoles, event.subject.roles))
      || (policy.conditions.subjectGroups != [] && !NamesOne(policy.conditions.subjectGroups, event.subject.groups))
      || (policy.conditions.subjectRiskLevels != []
          && !Names(policy.conditions.subjectRiskLevels, event.subject.riskLevel))
    ensures !Applies(policy, event)
  {
    if Applies(policy, event) {
      AppliedNames(policy, event);
    }
  }

  /** Of the fields of an event, a policy looks only at those it lists something for. */
  lemma OnlyListedFieldsCount(policy: Policy, e: RuntimeEvent, f: RuntimeEvent)
    requires Visible(policy.tenantID) ==> e.tenantID == f.tenantID
    requires policy.conditions.eventTypes != [] ==> e.eventType == f.eventType
    requires policy.conditions.toolNames != [] ==> e.toolName == f.toolName
    requires policy.conditions.resources != [] ==> e.resource == f.resource
    requires policy.conditions.actions != [] ==> e.action == f.action
    requires policy.conditions.dataLabels != [] ==> e.dataLabels == f.dataLabels
    requires policy.conditions.agentIDs != [] ==> e.agentID == f.agentID
    requires policy.conditions.userIDs != [] ==> e.userID == f.userID
    requires policy.conditions.subjectTypes != [] ==> e.subject.subjectType == f.subject.subjectType
    requires policy.conditions.subjectIDs != [] ==> e.subject.id == f.subject.id
    requires policy.conditions.subjectRoles != [] ==> e.subject.roles == f.subject.roles
    requires policy.conditions.subjectGroups != [] ==> e.subject.groups == f.subject.groups
    requires policy.conditions.subjectRiskLevels != [] ==> e.subject.riskLevel == f.subject.riskLevel
    ensures Applies(policy, e) <==> Applies(policy, f)
  {
    if Applies(policy, e) {
      AppliedNames(policy, e);
      NamedEventIsHit(policy, f);
    }
    if Applies(policy, f) {
      AppliedNames(policy, f);
      NamedEventIsHit(policy, e);
    }
  }

  /** A denial that applies is final, whatever other policies there are. */
  lemma DenialIsFinal(policies: seq<Policy>, policy: Policy, event: RuntimeEvent)
    requires policy in policies && policy.decision == Deny && Applies(policy, event)
    ensures Judge(policies, event).decision == Deny
  {
    StrictestDecisionWins(policies, event);
  }

  /** A policy that does not apply might as well not be there. */
  lemma MissedPolicyIsIgnored(policies: seq<Policy>, i: nat, event: RuntimeEvent)
    requires i < |policies| && !Applies(policies[i], event)
    ensures Judge(policies[..i] + policies[i + 1..], event) == Judge(policies, event)
  {
    assert policies == policies[..i] + [policies[i]] + policies[i + 1..];
    FilterConcat(policies[..i] + [policies[i]], policies[i + 1..], Applicable(event));
    FilterConcat(policies[..i], policies[i + 1..], Applicable(event));
    FilterSnoc(policies[..i], policies[i], Applicable(event));
    assert MatchingPolicies(policies[..i] + [policies[i]], event) == MatchingPolicies(policies[..i], event);
  }

  // ----- The winner --------------------------------------------------------------------

  lemma WinnerOfEquals(m: seq<Policy>, i: nat)
    requires i < |m| && Wins(m, i)
    ensures forall j | 0 <= j < |m| && m[j].decision == m[i].decision :: m[j].priority <= m[i].priority
    ensures forall j | 0 <= j < i && m[j].decision == m[i].decision :: m[j].priority < m[i].priority
  {
    forall j | 0 <= j < |m| && m[j].decision == m[i].decision
      ensures m[j].priority <= m[i].priority && (j < i ==> m[j].priority < m[i].priority)
    {
      if j < i {
        assert Outranks(VerdictOf(m[i]), VerdictOf(m[j]));
      } else if j > i {
        assert !Outranks(VerdictOf(m[j]), VerdictOf(m[i]));
      }
    }
  }

  /** Which of the policies that make the decision gives the reason: the earliest of the highest priority.
      A reason left empty names the policy. */
  lemma ReasonIsTheEarliestOfHighestPriority(policies: seq<Policy>, event: RuntimeEvent)
    ensures var m, r := MatchingPolicies(policies, event), Judge(policies, event);
      || (r.decision == Allow && r.reason == NoPolicyMatched.Text()
          && forall p | p in m :: p.decision in {Deny, RequireApproval, Redact, Record, Allow} ==>
                p.decision == Allow && p.priority <= -1)
      || exists i | 0 <= i < |m| ::
           && m[i].decision == r.decision
           && r.reason == (if m[i].reason == "" then MatchedPolicy.Text() + m[i].id else m[i].reason)
           && (forall j | 0 <= j < |m| && m[j].decision == r.decision :: m[j].priority <= m[i].priority)
           && (forall j | 0 <= j < i && m[j].decision == r.decision :: m[j].priority < m[i].priority)
  {
    var m := MatchingPolicies(policies, event);
    BestIsLeftmostMaximum(m);
    if HasWinner(m) {
      var i :| 0 <= i < |m| && Wins(m, i) && Best(m) == VerdictOf(m[i]);
      WinnerOfEquals(m, i);
    } else {
      forall p | p in m && p.decision in {Deny, RequireApproval, Redact, Record, Allow}
        ensures p.decision == Allow && p.priority <= -1
      {
        var i :| 0 <= i < |m| && m[i] == p;
        assert !Outranks(VerdictOf(m[i]), NO_MATCH);
      }
    }
  }

  // ----- Policies in force -------------------------------------------------------------

  /** The text, or the other if it is blank; nothing if both are. */
  function Else(a: string, b: string): string {
    if Visible(a) then a else if Visible(b) then b else ""
  }

  /** A policy enters the engine with the tenant and the pack of its pack where it names none. */
  lemma ResolvedPolicy(policy: Policy, pack: PolicyPack)
    ensures Resolve(policy, pack)
      == policy.(tenantID := Else(policy.tenantID, pack.tenantID), policyPackID := Else(policy.policyPackID, pack.id))
  {
    BlankIffWhite(policy.tenantID);
    BlankIffWhite(pack.tenantID);
    BlankIffWhite(policy.policyPackID);
    BlankIffWhite(pack.id);
  }

  lemma {:induction false} ResolvedMember(policies: seq<Policy>, pack: PolicyPack, q: Policy)
    ensures q in ResolveAll(policies, pack) <==> exists p | p in policies :: q == Resolve(p, pack)
  {
    if policies != [] {
      ResolvedMember(policies[1..], pack, q);
      assert forall p :: p in policies <==> p == policies[0] || p in policies[1..];
    }
  }

  /** An enabled pack yields its policies one by one in order; a disabled one yields none. */
  lemma {:induction false} PackPoliciesInOrder(policies: seq<Policy>, pack: PolicyPack)
    ensures |ResolveAll(policies, pack)| == |policies|
    ensures forall i | 0 <= i < |policies| :: var p := policies[i];
      ResolveAll(policies, pack)[i]
        == p.(tenantID := Else(p.tenantID, pack.tenantID), policyPackID := Else(p.policyPackID, pack.id))
  {
    if policies != [] {
      PackPoliciesInOrder(policies[1..], pack);
      ResolvedPolicy(policies[0], pack);
    }
  }

  /** Packs yield their policies one pack after the other. */
  lemma PoliciesInOrder(packs: seq<PolicyPack>, pack: PolicyPack)
    ensures var before, after := PoliciesOf(packs), PoliciesOf(packs + [pack]);
      && |after| == |before| + (if pack.enabled then |pack.policies| else 0)
      && before <= after
      && (pack.enabled ==> forall i | 0 <= i < |pack.policies| :: var p := pack.policies[i];
            after[|before| + i]
              == p.(tenantID := Else(p.tenantID, pack.tenantID), policyPackID := Else(p.policyPackID, pack.id)))
  {
    FlatMapSnoc(packs, pack, PackPolicies);
    PackPoliciesInOrder(pack.policies, pack);
  }

  /** Policy `q` comes from the pack stored at `k`, which is enabled and the tenant's. */
  ghost predicate ComesFrom(q: Policy, packs: PackStore.Packs, k: string, tenantID: string) {
    && k in packs && packs[k].tenantID == tenantID && packs[k].enabled
    && exists p | p in packs[k].policies ::
         q == p.(tenantID := Else(p.tenantID, packs[k].tenantID), policyPackID := Else(p.policyPackID, packs[k].id))
  }

  lemma MembersComeFrom(q: Policy, packs: PackStore.Packs, k: string, tenantID: string)
    requires k in packs && packs[k].tenantID == tenantID && packs[k].enabled
    ensures q in PackPolicies(packs[k]) <==> ComesFrom(q, packs, k, tenantID)
  {
    ResolvedMember(packs[k].policies, packs[k], q);
    forall p ensures Resolve(p, packs[k])
      == p.(tenantID := Else(p.tenantID, packs[k].tenantID), policyPackID := Else(p.policyPackID, packs[k].id))
    {
      ResolvedPolicy(p, packs[k]);
    }
  }

  /** The policies in force for a tenant are those of its enabled packs. */
  lemma PolicyInForce(packs: PackStore.Packs, tenantID: string, keys: seq<string>, q: Policy)
    requires Enumerates(keys, packs.Keys)
    ensures q in PoliciesOf(PackStore.EnabledListing(packs, keys, tenantID)) <==>
      exists k :: ComesFrom(q, packs, k, tenantID)
  {
    var listed := PackStore.EnabledListing(packs, keys, tenantID);
    FlatMapMember(listed, PackPolicies, q);
    if pack :| pack in listed && q in PackPolicies(pack) {
      PackStore.EnabledListingMembers(packs, keys, tenantID, pack);
      var k :| k in packs && packs[k] == pack && pack.tenantID == tenantID && pack.enabled;
      MembersComeFrom(q, packs, k, tenantID);
    }
    if k :| ComesFrom(q, packs, k, tenantID) {
      PackStore.EnabledListingMembers(packs, keys, tenantID, packs[k]);
      MembersComeFrom(q, packs, k, tenantID);
    }
  }
}
