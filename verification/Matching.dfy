/** When a policy applies to an event. */
module Matching {
  import opened Domain
  import opened Text

  /** Equal up to case and surrounding white space. */
  predicate SameText(a: string, b: string) {
    EqualFold(Trim(a), Trim(b))
  }

  predicate MatchString(allowed: seq<string>, actual: string) {
    allowed == [] || exists item | item in allowed :: SameText(item, actual)
  }

  predicate MatchAnyString(required: seq<string>, actual: seq<string>) {
    required == [] || exists want, got | want in required && got in actual :: SameText(want, got)
  }

  predicate MatchMember<T(==)>(allowed: seq<T>, actual: T) {
    allowed == [] || actual in allowed
  }

  predicate MatchResource(patterns: seq<string>, actual: string) {
    patterns == [] || exists pattern | pattern in patterns ::
      !IsBlank(pattern) && (Contains(actual, Trim(pattern)) || EqualFold(Trim(pattern), actual))
  }

  predicate MatchesTenant(policy: Policy, event: RuntimeEvent) {
    IsBlank(policy.tenantID) || SameText(policy.tenantID, event.tenantID)
  }

  predicate Matches(conditions: PolicyConditions, event: RuntimeEvent) {
    && MatchMember(conditions.eventTypes, event.eventType)
    && MatchString(conditions.toolNames, event.toolName)
    && MatchResource(conditions.resources, event.resource)
    && MatchString(conditions.actions, event.action)
    && MatchAnyString(conditions.dataLabels, event.dataLabels)
    && MatchString(conditions.agentIDs, event.agentID)
    && MatchString(conditions.userIDs, event.userID)
    && MatchMember(conditions.subjectTypes, event.subject.subjectType)
    && MatchString(conditions.subjectIDs, event.subject.id)
    && MatchAnyString(conditions.subjectRoles, event.subject.roles)
    && MatchAnyString(conditions.subjectGroups, event.subject.groups)
    && MatchString(conditions.subjectRiskLevels, event.subject.riskLevel)
  }

  predicate Applies(policy: Policy, event: RuntimeEvent) {
    policy.enabled && MatchesTenant(policy, event) && Matches(policy.conditions, event)
  }

  function FirstNonEmpty(a: string, b: string): string {
    if !IsBlank(a) then a else if !IsBlank(b) then b else ""
  }

  /** A policy as it enters the engine from its pack. */
  function Resolve(policy: Policy, pack: PolicyPack): Policy {
    policy.(
      tenantID := FirstNonEmpty(policy.tenantID, pack.tenantID),
      policyPackID := FirstNonEmpty(policy.policyPackID, pack.id))
  }

  /** Only the fields the conditions speak of matter; the time of the event does not. */
  lemma AppliesIgnoresTime(policy: Policy, event: RuntimeEvent, t: int)
    ensures Applies(policy, event.(timestamp := t)) == Applies(policy, event)
  {
  }

  // ----- Case and white space ----------------------------------------------------------

  lemma SameTextEquivalence(a: string, b: string, c: string)
    ensures SameText(a, a)
    ensures SameText(a, b) ==> SameText(b, a)
    ensures SameText(a, b) && SameText(b, c) ==> SameText(a, c)
  {
  }

  lemma MatchStringRespects(allowed: seq<string>, a: string, b: string)
    requires SameText(a, b)
    ensures MatchString(allowed, a) == MatchString(allowed, b)
  {
    forall item | item in allowed ensures SameText(item, a) <==> SameText(item, b) {
      SameTextEquivalence(item, a, b);
      SameTextEquivalence(item, b, a);
      SameTextEquivalence(a, b, a);
    }
  }

  /** Lists that agree position by position up to case and white space. */
  predicate SameTexts(a: seq<string>, b: seq<string>) {
    |a| == |b| && forall i | 0 <= i < |a| :: SameText(a[i], b[i])
  }

  lemma MatchAnyStringRespects(required: seq<string>, a: seq<string>, b: seq<string>)
    requires SameTexts(a, b)
    ensures MatchAnyString(required, a) ==> MatchAnyString(required, b)
  {
    if required != [] && MatchAnyString(required, a) {
      var want, got :| want in required && got in a && SameText(want, got);
      var i :| 0 <= i < |a| && a[i] == got;
      SameTextEquivalence(want, a[i], b[i]);
      assert b[i] in b;
    }
  }

  lemma SameTextsSymmetric(a: seq<string>, b: seq<string>)
    requires SameTexts(a, b)
    ensures SameTexts(b, a)
  {
    forall i | 0 <= i < |a| ensures SameText(b[i], a[i]) {
      SameTextEquivalence(a[i], b[i], a[i]);
    }
  }

  /** Two events that differ only in the case and surrounding white space of their names and labels. */
  predicate SameUpToCase(e: RuntimeEvent, f: RuntimeEvent) {
    && e.eventType == f.eventType && e.resource == f.resource && e.subject.subjectType == f.subject.subjectType
    && SameText(e.tenantID, f.tenantID) && SameText(e.toolName, f.toolName) && SameText(e.action, f.action)
    && SameText(e.agentID, f.agentID) && SameText(e.userID, f.userID) && SameText(e.subject.id, f.subject.id)
    && SameText(e.subject.riskLevel, f.subject.riskLevel) && SameTexts(e.dataLabels, f.dataLabels)
    && SameTexts(e.subject.roles, f.subject.roles) && SameTexts(e.subject.groups, f.subject.groups)
  }

  lemma MatchAnyStringSame(required: seq<string>, a: seq<string>, b: seq<string>)
    requires SameTexts(a, b)
    ensures MatchAnyString(required, a) == MatchAnyString(required, b)
  {
    SameTextsSymmetric(a, b);
    MatchAnyStringRespects(required, a, b);
    MatchAnyStringRespects(required, b, a);
  }

  /** Case and surrounding white space do not help an event past a policy; the resource alone is compared
      with its case. */
  lemma AppliesUpToCase(policy: Policy, e: RuntimeEvent, f: RuntimeEvent)
    requires SameUpToCase(e, f)
    ensures Applies(policy, e) == Applies(policy, f)
  {
    var c := policy.conditions;
    MatchStringRespects([policy.tenantID], e.tenantID, f.tenantID);
    assert forall t :: MatchString([policy.tenantID], t) == SameText(policy.tenantID, t) by {
      assert policy.tenantID in [policy.tenantID];
    }
    MatchStringRespects(c.toolNames, e.toolName, f.toolName);
    MatchStringRespects(c.actions, e.action, f.action);
    MatchStringRespects(c.agentIDs, e.agentID, f.agentID);
    MatchStringRespects(c.userIDs, e.userID, f.userID);
    MatchStringRespects(c.subjectIDs, e.subject.id, f.subject.id);
    MatchStringRespects(c.subjectRiskLevels, e.subject.riskLevel, f.subject.riskLevel);
    MatchAnyStringSame(c.dataLabels, e.dataLabels, f.dataLabels);
    MatchAnyStringSame(c.subjectRoles, e.subject.roles, f.subject.roles);
    MatchAnyStringSame(c.subjectGroups, e.subject.groups, f.subject.groups);
  }
}
