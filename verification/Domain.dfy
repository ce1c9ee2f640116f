/** The data types shared by the stores, the policy engine and the runtime service. */
module Domain {
  import opened Text

  datatype Option<+T> = None | Some(value: T)

  datatype Result<+T, +E> = Ok(value: T) | Err(error: E)

  /** The fixed texts of the service. */
  datatype Phrase =
    | RuntimeEventV1
    | PolicySimulationV1
    | NoPolicyMatched
    | MatchedPolicy
    | StoreNotConfigured
    | RequestNotFound
    | StatusIs
    | RequestMismatch
    | RequestMatched
  {
    function Text(): string {
      match this
      case RuntimeEventV1 => "runtime_event.v1"
      case PolicySimulationV1 => "policy_simulation.v1"
      case NoPolicyMatched => "no policy matched"
      case MatchedPolicy => "matched policy "
      case StoreNotConfigured => "approval store is not configured"
      case RequestNotFound => "approval request not found"
      case StatusIs => "approval status is "
      case RequestMismatch => "approval request does not match runtime event"
      case RequestMatched => "approved request matched runtime event"
    }
  }

  datatype EventType = Prompt | ToolCall | FileAccess | NetworkAccess | Response | Approval
    | OtherEventType(name: string)
  {
    predicate Valid() {
      !OtherEventType?
    }
  }

  datatype Decision = Allow | Record | Redact | RequireApproval | Deny | OtherDecision(name: string)
  {
    /** The rank by which decisions are compared; a decision the system does not know ranks lowest. */
    function Priority(): int {
      match this
      case Deny => 500
      case RequireApproval => 400
      case Redact => 300
      case Record => 200
      case Allow => 100
      case OtherDecision(_) => 0
    }

    /** The client's test for going on at once. */
    predicate Proceeds() {
      Allow? || Record?
    }
  }

  datatype Subject = Subject(subjectType: string, id: string, roles: seq<string>, groups: seq<string>,
                             riskLevel: string)

  /** Times are integers; 0 stands for the zero time. */
  datatype RuntimeEvent = RuntimeEvent(
    schemaVersion: string,
    id: string,
    timestamp: int,
    tenantID: string,
    agentID: string,
    userID: string,
    taskID: string,
    eventType: EventType,
    subject: Subject,
    approvalID: string,
    toolName: string,
    resource: string,
    action: string,
    input: string,
    output: string,
    dataLabels: seq<string>,
    intent: string)
  {
    /** Whether validation finds no field error. */
    predicate Valid() {
      && (IsBlank(schemaVersion) || schemaVersion == RuntimeEventV1.Text())
      && !IsBlank(tenantID) && !IsBlank(agentID) && !IsBlank(userID) && !IsBlank(taskID)
      && eventType.Valid() && !IsBlank(action)
    }

    /** Fills in the schema version of a valid event and refuses any other. */
    function Normalize(): Option<RuntimeEvent> {
      var e := if IsBlank(schemaVersion) then this.(schemaVersion := RuntimeEventV1.Text()) else this;
      if e.Valid() then Some(e) else None
    }
  }

  /** A normalised event is valid and normalising it again changes nothing. */
  lemma NormalizeIsStable(e: RuntimeEvent)
    requires e.Normalize().Some?
    ensures var n := e.Normalize().value;
      n.Valid() && n.Normalize() == Some(n) && n == e.(schemaVersion := RuntimeEventV1.Text())
  {
    var v := RuntimeEventV1.Text();
    assert IsTrimmed(v) && v != "";
    TrimOfTrimmed(v);
  }

  /** The events the platform accepts: of the one schema version or none, with something other than white
      space in the five required fields, and of one of the six types. */
  predicate Acceptable(e: RuntimeEvent) {
    && (AllWhite(e.schemaVersion) || e.schemaVersion == RuntimeEventV1.Text())
    && Visible(e.tenantID) && Visible(e.agentID) && Visible(e.userID) && Visible(e.taskID) && Visible(e.action)
    && e.eventType in {Prompt, ToolCall, FileAccess, NetworkAccess, Response, Approval}
  }

  /** Exactly those normalise, and only the schema version is filled in. */
  lemma NormalizesIff(e: RuntimeEvent)
    ensures e.Normalize() == if Acceptable(e) then Some(e.(schemaVersion := RuntimeEventV1.Text())) else None
  {
    BlankIffWhite(e.schemaVersion);
    BlankIffWhite(e.tenantID);
    BlankIffWhite(e.agentID);
    BlankIffWhite(e.userID);
    BlankIffWhite(e.taskID);
    BlankIffWhite(e.action);
    if e.Normalize().Some? {
      NormalizeIsStable(e);
    }
  }

  /** The texts that clients and auditors meet. */
  lemma TextsAsWritten()
    ensures RuntimeEventV1.Text() == "runtime_event.v1" && PolicySimulationV1.Text() == "policy_simulation.v1"
    ensures NoPolicyMatched.Text() == "no policy matched" && MatchedPolicy.Text() == "matched policy "
    ensures StoreNotConfigured.Text() == "approval store is not configured"
    ensures RequestNotFound.Text() == "approval request not found" && StatusIs.Text() == "approval status is "
    ensures RequestMismatch.Text() == "approval request does not match runtime event"
    ensures RequestMatched.Text() == "approved request matched runtime event"
  {
  }

  datatype PolicyConditions = PolicyConditions(
    eventTypes: seq<EventType>,
    toolNames: seq<string>,
    resources: seq<string>,
    actions: seq<string>,
    dataLabels: seq<string>,
    agentIDs: seq<string>,
    userIDs: seq<string>,
    subjectTypes: seq<string>,
    subjectIDs: seq<string>,
    subjectRoles: seq<string>,
    subjectGroups: seq<string>,
    subjectRiskLevels: seq<string>)

  datatype Policy = Policy(
    id: string,
    tenantID: string,
    policyPackID: string,
    name: string,
    enabled: bool,
    priority: int,
    conditions: PolicyConditions,
    decision: Decision,
    reason: string)

  datatype PolicyPack = PolicyPack(
    id: string,
    tenantID: string,
    name: string,
    version: string,
    enabled: bool,
    policies: seq<Policy>)

  datatype EvaluationResult = EvaluationResult(
    decision: Decision,
    reason: string,
    matchedPolicyIDs: seq<string>,
    auditID: string,
    approvalID: string)

  datatype ApprovalStatus = Pending | Approved | Rejected | Expired | OtherStatus(name: string)
  {
    function Name(): string {
      match this
      case Pending => "pending"
      case Approved => "approved"
      case Rejected => "rejected"
      case Expired => "expired"
      case OtherStatus(name) => name
    }
  }

  lemma StatusesAsWritten()
    ensures Pending.Name() == "pending" && Approved.Name() == "approved"
    ensures Rejected.Name() == "rejected" && Expired.Name() == "expired"
    ensures forall name :: OtherStatus(name).Name() == name
  {
  }

  datatype ApprovalRequest = ApprovalRequest(
    id: string,
    tenantID: string,
    status: ApprovalStatus,
    event: RuntimeEvent,
    result: EvaluationResult,
    reason: string,
    requestedAt: int,
    expiresAt: int,
    decidedAt: int,
    decidedBy: string,
    decisionReason: string)

  datatype AuditRecord = AuditRecord(id: string, recordedAt: int, event: RuntimeEvent, result: EvaluationResult)

  // ----- Counters ----------------------------------------------------------------------

  /** The number of values of the stores' 64-bit counters. */
  const COUNTER_RANGE: nat := 0x1_0000_0000_0000_0000

  newtype uint64 = n: int | 0 <= n < 0x1_0000_0000_0000_0000

  /** The identifier made from the `n`-th number a counter hands out, counting from 1. */
  function GeneratedID(prefix: string, n: nat): string {
    prefix + Decimal(n % COUNTER_RANGE)
  }

  /** Generated identifiers repeat exactly when the counter has gone round. */
  lemma GeneratedIDCollision(prefix: string, m: nat, n: nat)
    ensures GeneratedID(prefix, m) == GeneratedID(prefix, n) <==> m % COUNTER_RANGE == n % COUNTER_RANGE
  {
    var a, b := Decimal(m % COUNTER_RANGE), Decimal(n % COUNTER_RANGE);
    assert (prefix + a)[|prefix|..] == a && (prefix + b)[|prefix|..] == b;
    DecimalInjective(m % COUNTER_RANGE, n % COUNTER_RANGE);
  }

  /** Until then they are all different. */
  lemma GeneratedIDInjective(prefix: string, m: nat, n: nat)
    requires 1 <= m <= COUNTER_RANGE && 1 <= n <= COUNTER_RANGE
    ensures GeneratedID(prefix, m) == GeneratedID(prefix, n) <==> m == n
  {
    GeneratedIDCollision(prefix, m, n);
  }
}
