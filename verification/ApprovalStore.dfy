/** The in-memory approval store: a flat map of requests and a 64-bit counter. */
module ApprovalStore {
  import opened Domain
  import opened Sequences
  import opened Text

  type Requests = map<string, ApprovalRequest>

  const ID_PREFIX: string := "approval-"

  /** The identifier of the `n`-th request numbered by the counter. */
  function ApprovalID(n: nat): string {
    GeneratedID(ID_PREFIX, n)
  }

  datatype StoreError = Cancelled | TenantRequired | NotFound | RequestExpired | AlreadyDecided | InvalidDecision

  datatype DecisionInput = DecisionInput(status: ApprovalStatus, decidedBy: string, reason: string, now: int)

  // ----- What each operation does to the map -------------------------------------------

  function KeyOf(request: ApprovalRequest): string {
    Key(request.tenantID, request.id)
  }

  /** Fills in what `Create` supplies: an identifier, the pending status, the request time. */
  function Filled(request: ApprovalRequest, id: string, now: int): ApprovalRequest {
    request.(
      id := if request.id == "" then id else request.id,
      status := if request.status == OtherStatus("") then Pending else request.status,
      requestedAt := if request.requestedAt == 0 then now else request.requestedAt)
  }

  function Stored(requests: Requests, request: ApprovalRequest): Requests {
    requests[KeyOf(request) := request]
  }

  function Lookup(requests: Requests, tenantID: string, approvalID: string,
                  cancelled: bool): Result<ApprovalRequest, StoreError>
  {
    if cancelled then Err(Cancelled)
    else if Key(tenantID, approvalID) !in requests then Err(NotFound)
    else Ok(requests[Key(tenantID, approvalID)])
  }

  /** A decision at `now` is not after the expiry; the zero expiry never passes. */
  predicate Timely(request: ApprovalRequest, now: int) {
    request.expiresAt == 0 || now <= request.expiresAt
  }

  /** The time of a decision: the caller's, or the clock's when the caller gives none. */
  function DecisionTime(input: DecisionInput, clock: int): int {
    if input.now == 0 then clock else input.now
  }

  function Decided(request: ApprovalRequest, input: DecisionInput, clock: int): ApprovalRequest {
    request.(
      status := input.status,
      decidedAt := DecisionTime(input, clock),
      decidedBy := input.decidedBy,
      decisionReason := input.reason)
  }

  /** The error a decision meets, if any. */
  function DecideError(requests: Requests, key: string, input: DecisionInput, clock: int,
                       cancelled: bool): Option<StoreError>
  {
    if cancelled then Some(Cancelled)
    else if input.status != Approved && input.status != Rejected then Some(InvalidDecision)
    else if key !in requests then Some(NotFound)
    else if requests[key].status != Pending then Some(AlreadyDecided)
    else if !Timely(requests[key], DecisionTime(input, clock)) then Some(RequestExpired)
    else None
  }

  /** The map after a decision: one entry decided, one entry expired, or no change. */
  function AfterDecide(requests: Requests, key: string, input: DecisionInput, clock: int, cancelled: bool): Requests {
    match DecideError(requests, key, input, clock, cancelled)
    case None => requests[key := Decided(requests[key], input, clock)]
    case Some(RequestExpired) => requests[key := requests[key].(status := Expired)]
    case Some(_) => requests
  }

  // ----- Life cycle --------------------------------------------------------------------

  /** How a request may change: nothing once it has left the pending state; from pending, only the
      status and the decision fields. */
  predicate Evolves(before: ApprovalRequest, after: ApprovalRequest) {
    || after == before
    || (before.status == Pending
        && (after.status == Approved || after.status == Rejected || after.status == Expired)
        && after == before.(status := after.status, decidedAt := after.decidedAt,
                            decidedBy := after.decidedBy, decisionReason := after.decisionReason))
  }

  lemma EvolvesTransitive(a: ApprovalRequest, b: ApprovalRequest, c: ApprovalRequest)
    requires Evolves(a, b) && Evolves(b, c)
    ensures Evolves(a, c)
  {
  }

  /** A decision succeeds exactly when it approves or rejects, not after the expiry, a request still pending;
      it then records who, why and when. A pending request found past its expiry becomes expired. Any other
      failing decision changes nothing, and no other entry is ever touched. */
  lemma DecideOutcome(requests: Requests, key: string, input: DecisionInput, clock: int, cancelled: bool)
    ensures var after := AfterDecide(requests, key, input, clock, cancelled);
      var error := DecideError(requests, key, input, clock, cancelled);
      var t := if input.now != 0 then input.now else clock;
      var undecided := !cancelled && input.status in {Approved, Rejected}
        && key in requests && requests[key].status == Pending;
      && after.Keys == requests.Keys
      && (forall k | k in requests && k != key :: after[k] == requests[k])
      && (key in requests ==> Evolves(requests[key], after[key]))
      && (error == None <==> undecided && (requests[key].expiresAt == 0 || t <= requests[key].expiresAt))
      && (error == Some(RequestExpired) <==> undecided && requests[key].expiresAt != 0 && t > requests[key].expiresAt)
      && (error == None ==>
            after[key] == requests[key].(status := input.status, decidedAt := t, decidedBy := input.decidedBy,
                                         decisionReason := input.reason))
      && (error == Some(RequestExpired) ==> after[key] == requests[key].(status := Expired))
      && (error !in {None, Some(RequestExpired)} ==> after == requests)
  {
  }

  /** Why a decision fails, in the order in which the reasons are found. */
  lemma DecideFails(requests: Requests, key: string, input: DecisionInput, clock: int, cancelled: bool)
    ensures var error := DecideError(requests, key, input, clock, cancelled);
      && (cancelled ==> error == Some(Cancelled))
      && (!cancelled && input.status !in {Approved, Rejected} ==> error == Some(InvalidDecision))
      && (!cancelled && input.status in {Approved, Rejected} && key !in requests ==> error == Some(NotFound))
      && (!cancelled && input.status in {Approved, Rejected} && key in requests && requests[key].status != Pending ==>
            error == Some(AlreadyDecided))
  {
  }

  /** Once decided or expired, a request answers every further decision with an error. */
  lemma SecondDecisionFails(requests: Requests, key: string, first: DecisionInput, t1: int, second: DecisionInput,
                            t2: int)
    requires DecideError(requests, key, first, t1, false) in {None, Some(RequestExpired)}
    ensures var after := AfterDecide(requests, key, first, t1, false);
      && DecideError(after, key, second, t2, false) in {Some(AlreadyDecided), Some(InvalidDecision)}
      && AfterDecide(after, key, second, t2, false) == after
  {
  }

  // ----- The store ---------------------------------------------------------------------

  function OfTenant(requests: Requests, tenantID: string): string -> seq<ApprovalRequest> {
    k => if k in requests && requests[k].tenantID == tenantID then [requests[k]] else []
  }

  function LastOf<T>(s: seq<T>, n: nat): seq<T> {
    if |s| > n then s[|s| - n..] else s
  }

  lemma OwnRequests(requests: Requests, order: seq<string>, tenantID: string) returns (own: seq<string>)
    requires Enumerates(order, requests.Keys)
    ensures NoDuplicates(own) && forall k :: k in own <==> k in requests && requests[k].tenantID == tenantID
    ensures var all := FlatMap(order, OfTenant(requests, tenantID));
      |all| == |own| && forall i | 0 <= i < |own| :: own[i] in requests && all[i] == requests[own[i]]
  {
    var g := OfTenant(requests, tenantID);
    own := PickedInOrder(order, requests.Keys, k => k in requests && requests[k].tenantID == tenantID, g);
    forall i | 0 <= i < |own| ensures own[i] in requests && FlatMap(order, g)[i] == requests[own[i]] {
      assert own[i] in own;
    }
  }

  /** `listed` holds the requests stored at the last of the keys `own`, at most `n`. */
  predicate ListsLast(requests: Requests, own: seq<string>, n: nat, listed: seq<ApprovalRequest>) {
    && |listed| == (if |own| < n then |own| else n)
    && forall j | |own| - |listed| <= j < |own| ::
         own[j] in requests && listed[j - (|own| - |listed|)] == requests[own[j]]
  }

  lemma LastAreListed(requests: Requests, own: seq<string>, all: seq<ApprovalRequest>, n: nat)
    requires |all| == |own| && forall i | 0 <= i < |own| :: own[i] in requests && all[i] == requests[own[i]]
    ensures ListsLast(requests, own, n, LastOf(all, n))
  {
  }

  /** A listing gives each request stored for the tenant once, or the last `n` of them in the map's order. */
  lemma ListedRequests(requests: Requests, order: seq<string>, tenantID: string, n: nat) returns (own: seq<string>)
    requires Enumerates(order, requests.Keys)
    ensures NoDuplicates(own) && forall k :: k in own <==> k in requests && requests[k].tenantID == tenantID
    ensures ListsLast(requests, own, n, LastOf(FlatMap(order, OfTenant(requests, tenantID)), n))
  {
    own := OwnRequests(requests, order, tenantID);
    LastAreListed(requests, own, FlatMap(order, OfTenant(requests, tenantID)), n);
  }

  class MemoryStore {
    var requests: Requests
    var counter: uint64
    /** How many numbers the counter has handed out; the counter keeps only its last 64 bits. */
    ghost var taken: nat

    ghost predicate Valid()
      reads this
    {
      counter as int == taken % COUNTER_RANGE
    }

    constructor ()
      ensures Valid() && requests == map[] && taken == 0
    {
      requests, counter, taken := map[], 0, 0;
    }

    /** `counter.Add(1)`. */
    method NextNumber() returns (n: uint64)
      requires Valid()
      modifies this`counter, this`taken
      ensures Valid() && taken == old(taken) + 1 && n as int == taken % COUNTER_RANGE
    {
      counter := if counter == 0xFFFF_FFFF_FFFF_FFFF then 0 else counter + 1;
      taken := taken + 1;
      n := counter;
    }

    method Create(request: ApprovalRequest, now: int, cancelled: bool) returns (r: Result<ApprovalRequest, StoreError>)
      requires Valid()
      modifies this
      ensures Valid()
      ensures r.Err? <==> cancelled || request.tenantID == ""
      ensures r.Err? ==> r.error == (if cancelled then Cancelled else TenantRequired)
      ensures r.Err? ==> requests == old(requests) && taken == old(taken)
      ensures r.Ok? ==> taken == old(taken) + if request.id == "" then 1 else 0
      ensures r.Ok? ==> r.value == Filled(request, ApprovalID(taken), now) && requests == Stored(old(requests), r.value)
      ensures r.Ok? ==> requests == old(requests)[Key(request.tenantID, r.value.id) := r.value]
      ensures r.Ok? ==>
        && r.value == request.(id := r.value.id, status := r.value.status, requestedAt := r.value.requestedAt)
        && r.value.id == (if request.id != "" then request.id else "approval-" + Decimal(taken % COUNTER_RANGE))
        && r.value.status == (if request.status == OtherStatus("") then Pending else request.status)
        && r.value.requestedAt == (if request.requestedAt != 0 then request.requestedAt else now)
    {
      if cancelled {
        return Err(Cancelled);
      }
      if request.tenantID == "" {
        return Err(TenantRequired);
      }
      var filled := request;
      if filled.id == "" {
        var n := NextNumber();
        filled := filled.(id := ID_PREFIX + Decimal(n as nat));
      }
      if filled.status == OtherStatus("") {
        filled := filled.(status := Pending);
      }
      if filled.requestedAt == 0 {
        filled := filled.(requestedAt := now);
      }
      requests := requests[Key(filled.tenantID, filled.id) := filled];
      r := Ok(filled);
    }

    method Get(tenantID: string, approvalID: string, cancelled: bool) returns (r: Result<ApprovalRequest, StoreError>)
      ensures r == Lookup(requests, tenantID, approvalID, cancelled)
      ensures r.Ok? <==> !cancelled && Key(tenantID, approvalID) in requests
      ensures r.Ok? ==> r.value == requests[Key(tenantID, approvalID)]
      ensures r.Err? ==> r.error == if cancelled then Cancelled else NotFound
    {
      if cancelled {
        return Err(Cancelled);
      }
      var k := Key(tenantID, approvalID);
      if k !in requests {
        return Err(NotFound);
      }
      r := Ok(requests[k]);
    }

    /** The tenant's requests in some map order, cut to the last `limit` of them. */
    method List(tenantID: string, limit: int, cancelled: bool)
      returns (r: Result<seq<ApprovalRequest>, StoreError>, ghost order: seq<string>)
      ensures r.Err? <==> cancelled
      ensures r.Ok? ==> Enumerates(order, requests.Keys)
      ensures r.Ok? ==>
        r.value == LastOf(FlatMap(order, OfTenant(requests, tenantID)), if 0 < limit <= 1000 then limit else 100)
    {
      order := [];
      if cancelled {
        return Err(Cancelled), order;
      }
      var n := limit;
      if n <= 0 || n > 1000 {
        n := 100;
      }
      var keys := MapOrder(requests.Keys);
      order := keys;
      var result := [];
      for i := 0 to |keys|
        invariant result == FlatMap(keys[..i], OfTenant(requests, tenantID))
      {
        var k := keys[i];
        assert keys[..i + 1] == keys[..i] + [k];
        FlatMapSnoc(keys[..i], k, OfTenant(requests, tenantID));
        if requests[k].tenantID == tenantID {
          result := result + [requests[k]];
        }
      }
      assert keys[..|keys|] == keys;
      if |result| > n {
        result := result[|result| - n..];
      }
      r := Ok(result);
    }

    method Decide(tenantID: string, approvalID: string, input: DecisionInput, clock: int, cancelled: bool)
      returns (r: Result<ApprovalRequest, StoreError>)
      requires Valid()
      modifies this`requests
      ensures Valid()
      ensures var key := Key(tenantID, approvalID);
        && requests == AfterDecide(old(requests), key, input, clock, cancelled)
        && match DecideError(old(requests), key, input, clock, cancelled)
           case None => key in requests && r == Ok(requests[key])
           case Some(e) => r == Err(e)
    {
      if cancelled {
        return Err(Cancelled);
      }
      if input.status != Approved && input.status != Rejected {
        return Err(InvalidDecision);
      }
      var now := input.now;
      if now == 0 {
        now := clock;
      }
      var k := Key(tenantID, approvalID);
      if k !in requests {
        return Err(NotFound);
      }
      var request := requests[k];
      if request.status != Pending {
        return Err(AlreadyDecided);
      }
      if request.expiresAt != 0 && now > request.expiresAt {
        requests := requests[k := request.(status := Expired)];
        return Err(RequestExpired);
      }
      request := request.(status := input.status, decidedAt := now, decidedBy := input.decidedBy,
                          decisionReason := input.reason);
      requests := requests[k := request];
      r := Ok(request);
    }
  }
}
