# Agent Security Platform: verified model of the runtime guard

A Dafny 4.11 model of the part of the platform that decides whether an agent may act, and of the stores
it decides over. `dafny verify dfyconfig.toml` checks everything.

The platform's promise is a protocol. An agent submits an event; the service judges it by the tenant's
policy packs; if approval is demanded, a request is stored and somebody decides it; the agent resubmits
the event naming the request; the client library runs the protected action only when an evaluation lets
it. The model has this protocol twice:

- `Protocol.dfy` is the protocol as small steps over shared state. Any number of evaluations are in flight;
  every access to shared memory is one step, so taking a number from an atomic counter and inserting under
  the lock are two. Clock readings, map iteration order, cancellation and everything the tenants do are
  chosen freely. A *behaviour* is a sequence of states and the steps between them, and the results are
  about every behaviour, by tracing answers, records and requests back through its steps.
- `ApprovalStore`, `AuditStore`, `PackStore`, `Service` and `Enforcer` are the program: classes with the
  source's fields, methods and loops. Each store method is proved to do what the step functions say, and
  `Service.Evaluate` to do exactly the steps of one protocol call. `Serve` runs any list of calls against a
  service and stays on a behaviour, so what holds of behaviours holds of a service that answers one call
  after another. `Enforcer.Execute` runs against a platform on which everybody else moves, by an arbitrary
  script, at every point where the source could be interrupted.

| file | content |
|---|---|
| `Text`, `Sequences`, `Sorting` | trimming, folding, splitting, decimal numbers, NUL-joined keys; permutations; stable sorting |
| `Domain`, `Matching`, `Labels` | data types, when a policy applies, what an approval binds |
| `Policies` | what policies say, field by field, and which are in force |
| `Engine`, `Simulation` | the decision over all matching policies; the dry run |
| `ApprovalStore`, `PackStore`, `AuditStore`, `Paging` | the in-memory stores, the audit query and its `has_more` |
| `PackIsolation` | callers of the pack store see it as if packs were passed by value |
| `Protocol`, `Service`, `Enforcer` | the protocol, the service that performs it, the client that relies on it |
| `Provenance`, `Lifecycle`, `Wraparound`, `Tenancy`, `Accounting` | results about all behaviours |
| `ApiKeys` | the API-key configuration |

Main results:

1. **Provenance.** Every audit record that allows an event under an approval identifier is backed by a
   request with that identifier and tenant, created by an evaluation that demanded approval, bound to the
   same nine fields, approved by a decision not after its expiry. Nothing is assumed about tenants,
   identifiers or counter wrap-around (`Provenance.ApprovedAllowProvenance`).
2. **Enforcement.** Whatever the waiter answers and whatever others do meanwhile, `Execute` runs the action
   exactly when the first evaluation, or the one after an approval, lets it: once, and only after a record for
   this event with decision allow or record was written during the call, the event having been read in a state
   where no policy in force objected or an approved request bound it, with its creation and timely approval
   before that (`Enforcement.Enforcer.Execute`).
3. **Resubmission progress** and the **approval life cycle** (`Lifecycle`, `Wraparound`), **tenant non-interference**
   (`Tenancy`), **conservation** of records and requests (`Accounting`).
4. **The decision** is the leftmost lexicographic maximum of (decision rank, policy priority), independent of
   order, monotone in the packs, and the same in the simulator as live (`PolicyEngine`, `Simulation`).
5. **Paging** is exact, and **API-key configurations** survive a round trip.

Some properties hold under a condition, which is stated exactly:

- Requests only evolve, one decision each succeeds, and an approved one carries its resubmission, until another
  request is inserted at the same key (`Lifecycle`). A step breaks a request's life cycle exactly when it inserts
  a different one there (`Wraparound.EvolvesUnlessReplaced`), and an insertion meets an occupied key exactly when
  an earlier one for the same tenant had another number equal to its own modulo 2^64 (`Wraparound.OccupiedIff`);
  `Wraparound.WrapForgets` is a behaviour in which that happens. While at most 2^64 requests have been numbered
  it does not. Audit identifiers repeat under the same condition (`Accounting.AuditIDsRepeat`).
- Flat keys separate tenants when tenant names contain no NUL. Two pairs share a key exactly when one tenant
  is the other followed by NUL and the head of the other identifier (`Text.KeyCollision`). An upsert, a
  switch or a decision reaches into another tenant exactly when identifiers collide like that and the call has
  an effect (`Tenancy.UpsertInterferesIff`, `SetEnabledInterferesIff`, `DecideInterferesIff`); so a decision for
  tenant "a" can approve a request of the tenant "a", NUL, "b" (`Tenancy.DecideAcrossTenantsExample`). The
  requests of a tenant whose own name has no NUL are safe from everybody (`Tenancy.ApprovalsAreOwn`).
- `has_more` is right exactly when `offset + limit` fits a 64-bit integer or nothing matches
  (`Paging.HasMoreIsExact`, with an overflowing query in `Paging.HasMoreOverflowExample`).
- The reason text of a decision is independent of policy order exactly when all policies attaining the winning
  rank and priority give the same reason (`PolicyEngine.ReasonOrderIndependence`).

Where documentation and code differ, the code is followed: an approved request is neither single-use nor
checked for expiry when used, and it is honoured before any policy is read, so a deny policy added after the
approval does not override it.

Modelling conventions: times are integers, 0 being the zero time; a cancelled context is a flag on each store
call; a map iteration yields its keys in an arbitrary order; decisions, event types and statuses are datatypes
with a constructor for unknown names; a clock reading, a failing call and the choice of the next mover are
arbitrary.

## Model

| member | source | states |
|---|---|---|
| Text.KeyCollision | internal/approval/store.go:140-142 | two (tenant, id) pairs share a flat key exactly when they are equal or one tenant extends the other by NUL and a moved piece of the id |
| Text.KeyInjectiveTenants | internal/policypack/store.go:113-115 | keys of NUL-free tenants determine tenant and id, whatever the ids contain |
| Text.KeyInjectiveIds | internal/approval/store.go:56-67 | keys with NUL-free ids determine tenant and id, whatever the tenants contain |
| Text.KeyAmbiguousExample | internal/policypack/store.go:113-115 | with NUL in a tenant name two different pairs share a key |
| Text.DecimalInjective | internal/approval/store.go:56-58 | different numbers have different decimal renderings |
| Text.SplitJoin | internal/auth/apikey.go:47-50 | splitting undoes joining when no piece contains the separator |
| Text.JoinSplit | internal/auth/apikey.go:47-50 | the pieces of a split hold no separator and joined give the text back |
| Text.TrimParts | internal/policy/engine.go:101-101 | every text is its trimmed form between white space, and the trimmed form neither begins nor ends with any |
| Text.BlankIffWhite | internal/domain/model.go:84-105 | a text is blank exactly when all its characters are white space, by code point |
| Text.EqualFoldIff | internal/policy/engine.go:101-101 | two texts are equal up to case exactly when, character by character, they are the same or the two cases of one letter |
| Text.ContainsIff | internal/policy/engine.go:118-118 | containment means that the text stands somewhere within |
| Text.PiecesUpToSpace | internal/auth/apikey.go:100-109 | splitting a trimmed text gives the pieces written, white space around each aside |
| Text.DecimalIsDecimal | internal/audit/store.go:65-65 | the rendering is made of digits without a leading zero and stands for the number |
| Domain.NormalizeIsStable | internal/domain/model.go:69-109 | a normalised event is valid and normalising again changes nothing |
| Domain.NormalizesIff | internal/domain/model.go:69-112 | exactly the events with a known or no schema version, something visible in five fields, and one of six types normalise, only the version being filled in |
| Domain.TextsAsWritten | internal/runtime/service.go:108-141 | the fixed texts, letter by letter |
| Domain.GeneratedIDCollision | internal/approval/store.go:56-58 | generated ids are equal exactly when their numbers agree modulo 2^64 |
| Sorting.SortIsStable | internal/audit/store.go:90-92 | sorting gives a sorted sequence in which equivalent elements keep their order |
| Sorting.SortedStableUnique | internal/audit/store.go:90-92 | order and stability leave only one result |
| Sorting.StableSort | internal/audit/store.go:90-92 | the in-place sort leaves the array in that one order |
| Labels.SameLabelsIffMultisets | internal/runtime/service.go:155-161 | comparing sorted copies is multiset equality, not set equality |
| Labels.SameStringSet | internal/runtime/service.go:155-161 | the method on sorted copies answers multiset equality |
| Labels.AgreesIffSameBinding | internal/runtime/service.go:143-153 | agreement on the nine fields is equality of one value, hence an equivalence blind to label order and to all other fields |
| Labels.BindingFields | internal/runtime/service.go:143-161 | two events are bound alike exactly when eight fields are equal and every label occurs equally often |
| Labels.ApprovalEventMatches | internal/runtime/service.go:143-153 | the method decides that agreement |
| Matching.AppliesUpToCase | internal/policy/engine.go:57-139 | whether a policy applies does not depend on the case or surrounding white space of names and labels |
| PolicyMeaning.SameTextIff | internal/policy/engine.go:96-106 | names match exactly when what stands between their outer white space is letter by letter the same up to case |
| PolicyMeaning.OnlyListedFieldsCount | internal/policy/engine.go:71-84 | a policy looks only at the event fields for which it lists something |
| PolicyMeaning.NamedEventIsHit | internal/policy/engine.go:57-139 | an enabled policy for the tenant, each of whose non-empty lists names the event's own value of that field, applies |
| PolicyMeaning.UnnamedEventIsMissed | internal/policy/engine.go:57-139 | a policy that is disabled, for another tenant, or with a list that does not name the event's own value does not apply |
| PolicyMeaning.DenialIsFinal | internal/policy/engine.go:34-55 | an applicable denial decides, whatever else there is |
| PolicyMeaning.MissedPolicyIsIgnored | internal/policy/engine.go:39-42 | removing a policy that does not apply leaves the whole result as it is |
| PolicyMeaning.ReasonIsTheEarliestOfHighestPriority | internal/policy/engine.go:44-69 | the reason is that of the earliest of the highest-priority policies making the decision, or names it when empty |
| PolicyMeaning.ResolvedPolicy | internal/policy/engine.go:24-28 | a policy enters the engine with the tenant and pack of its pack where its own are blank |
| PolicyMeaning.PoliciesInOrder | internal/policy/engine.go:19-32 | the engine's policies are those of the enabled packs, one by one, in order |
| PolicyMeaning.PolicyInForce | internal/policypack/store.go:83-95 | the policies in force for a tenant are exactly the resolved ones of its enabled packs |
| PolicyEngine.NewEngineFromPacks | internal/policy/engine.go:19-32 | the engine holds the policies of the enabled packs in order, tenant and pack id filled from the pack |
| PolicyEngine.Engine.Evaluate | internal/policy/engine.go:34-55 | the loop computes the fold the following results are about |
| PolicyEngine.MatchedAreApplicable | internal/policy/engine.go:40-44 | the matched ids are those of exactly the applicable policies, in order |
| PolicyEngine.JudgeIsLeftmostMaximum | internal/policy/engine.go:34-69 | decision and reason are those of the leftmost maximum of (rank, priority) above (allow, -1), else the default; unknown decisions never win |
| PolicyEngine.WinnerExists | internal/policy/engine.go:35-53 | some policy wins exactly when one that matches decides above allow, or allows with a priority above -1; else the default stands even when policies matched |
| PolicyEngine.StrictestDecisionWins | internal/domain/model.go:32-47 | the decision is the strictest one any applicable policy makes, in the order deny, require approval, redact, record, allow, and allow by default |
| PolicyEngine.BestIsMaximal | internal/policy/engine.go:64-69 | no matching policy and not the default outranks the verdict |
| PolicyEngine.JudgeOfUnion | internal/policy/engine.go:19-55 | judging a union of packs merges the judgements of the parts |
| PolicyEngine.RankMonotone | internal/policy/engine.go:34-69 | more matching policies never lower the decision rank |
| PolicyEngine.OrderIndependence | internal/policy/engine.go:34-55 | permuting policies keeps the decision and the multiset of matched ids |
| PolicyEngine.PackOrderIndependence | internal/policy/engine.go:19-32 | so does permuting packs |
| PolicyEngine.ReasonOrderIndependence | internal/policy/engine.go:44-52 | the reason is the same in every order exactly when all policies attaining the winning pair give that reason |
| Simulation.DryRunAgreesWithJudgement | internal/policy/simulation.go:17-27 | where the tenant's packs are what upserting candidate packs with distinct ids into an empty store leaves, the live judgement has the simulator's decision and matched policies, in whatever order the map is walked |
| Simulation.DryRunAgreesWithLive | internal/policy/simulation.go:17-27 | so an evaluation that ran while they were returns the simulator's decision and matched policies, whatever other steps were taken |
| Simulation.StoredPackPolicies | internal/policypack/store.go:41-48 | the defaults filled in by an upsert are absorbed when the engine is built |
| Simulation.SimulatesIff | internal/policy/simulation.go:17-27 | the simulator refuses exactly the unacceptable events and otherwise judges the event by the candidate packs |
| Simulation.LastUpsertStands | internal/policypack/store.go:31-53 | after any upserts into any store, ids repeated or not, the last accepted one for a key is stored there, its fields as given |
| Simulation.UpsertPutsInForce | internal/policypack/store.go:31-53 | after an upsert the policies in force from its key are its own, whatever was there before, and all others are unchanged |
| Simulation.EnablingRestricts | internal/policypack/store.go:97-111 | enabling a pack never lowers the rank of any decision, disabling never raises it |
| Simulation.DisabledContributesNothing | internal/policy/engine.go:21-24 | disabled packs do not influence the result |
| ApprovalStore.MemoryStore.Create | internal/approval/store.go:49-69 | fails exactly on a cancelled context or an empty tenant; otherwise numbers, completes and stores the request |
| ApprovalStore.MemoryStore.Get | internal/approval/store.go:71-82 | returns the entry under the key, or the error that applies |
| ApprovalStore.MemoryStore.List | internal/approval/store.go:84-104 | the tenant's requests in one map order, cut to the last limit of them, the limit defaulting outside 1 to 1000 |
| ApprovalStore.MemoryStore.Decide | internal/approval/store.go:106-138 | the new map and the answer, for every input |
| ApprovalStore.DecideOutcome | internal/approval/store.go:106-138 | with t the caller's time or else the clock's: a decision on a pending request succeeds exactly when it has no expiry or t is not after it, and then records who, why and when; it expires the request exactly when t is after the expiry; any other decision changes nothing |
| ApprovalStore.DecideFails | internal/approval/store.go:106-126 | the error in every other case, in the order of the checks |
| ApprovalStore.ListedRequests | internal/approval/store.go:84-104 | a listing gives each request stored for the tenant once, or the last of them up to the limit |
| ApprovalStore.SecondDecisionFails | internal/approval/store.go:124-126 | after a decision or an expiry every further decision fails and changes nothing |
| PackStore.MemoryStore.Upsert | internal/policypack/store.go:31-53 | errors, the new contents with defaults filled in, and the one effect on the caller's slice |
| PackStore.MemoryStore.Get | internal/policypack/store.go:55-66 | the stored pack in a fresh slice, or the error that applies |
| PackStore.MemoryStore.List | internal/policypack/store.go:68-81 | the tenant's packs in one map order, each in a fresh slice |
| PackStore.MemoryStore.ListEnabled | internal/policypack/store.go:83-95 | the enabled ones among them |
| PackStore.MemoryStore.SetEnabled | internal/policypack/store.go:97-111 | only the enabled flag of the named pack changes |
| PackStore.UpsertStores | internal/policypack/store.go:31-53 | whatever was stored before, an accepted upsert stores that pack with every field as given and empty policy fields filled, and touches no other key; a refused one changes nothing |
| PackStore.SetEnabledSwitches | internal/policypack/store.go:97-111 | a switch sets the flag of the named pack and changes nothing else |
| PackStore.ListedPacks | internal/policypack/store.go:68-95 | listings give each pack of the tenant, or each enabled one, once |
| PackStore.EnabledListingMembers | internal/policypack/store.go:83-95 | an enabled listing holds exactly the tenant's enabled packs |
| PackStore.ListingFromView | internal/policypack/store.go:68-95 | up to order, a tenant's listing depends on that tenant's packs alone |
| PackIsolation.Caller.Run | internal/policypack/store.go:31-120 | a caller that makes slices, upserts them, keeps every slice Get, List and ListEnabled return, switches packs and writes into any slice, in any order, leaves store and slices as if all packs were passed by value |
| PackIsolation.StoredPackStays | internal/policypack/store.go:31-111 | through any such script a stored pack stays as it was put, unless that very pack is upserted or switched |
| PackIsolation.SliceStays | internal/policypack/store.go:55-95 | and a slice the caller holds changes only by the caller writing into it or upserting it |
| AuditStore.MemoryStore.Append | internal/audit/store.go:60-74 | fails exactly on a cancelled context; otherwise adds one completed record at the end |
| AuditStore.MemoryStore.SelectNewest | internal/audit/store.go:84-92 | the loop and the in-place sort give the matching records newest first |
| AuditStore.MemoryStore.List | internal/audit/store.go:77-102 | exactly the requested window of that order |
| Paging.OrderedIsTheOnlyOrder | internal/audit/store.go:84-92 | the answer is sorted, stable and a permutation of the matching records, and the only such sequence |
| Paging.AnsweredIff | internal/audit/store.go:104-125 | a query answers with exactly the records in the log that pass every filter that is set |
| Paging.PageWindow | internal/audit/store.go:34-45 | the page is the window of at most limit records from the offset, the limit defaulting to 100, capped at 1000, the offset at least 0 |
| Paging.PagesTile | internal/audit/store.go:93-101 | the first n pages joined are the first n * limit records of the answer |
| Paging.FollowingIsComplete | internal/transport/httpapi/handler.go:137-158 | a client that stops at the first false `has_more` holds every matching record once, newest first |
| Paging.FollowingEnds | internal/transport/httpapi/handler.go:137-158 | such a page exists |
| Paging.MoreMeansNextPage | internal/transport/httpapi/handler.go:144-147 | while `has_more` is true the page is full and the next one is not empty |
| Paging.HasMoreIsExact | internal/transport/httpapi/handler.go:144-157 | `has_more` means that matching records remain, exactly when offset + limit does not overflow or nothing matches |
| Paging.HasMoreOverflowExample | internal/transport/httpapi/handler.go:144-147 | a query whose offset + limit overflows claims more records after an empty page |
| Paging.LastPageStaysLast | internal/transport/httpapi/handler.go:138-157 | with appends between the two reads, a false `has_more` still means the page was last when it was read |
| Paging.ListAuditEvents | internal/transport/httpapi/handler.go:122-160 | the page is read from the first state of the log, the probe from the second |
| Protocol.ApprovalAnswers | internal/runtime/service.go:108-141 | the answer to an event naming an approval in every case: allow exactly for an approved request of that tenant binding the same nine fields, otherwise deny with the right reason and id |
| Protocol.Grows | internal/audit/store.go:70-73 | over any behaviour, log, counters and keys only grow and finished calls stay finished |
| Protocol.StartedIff | internal/runtime/service.go:52-59 | a call is read exactly when its event is acceptable, with the version and a missing time filled in; any other ends as invalid |
| Provenance.RequestOrigin | internal/approval/store.go:49-69 | a stored request was created pending by an earlier insertion and has only evolved since |
| Provenance.ApprovalOrigin | internal/approval/store.go:124-137 | an approved request was created pending and approved by a later decision not after its expiry |
| Provenance.CreatedRequestIsDue | internal/runtime/service.go:76-87 | a created request carries the judged event and reason and expires one positive time to live after the reading |
| Provenance.CallOrigin | internal/runtime/service.go:60-94 | what a call in flight answers was read at one earlier step of that call, with the id of the request it created added where approval is demanded |
| Provenance.ReturnedJudgement | internal/runtime/service.go:51-106 | a returned result has the decision, reason and matched ids of a judgement made at one step of that call after it was begun |
| Provenance.FailureOrigin | internal/runtime/service.go:51-106 | a failed call was begun on an unacceptable event or met a cancelled store call of the kind its error names |
| Provenance.UncancelledCallReturns | internal/runtime/service.go:51-106 | a call none of whose store calls is cancelled ends with a result exactly when its event is acceptable, and otherwise as invalid |
| Provenance.RecordOrigin | internal/audit/store.go:70-73 | every record in the log was appended by one step of a call |
| Provenance.ApprovedAllowProvenance | internal/runtime/service.go:108-153 | every record allowing an event under an approval id is backed by a created, bound and timely approved request, all before it was written |
| Lifecycle.GeneratedKeysDiffer | internal/approval/store.go:56-67 | generated keys never collide for any tenants while the counter has not gone round |
| Lifecycle.DistinctHolds | internal/approval/store.go:56-67 | numbers in flight are distinct and unused in every reachable state, although numbering and inserting are separate steps |
| Lifecycle.RequestsEvolve | internal/approval/store.go:124-137 | until another request is inserted at its key, a request never disappears, its event, result and times never change, and once decided or expired it never changes at all |
| Lifecycle.RequestsEvolveBeforeWrap | internal/approval/store.go:56-68 | while the counter has not gone round, none is |
| Lifecycle.OneDecisionPerInsertion | internal/approval/store.go:124-137 | between two decisions that succeed at one key another request has been inserted there |
| Lifecycle.OneDecisionSucceeds | internal/approval/store.go:124-137 | so while the counter has not gone round at most one decision per request ever succeeds |
| Lifecycle.DemandLeavesRequest | internal/runtime/service.go:76-92 | an evaluation that returned a demand with an id had inserted a request with that id, which stays there bound to the submitted event until another is inserted at its key |
| Lifecycle.ApprovedResubmission | internal/runtime/service.go:60-63 | if no other request is inserted in its place and the first decision after its insertion approves it in time - possibly before the demanding evaluation has returned - then after any steps of anyone the resubmitted event, without store failure, is allowed under that id |
| Lifecycle.ApprovedResubmissionBeforeWrap | internal/runtime/service.go:60-63 | while the counter has not gone round it is enough that this is the first decision to reach a request with that id; earlier ones that found none do not matter |
| Wraparound.EvolvesUnlessReplaced | internal/approval/store.go:65-68 | a step keeps and evolves every stored request exactly when it does not insert a different request at an occupied key |
| Wraparound.OccupiedIff | internal/approval/store.go:56-68 | an insertion finds its key occupied exactly when an earlier insertion for the same tenant had another number that agrees with it modulo 2^64 |
| Wraparound.WrapForgets | internal/approval/store.go:56-68 | a behaviour from the initial state in which an approved request becomes pending again |
| Tenancy.PairsLookup | internal/approval/store.go:71-82 | for NUL-free tenants looking up the flat key is looking up the pair |
| Tenancy.PairsUpdate | internal/policypack/store.go:51-51 | for NUL-free tenants storing at the flat key is storing at the pair |
| Tenancy.DecideOnPairs | internal/approval/store.go:118-137 | a decision through the flat map is a decision on the two-level map |
| Tenancy.NonInterference | internal/policypack/store.go:68-111 | with NUL-free tenant names, while only other tenants take steps a tenant's packs, requests, records and evaluations in flight stay as they are |
| Tenancy.TenantsDecideAlone | internal/runtime/service.go:60-75 | while nobody but other tenants changes packs (or requests, for an event naming an approval) the judgement of an event keeps its decision and matched policies |
| Tenancy.TenantsEvaluateAlone | internal/runtime/service.go:51-106 | hence two evaluations of one event that both return have returned the same decision from the same matched policies |
| Tenancy.TenantsQueryAlone | internal/audit/store.go:77-108 | while only other tenants take steps a tenant's audit queries get the same page |
| Tenancy.UpsertInterferesIff | internal/policypack/store.go:51-51 | with NUL allowed, an upsert removes another tenant's pack exactly when their ids collide |
| Tenancy.SetEnabledInterferesIff | internal/policypack/store.go:97-111 | a switch changes another tenant's packs exactly when it is not cancelled and a stored pack whose id collides stands the other way |
| Tenancy.DecideInterferesIff | internal/approval/store.go:118-137 | a decision changes another tenant's requests exactly when it succeeds or finds the request expired and a stored request's id collides |
| Tenancy.DecideAcrossTenantsExample | internal/approval/store.go:118-137 | a decision for tenant a approves the request approval-1 of the tenant a, NUL, b |
| Tenancy.ApprovalsAreOwn | internal/approval/store.go:49-138 | a NUL-free tenant's requests stay as they are through any steps of other tenants, whatever those are called |
| Accounting.OneRecordPerSuccess | internal/runtime/service.go:96-106 | a successful evaluation wrote exactly one record, with the returned result; a failed one wrote none |
| Accounting.AuditIDIsOwn | internal/audit/store.go:63-73 | while the counter has not gone round, the record with the returned audit id is the one that call wrote, and no other |
| Accounting.AuditIDsRepeat | internal/audit/store.go:63-73 | two records share an id exactly when the numbers they were given, which differ, agree modulo 2^64 |
| Accounting.RequestsBalance | internal/runtime/service.go:76-106 | requests created equal demands recorded plus evaluations that failed only at the log plus those about to record |
| Accounting.CreatedAreStored | internal/approval/store.go:65-68 | stored requests plus insertions at occupied keys are the requests created |
| Accounting.NoneOverwritten | internal/approval/store.go:56-68 | while the counter has not gone round there are no such insertions |
| RuntimeService.Service.EvaluateApproval | internal/runtime/service.go:108-141 | the method gives the answer of `Protocol.ApprovalAnswers` |
| RuntimeService.Service.AppendAudit | internal/runtime/service.go:96-106 | the method takes the two logging steps of the protocol |
| RuntimeService.Service.Evaluate | internal/runtime/service.go:51-94 | the method does exactly the steps of one protocol call and returns its outcome: invalid exactly for an unacceptable event, a result whenever the event is acceptable and no store call is cancelled |
| RuntimeService.RefusedAlone | internal/runtime/service.go:51-68 | refused events and unlistable packs leave the stores as they are |
| RuntimeService.AnsweredAlone | internal/runtime/service.go:60-106 | without a request to make, an evaluation answers with its judgement and appends exactly that record, or fails at the log |
| RuntimeService.DemandedAlone | internal/runtime/service.go:76-106 | with one to make, it stores one pending request due a time to live after the reading, answers with its id and records the answer; if the store refuses it records nothing |
| RuntimeService.AloneIsABehavior | internal/runtime/service.go:51-94 | an evaluation on its own continues any behaviour, so results about behaviours apply to the service |
| RuntimeService.Serve | internal/runtime/service.go:51-94 | any list of evaluations, decisions, upserts and switches served on the heap is a behaviour; the stores end where it ends and every answer is the outcome of its call |
| Enforcement.JudgedToProceed | internal/policy/engine.go:34-69 | the engine lets an event proceed exactly when no applicable policy asks for redaction, approval or denial |
| Enforcement.ProceedingIsPermitted | internal/runtime/service.go:60-75 | a judgement lets an event proceed exactly when no policy in force objects or, where it names an approval, an approved request binds it and the reading is not cancelled |
| Enforcement.ReturnIsCleared | internal/runtime/service.go:51-106 | a call that returned leave to proceed read its event in a permitting state and recorded it, all after it was begun |
| Enforcement.ApprovalHasHistory | internal/approval/store.go:106-138 | the approval that permits an event was created pending under its tenant and id and approved in time, before it was relied on, for the same binding |
| Enforcement.Platform.Evaluate | sdk/go/agentsec/enforcer.go:86-89 | a client's evaluation, others moving at every point, is a new call of the behaviour with the returned outcome |
| Enforcement.Enforcer.ExecuteAllowed | sdk/go/agentsec/enforcer.go:123-129 | runs the action once and reports its output or failure |
| Enforcement.Enforcer.Execute | sdk/go/agentsec/enforcer.go:79-120 | a second evaluation, of the event naming the waiter's approval, is made exactly when the first demands approval, a waiter is set and it answers with an approved request; the action runs, once, exactly when the first or the second lets it, and only after that event was cleared and recorded; evaluation, approval, output and error reported are those of these calls, in every case |
| ApiKeys.ParseAPIKey | internal/auth/apikey.go:100-138 | the entry parser computes the specified key or error; its last check never fires |
| ApiKeys.ParseAPIKeys | internal/auth/apikey.go:41-62 | the configuration parser computes the specified keys or the first error |
| ApiKeys.APIKeyConfig.Authenticate | internal/auth/apikey.go:70-81 | the search returns the first key with the trimmed token as secret |
| ApiKeys.EntryMeaning | internal/auth/apikey.go:100-138 | an entry of three pieces is refused for the first thing blank, and otherwise gives its trimmed id, secret and tenants |
| ApiKeys.EntryOfThreePieces | internal/auth/apikey.go:100-104 | an entry is malformed exactly when it does not have three pieces |
| ApiKeys.AcceptedIff | internal/auth/apikey.go:41-62 | a configuration is accepted exactly when it is blank or all entries are and no secret comes twice; its keys are those of the entries in order |
| ApiKeys.RoundTrip | internal/auth/apikey.go:41-62 | parsing written keys, with any white space around ids, secrets and tenants, gives them trimmed when their secrets are distinct and is refused as a duplicate when not |
| ApiKeys.AccessAsWritten | internal/auth/apikey.go:22-81 | under a written configuration a token opens a tenant exactly when it is the secret of a key that lists the tenant or the wildcard, white space around any of them aside |
| ApiKeys.AcceptedSecretsAuthenticate | internal/auth/apikey.go:55-81 | in every accepted configuration a token authenticates to a key exactly when, trimmed, it is its secret |

## Left out

- Text.IsSpace: covers the white space of Latin-1 only, and case folding the ASCII letters; full Unicode trimming and folding are not modelled.
- AuditStore.MemoryStore.List: assumes a log of at most 2^48 records, the most an address space can hold.
- PackStore.MemoryStore.Upsert: requires that the caller's slice is not one of the store's own, which no caller can obtain because every slice handed out is a copy.
- PackIsolation.Caller.Run: isolation is claimed for the slice of policies; slices nested in a policy's conditions are values here, so their sharing is not modelled.
- RuntimeService.Serve: serves one call after another; concurrent calls are steps of the protocol, locks and atomic counters being taken as given.
- PolicyEngine.Engine.Evaluate: policies are values, the source's private copy of the slice is not a separate object.
- Enforcement.Enforcer.Execute: the approval waiter is an arbitrary answer, arbitrary steps of others taking place meanwhile; HTTP transport between client and service is a direct call.
- The PostgreSQL store: SQL, JSON encoding and database semantics are not visible in the code.
- HTTP routing, JSON decoding, status codes and the `Authorization` header form; only the audit query handler is modelled.
- Field-by-field validation messages: an invalid event is one error.
- Constant-time comparison of secrets is plain equality.
- The web console, server start-up and the baseline packs, which are data.
