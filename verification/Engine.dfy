/** The policy engine: one decision out of all matching policies. */
module PolicyEngine {
  import opened Domain
  import opened Sequences
  import opened Matching

  // ----- From packs to policies --------------------------------------------------------

  function ResolveAll(policies: seq<Policy>, pack: PolicyPack): seq<Policy> {
    if policies == [] then [] else [Resolve(policies[0], pack)] + ResolveAll(policies[1..], pack)
  }

  function PackPolicies(pack: PolicyPack): seq<Policy> {
    if pack.enabled then ResolveAll(pack.policies, pack) else []
  }

  /** The policies of the enabled packs, in order. */
  function PoliciesOf(packs: seq<PolicyPack>): seq<Policy> {
    FlatMap(packs, PackPolicies)
  }

  // ----- The decision ------------------------------------------------------------------

  /** A decision with its reason and the priority of the policy it came from. */
  datatype Verdict = Verdict(decision: Decision, reason: string, priority: int)
  {
    function Rank(): int {
      decision.Priority()
    }
  }

  const NO_MATCH: Verdict := Verdict(Allow, NoPolicyMatched.Text(), -1)

  /** Higher in the lexicographic order of (decision rank, policy priority). */
  predicate Outranks(a: Verdict, b: Verdict) {
    a.Rank() > b.Rank() || (a.Rank() == b.Rank() && a.priority > b.priority)
  }

  function VerdictOf(policy: Policy): Verdict {
    var reason := if policy.reason == "" then MatchedPolicy.Text() + policy.id else policy.reason;
    Verdict(policy.decision, reason, policy.priority)
  }

  predicate ShouldReplace(policy: Policy, current: Decision, currentPriority: int) {
    if policy.decision.Priority() != current.Priority() then policy.decision.Priority() > current.Priority()
    else policy.priority > currentPriority
  }

  /** The better of two verdicts, the earlier one on a tie. */
  function Merge(a: Verdict, b: Verdict): Verdict {
    if Outranks(b, a) then b else a
  }

  function Applicable(event: RuntimeEvent): Policy -> bool {
    policy => Applies(policy, event)
  }

  function MatchingPolicies(policies: seq<Policy>, event: RuntimeEvent): seq<Policy> {
    Filter(policies, Applicable(event))
  }

  /** The fold over matching policies. */
  function Best(matching: seq<Policy>): Verdict {
    if matching == [] then NO_MATCH
    else Merge(Best(matching[..|matching| - 1]), VerdictOf(matching[|matching| - 1]))
  }

  function IDs(policies: seq<Policy>): seq<string> {
    seq(|policies|, i requires 0 <= i < |policies| => policies[i].id)
  }

  function Judge(policies: seq<Policy>, event: RuntimeEvent): EvaluationResult {
    var matching := MatchingPolicies(policies, event);
    EvaluationResult(Best(matching).decision, Best(matching).reason, IDs(matching), "", "")
  }

  lemma MatchingSnoc(policies: seq<Policy>, i: nat, event: RuntimeEvent)
    requires i < |policies|
    ensures var before := MatchingPolicies(policies[..i], event);
      MatchingPolicies(policies[..i + 1], event)
        == if Applies(policies[i], event) then before + [policies[i]] else before
  {
    assert policies[..i + 1] == policies[..i] + [policies[i]];
    FilterSnoc(policies[..i], policies[i], Applicable(event));
  }

  lemma BestSnoc(matching: seq<Policy>, p: Policy)
    ensures Best(matching + [p]) == Merge(Best(matching), VerdictOf(p))
  {
    assert (matching + [p])[..|matching|] == matching;
  }

  /** `best`, with the priority it was won at, judges `event` by the first `i` policies. */
  ghost predicate JudgedUpTo(policies: seq<Policy>, i: nat, event: RuntimeEvent, best: EvaluationResult, priority: int)
    requires i <= |policies|
  {
    var matching := MatchingPolicies(policies[..i], event);
    && best.matchedPolicyIDs == IDs(matching)
    && Verdict(best.decision, best.reason, priority) == Best(matching)
    && best.auditID == "" && best.approvalID == ""
  }

  lemma PassedOver(policies: seq<Policy>, i: nat, event: RuntimeEvent, best: EvaluationResult, priority: int)
    requires i < |policies| && JudgedUpTo(policies, i, event, best, priority) && !Applies(policies[i], event)
    ensures JudgedUpTo(policies, i + 1, event, best, priority)
  {
    MatchingSnoc(policies, i, event);
  }

  lemma TakenIn(policies: seq<Policy>, i: nat, event: RuntimeEvent, best: EvaluationResult, priority: int,
                next: EvaluationResult, nextPriority: int)
    requires i < |policies| && JudgedUpTo(policies, i, event, best, priority) && Applies(policies[i], event)
    requires next == best.(matchedPolicyIDs := best.matchedPolicyIDs + [policies[i].id], decision := next.decision,
                           reason := next.reason)
    requires var v := Verdict(next.decision, next.reason, nextPriority);
      if ShouldReplace(policies[i], best.decision, priority) then v == VerdictOf(policies[i])
      else v == Verdict(best.decision, best.reason, priority)
    ensures JudgedUpTo(policies, i + 1, event, next, nextPriority)
  {
    MatchingSnoc(policies, i, event);
    BestSnoc(MatchingPolicies(policies[..i], event), policies[i]);
  }

  datatype Engine = Engine(policies: seq<Policy>)
  {
    /** One pass over the policies, keeping the best verdict so far. */
    method Evaluate(event: RuntimeEvent) returns (best: EvaluationResult)
      ensures best == Judge(policies, event)
    {
      best := EvaluationResult(Allow, NoPolicyMatched.Text(), [], "", "");
      var bestPolicyPriority := -1;
      for i := 0 to |policies|
        invariant JudgedUpTo(policies, i, event, best, bestPolicyPriority)
      {
        var policy := policies[i];
        ghost var before, priorityBefore := best, bestPolicyPriority;
        if !policy.enabled || !MatchesTenant(policy, event) || !Matches(policy.conditions, event) {
          PassedOver(policies, i, event, best, bestPolicyPriority);
          continue;
        }
        best := best.(matchedPolicyIDs := best.matchedPolicyIDs + [policy.id]);
        if ShouldReplace(policy, best.decision, bestPolicyPriority) {
          best := best.(decision := policy.decision, reason := policy.reason);
          if best.reason == "" {
            best := best.(reason := MatchedPolicy.Text() + policy.id);
          }
          bestPolicyPriority := policy.priority;
        }
        TakenIn(policies, i, event, before, priorityBefore, best, bestPolicyPriority);
      }
      assert policies[..|policies|] == policies;
    }
  }

  lemma {:induction false} ResolveAllSnoc(policies: seq<Policy>, policy: Policy, pack: PolicyPack)
    ensures ResolveAll(policies + [policy], pack) == ResolveAll(policies, pack) + [Resolve(policy, pack)]
  {
    if policies != [] {
      ResolveAllSnoc(policies[1..], policy, pack);
      assert (policies + [policy])[1..] == policies[1..] + [policy];
    }
  }

  /** The inner loop: the policies of one pack, resolved, after those collected so far. */
  method AddResolved(policies: seq<Policy>, pack: PolicyPack) returns (more: seq<Policy>)
    ensures more == policies + ResolveAll(pack.policies, pack)
  {
    more := policies;
    for j := 0 to |pack.policies|
      invariant more == policies + ResolveAll(pack.policies[..j], pack)
    {
      var policy := pack.policies[j];
      policy := policy.(tenantID := FirstNonEmpty(policy.tenantID, pack.tenantID));
      policy := policy.(policyPackID := FirstNonEmpty(policy.policyPackID, pack.id));
      assert pack.policies[..j + 1] == pack.policies[..j] + [pack.policies[j]];
      ResolveAllSnoc(pack.policies[..j], pack.policies[j], pack);
      more := more + [policy];
    }
    assert pack.policies[..|pack.policies|] == pack.policies;
  }

  /** Collects the policies of the enabled packs. */
  method NewEngineFromPacks(packs: seq<PolicyPack>) returns (engine: Engine)
    ensures engine == Engine(PoliciesOf(packs))
  {
    var policies := [];
    for i := 0 to |packs|
      invariant policies == PoliciesOf(packs[..i])
    {
      assert packs[..i + 1] == packs[..i] + [packs[i]];
      FlatMapSnoc(packs[..i], packs[i], PackPolicies);
      if !packs[i].enabled {
        continue;
      }
      policies := AddResolved(policies, packs[i]);
    }
    assert packs[..|packs|] == packs;
    engine := Engine(policies);
  }

  // ----- The decision is a leftmost maximum --------------------------------------------

  /** Policy `i` beats the default and every earlier policy, and no later one beats it. */
  predicate Wins(matching: seq<Policy>, i: nat)
    requires i < |matching|
  {
    var v := VerdictOf(matching[i]);
    && Outranks(v, NO_MATCH)
    && (forall j :: 0 <= j < i ==> Outranks(v, VerdictOf(matching[j])))
    && (forall j :: i < j < |matching| ==> !Outranks(VerdictOf(matching[j]), v))
  }

  lemma WinnerStays(init: seq<Policy>, i: nat, last: Policy)
    requires i < |init| && Wins(init, i) && !Outranks(VerdictOf(last), VerdictOf(init[i]))
    ensures Wins(init + [last], i)
  {
    assert forall j :: 0 <= j < |init| ==> (init + [last])[j] == init[j];
  }

  lemma WinnerAppears(init: seq<Policy>, last: Policy, best: Verdict)
    requires Outranks(VerdictOf(last), best) && !Outranks(NO_MATCH, best)
    requires forall j :: 0 <= j < |init| ==> !Outranks(VerdictOf(init[j]), best)
    ensures Wins(init + [last], |init|)
  {
    var v := VerdictOf(last);
    forall j | 0 <= j < |init| ensures Outranks(v, VerdictOf((init + [last])[j])) {
      assert !Outranks(VerdictOf(init[j]), best);
    }
  }

  /** No matching policy outranks the verdict, nor does the default. */
  lemma {:induction false} BestIsMaximal(matching: seq<Policy>)
    ensures !Outranks(NO_MATCH, Best(matching))
    ensures forall j :: 0 <= j < |matching| ==> !Outranks(VerdictOf(matching[j]), Best(matching))
  {
    if matching != [] {
      BestIsMaximal(matching[..|matching| - 1]);
    }
  }

  predicate HasWinner(matching: seq<Policy>) {
    exists i | 0 <= i < |matching| :: Wins(matching, i) && Best(matching) == VerdictOf(matching[i])
  }

  /** The verdict is that of the winner, or the default when no policy beats the default. */
  lemma {:induction false} BestIsLeftmostMaximum(matching: seq<Policy>)
    ensures HasWinner(matching)
      || (Best(matching) == NO_MATCH && forall i :: 0 <= i < |matching| ==> !Outranks(VerdictOf(matching[i]), NO_MATCH))
  {
    BestIsMaximal(matching);
    if matching != [] {
      var n := |matching| - 1;
      var init, last := matching[..n], matching[n];
      assert matching == init + [last];
      BestIsLeftmostMaximum(init);
      if Outranks(VerdictOf(last), Best(init)) {
        BestIsMaximal(init);
        WinnerAppears(init, last, Best(init));
      } else if HasWinner(init) {
        var i :| 0 <= i < n && Wins(init, i) && Best(init) == VerdictOf(init[i]);
        WinnerStays(init, i, last);
      }
    }
  }

  lemma WinnerIsUnique(matching: seq<Policy>, i: nat, j: nat)
    requires i < |matching| && Wins(matching, i)
    requires j < |matching| && Wins(matching, j)
    ensures i == j
  {
  }

  /** The matched identifiers are those of exactly the applicable policies, in order. */
  lemma MatchedAreApplicable(policies: seq<Policy>, event: RuntimeEvent)
    ensures var m, r := MatchingPolicies(policies, event), Judge(policies, event);
      && (forall p :: p in m <==> p in policies && Applies(p, event))
      && |r.matchedPolicyIDs| == |m| && (forall i :: 0 <= i < |m| ==> r.matchedPolicyIDs[i] == m[i].id)
  {
    forall p ensures p in MatchingPolicies(policies, event) <==> p in policies && Applies(p, event) {
      FilterMember(policies, Applicable(event), p);
    }
  }

  /** The engine's decision and reason, without naming the fold: those of the winner, the reason falling back
      to the policy's name, or the default when there is no winner. A decision the system does not know never
      wins. */
  lemma JudgeIsLeftmostMaximum(policies: seq<Policy>, event: RuntimeEvent)
    ensures var m, r := MatchingPolicies(policies, event), Judge(policies, event);
      && (forall i | 0 <= i < |m| && Wins(m, i) ::
            r.decision == m[i].decision && !m[i].decision.OtherDecision?
            && r.reason == if m[i].reason == "" then MatchedPolicy.Text() + m[i].id else m[i].reason)
      && ((forall i | 0 <= i < |m| :: !Wins(m, i)) ==> r.decision == Allow && r.reason == NoPolicyMatched.Text())
  {
    var m := MatchingPolicies(policies, event);
    BestIsLeftmostMaximum(m);
    forall i | 0 <= i < |m| && Wins(m, i) ensures Best(m) == VerdictOf(m[i]) && !m[i].decision.OtherDecision? {
      if HasWinner(m) {
        var k :| 0 <= k < |m| && Wins(m, k) && Best(m) == VerdictOf(m[k]);
        WinnerIsUnique(m, i, k);
      }
    }
  }

  /** There is a winner exactly when some matching policy decides above allow, or allows with a priority that
      is not negative; otherwise the default stands even if policies matched. */
  lemma WinnerExists(matching: seq<Policy>)
    ensures (exists i | 0 <= i < |matching| :: Wins(matching, i)) <==>
      exists p | p in matching ::
        p.decision in {Deny, RequireApproval, Redact, Record} || (p.decision == Allow && p.priority > -1)
  {
    BestIsLeftmostMaximum(matching);
    if i :| 0 <= i < |matching| && Wins(matching, i) {
      assert matching[i] in matching;
    }
    if p :| (p in matching
             && (p.decision in {Deny, RequireApproval, Redact, Record} || (p.decision == Allow && p.priority > -1)))
    {
      var i :| 0 <= i < |matching| && matching[i] == p;
      assert Outranks(VerdictOf(matching[i]), NO_MATCH);
    }
  }

  lemma {:induction false} MatchingIgnoresTime(policies: seq<Policy>, event: RuntimeEvent, t: int)
    ensures MatchingPolicies(policies, event.(timestamp := t)) == MatchingPolicies(policies, event)
  {
    if policies != [] {
      AppliesIgnoresTime(policies[0], event, t);
      MatchingIgnoresTime(policies[1..], event, t);
    }
  }

  /** Nor does the judgement depend on the time of the event. */
  lemma JudgeIgnoresTime(policies: seq<Policy>, event: RuntimeEvent, t: int)
    ensures Judge(policies, event.(timestamp := t)) == Judge(policies, event)
  {
    MatchingIgnoresTime(policies, event, t);
  }

  // ----- Union of policies -------------------------------------------------------------

  lemma MergeAssociative(a: Verdict, b: Verdict, c: Verdict)
    ensures Merge(Merge(a, b), c) == Merge(a, Merge(b, c))
  {
  }

  lemma {:induction false} BestOfConcat(a: seq<Policy>, b: seq<Policy>)
    ensures Best(a + b) == Merge(Best(a), Best(b))
  {
    if b == [] {
      assert a + b == a;
      BestIsMaximal(a);
    } else {
      var n := |b| - 1;
      BestOfConcat(a, b[..n]);
      assert (a + b)[..|a| + n] == a + b[..n];
      MergeAssociative(Best(a), Best(b[..n]), VerdictOf(b[n]));
    }
  }

  /** Judging a union of packs merges the judgements of the parts. */
  lemma JudgeOfUnion(packs: seq<PolicyPack>, more: seq<PolicyPack>, event: RuntimeEvent)
    ensures var m, n := MatchingPolicies(PoliciesOf(packs), event), MatchingPolicies(PoliciesOf(more), event);
      var r := Judge(PoliciesOf(packs + more), event);
      && Verdict(r.decision, r.reason, Merge(Best(m), Best(n)).priority) == Merge(Best(m), Best(n))
      && r.matchedPolicyIDs == Judge(PoliciesOf(packs), event).matchedPolicyIDs
                               + Judge(PoliciesOf(more), event).matchedPolicyIDs
  {
    var m, n := MatchingPolicies(PoliciesOf(packs), event), MatchingPolicies(PoliciesOf(more), event);
    assert MatchingPolicies(PoliciesOf(packs + more), event) == m + n by {
      FlatMapConcat(packs, more, PackPolicies);
      FilterConcat(PoliciesOf(packs), PoliciesOf(more), Applicable(event));
    }
    BestOfConcat(m, n);
    assert IDs(m + n) == IDs(m) + IDs(n);
  }

  // ----- Order independence ------------------------------------------------------------

  /** The rank of the verdict is the largest rank among matching policies and the default. */
  lemma {:induction false} BestRank(matching: seq<Policy>)
    ensures Best(matching).Rank() >= 100
    ensures forall p :: p in matching ==> p.decision.Priority() <= Best(matching).Rank()
    ensures Best(matching).Rank() == 100 || exists p :: p in matching && p.decision.Priority() == Best(matching).Rank()
  {
    if matching != [] {
      var n := |matching| - 1;
      BestRank(matching[..n]);
      assert matching == matching[..n] + [matching[n]];
    }
  }

  /** More matching policies never lower the rank of the decision. */
  lemma RankMonotone(policies: seq<Policy>, more: seq<Policy>, event: RuntimeEvent)
    requires forall p :: p in policies && Applies(p, event) ==> p in more
    ensures Judge(policies, event).decision.Priority() <= Judge(more, event).decision.Priority()
  {
    var m, n := MatchingPolicies(policies, event), MatchingPolicies(more, event);
    BestRank(m);
    BestRank(n);
    forall p | p in m ensures p in n {
      FilterMember(policies, Applicable(event), p);
      FilterMember(more, Applicable(event), p);
    }
  }

  /** Some applicable policy makes this decision. */
  predicate Demanded(policies: seq<Policy>, event: RuntimeEvent, decision: Decision) {
    exists p | p in policies :: Applies(p, event) && p.decision == decision
  }

  lemma DemandsAreRanked(policies: seq<Policy>, event: RuntimeEvent, decision: Decision)
    ensures Demanded(policies, event, decision) ==> decision.Priority() <= Judge(policies, event).decision.Priority()
  {
    if Demanded(policies, event, decision) {
      var p :| p in policies && Applies(p, event) && p.decision == decision;
      FilterMember(policies, Applicable(event), p);
      BestRank(MatchingPolicies(policies, event));
    }
  }

  lemma RankDeterminesDecision(a: Decision, b: Decision)
    requires a.Priority() == b.Priority() >= 100
    ensures a == b
  {
  }

  lemma DecisionIsDemanded(policies: seq<Policy>, event: RuntimeEvent)
    ensures var d := Judge(policies, event).decision; d == Allow || (!d.OtherDecision? && Demanded(policies, event, d))
  {
    var m := MatchingPolicies(policies, event);
    BestRank(m);
    if Best(m).Rank() > 100 {
      var p :| p in m && p.decision.Priority() == Best(m).Rank();
      FilterMember(policies, Applicable(event), p);
      RankDeterminesDecision(p.decision, Best(m).decision);
    }
  }

  /** The strictest decision any applicable policy makes is the decision: deny over require approval over
      redact over record over allow, which is also the default. */
  lemma StrictestDecisionWins(policies: seq<Policy>, event: RuntimeEvent)
    ensures var d := Judge(policies, event).decision;
      && (d == Deny <==> Demanded(policies, event, Deny))
      && (d == RequireApproval <==> Demanded(policies, event, RequireApproval) && !Demanded(policies, event, Deny))
      && (d == Redact <==> Demanded(policies, event, Redact) && !Demanded(policies, event, RequireApproval)
                           && !Demanded(policies, event, Deny))
      && (d == Record <==> Demanded(policies, event, Record) && !Demanded(policies, event, Redact)
                           && !Demanded(policies, event, RequireApproval) && !Demanded(policies, event, Deny))
      && !d.OtherDecision?
  {
    DecisionIsDemanded(policies, event);
    DemandsAreRanked(policies, event, Deny);
    DemandsAreRanked(policies, event, RequireApproval);
    DemandsAreRanked(policies, event, Redact);
    DemandsAreRanked(policies, event, Record);
  }

  lemma MatchingPermutation(ps: seq<Policy>, qs: seq<Policy>, event: RuntimeEvent)
    requires multiset(ps) == multiset(qs)
    ensures multiset(MatchingPolicies(ps, event)) == multiset(MatchingPolicies(qs, event))
  {
    forall p ensures multiset(MatchingPolicies(ps, event))[p] == multiset(MatchingPolicies(qs, event))[p] {
      FilterCount(ps, Applicable(event), p);
      FilterCount(qs, Applicable(event), p);
    }
  }

  function IDOf(p: Policy): seq<string> {
    [p.id]
  }

  lemma {:induction false} IDsAsFlatMap(ps: seq<Policy>)
    ensures IDs(ps) == FlatMap(ps, IDOf)
  {
    if ps != [] {
      IDsAsFlatMap(ps[1..]);
      assert IDs(ps) == [ps[0].id] + IDs(ps[1..]);
    }
  }

  /** The order of the policies affects neither the decision nor which identifiers are matched. */
  lemma OrderIndependence(ps: seq<Policy>, qs: seq<Policy>, event: RuntimeEvent)
    requires multiset(ps) == multiset(qs)
    ensures Judge(ps, event).decision == Judge(qs, event).decision
    ensures multiset(Judge(ps, event).matchedPolicyIDs) == multiset(Judge(qs, event).matchedPolicyIDs)
  {
    forall p ensures p in ps <==> p in qs {
      assert p in ps <==> p in multiset(ps);
      assert p in qs <==> p in multiset(qs);
    }
    RankMonotone(ps, qs, event);
    RankMonotone(qs, ps, event);
    BestRank(MatchingPolicies(ps, event));
    BestRank(MatchingPolicies(qs, event));
    RankDeterminesDecision(Judge(ps, event).decision, Judge(qs, event).decision);
    MatchingPermutation(ps, qs, event);
    IDsAsFlatMap(MatchingPolicies(ps, event));
    IDsAsFlatMap(MatchingPolicies(qs, event));
    FlatMapPermutation(MatchingPolicies(ps, event), MatchingPolicies(qs, event), IDOf);
  }

  /** The same for packs listed in any order. */
  lemma PackOrderIndependence(packs: seq<PolicyPack>, others: seq<PolicyPack>, event: RuntimeEvent)
    requires multiset(packs) == multiset(others)
    ensures Judge(PoliciesOf(packs), event).decision == Judge(PoliciesOf(others), event).decision
    ensures multiset(Judge(PoliciesOf(packs), event).matchedPolicyIDs)
         == multiset(Judge(PoliciesOf(others), event).matchedPolicyIDs)
  {
    FlatMapPermutation(packs, others, PackPolicies);
    OrderIndependence(PoliciesOf(packs), PoliciesOf(others), event);
  }

  /** `p` attains the winning rank and priority. */
  predicate Attains(p: Policy, v: Verdict) {
    !Outranks(v, VerdictOf(p)) && Outranks(VerdictOf(p), NO_MATCH)
  }

  /** All matching policies that attain the winning pair give the same reason. */
  predicate ReasonIsSettled(ps: seq<Policy>, event: RuntimeEvent) {
    var m := MatchingPolicies(ps, event);
    forall p | p in m && Attains(p, Best(m)) :: VerdictOf(p).reason == Best(m).reason
  }

  lemma BestIsAttained(matching: seq<Policy>)
    ensures forall p | p in matching :: !Outranks(VerdictOf(p), Best(matching))
    ensures Best(matching) == NO_MATCH || exists p | p in matching ::
      Attains(p, Best(matching)) && Best(matching) == VerdictOf(p)
  {
    BestIsLeftmostMaximum(matching);
    BestIsMaximal(matching);
    if HasWinner(matching) {
      var i :| 0 <= i < |matching| && Wins(matching, i) && Best(matching) == VerdictOf(matching[i]);
      assert matching[i] in matching && Attains(matching[i], Best(matching));
    }
  }

  /** A settled reason survives every permutation. */
  lemma SettledReasonIsKept(ps: seq<Policy>, qs: seq<Policy>, event: RuntimeEvent)
    requires multiset(ps) == multiset(qs) && ReasonIsSettled(ps, event)
    ensures Judge(qs, event).reason == Judge(ps, event).reason
  {
    var m, n := MatchingPolicies(ps, event), MatchingPolicies(qs, event);
    MatchingPermutation(ps, qs, event);
    assert forall p :: p in m <==> p in multiset(m);
    assert forall p :: p in n <==> p in multiset(n);
    BestIsAttained(m);
    BestIsAttained(n);
  }

  lemma AttainingHeadWins(m: seq<Policy>, n: seq<Policy>)
    requires multiset(m) == multiset(n) && n != [] && Attains(n[0], Best(m))
    ensures Wins(n, 0)
  {
    BestIsMaximal(m);
    forall j | 0 < j < |n| ensures !Outranks(VerdictOf(n[j]), VerdictOf(n[0])) {
      assert n[j] in multiset(m);
      var k :| 0 <= k < |m| && m[k] == n[j];
      assert !Outranks(VerdictOf(m[k]), Best(m));
    }
  }

  lemma PutFirst(ps: seq<Policy>, p: Policy) returns (qs: seq<Policy>)
    requires p in ps
    ensures multiset(qs) == multiset(ps) && qs != [] && qs[0] == p
  {
    var i :| 0 <= i < |ps| && ps[i] == p;
    assert ps == ps[..i] + [p] + ps[i + 1..];
    qs := [p] + (ps[..i] + ps[i + 1..]);
  }

  /** An unsettled reason changes when another attaining policy is put first. */
  lemma UnsettledReasonChanges(ps: seq<Policy>, event: RuntimeEvent) returns (qs: seq<Policy>)
    requires !ReasonIsSettled(ps, event)
    ensures multiset(ps) == multiset(qs)
    ensures Judge(qs, event).reason != Judge(ps, event).reason
  {
    var m := MatchingPolicies(ps, event);
    var p :| p in m && Attains(p, Best(m)) && VerdictOf(p).reason != Best(m).reason;
    FilterMember(ps, Applicable(event), p);
    qs := PutFirst(ps, p);
    MatchingPermutation(ps, qs, event);
    var n := MatchingPolicies(qs, event);
    assert n[0] == p;
    AttainingHeadWins(m, n);
    JudgeIsLeftmostMaximum(qs, event);
  }

  /** Exactly when the reason does not depend on the order of the policies. */
  lemma ReasonOrderIndependence(ps: seq<Policy>, event: RuntimeEvent)
    ensures ReasonIsSettled(ps, event) <==>
      forall qs | multiset(qs) == multiset(ps) :: Judge(qs, event).reason == Judge(ps, event).reason
  {
    if ReasonIsSettled(ps, event) {
      forall qs | multiset(qs) == multiset(ps) ensures Judge(qs, event).reason == Judge(ps, event).reason {
        SettledReasonIsKept(ps, qs, event);
      }
    } else {
      var qs := UnsettledReasonChanges(ps, event);
    }
  }
}
