/** Nothing is lost or counted twice: audit records, evaluations and approval requests balance. */
module Accounting {
  import opened Domain
  import opened Sequences
  import opened ApprovalStore
  import opened Protocol
  import opened Provenance
  import opened Lifecycle
  import AuditStore

  // ----- Audit identifiers -------------------------------------------------------------

  /** Record numbers in flight are distinct, no record has one of them or one still to come, and no two
      records share an identifier. */
  ghost predicate DistinctRecords(s: Sys) {
    && (forall c | c in s.calls && s.calls[c].Recording? ::
          1 <= s.calls[c].serial <= s.logged && s.calls[c].record.id == AuditStore.AuditID(s.calls[c].serial))
    && (forall c, d | c in s.calls && d in s.calls && c != d && s.calls[c].Recording? && s.calls[d].Recording? ::
          s.calls[c].serial != s.calls[d].serial)
    && (forall c, x | c in s.calls && s.calls[c].Recording? && 0 <= x < |s.records| ::
          s.records[x].id != AuditStore.AuditID(s.calls[c].serial))
    && (forall x, n: nat | 0 <= x < |s.records| && s.logged < n <= COUNTER_RANGE ::
        s.records[x].id != AuditStore.AuditID(n))
    && (forall x, y | 0 <= x < y < |s.records| :: s.records[x].id != s.records[y].id)
  }

  /** The record in flight for a call keeps its number to itself. */
  lemma SerialIsOwn(s: Sys, c: nat)
    requires DistinctRecords(s) && c in s.calls && s.calls[c].Recording? && s.logged <= COUNTER_RANGE
    ensures forall d | d in s.calls && d != c && s.calls[d].Recording? ::
      AuditStore.AuditID(s.calls[d].serial) != s.calls[c].record.id
    ensures forall n: nat | s.logged < n <= COUNTER_RANGE :: AuditStore.AuditID(n) != s.calls[c].record.id
  {
    var serial := s.calls[c].serial;
    forall d | d in s.calls && d != c && s.calls[d].Recording?
      ensures AuditStore.AuditID(s.calls[d].serial) != AuditStore.AuditID(serial)
    {
      GeneratedIDInjective(AuditStore.ID_PREFIX, s.calls[d].serial, serial);
    }
    forall n: nat | s.logged < n <= COUNTER_RANGE ensures AuditStore.AuditID(n) != AuditStore.AuditID(serial) {
      GeneratedIDInjective(AuditStore.ID_PREFIX, n, serial);
    }
  }

  lemma RecordWritten(s: Sys, t: Sys, c: nat, record: AuditRecord)
    requires DistinctRecords(s) && t.logged == s.logged && t.records == s.records + [record]
    requires forall d | d in t.calls && t.calls[d].Recording? :: d != c && d in s.calls && s.calls[d] == t.calls[d]
    requires forall d | d in t.calls && t.calls[d].Recording? :: AuditStore.AuditID(t.calls[d].serial) != record.id
    requires forall n: nat | s.logged < n <= COUNTER_RANGE :: AuditStore.AuditID(n) != record.id
    requires forall x | 0 <= x < |s.records| :: s.records[x].id != record.id
    ensures DistinctRecords(t)
  {
  }

  lemma AppendStaysDistinct(cfg: Config, s: Sys, step: Step)
    requires DistinctRecords(s) && Enabled(s, step) && step.Append? && s.logged <= COUNTER_RANGE
    ensures DistinctRecords(Apply(cfg, s, step))
  {
    SerialIsOwn(s, step.c);
    RecordWritten(s, Apply(cfg, s, step), step.c, s.calls[step.c].record);
  }

  /** No record is numbered or written between `s` and `t`. */
  ghost predicate SameRecordNumbers(s: Sys, t: Sys) {
    && t.logged == s.logged && t.records == s.records
    && (forall c | c in t.calls && t.calls[c].Recording? :: c in s.calls && s.calls[c] == t.calls[c])
  }

  lemma NoRecordTouched(cfg: Config, s: Sys, step: Step)
    requires Enabled(s, step) && !step.Append? && !(step.NumberRecord? && !step.cancelled)
    ensures SameRecordNumbers(s, Apply(cfg, s, step))
  {
  }

  lemma DistinctRecordsFrame(s: Sys, t: Sys)
    requires DistinctRecords(s) && SameRecordNumbers(s, t)
    ensures DistinctRecords(t)
  {
  }

  lemma RecordNumbered(s: Sys, t: Sys, c: nat)
    requires DistinctRecords(s) && t.records == s.records && t.logged == s.logged + 1 <= COUNTER_RANGE
    requires forall d | d in t.calls && d != c && t.calls[d].Recording? :: d in s.calls && s.calls[d] == t.calls[d]
    requires c in t.calls && t.calls[c].Recording? && t.calls[c].serial == t.logged
    requires t.calls[c].record.id == AuditStore.AuditID(t.logged)
    ensures DistinctRecords(t)
  {
  }

  lemma NumberRecordStaysDistinct(cfg: Config, s: Sys, step: Step)
    requires DistinctRecords(s) && Enabled(s, step) && step.NumberRecord? && !step.cancelled
      && s.logged + 1 <= COUNTER_RANGE
    ensures DistinctRecords(Apply(cfg, s, step))
  {
    RecordNumbered(s, Apply(cfg, s, step), step.c);
  }

  lemma {:induction false} DistinctRecordsHold(cfg: Config, b: Behavior, n: nat)
    requires b.Valid(cfg) && n <= |b.steps| && b.states[n].logged <= COUNTER_RANGE
    ensures DistinctRecords(b.states[n])
  {
    if n > 0 {
      var s, step := b.states[n - 1], b.steps[n - 1];
      assert b.Follows(cfg, n - 1);
      Grows(cfg, b, n - 1, n);
      DistinctRecordsHold(cfg, b, n - 1);
      if step.Append? {
        AppendStaysDistinct(cfg, s, step);
      } else if step.NumberRecord? && !step.cancelled {
        NumberRecordStaysDistinct(cfg, s, step);
      } else {
        NoRecordTouched(cfg, s, step);
        DistinctRecordsFrame(s, b.states[n]);
      }
    }
  }

  // ----- One record per success --------------------------------------------------------

  /** Step `m` is the one step that writes a record for call `c`. */
  ghost predicate OnlyAppend(b: Behavior, m: nat, c: nat) {
    && m < |b.steps| && b.steps[m] == Append(c)
    && forall i | 0 <= i < |b.steps| && b.steps[i] == Append(c) :: i == m
  }

  lemma AppendsOnce(cfg: Config, b: Behavior, i: nat, m: nat, c: nat)
    requires b.Valid(cfg) && i < |b.steps| && m < |b.steps| && b.steps[i] == Append(c) && b.steps[m] == Append(c)
    ensures i == m
  {
    assert b.Follows(cfg, i) && b.Follows(cfg, m);
    if i < m {
      Grows(cfg, b, i + 1, m);
    } else if m < i {
      Grows(cfg, b, m + 1, i);
    }
  }

  /** A successful evaluation has written exactly one record, whose result is the returned one up to the
      audit identifier; a failed one has written none. */
  lemma OneRecordPerSuccess(cfg: Config, b: Behavior, c: nat)
    requires b.Valid(cfg) && c in b.Last().calls && b.Last().calls[c].Done?
    ensures match b.Last().calls[c].outcome
      case Returned(result) =>
        exists m: nat, x: nat :: m < |b.steps| && x < |b.Last().records| && OnlyAppend(b, m, c)
          && AppendedAt(b, m, c, x, b.Last().records[x])
          && result == b.Last().records[x].result.(auditID := b.Last().records[x].id)
      case Failed(_) => forall i | 0 <= i < |b.steps| :: b.steps[i] != Append(c)
  {
    if b.Last().calls[c].outcome.Returned? {
      var m := ReturnOrigin(cfg, b, |b.steps|, c);
      forall i | 0 <= i < |b.steps| && b.steps[i] == Append(c) ensures i == m {
        AppendsOnce(cfg, b, i, m, c);
      }
      var x := |b.states[m].records|;
      Grows(cfg, b, m + 1, |b.steps|);
      assert b.Last().records[x] == b.states[m + 1].records[x];
      assert OnlyAppend(b, m, c);
    } else {
      forall i | 0 <= i < |b.steps| ensures b.steps[i] != Append(c) {
        assert b.Follows(cfg, i);
        Grows(cfg, b, i + 1, |b.steps|);
      }
    }
  }

  /** While the counter has not gone round, the audit identifier an evaluation returned is that of its own
      record and of no other. */
  lemma AuditIDIsOwn(cfg: Config, b: Behavior, c: nat, y: nat)
    requires b.Valid(cfg) && c in b.Last().calls && b.Last().calls[c].Done? && b.Last().calls[c].outcome.Returned?
    requires b.Last().logged <= COUNTER_RANGE && y < |b.Last().records|
    ensures b.Last().records[y].id == b.Last().calls[c].outcome.result.auditID
       <==> exists m: nat :: m < |b.steps| && AppendedAt(b, m, c, y, b.Last().records[y])
  {
    OneRecordPerSuccess(cfg, b, c);
    var m: nat, x: nat :| m < |b.steps| && x < |b.Last().records| && OnlyAppend(b, m, c)
      && AppendedAt(b, m, c, x, b.Last().records[x])
      && b.Last().calls[c].outcome.result == b.Last().records[x].result.(auditID := b.Last().records[x].id);
    DistinctRecordsHold(cfg, b, |b.steps|);
    if x != y {
      var lo, hi := if x < y then x else y, if x < y then y else x;
      assert b.Last().records[lo].id != b.Last().records[hi].id;
    }
  }

  // ----- Audit identifiers past the turn -----------------------------------------------

  /** Step `m` appends the record at position `x`, which has the number `serial`. */
  ghost predicate WritesAt(b: Behavior, m: nat, x: nat, serial: nat) {
    && m < |b.steps| < |b.states| && b.steps[m].Append? && b.steps[m].c in b.states[m].calls
    && b.states[m].calls[b.steps[m].c].Recording? && b.states[m].calls[b.steps[m].c].serial == serial
    && |b.states[m].records| == x
  }

  /** Every record has such a step. */
  lemma WriteOrigin(cfg: Config, b: Behavior, x: nat) returns (m: nat, serial: nat)
    requires b.Valid(cfg) && x < |b.Last().records|
    ensures WritesAt(b, m, x, serial)
  {
    m := RecordOrigin(cfg, b, |b.steps|, x);
    serial := b.states[m].calls[b.steps[m].c].serial;
  }

  lemma WrittenID(cfg: Config, b: Behavior, m: nat, x: nat, serial: nat)
    requires b.Valid(cfg) && WritesAt(b, m, x, serial)
    ensures x < |b.Last().records| && b.Last().records[x].id == AuditStore.AuditID(serial)
  {
    assert b.Follows(cfg, m);
    ShapeHolds(cfg, b, m);
    assert CallShape(cfg, b.states[m].calls[b.steps[m].c]);
    Grows(cfg, b, m + 1, |b.steps|);
    assert b.Last().records[x] == b.states[m + 1].records[x];
  }

  /** Step `j` takes the number `serial` from the audit counter for call `c`. */
  ghost predicate RecordNumberedAt(b: Behavior, j: nat, c: nat, serial: nat) {
    && j < |b.steps| && j + 1 < |b.states| && b.steps[j].NumberRecord? && b.steps[j].c == c
    && b.states[j].logged + 1 == serial == b.states[j + 1].logged
  }

  lemma RecordNumberFollows(cfg: Config, b: Behavior, n: nat, c: nat)
    requires b.Valid(cfg) && n < |b.steps| && c in b.states[n + 1].calls && b.states[n + 1].calls[c].Recording?
    ensures (c in b.states[n].calls && b.states[n].calls[c] == b.states[n + 1].calls[c])
         || RecordNumberedAt(b, n, c, b.states[n + 1].calls[c].serial)
  {
    assert b.Follows(cfg, n);
    if !b.steps[n].OfCall(c) {
      OtherCallsStay(cfg, b.states[n], b.steps[n], c);
    }
  }

  lemma {:induction false} RecordNumberOrigin(cfg: Config, b: Behavior, n: nat, c: nat) returns (j: nat)
    requires b.Valid(cfg) && n <= |b.steps| && c in b.states[n].calls && b.states[n].calls[c].Recording?
    ensures j < n && RecordNumberedAt(b, j, c, b.states[n].calls[c].serial)
  {
    RecordNumberFollows(cfg, b, n - 1, c);
    if RecordNumberedAt(b, n - 1, c, b.states[n].calls[c].serial) {
      j := n - 1;
    } else {
      j := RecordNumberOrigin(cfg, b, n - 1, c);
    }
  }

  /** Different records have different numbers. */
  lemma RecordSerialsDiffer(cfg: Config, b: Behavior, m: nat, x: nat, serial: nat, n: nat, y: nat)
    requires b.Valid(cfg) && WritesAt(b, m, x, serial) && WritesAt(b, n, y, serial)
    ensures x == y
  {
    var c, d := b.steps[m].c, b.steps[n].c;
    var i := RecordNumberOrigin(cfg, b, m, c);
    var j := RecordNumberOrigin(cfg, b, n, d);
    if i < j {
      Grows(cfg, b, i + 1, j);
    } else if j < i {
      Grows(cfg, b, j + 1, i);
    }
    AppendsOnce(cfg, b, m, n, c);
  }

  /** Exactly when two records share an identifier: when their numbers, which differ, agree modulo 2^64. */
  lemma AuditIDsRepeat(cfg: Config, b: Behavior, m: nat, x: nat, first: nat, n: nat, y: nat, second: nat)
    requires b.Valid(cfg) && x != y && WritesAt(b, m, x, first) && WritesAt(b, n, y, second)
    ensures x < |b.Last().records| && y < |b.Last().records|
    ensures b.Last().records[x].id == b.Last().records[y].id
       <==> first != second && first % COUNTER_RANGE == second % COUNTER_RANGE
  {
    WrittenID(cfg, b, m, x, first);
    WrittenID(cfg, b, n, y, second);
    GeneratedIDCollision(AuditStore.ID_PREFIX, first, second);
    if first == second {
      RecordSerialsDiffer(cfg, b, m, x, first, n, y);
    }
  }

  // ----- Requests balance --------------------------------------------------------------

  /** A result that demands approval of a request made for it. */
  predicate Demands(result: EvaluationResult) {
    result.decision == RequireApproval && result.approvalID != ""
  }

  function IsDemand(): AuditRecord -> bool {
    (record: AuditRecord) => Demands(record.result)
  }

  /** The call has created a request and not yet recorded it. */
  predicate Holds(call: Call) {
    (call.Appending? || call.Recording?) && Demands(call.Result())
  }

  function Unrecorded(s: Sys): set<nat> {
    set c | c in s.calls && Holds(s.calls[c])
  }

  /** The step fails a call at the audit log after it has created a request. */
  predicate LosesDemand(s: Sys, step: Step)
    requires Enabled(s, step)
  {
    step.NumberRecord? && step.cancelled && Demands(s.calls[step.c].result)
  }

  function CreatedCount(b: Behavior, n: nat): nat
    requires n <= |b.steps|
  {
    if n == 0 then 0 else CreatedCount(b, n - 1) + if b.steps[n - 1].Insert? then 1 else 0
  }

  function LostCount(cfg: Config, b: Behavior, n: nat): nat
    requires b.Valid(cfg) && n <= |b.steps|
  {
    if n == 0 then 0
    else
      assert b.Follows(cfg, n - 1);
      LostCount(cfg, b, n - 1) + if LosesDemand(b.states[n - 1], b.steps[n - 1]) then 1 else 0
  }

  /** The step ends a call that holds a request, by recording it or by failing. */
  predicate Releases(s: Sys, step: Step)
    requires Enabled(s, step)
  {
    LosesDemand(s, step) || (step.Append? && Demands(s.calls[step.c].record.result))
  }

  lemma OwnCallStep(cfg: Config, s: Sys, step: Step, c: nat)
    requires Shape(cfg, s) && Enabled(s, step) && step.OfCall(c)
    ensures var before, after := c in s.calls && Holds(s.calls[c]), Holds(Apply(cfg, s, step).calls[c]);
      && (step.Insert? ==> !before && after)
      && (Releases(s, step) ==> before && !after)
      && (!step.Insert? && !Releases(s, step) ==> before == after)
  {
    if step.Look? {
      JudgedDemandIsUnnamed(cfg, s, s.calls[c].event, step.keys, step.cancelled);
    } else if step.Insert? {
      assert CallShape(cfg, s.calls[c]);
      assert s.calls[c].request.id == ApprovalID(s.calls[c].serial) != "";
    }
  }

  lemma UnrecordedStep(cfg: Config, s: Sys, step: Step)
    requires Shape(cfg, s) && Enabled(s, step)
    ensures var u, v := Unrecorded(s), Unrecorded(Apply(cfg, s, step));
      if step.Insert? then step.c !in u && v == u + {step.c}
      else if Releases(s, step) then step.c in u && v == u - {step.c}
      else v == u
  {
    var u, v := Unrecorded(s), Unrecorded(Apply(cfg, s, step));
    forall c: nat
      ensures if !step.OfCall(c) then c in v <==> c in u
              else if step.Insert? then c !in u && c in v
              else if Releases(s, step) then c in u && c !in v
              else c in v <==> c in u
    {
      if !step.OfCall(c) {
        OtherCallsStay(cfg, s, step, c);
      } else {
        OwnCallStep(cfg, s, step, c);
      }
    }
  }

  function DemandCount(records: seq<AuditRecord>): nat {
    |Filter(records, IsDemand())|
  }

  lemma BalanceStep(cfg: Config, s: Sys, step: Step)
    requires Shape(cfg, s) && Enabled(s, step)
    ensures var t := Apply(cfg, s, step);
      DemandCount(t.records) + |Unrecorded(t)| + (if LosesDemand(s, step) then 1 else 0)
        == DemandCount(s.records) + |Unrecorded(s)| + if step.Insert? then 1 else 0
  {
    UnrecordedStep(cfg, s, step);
    if step.Append? {
      FilterSnoc(s.records, s.calls[step.c].record, IsDemand());
    }
  }

  /** Requests created are exactly those recorded as demands, those whose evaluation failed only at the
      audit log, and those whose evaluation is about to record them. */
  lemma {:induction false} RequestsBalance(cfg: Config, b: Behavior, n: nat)
    requires b.Valid(cfg) && n <= |b.steps|
    ensures CreatedCount(b, n) ==
      DemandCount(b.states[n].records) + LostCount(cfg, b, n) + |Unrecorded(b.states[n])|
  {
    if n > 0 {
      assert b.Follows(cfg, n - 1);
      RequestsBalance(cfg, b, n - 1);
      ShapeHolds(cfg, b, n - 1);
      BalanceStep(cfg, b.states[n - 1], b.steps[n - 1]);
    }
  }

  /** The step inserts a request at an occupied key. */
  predicate Overwrites(s: Sys, step: Step) {
    step.Insert? && step.c in s.calls && s.calls[step.c].Inserting? && KeyOf(s.calls[step.c].request) in s.requests
  }

  function OverwrittenCount(b: Behavior, n: nat): nat
    requires n <= |b.steps| < |b.states|
  {
    if n == 0 then 0 else OverwrittenCount(b, n - 1) + if Overwrites(b.states[n - 1], b.steps[n - 1]) then 1 else 0
  }

  lemma KeysStep(cfg: Config, s: Sys, step: Step)
    requires Enabled(s, step)
    ensures |Apply(cfg, s, step).requests.Keys| ==
      |s.requests.Keys| + if step.Insert? && !Overwrites(s, step) then 1 else 0
  {
    var keys := Apply(cfg, s, step).requests.Keys;
    if step.Insert? {
      assert keys == s.requests.Keys + {KeyOf(s.calls[step.c].request)};
    } else if step.Decide? {
      assert keys == s.requests.Keys;
    } else {
      OtherStepsKeepRequests(cfg, s, step);
    }
  }

  /** Every created request is still stored, or another has been inserted at its key. */
  lemma {:induction false} CreatedAreStored(cfg: Config, b: Behavior, n: nat)
    requires b.Valid(cfg) && n <= |b.steps|
    ensures |b.states[n].requests.Keys| + OverwrittenCount(b, n) == CreatedCount(b, n)
  {
    if n > 0 {
      assert b.Follows(cfg, n - 1);
      CreatedAreStored(cfg, b, n - 1);
      KeysStep(cfg, b.states[n - 1], b.steps[n - 1]);
    }
  }

  /** While the counter has not gone round, none has. */
  lemma {:induction false} NoneOverwritten(cfg: Config, b: Behavior, n: nat)
    requires b.Valid(cfg) && n <= |b.steps| && b.states[n].numbered <= COUNTER_RANGE
    ensures OverwrittenCount(b, n) == 0
  {
    if n > 0 {
      Grows(cfg, b, n - 1, n);
      NoneOverwritten(cfg, b, n - 1);
      DistinctHolds(cfg, b, n - 1);
    }
  }
}
