/** The in-memory audit log and its paged query. */
module AuditStore {
  import opened Domain
  import opened Sequences
  import opened Sorting
  import opened Text

  const ID_PREFIX: string := "audit-"

  function AuditID(n: nat): string {
    GeneratedID(ID_PREFIX, n)
  }

  const MAX_INT: int := 0x7FFF_FFFF_FFFF_FFFF

  /** The source's `int`: 64 bits, wrapping. */
  type Int = n: int | -MAX_INT - 1 <= n <= MAX_INT

  function AddInt(a: Int, b: Int): Int {
    var s := a + b;
    if s > MAX_INT then s - COUNTER_RANGE else if s < -MAX_INT - 1 then s + COUNTER_RANGE else s
  }

  /** No slice has more elements than a 48-bit address space has bytes. */
  const MAX_LOG: int := 0x1_0000_0000_0000

  /** Filters set to the empty text do not filter. */
  datatype ListOptions = ListOptions(
    limit: Int,
    offset: Int,
    tenantID: string,
    agentID: string,
    userID: string,
    taskID: string,
    decision: Decision,
    eventType: EventType)
  {
    function Normalize(): ListOptions {
      this.(
        limit := if limit <= 0 then 100 else if limit > 1000 then 1000 else limit,
        offset := if offset < 0 then 0 else offset)
    }

    predicate Normal() {
      1 <= limit <= 1000 && offset >= 0
    }
  }

  predicate RecordMatches(record: AuditRecord, opts: ListOptions) {
    && (opts.tenantID == "" || record.event.tenantID == opts.tenantID)
    && (opts.agentID == "" || record.event.agentID == opts.agentID)
    && (opts.userID == "" || record.event.userID == opts.userID)
    && (opts.taskID == "" || record.event.taskID == opts.taskID)
    && (opts.decision == OtherDecision("") || record.result.decision == opts.decision)
    && (opts.eventType == OtherEventType("") || record.event.eventType == opts.eventType)
  }

  function Selected(opts: ListOptions): AuditRecord -> bool {
    record => RecordMatches(record, opts)
  }

  predicate Newer(a: AuditRecord, b: AuditRecord) {
    a.recordedAt > b.recordedAt
  }

  lemma NewerIsOrder()
    ensures StrictWeakOrder(Newer)
  {
  }

  /** The whole answer to a query: matching records, newest first. */
  function Ordered(log: seq<AuditRecord>, opts: ListOptions): seq<AuditRecord> {
    Sort(Filter(log, Selected(opts)), Newer)
  }

  /** One page of it. */
  function Page(log: seq<AuditRecord>, opts: ListOptions): seq<AuditRecord> {
    var o := opts.Normalize();
    var all := Ordered(log, o);
    if o.offset >= |all| then []
    else if o.offset + o.limit > |all| then all[o.offset..]
    else all[o.offset..o.offset + o.limit]
  }

  function Filled(record: AuditRecord, id: string, now: int): AuditRecord {
    record.(
      id := if record.id == "" then id else record.id,
      recordedAt := if record.recordedAt == 0 then now else record.recordedAt)
  }

  class MemoryStore {
    var records: seq<AuditRecord>
    var counter: uint64
    ghost var taken: nat

    ghost predicate Valid()
      reads this
    {
      counter as int == taken % COUNTER_RANGE
    }

    constructor ()
      ensures Valid() && records == [] && taken == 0
    {
      records, counter, taken := [], 0, 0;
    }

    method NextNumber() returns (n: uint64)
      requires Valid()
      modifies this`counter, this`taken
      ensures Valid() && taken == old(taken) + 1 && n as int == taken % COUNTER_RANGE
    {
      counter := if counter == 0xFFFF_FFFF_FFFF_FFFF then 0 else counter + 1;
      taken := taken + 1;
      n := counter;
    }

    /** Adds one record at the end; `None` reports a cancelled context. */
    method Append(record: AuditRecord, now: int, cancelled: bool) returns (r: Option<AuditRecord>)
      requires Valid()
      modifies this
      ensures Valid()
      ensures r.None? <==> cancelled
      ensures cancelled ==> records == old(records) && taken == old(taken)
      ensures !cancelled ==> taken == old(taken) + if record.id == "" then 1 else 0
      ensures !cancelled ==> r == Some(Filled(record, AuditID(taken), now)) && records == old(records) + [r.value]
      ensures !cancelled ==>
        && r.value.event == record.event && r.value.result == record.result
        && r.value.id == (if record.id != "" then record.id else "audit-" + Decimal(taken % COUNTER_RANGE))
        && r.value.recordedAt == (if record.recordedAt != 0 then record.recordedAt else now)
    {
      if cancelled {
        return None;
      }
      var filled := record;
      if filled.id == "" {
        var n := NextNumber();
        filled := filled.(id := ID_PREFIX + Decimal(n as nat));
      }
      if filled.recordedAt == 0 {
        filled := filled.(recordedAt := now);
      }
      records := records + [filled];
      r := Some(filled);
    }

    /** A fresh slice of the matching records, sorted in place. */
    method SelectNewest(o: ListOptions) returns (sorted: array<AuditRecord>)
      ensures fresh(sorted) && sorted.Length <= |records|
      ensures sorted[..] == Ordered(records, o)
    {
      var matching := [];
      for i := 0 to |records|
        invariant |matching| <= i
        invariant matching == Filter(records[..i], Selected(o))
      {
        assert records[..i + 1] == records[..i] + [records[i]];
        FilterSnoc(records[..i], records[i], Selected(o));
        if RecordMatches(records[i], o) {
          matching := matching + [records[i]];
        }
      }
      assert records[..|records|] == records;
      sorted := new AuditRecord[|matching|](i requires 0 <= i < |matching| => matching[i]);
      assert sorted[..] == matching;
      StableSort(sorted, Newer);
    }

    method List(opts: ListOptions, cancelled: bool) returns (r: Option<seq<AuditRecord>>)
      requires |records| <= MAX_LOG
      ensures r == if cancelled then None else Some(Page(records, opts))
    {
      if cancelled {
        return None;
      }
      var o := opts.Normalize();
      var sorted := SelectNewest(o);
      if o.offset >= sorted.Length {
        return Some([]);
      }
      var end := AddInt(o.offset, o.limit);
      if end > sorted.Length {
        end := sorted.Length;
      }
      var result := sorted[o.offset..end];
      assert result == sorted[..][o.offset..end];
      assert result == Page(records, opts);
      r := Some(result);
    }
  }
}
