/** Audit paging: the page, the `has_more` probe, and what a client sees that follows it. */
module Paging {
  import opened Domain
  import opened AuditStore
  import opened Sequences
  import opened Sorting

  // ----- The order ---------------------------------------------------------------------

  /** The answer to a query is newest first, keeps the append order of records with equal times, and
      holds the matching records once each; no other sequence does the first two. */
  lemma OrderedIsTheOnlyOrder(log: seq<AuditRecord>, opts: ListOptions, other: seq<AuditRecord>)
    ensures var all, matching := Ordered(log, opts), Filter(log, Selected(opts));
      && (forall i, j :: 0 <= i < j < |all| ==> all[i].recordedAt >= all[j].recordedAt)
      && multiset(all) == multiset(matching)
      && StablyRearranges(all, matching, Newer)
      && (Sorted(other, Newer) && StablyRearranges(other, matching, Newer) ==> other == all)
  {
    var matching := Filter(log, Selected(opts));
    NewerIsOrder();
    SortIsStable(matching, Newer);
    SortElements(matching, Newer);
    if Sorted(other, Newer) && StablyRearranges(other, matching, Newer) {
      forall x ensures Class(other, Newer, x) == Class(Ordered(log, opts), Newer, x) {
        assert Class(other, Newer, x) == Class(matching, Newer, x);
      }
      SortedStableUnique(other, Ordered(log, opts), Newer);
    }
  }

  lemma {:induction false} FilterLength<T>(s: seq<T>, keep: T -> bool)
    ensures |Filter(s, keep)| <= |s|
  {
    if s != [] {
      FilterLength(s[1..], keep);
    }
  }

  lemma OrderedLength(log: seq<AuditRecord>, opts: ListOptions)
    ensures |Ordered(log, opts)| == |Filter(log, Selected(opts))| <= |log|
  {
    SortElements(Filter(log, Selected(opts)), Newer);
    assert |multiset(Ordered(log, opts))| == |Ordered(log, opts)|;
    assert |multiset(Filter(log, Selected(opts)))| == |Filter(log, Selected(opts))|;
    FilterLength(log, Selected(opts));
  }

  /** Limit and offset do not change what a query selects. */
  lemma {:induction false} FilterIgnoresWindow(log: seq<AuditRecord>, a: ListOptions, b: ListOptions)
    requires b == a.(limit := b.limit, offset := b.offset)
    ensures Filter(log, Selected(a)) == Filter(log, Selected(b))
  {
    if log != [] {
      FilterIgnoresWindow(log[1..], a, b);
    }
  }

  /** A query answers with exactly the records that pass every filter that is set. */
  lemma AnsweredIff(log: seq<AuditRecord>, opts: ListOptions, record: AuditRecord)
    ensures record in Ordered(log, opts) <==>
        (&& record in log
         && (opts.tenantID != "" ==> record.event.tenantID == opts.tenantID)
         && (opts.agentID != "" ==> record.event.agentID == opts.agentID)
         && (opts.userID != "" ==> record.event.userID == opts.userID)
         && (opts.taskID != "" ==> record.event.taskID == opts.taskID)
         && (opts.decision != OtherDecision("") ==> record.result.decision == opts.decision)
         && (opts.eventType != OtherEventType("") ==> record.event.eventType == opts.eventType))
  {
    var matching := Filter(log, Selected(opts));
    SortElements(matching, Newer);
    FilterMember(log, Selected(opts), record);
    assert record in matching <==> record in multiset(matching);
    assert record in Ordered(log, opts) <==> record in multiset(Ordered(log, opts));
  }

  lemma WindowOf<T>(all: seq<T>, offset: nat, limit: nat, page: seq<T>)
    requires page == if offset >= |all| then [] else if offset + limit > |all| then all[offset..]
                     else all[offset..offset + limit]
    ensures |page| == (if |all| <= offset then 0 else if |all| - offset <= limit then |all| - offset else limit)
    ensures forall i | 0 <= i < |page| :: page[i] == all[offset + i]
  {
  }

  /** The window of a page: a limit that is not positive counts as 100, one above 1000 as 1000, a negative
      offset as 0; the page holds the records of that window, as far as there are any. */
  lemma PageWindow(log: seq<AuditRecord>, opts: ListOptions)
    ensures var limit := if opts.limit <= 0 then 100 else if opts.limit > 1000 then 1000 else opts.limit;
      var offset := if opts.offset < 0 then 0 else opts.offset;
      var all, page := Ordered(log, opts), Page(log, opts);
      && |page| == (if |all| <= offset then 0 else if |all| - offset <= limit then |all| - offset else limit)
      && forall i | 0 <= i < |page| :: page[i] == all[offset + i]
  {
    var o := opts.Normalize();
    FilterIgnoresWindow(log, opts, o);
    WindowOf(Ordered(log, o), o.offset, o.limit, Page(log, opts));
  }

  // ----- The handler -------------------------------------------------------------------

  /** The probe query: one record, just beyond the page. */
  function NextPage(o: ListOptions): ListOptions {
    o.(limit := 1, offset := AddInt(o.offset, o.limit))
  }

  predicate HasMore(log: seq<AuditRecord>, o: ListOptions) {
    |Page(log, NextPage(o))| > 0
  }

  datatype AuditPage = AuditPage(events: seq<AuditRecord>, limit: Int, offset: Int, count: nat, hasMore: bool)

  /** Answers a query in two reads of the store, between which others may append `arrivals`. */
  method ListAuditEvents(store: MemoryStore, opts: ListOptions, arrivals: seq<AuditRecord>, now: int,
                         cancelled: (bool, bool))
    returns (r: Option<AuditPage>)
    requires store.Valid() && |store.records| + |arrivals| <= MAX_LOG
    modifies store
    ensures store.Valid() && old(store.records) <= store.records
    ensures |store.records| <= |old(store.records)| + |arrivals|
    ensures r.None? <==> cancelled.0 || cancelled.1
    ensures r.Some? ==> var o := opts.Normalize();
      r.value.events == Page(old(store.records), o)
      && r.value.limit == o.limit && r.value.offset == o.offset && r.value.count == |r.value.events|
      && r.value.hasMore == HasMore(store.records, o)
  {
    var normalized := opts.Normalize();
    var records := store.List(normalized, cancelled.0);
    if records.None? {
      return None;
    }
    for i := 0 to |arrivals|
      invariant store.Valid() && old(store.records) <= store.records
      invariant |store.records| == |old(store.records)| + i
    {
      var _ := store.Append(arrivals[i], now, false);
    }
    var nextPageOpts := normalized;
    nextPageOpts := nextPageOpts.(limit := 1);
    nextPageOpts := nextPageOpts.(offset := AddInt(normalized.offset, normalized.limit));
    var nextPageRecords := store.List(nextPageOpts, cancelled.1);
    if nextPageRecords.None? {
      return None;
    }
    r := Some(AuditPage(records.value, normalized.limit, normalized.offset, |records.value|,
                        |nextPageRecords.value| > 0));
  }

  // ----- What `has_more` means ---------------------------------------------------------

  lemma SameWindowless(log: seq<AuditRecord>, o: ListOptions)
    ensures Ordered(log, NextPage(o).Normalize()) == Ordered(log, o)
  {
    FilterIgnoresWindow(log, o, NextPage(o).Normalize());
  }

  /** The probe tells whether matching records remain beyond the page, exactly when `offset + limit`
      fits the integer type or nothing matches at all. */
  lemma HasMoreIsExact(log: seq<AuditRecord>, o: ListOptions)
    requires o.Normal() && |log| <= MAX_LOG
    ensures (HasMore(log, o) <==> |Ordered(log, o)| > o.offset + o.limit)
       <==> (o.offset + o.limit <= MAX_INT || |Ordered(log, o)| == 0)
  {
    SameWindowless(log, o);
    OrderedLength(log, o);
  }

  /** A query that overflows: an offset beyond the log claims that more follows. */
  lemma HasMoreOverflowExample(record: AuditRecord)
    ensures var o := ListOptions(100, MAX_INT, "", "", "", "", OtherDecision(""), OtherEventType(""));
      Page([record], o) == [] && HasMore([record], o)
  {
    var o := ListOptions(100, MAX_INT, "", "", "", "", OtherDecision(""), OtherEventType(""));
    assert Selected(o)(record);
    assert Filter([record], Selected(o)) == [record];
    OrderedLength([record], o);
    HasMoreIsExact([record], o);
  }

  /** When records arrive between the two reads, a negative probe still means that the page was the
      last one of the log the page was read from. */
  lemma LastPageStaysLast(log: seq<AuditRecord>, arrivals: seq<AuditRecord>, o: ListOptions)
    requires o.Normal() && |log| + |arrivals| <= MAX_LOG
    requires !HasMore(log + arrivals, o)
    ensures |Ordered(log, o)| <= o.offset + o.limit
  {
    HasMoreIsExact(log + arrivals, o);
    OrderedLength(log, o);
    OrderedLength(log + arrivals, o);
    FilterConcat(log, arrivals, Selected(o));
  }

  // ----- Page after page ---------------------------------------------------------------

  /** The offset of the `n`-th page: `n` times the limit. */
  function PageStart(limit: nat, n: nat): nat {
    if n == 0 then 0 else PageStart(limit, n - 1) + limit
  }

  /** The first `n` pages at offsets 0, limit, 2 * limit, and so on. */
  function FirstPages(log: seq<AuditRecord>, o: ListOptions, n: nat): seq<AuditRecord>
    requires o.Normal() && PageStart(o.limit, n) <= MAX_INT
  {
    if n == 0 then []
    else FirstPages(log, o, n - 1) + Page(log, o.(offset := PageStart(o.limit, n - 1)))
  }

  lemma PageIs(log: seq<AuditRecord>, o: ListOptions)
    requires o.Normal()
    ensures var all := Ordered(log, o);
      Page(log, o) == if o.offset >= |all| then [] else if o.offset + o.limit > |all| then all[o.offset..]
                      else all[o.offset..o.offset + o.limit]
  {
    assert o.Normalize() == o;
  }

  /** The first `n` elements, or all when there are fewer. */
  function Taken<T>(s: seq<T>, n: nat): seq<T> {
    if n <= |s| then s[..n] else s
  }

  lemma NextTile(log: seq<AuditRecord>, o: ListOptions, from: Int)
    requires o.Normal() && 0 <= from
    ensures Taken(Ordered(log, o), from) + Page(log, o.(offset := from)) == Taken(Ordered(log, o), from + o.limit)
  {
    FilterIgnoresWindow(log, o, o.(offset := from));
    PageIs(log, o.(offset := from));
  }

  /** Consecutive pages tile the answer: no record is skipped, none is repeated. */
  lemma {:induction false} PagesTile(log: seq<AuditRecord>, o: ListOptions, n: nat)
    requires o.Normal() && PageStart(o.limit, n) <= MAX_INT
    ensures FirstPages(log, o, n) == Taken(Ordered(log, o), PageStart(o.limit, n))
  {
    if n > 0 {
      PagesTile(log, o, n - 1);
      NextTile(log, o, PageStart(o.limit, n - 1));
    }
  }

  /** A client that asks for page after page and stops where `has_more` is false has the whole answer: every
      matching record once, newest first. */
  lemma FollowingIsComplete(log: seq<AuditRecord>, o: ListOptions, n: nat)
    requires o.Normal() && |log| <= MAX_LOG && 0 < n && PageStart(o.limit, n) <= MAX_INT
    requires !HasMore(log, o.(offset := PageStart(o.limit, n - 1)))
    ensures FirstPages(log, o, n) == Ordered(log, o)
    ensures multiset(FirstPages(log, o, n)) == multiset(Filter(log, Selected(o)))
  {
    var last := o.(offset := PageStart(o.limit, n - 1));
    HasMoreIsExact(log, last);
    FilterIgnoresWindow(log, o, last);
    PagesTile(log, o, n);
    SortElements(Filter(log, Selected(o)), Newer);
  }

  /** While `has_more` is true there is another, non-empty page. */
  lemma MoreMeansNextPage(log: seq<AuditRecord>, o: ListOptions)
    requires o.Normal() && |log| <= MAX_LOG && o.offset + o.limit <= MAX_INT && HasMore(log, o)
    ensures Page(log, o.(offset := o.offset + o.limit)) != [] && |Page(log, o)| == o.limit
  {
    HasMoreIsExact(log, o);
    FilterIgnoresWindow(log, o, o.(offset := o.offset + o.limit));
    PageIs(log, o);
    PageIs(log, o.(offset := o.offset + o.limit));
  }

  lemma {:induction false} PageStartBounds(limit: nat, n: nat)
    requires 1 <= limit <= 1000
    ensures n <= PageStart(limit, n) <= 1000 * n
  {
    if n > 0 {
      PageStartBounds(limit, n - 1);
    }
  }

  /** The client stops: some page within the length of the log is the last. */
  lemma FollowingEnds(log: seq<AuditRecord>, o: ListOptions)
    requires o.Normal() && |log| <= MAX_LOG
    ensures exists n | 0 < n <= |log| + 1 && PageStart(o.limit, n) <= MAX_INT ::
      !HasMore(log, o.(offset := PageStart(o.limit, n - 1)))
  {
    var n := |log| + 1;
    PageStartBounds(o.limit, n);
    var last := o.(offset := PageStart(o.limit, n - 1));
    HasMoreIsExact(log, last);
    OrderedLength(log, last);
  }
}
