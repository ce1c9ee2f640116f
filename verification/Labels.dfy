/** The binding of an approval to an event: nine fields, the data labels as a multiset. */
module Labels {
  import opened Domain
  import opened Sorting

  // ----- String order ------------------------------------------------------------------

  /** Go's `<` on strings, by code point. */
  predicate StringLess(a: string, b: string) {
    b != "" && (a == "" || a[0] < b[0] || (a[0] == b[0] && StringLess(a[1..], b[1..])))
  }

  lemma {:induction false} StringTrichotomy(a: string, b: string)
    ensures a == b <==> !StringLess(a, b) && !StringLess(b, a)
    ensures !(StringLess(a, b) && StringLess(b, a))
  {
    if a != "" && b != "" {
      StringTrichotomy(a[1..], b[1..]);
      assert a == [a[0]] + a[1..] && b == [b[0]] + b[1..];
    }
  }

  lemma {:induction false} StringLessSplits(a: string, b: string, c: string)
    requires StringLess(a, b)
    ensures StringLess(a, c) || StringLess(c, b)
  {
    if a != "" && c != "" && a[0] == b[0] == c[0] {
      StringLessSplits(a[1..], b[1..], c[1..]);
    }
  }

  lemma StringOrder()
    ensures StrictWeakOrder(StringLess)
  {
    forall a, b ensures StringLess(a, b) ==> !StringLess(b, a) {
      StringTrichotomy(a, b);
    }
    forall a ensures !StringLess(a, a) {
      StringTrichotomy(a, a);
    }
    forall a, b, c ensures StringLess(a, b) ==> StringLess(a, c) || StringLess(c, b) {
      if StringLess(a, b) {
        StringLessSplits(a, b, c);
      }
    }
  }

  // ----- Label lists -------------------------------------------------------------------

  /** The occurrences of `x`: the class of `x` under an order that tells all strings apart. */
  lemma {:induction false} ClassOfString(s: seq<string>, x: string)
    ensures Class(s, StringLess, x) == seq(multiset(s)[x], i => x)
  {
    if s != [] {
      ClassOfString(s[1..], x);
      StringTrichotomy(x, s[0]);
      assert s == [s[0]] + s[1..];
    }
  }

  predicate SameLabels(a: seq<string>, b: seq<string>) {
    Sort(a, StringLess) == Sort(b, StringLess)
  }

  /** Label lists agree exactly when they are equal as multisets. */
  lemma SameLabelsIffMultisets(a: seq<string>, b: seq<string>)
    ensures SameLabels(a, b) <==> multiset(a) == multiset(b)
  {
    SortElements(a, StringLess);
    SortElements(b, StringLess);
    if multiset(a) == multiset(b) {
      StringOrder();
      SortIsStable(a, StringLess);
      SortIsStable(b, StringLess);
      forall x ensures Class(Sort(a, StringLess), StringLess, x) == Class(Sort(b, StringLess), StringLess, x) {
        ClassOfString(Sort(a, StringLess), x);
        ClassOfString(Sort(b, StringLess), x);
      }
      SortedStableUnique(Sort(a, StringLess), Sort(b, StringLess), StringLess);
    }
  }

  /** Copies both lists, sorts the copies in place and compares them. */
  method SameStringSet(a: seq<string>, b: seq<string>) returns (same: bool)
    ensures same <==> SameLabels(a, b)
    ensures same <==> multiset(a) == multiset(b)
  {
    var left := new string[|a|](i requires 0 <= i < |a| => a[i]);
    var right := new string[|b|](i requires 0 <= i < |b| => b[i]);
    assert left[..] == a && right[..] == b;
    StableSort(left, StringLess);
    StableSort(right, StringLess);
    same := left[..] == right[..];
    SameLabelsIffMultisets(a, b);
  }

  // ----- Event agreement ---------------------------------------------------------------

  /** The nine fields that bind an approved request to the event that uses it. */
  predicate Agrees(approved: RuntimeEvent, actual: RuntimeEvent) {
    && approved.tenantID == actual.tenantID
    && approved.agentID == actual.agentID
    && approved.userID == actual.userID
    && approved.taskID == actual.taskID
    && approved.eventType == actual.eventType
    && approved.toolName == actual.toolName
    && approved.resource == actual.resource
    && approved.action == actual.action
    && SameLabels(approved.dataLabels, actual.dataLabels)
  }

  /** What an approval binds, as one value. */
  function Binding(e: RuntimeEvent): (string, string, string, string, EventType, string, string, string,
                                      multiset<string>)
  {
    (e.tenantID, e.agentID, e.userID, e.taskID, e.eventType, e.toolName, e.resource, e.action, multiset(e.dataLabels))
  }

  /** Agreement is equality of bindings: an equivalence that ignores label order and every other field. */
  lemma AgreesIffSameBinding(a: RuntimeEvent, b: RuntimeEvent)
    ensures Agrees(a, b) <==> Binding(a) == Binding(b)
  {
    SameLabelsIffMultisets(a.dataLabels, b.dataLabels);
  }

  /** What is bound: tenant, agent, user, task, type, tool, resource and action, and the data labels with their
      multiplicities but without their order. */
  lemma BindingFields(a: RuntimeEvent, b: RuntimeEvent)
    ensures Binding(a) == Binding(b) <==>
      && a.tenantID == b.tenantID && a.agentID == b.agentID && a.userID == b.userID && a.taskID == b.taskID
      && a.eventType == b.eventType && a.toolName == b.toolName && a.resource == b.resource && a.action == b.action
      && forall x :: multiset(a.dataLabels)[x] == multiset(b.dataLabels)[x]
  {
    if forall x :: multiset(a.dataLabels)[x] == multiset(b.dataLabels)[x] {
      assert multiset(a.dataLabels) == multiset(b.dataLabels);
    }
  }

  method ApprovalEventMatches(approved: RuntimeEvent, actual: RuntimeEvent) returns (matches: bool)
    ensures matches <==> Agrees(approved, actual)
    ensures matches <==> Binding(approved) == Binding(actual)
  {
    var labels := SameStringSet(approved.dataLabels, actual.dataLabels);
    matches :=
      && approved.tenantID == actual.tenantID
      && approved.agentID == actual.agentID
      && approved.userID == actual.userID
      && approved.taskID == actual.taskID
      && approved.eventType == actual.eventType
      && approved.toolName == actual.toolName
      && approved.resource == actual.resource
      && approved.action == actual.action
      && labels;
  }
}
