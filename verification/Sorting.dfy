/** Stable sorting, as `sort.SliceStable` and `sort.Strings` use it: the result is pinned down
    by order and stability alone. */
module Sorting {
  import opened Sequences

  /** `less` orders equivalence classes: irreflexive, transitive, with transitive incomparability. */
  ghost predicate StrictWeakOrder<T(!new)>(less: (T, T) -> bool) {
    && (forall x :: !less(x, x))
    && (forall x, y :: less(x, y) ==> !less(y, x))
    && (forall x, y, z :: less(x, y) ==> less(x, z) || less(z, y))
  }

  ghost predicate Sorted<T>(s: seq<T>, less: (T, T) -> bool) {
    forall i, j :: 0 <= i < j < |s| ==> !less(s[j], s[i])
  }

  function Peers<T>(less: (T, T) -> bool, x: T): T -> bool {
    y => !less(x, y) && !less(y, x)
  }

  /** The elements of `s` that `less` cannot tell from `x`, in order. */
  function Class<T>(s: seq<T>, less: (T, T) -> bool, x: T): seq<T> {
    Filter(s, Peers(less, x))
  }

  /** `out` holds the elements of `s`, those that compare equal still in the order of `s`. */
  ghost predicate StablyRearranges<T(!new)>(out: seq<T>, s: seq<T>, less: (T, T) -> bool) {
    forall x :: Class(out, less, x) == Class(s, less, x)
  }

  /** Puts `x` after the last element it must not precede. */
  function Insert<T>(s: seq<T>, less: (T, T) -> bool, x: T): seq<T> {
    if s == [] || !less(x, s[|s| - 1]) then s + [x]
    else Insert(s[..|s| - 1], less, x) + [s[|s| - 1]]
  }

  function Sort<T>(s: seq<T>, less: (T, T) -> bool): seq<T> {
    if s == [] then [] else Insert(Sort(s[..|s| - 1], less), less, s[|s| - 1])
  }

  lemma {:induction false} InsertElements<T>(s: seq<T>, less: (T, T) -> bool, x: T)
    ensures multiset(Insert(s, less, x)) == multiset(s) + multiset{x}
  {
    if s != [] {
      InsertElements(s[..|s| - 1], less, x);
      assert s == s[..|s| - 1] + [s[|s| - 1]];
    }
  }

  /** Sorting loses and duplicates nothing. */
  lemma {:induction false} SortElements<T>(s: seq<T>, less: (T, T) -> bool)
    ensures multiset(Sort(s, less)) == multiset(s)
  {
    if s != [] {
      SortElements(s[..|s| - 1], less);
      InsertElements(Sort(s[..|s| - 1], less), less, s[|s| - 1]);
      assert s == s[..|s| - 1] + [s[|s| - 1]];
    }
  }

  lemma NotLessTransitive<T(!new)>(less: (T, T) -> bool, x: T, y: T, z: T)
    requires StrictWeakOrder(less)
    requires !less(x, y) && !less(y, z)
    ensures !less(x, z)
  {
  }

  lemma {:induction false} InsertSorted<T(!new)>(s: seq<T>, less: (T, T) -> bool, x: T)
    requires StrictWeakOrder(less) && Sorted(s, less)
    ensures Sorted(Insert(s, less, x), less)
  {
    if s == [] || !less(x, s[|s| - 1]) {
      forall i | 0 <= i < |s| - 1 ensures !less(x, s[i]) {
        NotLessTransitive(less, x, s[|s| - 1], s[i]);
      }
    } else {
      var init, last := s[..|s| - 1], s[|s| - 1];
      InsertSorted(init, less, x);
      var r := Insert(init, less, x);
      InsertElements(init, less, x);
      forall i | 0 <= i < |r| ensures !less(last, r[i]) {
        assert r[i] in multiset(r);
        if r[i] != x {
          assert r[i] in multiset(init);
          var k :| 0 <= k < |init| && init[k] == r[i];
        }
      }
    }
  }

  lemma {:induction false} InsertClass<T(!new)>(s: seq<T>, less: (T, T) -> bool, x: T, z: T)
    requires StrictWeakOrder(less)
    ensures Class(Insert(s, less, x), less, z) == Class(s + [x], less, z)
  {
    if s == [] || !less(x, s[|s| - 1]) {
    } else {
      var init, last := s[..|s| - 1], s[|s| - 1];
      var eq := Peers(less, z);
      InsertClass(init, less, x, z);
      FilterSnoc(Insert(init, less, x), last, eq);
      FilterSnoc(init, x, eq);
      FilterSnoc(init, last, eq);
      FilterSnoc(s, x, eq);
      assert s == init + [last];
      assert !(eq(x) && eq(last));
    }
  }

  /** Sorting yields a sorted, stable rearrangement. */
  lemma {:induction false} SortIsStable<T(!new)>(s: seq<T>, less: (T, T) -> bool)
    requires StrictWeakOrder(less)
    ensures Sorted(Sort(s, less), less)
    ensures StablyRearranges(Sort(s, less), s, less)
  {
    if s != [] {
      var init, last := s[..|s| - 1], s[|s| - 1];
      assert s == init + [last];
      SortIsStable(init, less);
      InsertSorted(Sort(init, less), less, last);
      forall z ensures Class(Sort(s, less), less, z) == Class(s, less, z) {
        InsertClass(Sort(init, less), less, last, z);
        assert Class(Sort(init, less), less, z) == Class(init, less, z);
        FilterSnoc(Sort(init, less), last, Peers(less, z));
        FilterSnoc(init, last, Peers(less, z));
      }
    }
  }

  lemma ClassHead<T(!new)>(s: seq<T>, less: (T, T) -> bool)
    requires StrictWeakOrder(less)
    ensures s != [] ==> Class(s, less, s[0]) != [] && Class(s, less, s[0])[0] == s[0]
  {
  }

  lemma HeadsAgree<T(!new)>(a: seq<T>, b: seq<T>, less: (T, T) -> bool)
    requires StrictWeakOrder(less)
    requires Sorted(a, less)
    requires StablyRearranges(a, b, less)
    requires a != [] && b != []
    ensures !less(b[0], a[0])
  {
    var y := b[0];
    ClassHead(b, less);
    var z := Class(a, less, y)[0];
    FilterMember(a, Peers(less, y), z);
    assert z in Class(a, less, y);
    var k :| 0 <= k < |a| && a[k] == z;
    NotLessTransitive(less, y, z, a[0]);
  }

  /** Order and stability leave no choice: there is only one sorted, stable rearrangement. */
  lemma {:induction false} SortedStableUnique<T(!new)>(a: seq<T>, b: seq<T>, less: (T, T) -> bool)
    requires StrictWeakOrder(less)
    requires Sorted(a, less) && Sorted(b, less)
    requires StablyRearranges(a, b, less)
    ensures a == b
  {
    ClassHead(a, less);
    ClassHead(b, less);
    if a != [] && b != [] {
      HeadsAgree(a, b, less);
      HeadsAgree(b, a, less);
      assert Class(b, less, a[0])[0] == b[0];
      forall x ensures Class(a[1..], less, x) == Class(b[1..], less, x) {
        assert Class(a, less, x) == Class(b, less, x);
        if Peers(less, x)(a[0]) {
          assert Class(a[1..], less, x) == Class(a, less, x)[1..];
          assert Class(b[1..], less, x) == Class(b, less, x)[1..];
        }
      }
      SortedStableUnique(a[1..], b[1..], less);
    }
  }

  lemma InsertPasses<T>(prefix: seq<T>, j: nat, less: (T, T) -> bool, x: T)
    requires 0 < j <= |prefix| && less(x, prefix[j - 1])
    ensures Insert(prefix[..j], less, x) + prefix[j..] == Insert(prefix[..j - 1], less, x) + prefix[j - 1..]
  {
    assert prefix[..j][..j - 1] == prefix[..j - 1];
    assert [prefix[j - 1]] + prefix[j..] == prefix[j - 1..];
  }

  lemma InsertHere<T>(s: seq<T>, less: (T, T) -> bool, x: T)
    requires s == [] || !less(x, s[|s| - 1])
    ensures Insert(s, less, x) == s + [x]
  {
  }

  lemma Spliced<T>(prefix: seq<T>, j: nat, x: T, after: seq<T>)
    requires j <= |prefix| && |after| == |prefix| + 1 && after[j] == x
    requires forall k :: 0 <= k < j ==> after[k] == prefix[k]
    requires forall k :: j < k <= |prefix| ==> after[k] == prefix[k - 1]
    ensures after == prefix[..j] + [x] + prefix[j..]
  {
  }

  /** Moves element `i` down to its place among the sorted elements before it. */
  method Sink<T(!new)>(a: array<T>, i: nat, less: (T, T) -> bool)
    requires i < a.Length
    modifies a
    ensures a[..i + 1] == Insert(old(a[..i]), less, old(a[i]))
    ensures forall k :: i < k < a.Length ==> a[k] == old(a[k])
  {
    ghost var prefix, x := a[..i], a[i];
    var j := i;
    assert prefix[..j] == prefix && prefix[j..] == [];
    while j > 0 && less(a[j], a[j - 1])
      invariant 0 <= j <= i
      invariant a[j] == x
      invariant forall k :: 0 <= k < j ==> a[k] == prefix[k]
      invariant forall k :: j < k <= i ==> a[k] == prefix[k - 1]
      invariant forall k :: i < k < a.Length ==> a[k] == old(a[k])
      invariant Insert(prefix, less, x) == Insert(prefix[..j], less, x) + prefix[j..]
    {
      InsertPasses(prefix, j, less, x);
      a[j], a[j - 1] := a[j - 1], a[j];
      j := j - 1;
    }
    InsertHere(prefix[..j], less, x);
    Spliced(prefix, j, x, a[..i + 1]);
  }

  lemma SortNext<T>(s: seq<T>, i: nat, less: (T, T) -> bool)
    requires i < |s|
    ensures Sort(s[..i + 1], less) == Insert(Sort(s[..i], less), less, s[i])
  {
    assert s[..i + 1][..i] == s[..i];
  }

  /** The in-place insertion sort behind both library calls on short slices. */
  method StableSort<T(!new)>(a: array<T>, less: (T, T) -> bool)
    modifies a
    ensures a[..] == Sort(old(a[..]), less)
  {
    ghost var s := a[..];
    for i := 0 to a.Length
      invariant a[..i] == Sort(s[..i], less)
      invariant forall k :: i <= k < a.Length ==> a[k] == s[k]
    {
      SortNext(s, i, less);
      Sink(a, i, less);
    }
    assert a[..] == a[..a.Length] && s == s[..a.Length];
  }
}
