/** Facts about sequences: concatenated images, sub-sequences and permutations. */
module Sequences {

  predicate NoDuplicates<T(==)>(s: seq<T>) {
    forall i, j :: 0 <= i < j < |s| ==> s[i] != s[j]
  }

  /** `keys` lists the elements of `all` once each, in some order: one iteration over a Go map. */
  predicate Enumerates<T(==)>(keys: seq<T>, all: set<T>) {
    NoDuplicates(keys) && (forall k :: k in keys ==> k in all) && (forall k :: k in all ==> k in keys)
  }

  /** The order in which one iteration over a Go map meets its keys: any order at all. */
  method MapOrder<T(==)>(all: set<T>) returns (keys: seq<T>)
    ensures Enumerates(keys, all)
  {
    keys := [];
    var rest := all;
    while rest != {}
      invariant rest <= all && Enumerates(keys, all - rest)
      decreases |rest|
    {
      var k :| k in rest;
      rest := rest - {k};
      keys := keys + [k];
    }
    assert all - rest == all;
  }

  /** Such an order for ghost code, which cannot call the method. */
  lemma {:induction false} SomeOrder<T>(all: set<T>) returns (keys: seq<T>)
    ensures Enumerates(keys, all)
    decreases |all|
  {
    if all == {} {
      keys := [];
    } else {
      var k :| k in all;
      var rest := SomeOrder(all - {k});
      keys := rest + [k];
    }
  }

  function FlatMap<A, B>(xs: seq<A>, g: A -> seq<B>): seq<B> {
    if xs == [] then [] else g(xs[0]) + FlatMap(xs[1..], g)
  }

  function Filter<A>(xs: seq<A>, keep: A -> bool): seq<A> {
    if xs == [] then []
    else if keep(xs[0]) then [xs[0]] + Filter(xs[1..], keep)
    else Filter(xs[1..], keep)
  }

  lemma {:induction false} FlatMapConcat<A, B>(xs: seq<A>, ys: seq<A>, g: A -> seq<B>)
    ensures FlatMap(xs + ys, g) == FlatMap(xs, g) + FlatMap(ys, g)
  {
    if xs == [] {
      assert xs + ys == ys;
    } else {
      calc {
        FlatMap(xs + ys, g);
        { assert (xs + ys)[1..] == xs[1..] + ys; }
        g(xs[0]) + FlatMap(xs[1..] + ys, g);
        { FlatMapConcat(xs[1..], ys, g); }
        FlatMap(xs, g) + FlatMap(ys, g);
      }
    }
  }

  lemma {:induction false} FilterConcat<A>(xs: seq<A>, ys: seq<A>, keep: A -> bool)
    ensures Filter(xs + ys, keep) == Filter(xs, keep) + Filter(ys, keep)
  {
    if xs == [] {
      assert xs + ys == ys;
    } else {
      FilterConcat(xs[1..], ys, keep);
      assert (xs + ys)[1..] == xs[1..] + ys;
      assert (xs + ys)[0] == xs[0];
    }
  }

  lemma FilterSnoc<A>(xs: seq<A>, y: A, keep: A -> bool)
    ensures Filter(xs + [y], keep) == Filter(xs, keep) + (if keep(y) then [y] else [])
  {
    FilterConcat(xs, [y], keep);
  }

  lemma FlatMapSnoc<A, B>(xs: seq<A>, y: A, g: A -> seq<B>)
    ensures FlatMap(xs + [y], g) == FlatMap(xs, g) + g(y)
  {
    FlatMapConcat(xs, [y], g);
  }

  lemma {:induction false} FilterMember<A>(xs: seq<A>, keep: A -> bool, x: A)
    ensures x in Filter(xs, keep) <==> x in xs && keep(x)
  {
    if xs != [] {
      FilterMember(xs[1..], keep, x);
      assert xs == [xs[0]] + xs[1..];
    }
  }

  lemma {:induction false} FilterCount<A>(xs: seq<A>, keep: A -> bool, x: A)
    ensures multiset(Filter(xs, keep))[x] == if keep(x) then multiset(xs)[x] else 0
  {
    if xs != [] {
      FilterCount(xs[1..], keep, x);
      assert xs == [xs[0]] + xs[1..];
    }
  }

  lemma {:induction false} FlatMapMember<A, B>(xs: seq<A>, g: A -> seq<B>, y: B)
    ensures y in FlatMap(xs, g) <==> exists x :: x in xs && y in g(x)
  {
    if xs != [] {
      FlatMapMember(xs[1..], g, y);
      assert xs == [xs[0]] + xs[1..];
    }
  }

  /** Where each element has one image, the image lists them in order. */
  lemma {:induction false} FlatMapSingles<A, B>(xs: seq<A>, g: A -> seq<B>)
    requires forall x | x in xs :: |g(x)| == 1
    ensures |FlatMap(xs, g)| == |xs| && forall i | 0 <= i < |xs| :: xs[i] in xs && FlatMap(xs, g)[i] == g(xs[i])[0]
  {
    if xs != [] {
      assert xs[0] in xs && forall x :: x in xs[1..] ==> x in xs;
      FlatMapSingles(xs[1..], g);
    }
  }

  lemma {:induction false} FlatMapCongruent<A, B>(xs: seq<A>, g: A -> seq<B>, h: A -> seq<B>)
    requires forall x :: x in xs ==> g(x) == h(x)
    ensures FlatMap(xs, g) == FlatMap(xs, h)
  {
    if xs != [] {
      FlatMapCongruent(xs[1..], g, h);
    }
  }

  /** Dropping elements without an image changes nothing. */
  lemma {:induction false} FlatMapOfFilter<A, B>(xs: seq<A>, keep: A -> bool, g: A -> seq<B>)
    requires forall x :: x in xs && !keep(x) ==> g(x) == []
    ensures FlatMap(Filter(xs, keep), g) == FlatMap(xs, g)
  {
    if xs != [] {
      FlatMapOfFilter(xs[1..], keep, g);
      FlatMapConcat(if keep(xs[0]) then [xs[0]] else [], Filter(xs[1..], keep), g);
    }
  }

  lemma FlatMapMiddle<A, B>(before: seq<A>, x: A, after: seq<A>, g: A -> seq<B>)
    ensures multiset(FlatMap(before + [x] + after, g)) == multiset(g(x)) + multiset(FlatMap(before + after, g))
  {
    FlatMapConcat(before + [x], after, g);
    FlatMapSnoc(before, x, g);
    FlatMapConcat(before, after, g);
  }

  /** Where the head of `xs` stands in a permutation of `xs`. */
  lemma Occurrence<A>(xs: seq<A>, ys: seq<A>) returns (i: nat)
    requires xs != [] && multiset(xs) == multiset(ys)
    ensures i < |ys| && ys == ys[..i] + [xs[0]] + ys[i + 1..]
    ensures multiset(xs[1..]) == multiset(ys[..i] + ys[i + 1..])
  {
    var x := xs[0];
    assert xs == [x] + xs[1..];
    assert x in multiset(ys);
    i :| 0 <= i < |ys| && ys[i] == x;
    assert ys == ys[..i] + [x] + ys[i + 1..];
    assert multiset(ys) == multiset(ys[..i]) + multiset{x} + multiset(ys[i + 1..]);
    assert multiset(xs) == multiset{x} + multiset(xs[1..]);
    assert multiset(xs[1..]) == multiset(xs) - multiset{x} == multiset(ys[..i]) + multiset(ys[i + 1..]);
  }

  /** A permutation of the arguments permutes the concatenated images. */
  lemma {:induction false} FlatMapPermutation<A, B>(xs: seq<A>, ys: seq<A>, g: A -> seq<B>)
    requires multiset(xs) == multiset(ys)
    ensures multiset(FlatMap(xs, g)) == multiset(FlatMap(ys, g))
  {
    if xs == [] {
      assert |multiset(ys)| == 0;
    } else {
      var i := Occurrence(xs, ys);
      FlatMapPermutation(xs[1..], ys[..i] + ys[i + 1..], g);
      FlatMapMiddle(ys[..i], xs[0], ys[i + 1..], g);
    }
  }

  lemma {:induction false} NoDuplicatesCount<T>(s: seq<T>, x: T)
    requires NoDuplicates(s)
    ensures multiset(s)[x] == if x in s then 1 else 0
  {
    if s != [] {
      NoDuplicatesCount(s[1..], x);
      assert s == [s[0]] + s[1..];
      assert x in s <==> x == s[0] || x in s[1..];
    }
  }

  lemma {:induction false} NoDuplicatesFilter<T>(s: seq<T>, keep: T -> bool)
    requires NoDuplicates(s)
    ensures NoDuplicates(Filter(s, keep))
  {
    if s != [] {
      NoDuplicatesFilter(s[1..], keep);
      FilterMember(s[1..], keep, s[0]);
    }
  }

  /** Duplicate-free listings of the same elements are permutations of each other. */
  lemma SameElements<T>(xs: seq<T>, ys: seq<T>)
    requires NoDuplicates(xs) && NoDuplicates(ys)
    requires forall x :: x in xs <==> x in ys
    ensures multiset(xs) == multiset(ys)
  {
    forall x ensures multiset(xs)[x] == multiset(ys)[x] {
      NoDuplicatesCount(xs, x);
      NoDuplicatesCount(ys, x);
    }
  }

  /** Walking a map in the order `keys` and picking one value at the keys to keep, or none: the picked keys are
      listed once each, and the values follow them. */
  lemma PickedInOrder<A, B>(keys: seq<A>, all: set<A>, keep: A -> bool, g: A -> seq<B>) returns (own: seq<A>)
    requires Enumerates(keys, all)
    requires forall k | k in all :: |g(k)| == if keep(k) then 1 else 0
    ensures NoDuplicates(own) && forall k :: k in own <==> k in all && keep(k)
    ensures |FlatMap(keys, g)| == |own|
    ensures forall i | 0 <= i < |own| :: own[i] in all && keep(own[i]) && FlatMap(keys, g)[i] == g(own[i])[0]
  {
    own := Filter(keys, keep);
    NoDuplicatesFilter(keys, keep);
    forall k ensures k in own <==> k in all && keep(k) {
      FilterMember(keys, keep, k);
    }
    forall k | k in own ensures k in all && keep(k) && |g(k)| == 1 {
      FilterMember(keys, keep, k);
    }
    FlatMapOfFilter(keys, keep, g);
    FlatMapSingles(own, g);
    forall i | 0 <= i < |own| ensures own[i] in all && keep(own[i]) {
      assert own[i] in own;
    }
  }
}
