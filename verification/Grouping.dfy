/** Grouping a list by key and flattening a list of lists: order-preserving
    within a group, and conserving every element across the groups. */
module Grouping {

  /** The elements with key k, in their original order. */
  function Group<T, K(==)>(xs: seq<T>, key: T -> K, k: K): seq<T> {
    if xs == [] then []
    else
      var last := xs[|xs| - 1];
      Group(xs[..|xs| - 1], key, k) + if key(last) == k then [last] else []
  }

  /** The elements with another key. */
  function Others<T, K(==)>(xs: seq<T>, key: T -> K, k: K): seq<T> {
    if xs == [] then []
    else
      var last := xs[|xs| - 1];
      Others(xs[..|xs| - 1], key, k) + if key(last) != k then [last] else []
  }

  function Flatten<T, V>(xs: seq<T>, f: T -> seq<V>): seq<V> {
    if xs == [] then [] else Flatten(xs[..|xs| - 1], f) + f(xs[|xs| - 1])
  }

  lemma {:induction false} GroupMembers<T, K>(xs: seq<T>, key: T -> K, k: K, x: T)
    ensures x in Group(xs, key, k) <==> x in xs && key(x) == k
    ensures x in Others(xs, key, k) <==> x in xs && key(x) != k
  {
    if xs != [] {
      GroupMembers(xs[..|xs| - 1], key, k, x);
      assert xs == xs[..|xs| - 1] + [xs[|xs| - 1]];
    }
  }

  lemma FlattenSnoc<T, V>(xs: seq<T>, x: T, f: T -> seq<V>)
    ensures Flatten(xs + [x], f) == Flatten(xs, f) + f(x)
  {
    assert (xs + [x])[..|xs|] == xs;
  }

  lemma {:induction false} FlattenMembers<T, V>(xs: seq<T>, f: T -> seq<V>, v: V)
    ensures v in Flatten(xs, f) <==> exists x :: x in xs && v in f(x)
  {
    if xs != [] {
      FlattenMembers(xs[..|xs| - 1], f, v);
      assert xs == xs[..|xs| - 1] + [xs[|xs| - 1]];
    }
  }

  /** Splitting off one key loses and invents nothing. */
  lemma {:induction false} SplitConserves<T, K, V>(xs: seq<T>, key: T -> K, k: K, f: T -> seq<V>)
    ensures multiset(Flatten(xs, f)) == multiset(Flatten(Group(xs, key, k), f))
            + multiset(Flatten(Others(xs, key, k), f))
  {
    if xs != [] {
      var front, last := xs[..|xs| - 1], xs[|xs| - 1];
      SplitConserves(front, key, k, f);
      if key(last) == k {
        FlattenSnoc(Group(front, key, k), last, f);
        assert Others(xs, key, k) == Others(front, key, k);
      } else {
        FlattenSnoc(Others(front, key, k), last, f);
        assert Group(xs, key, k) == Group(front, key, k);
      }
    }
  }

  /** The other groups do not notice. */
  lemma {:induction false} GroupOfOthers<T, K>(xs: seq<T>, key: T -> K, k: K, j: K)
    requires j != k
    ensures Group(Others(xs, key, k), key, j) == Group(xs, key, j)
  {
    if xs != [] {
      var front, last := xs[..|xs| - 1], xs[|xs| - 1];
      GroupOfOthers(front, key, k, j);
      if key(last) != k {
        assert (Others(front, key, k) + [last])[..|Others(front, key, k)|] == Others(front, key, k);
      } else {
        assert Others(xs, key, k) == Others(front, key, k);
      }
    }
  }

  predicate DistinctKeys<T, K(==)>(xs: seq<T>, key: T -> K) {
    forall i, j :: 0 <= i < j < |xs| ==> key(xs[i]) != key(xs[j])
  }

  /** Where keys are distinct, a group is its one element. */
  lemma {:induction false} GroupOfDistinct<T, K>(xs: seq<T>, key: T -> K, i: nat)
    requires DistinctKeys(xs, key) && i < |xs|
    ensures Group(xs, key, key(xs[i])) == [xs[i]]
  {
    var front, last := xs[..|xs| - 1], xs[|xs| - 1];
    if i < |xs| - 1 {
      GroupOfDistinct(front, key, i);
      assert front[i] == xs[i];
    } else {
      assert forall j :: 0 <= j < |front| ==> front[j] == xs[j];
      NoGroup(front, key, key(last));
    }
  }

  lemma {:induction false} NoGroup<T, K>(xs: seq<T>, key: T -> K, k: K)
    requires forall i :: 0 <= i < |xs| ==> key(xs[i]) != k
    ensures Group(xs, key, k) == []
  {
    if xs != [] {
      NoGroup(xs[..|xs| - 1], key, k);
    }
  }

  lemma GroupSnoc<T, K>(xs: seq<T>, x: T, key: T -> K, k: K)
    ensures Group(xs + [x], key, k) == if key(x) == k then Group(xs, key, k) + [x] else Group(xs, key, k)
  {
    assert (xs + [x])[..|xs|] == xs;
  }

  predicate Distinct<T(==)>(xs: seq<T>) {
    forall i, j :: 0 <= i < j < |xs| ==> xs[i] != xs[j]
  }

  lemma {:induction false} DistinctCounts<T>(xs: seq<T>, x: T)
    requires Distinct(xs)
    ensures multiset(xs)[x] == if x in xs then 1 else 0
  {
    if xs != [] {
      var front, last := xs[..|xs| - 1], xs[|xs| - 1];
      assert xs == front + [last];
      DistinctCounts(front, x);
    }
  }

  /** Lists without repetition and with the same elements are permutations. */
  lemma SameElements<T>(xs: seq<T>, ys: seq<T>)
    requires Distinct(xs) && Distinct(ys) && forall x :: x in xs <==> x in ys
    ensures multiset(xs) == multiset(ys)
  {
    forall x
      ensures multiset(xs)[x] == multiset(ys)[x]
    {
      DistinctCounts(xs, x);
      DistinctCounts(ys, x);
    }
  }

  /** The elements of xs in order, later repetitions left out. */
  function Dedup<T(==,!new)>(xs: seq<T>): (r: seq<T>)
    ensures Distinct(r)
    ensures forall x :: x in r <==> x in xs
  {
    if xs == [] then []
    else
      assert xs == xs[..|xs| - 1] + [xs[|xs| - 1]];
      var r := Dedup(xs[..|xs| - 1]);
      if xs[|xs| - 1] in r then r else r + [xs[|xs| - 1]]
  }

  lemma DedupSnoc<T(!new)>(xs: seq<T>, x: T)
    ensures Dedup(xs + [x]) == if x in xs then Dedup(xs) else Dedup(xs) + [x]
  {
    assert (xs + [x])[..|xs|] == xs;
  }

  /** One pass over the list, appending each element to the list of its key. */
  method GroupByKey<T, K(==)>(xs: seq<T>, key: T -> K) returns (groups: map<K, seq<T>>)
    ensures forall k :: k in groups <==> exists x :: x in xs && key(x) == k
    ensures forall k :: k in groups ==> groups[k] == Group(xs, key, k) && groups[k] != []
  {
    groups := map[];
    for i := 0 to |xs|
      invariant forall k :: k in groups <==> Group(xs[..i], key, k) != []
      invariant forall k :: k in groups ==> groups[k] == Group(xs[..i], key, k)
    {
      assert xs[..i + 1] == xs[..i] + [xs[i]];
      forall k
        ensures Group(xs[..i + 1], key, k) == if key(xs[i]) == k then Group(xs[..i], key, k) + [xs[i]]
                                              else Group(xs[..i], key, k)
      {
        GroupSnoc(xs[..i], xs[i], key, k);
      }
      var k := key(xs[i]);
      var group: seq<T> := if k in groups then groups[k] else [];
      assert group == Group(xs[..i], key, k);
      groups := groups[k := group + [xs[i]]];
    }
    assert xs[..|xs|] == xs;
    forall k
      ensures Group(xs, key, k) != [] <==> exists x :: x in xs && key(x) == k
    {
      NonEmptyGroup(xs, key, k);
    }
  }

  lemma NonEmptyGroup<T, K>(xs: seq<T>, key: T -> K, k: K)
    ensures Group(xs, key, k) != [] <==> exists x :: x in xs && key(x) == k
  {
    var g := Group(xs, key, k);
    if g != [] {
      assert g[0] in g;
      GroupMembers(xs, key, k, g[0]);
    }
    if x :| x in xs && key(x) == k {
      GroupMembers(xs, key, k, x);
    }
  }
}
