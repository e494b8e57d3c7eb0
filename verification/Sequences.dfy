/** Subsequences, counted from the back: what a lossy in-order queue delivers. */
module Sequences {
  predicate Subsequence<T(==)>(a: seq<T>, b: seq<T>) {
    a == [] ||
    (b != [] && ((a[|a| - 1] == b[|b| - 1] && Subsequence(a[..|a| - 1], b[..|b| - 1])) || Subsequence(a, b[..|b| - 1])))
  }

  lemma {:induction false} SubsequenceExtend<T>(a: seq<T>, b: seq<T>, x: T)
    requires Subsequence(a, b)
    ensures Subsequence(a, b + [x])
    ensures Subsequence(a + [x], b + [x])
  {
    assert (a + [x])[..|a|] == a;
    assert (b + [x])[..|b|] == b;
  }

  lemma {:induction false} SubsequenceAppend<T>(a: seq<T>, b: seq<T>, more: seq<T>)
    requires Subsequence(a, b)
    ensures Subsequence(a, b + more)
  {
    if more == [] {
      assert b + more == b;
    } else {
      SubsequenceAppend(a, b, more[..|more| - 1]);
      SubsequenceExtend(a, b + more[..|more| - 1], more[|more| - 1]);
      assert b + more == (b + more[..|more| - 1]) + [more[|more| - 1]];
    }
  }

  lemma SubsequenceOfPrefix<T>(a: seq<T>, b: seq<T>, c: seq<T>)
    requires Subsequence(a, b) && b <= c
    ensures Subsequence(a, c)
  {
    assert c == b + c[|b|..];
    SubsequenceAppend(a, b, c[|b|..]);
  }

  lemma AppendCancels<T>(a: seq<T>, b: seq<T>, x: T)
    ensures a + [x] == b + [x] <==> a == b
  {
    if a + [x] == b + [x] {
      assert (a + [x])[..|a|] == (b + [x])[..|b|];
    }
  }

  lemma {:induction false} SubsequenceTransitive<T>(a: seq<T>, b: seq<T>, c: seq<T>)
    requires Subsequence(a, b) && Subsequence(b, c)
    ensures Subsequence(a, c)
    decreases |b| + |c|
  {
    if a != [] && b != [] {
      var b0, c0 := b[..|b| - 1], c[..|c| - 1];
      if b[|b| - 1] == c[|c| - 1] && Subsequence(b0, c0) {
        if a[|a| - 1] == b[|b| - 1] && Subsequence(a[..|a| - 1], b0) {
          SubsequenceTransitive(a[..|a| - 1], b0, c0);
        } else {
          SubsequenceTransitive(a, b0, c0);
        }
      } else {
        SubsequenceTransitive(a, b, c0);
      }
    }
  }
}
