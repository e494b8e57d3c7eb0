/** Forensic uploads: choosing the longest allowed extension of a file name, and
    extracting an archive within a size cap. */
module Uploads {
  import opened Text

  // ---------------------------------------------------------------------------
  // Extensions
  // ---------------------------------------------------------------------------

  predicate LongestFirst(exts: seq<string>) {
    forall i, j :: 0 <= i < j < |exts| ==> |exts[i]| >= |exts[j]|
  }

  twostate predicate Permuted(a: array<string>)
    reads a
  {
    multiset(a[..]) == multiset(old(a[..]))
  }

  method Exchange(a: array<string>, i: nat, j: nat)
    requires i < j < a.Length
    modifies a
    ensures a[i] == old(a[j]) && a[j] == old(a[i])
    ensures forall k :: 0 <= k < a.Length && k != i && k != j ==> a[k] == old(a[k])
    ensures Permuted(a)
  {
    a[i], a[j] := a[j], a[i];
  }

  /** The exchange sort of the upload handler, in place. */
  method SortExtensions(a: array<string>)
    modifies a
    ensures LongestFirst(a[..])
    ensures forall i, j :: 0 <= i < j < a.Length ==> |a[i]| >= |a[j]|
    ensures multiset(a[..]) == multiset(old(a[..]))
    ensures Permuted(a)
  {
    for i := 0 to a.Length
      invariant Permuted(a)
      invariant forall p, q :: 0 <= p < i && p < q < a.Length ==> |a[p]| >= |a[q]|
    {
      for j := i + 1 to a.Length
        invariant Permuted(a)
        invariant forall p, q :: 0 <= p < i && p < q < a.Length ==> |a[p]| >= |a[q]|
        invariant forall q :: i < q < j ==> |a[i]| >= |a[q]|
      {
        if |a[j]| > |a[i]| {
          Exchange(a, i, j);
        }
      }
    }
  }

  method MatchAllowedExtension(base: string, allowed: seq<string>) returns (ext: Option<string>)
    ensures ext.None? <==> forall e :: e in allowed ==> !HasSuffix(Lower(base), e)
    ensures ext.Some? ==> FirstMatch(Lower(base), allowed, ext.value)
  {
    var lower := Lower(base);
    for i := 0 to |allowed|
      invariant forall k :: 0 <= k < i ==> !HasSuffix(lower, allowed[k])
    {
      if HasSuffix(lower, allowed[i]) {
        return Some(allowed[i]);
      }
    }
    return None;
  }

  predicate FirstMatchAt(name: string, exts: seq<string>, i: nat)
    requires i < |exts|
  {
    HasSuffix(name, exts[i]) && forall k :: 0 <= k < i ==> !HasSuffix(name, exts[k])
  }

  /** ext is the first of the list that the name ends with. */
  ghost predicate FirstMatch(name: string, sorted: seq<string>, ext: string) {
    exists i :: 0 <= i < |sorted| && ext == sorted[i] && FirstMatchAt(name, sorted, i)
  }

  /** The sort makes the first match the longest allowed suffix, and the only one
      of its length: the order in which the map of extensions was walked, and the
      order the sort leaves among equals, cannot be seen. */
  lemma FirstMatchIsLongest(name: string, sorted: seq<string>, ext: string, other: string)
    requires LongestFirst(sorted) && FirstMatch(name, sorted, ext)
    requires other in sorted && HasSuffix(name, other)
    ensures |other| < |ext| || other == ext
  {
    var i :| 0 <= i < |sorted| && ext == sorted[i] && FirstMatchAt(name, sorted, i);
    var j :| 0 <= j < |sorted| && sorted[j] == other;
    assert j >= i;
  }

  lemma ChoiceIndependentOfOrder(name: string, a: seq<string>, b: seq<string>, x: string, y: string)
    requires multiset(a) == multiset(b) && LongestFirst(a) && LongestFirst(b)
    requires FirstMatch(name, a, x) && FirstMatch(name, b, y)
    ensures x == y
  {
    assert x in multiset(a) && y in multiset(b);
    assert x in multiset(b) && y in multiset(a);
    FirstMatchIsLongest(name, a, x, y);
    FirstMatchIsLongest(name, b, y, x);
  }

  /** Without the sort, a shorter extension listed first hides the longer one. */
  lemma UnsortedCanShorten()
    ensures FirstMatch("a.tar.gz", [".gz", ".tar.gz"], ".gz") && HasSuffix("a.tar.gz", ".tar.gz")
  {
    assert "a.tar.gz"[5..] == ".gz" && "a.tar.gz"[1..] == ".tar.gz";
    assert [".gz", ".tar.gz"][0] == ".gz";
  }

  // ---------------------------------------------------------------------------
  // Archives
  // ---------------------------------------------------------------------------

  /** size is what reading the entry to its end would yield, whatever the archive's
      header declares. */
  datatype Entry = Directory | File(size: nat) | Escaping

  datatype Outcome = Extracted | TooLarge | EscapesDirectory

  function TrueSize(entries: seq<Entry>): nat {
    if entries == [] then 0
    else TrueSize(entries[..|entries| - 1]) + if entries[|entries| - 1].File? then entries[|entries| - 1].size else 0
  }

  /** The sizes of the files add up, and nothing else does. */
  lemma TrueSizeAdds(entries: seq<Entry>, size: nat)
    ensures TrueSize([]) == 0 && TrueSize(entries + [File(size)]) == TrueSize(entries) + size
    ensures TrueSize(entries + [Directory]) == TrueSize(entries) == TrueSize(entries + [Escaping])
  {
    assert (entries + [File(size)])[..|entries|] == entries;
    assert (entries + [Directory])[..|entries|] == entries && (entries + [Escaping])[..|entries|] == entries;
  }

  lemma {:induction false} TrueSizeMonotone(entries: seq<Entry>, i: nat)
    requires i <= |entries|
    ensures TrueSize(entries[..i]) <= TrueSize(entries)
  {
    if i < |entries| {
      TrueSizeMonotone(entries[..|entries| - 1], i);
      assert entries[..|entries| - 1][..i] == entries[..i];
    } else {
      assert entries[..i] == entries;
    }
  }

  predicate HasEscaping(entries: seq<Entry>) {
    exists i :: 0 <= i < |entries| && entries[i].Escaping?
  }

  /** Each file is copied through a reader limited to one byte more than what is
      left, so at most one byte beyond the cap is ever written. */
  method ExtractZipArchive(entries: seq<Entry>, maxBytes: nat) returns (outcome: Outcome, written: nat)
    ensures written <= maxBytes + 1
    ensures outcome == TooLarge ==> written == maxBytes + 1 && TrueSize(entries) > maxBytes
    ensures outcome == Extracted ==> written == TrueSize(entries) <= maxBytes && !HasEscaping(entries)
    ensures outcome == EscapesDirectory ==> HasEscaping(entries)
    ensures !HasEscaping(entries) ==> (outcome == Extracted <==> TrueSize(entries) <= maxBytes)
  {
    var total := 0;
    for i := 0 to |entries|
      invariant total == TrueSize(entries[..i]) <= maxBytes
      invariant !HasEscaping(entries[..i])
    {
      assert entries[..i + 1][..i] == entries[..i];
      TrueSizeMonotone(entries, i + 1);
      var f := entries[i];
      if f.Escaping? {
        return EscapesDirectory, total;
      }
      if f.Directory? {
        continue;
      }
      var limit := maxBytes - total + 1;
      var copied := if f.size < limit then f.size else limit;
      total := total + copied;
      if total > maxBytes {
        return TooLarge, total;
      }
    }
    assert entries[..|entries|] == entries;
    return Extracted, total;
  }
}
