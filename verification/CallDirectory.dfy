/** The call-directory store shared by the host app and the CallKit extension:
    number lists normalized into the strictly ascending order CallKit demands. */
module CallDirectory {
  import opened Text

  datatype Entry = Entry(number: int, caption: string)

  predicate StrictlyIncreasing(xs: seq<int>) {
    forall i, j :: 0 <= i < j < |xs| ==> xs[i] < xs[j]
  }

  // ---------------------------------------------------------------------------
  // Blocked numbers
  // ---------------------------------------------------------------------------

  /** x in its place in an ascending list, unless already there. */
  function Insert(x: int, xs: seq<int>): seq<int> {
    if xs == [] || x < xs[0] then [x] + xs
    else if x == xs[0] then xs
    else [xs[0]] + Insert(x, xs[1..])
  }

  /** The positive numbers, each once, in ascending order. */
  function Normalized(numbers: seq<int>): seq<int> {
    if numbers == [] then []
    else if numbers[0] > 0 then Insert(numbers[0], Normalized(numbers[1..]))
    else Normalized(numbers[1..])
  }

  lemma {:induction false} InsertMembers(x: int, xs: seq<int>, y: int)
    ensures y in Insert(x, xs) <==> y == x || y in xs
  {
    if !(xs == [] || x < xs[0]) && x != xs[0] {
      InsertMembers(x, xs[1..], y);
      assert xs == [xs[0]] + xs[1..];
    }
  }

  lemma {:induction false} InsertSorted(x: int, xs: seq<int>)
    requires StrictlyIncreasing(xs)
    ensures StrictlyIncreasing(Insert(x, xs))
  {
    if !(xs == [] || x < xs[0]) && x != xs[0] {
      InsertSorted(x, xs[1..]);
      var r := Insert(x, xs[1..]);
      forall y | y in r
        ensures xs[0] < y
      {
        InsertMembers(x, xs[1..], y);
        if y in xs[1..] {
          var i :| 0 <= i < |xs| - 1 && xs[1..][i] == y;
          assert xs[0] < xs[i + 1];
        }
      }
      forall j | 0 < j < |r| + 1
        ensures xs[0] < ([xs[0]] + r)[j]
      {
        assert r[j - 1] in r;
      }
    }
  }

  /** Blocked numbers come out strictly ascending, positive, and exactly the
      positive numbers of the input. */
  lemma {:induction false} NormalizedMeaning(numbers: seq<int>)
    ensures StrictlyIncreasing(Normalized(numbers))
    ensures forall y :: y in Normalized(numbers) <==> y in numbers && y > 0
  {
    if numbers != [] {
      NormalizedMeaning(numbers[1..]);
      assert numbers == [numbers[0]] + numbers[1..];
      if numbers[0] > 0 {
        InsertSorted(numbers[0], Normalized(numbers[1..]));
        forall y
          ensures y in Insert(numbers[0], Normalized(numbers[1..]))
                  <==> y == numbers[0] || y in Normalized(numbers[1..])
        {
          InsertMembers(numbers[0], Normalized(numbers[1..]), y);
        }
      }
    }
  }

  /** A strictly ascending list is determined by its elements. */
  lemma {:induction false} AscendingUnique(a: seq<int>, b: seq<int>)
    requires StrictlyIncreasing(a) && StrictlyIncreasing(b) && forall x :: x in a <==> x in b
    ensures a == b
  {
    assert b == [] || b[0] in b;
    if a != [] {
      assert a[0] in a;
      var i :| 0 <= i < |b| && b[i] == a[0];
      assert b[0] in b;
      var j :| 0 <= j < |a| && a[j] == b[0];
      assert a[0] == b[0];
      forall x
        ensures x in a[1..] <==> x in b[1..]
      {
        HeadOnce(a, x);
        HeadOnce(b, x);
      }
      AscendingUnique(a[1..], b[1..]);
      assert a == [a[0]] + a[1..] && b == [b[0]] + b[1..];
    }
  }

  lemma HeadOnce(a: seq<int>, x: int)
    requires StrictlyIncreasing(a) && a != []
    ensures x in a[1..] <==> x in a && x != a[0]
  {
    assert a == [a[0]] + a[1..];
    if x in a[1..] {
      var i :| 0 <= i < |a| - 1 && a[1..][i] == x;
      assert a[0] < a[i + 1];
    }
  }

  lemma NormalizedIdempotent(numbers: seq<int>)
    ensures Normalized(Normalized(numbers)) == Normalized(numbers)
  {
    NormalizedMeaning(numbers);
    NormalizedMeaning(Normalized(numbers));
    AscendingUnique(Normalized(numbers), Normalized(Normalized(numbers)));
  }

  // ---------------------------------------------------------------------------
  // Identification entries
  // ---------------------------------------------------------------------------

  predicate Usable(e: Entry) {
    e.number > 0 && e.caption != ""
  }

  function Numbers(entries: seq<Entry>): (r: seq<int>)
    ensures |r| == |entries| && forall i :: 0 <= i < |r| ==> r[i] == entries[i].number
  {
    seq(|entries|, i requires 0 <= i < |entries| => entries[i].number)
  }

  /** Some result of the library's sort by number: which of several entries with one
      number comes first is not specified. */
  ghost predicate SortedOrder(stored: seq<Entry>, order: seq<Entry>) {
    && multiset(order) == multiset(stored)
    && forall i, j :: 0 <= i < j < |order| ==> order[i].number <= order[j].number
  }

  /** Usable entries in strictly ascending order, one for every number that has a
      usable entry. */
  ghost predicate IsLoaded(stored: seq<Entry>, out: seq<Entry>) {
    && StrictlyIncreasing(Numbers(out))
    && (forall e :: e in out ==> Usable(e) && e in stored)
    && (forall e :: e in stored && Usable(e) ==> e.number in Numbers(out))
  }

  method LoadIdentificationEntries(stored: seq<Entry>, order: seq<Entry>) returns (out: seq<Entry>)
    requires SortedOrder(stored, order)
    ensures IsLoaded(stored, out)
  {
    var seen: set<int> := {};
    out := [];
    for i := 0 to |order|
      invariant StrictlyIncreasing(Numbers(out))
      invariant forall e :: e in out ==> Usable(e) && e in order[..i]
      invariant forall n :: n in seen <==> n in Numbers(out)
      invariant forall e :: e in order[..i] && Usable(e) ==> e.number in seen
    {
      var e := order[i];
      assert order[..i + 1] == order[..i] + [e];
      if e.number > 0 && e.caption != "" && e.number !in seen {
        forall k | 0 <= k < |out|
          ensures out[k].number < e.number
        {
          assert out[k] in order[..i];
          assert out[k].number == Numbers(out)[k];
        }
        seen := seen + {e.number};
        assert Numbers(out + [e]) == Numbers(out) + [e.number];
        out := out + [e];
      }
    }
    assert order[..|order|] == order;
    forall e
      ensures e in order <==> e in stored
    {
      assert e in multiset(order) <==> e in multiset(stored);
    }
  }

  /** A load: numbers strictly ascending, positive, with a caption of the stored list,
      and none with a caption left out. */
  lemma LoadedMeaning(stored: seq<Entry>, out: seq<Entry>)
    ensures IsLoaded(stored, out)
       <==> && (forall i, j :: 0 <= i < j < |out| ==> out[i].number < out[j].number)
            && (forall e :: e in out ==> e in stored && e.number > 0 && e.caption != "")
            && (forall e :: e in stored && e.number > 0 && e.caption != "" ==>
                  exists o :: o in out && o.number == e.number)
  {
    NumbersAscend(out);
    forall n: int
      ensures n in Numbers(out) <==> exists o :: o in out && o.number == n
    {
      NumberOccurs(out, n);
    }
  }

  lemma NumberOccurs(out: seq<Entry>, n: int)
    ensures n in Numbers(out) <==> exists o :: o in out && o.number == n
  {
    if n in Numbers(out) {
      var i :| 0 <= i < |out| && Numbers(out)[i] == n;
      assert out[i] in out;
    }
    if o :| o in out && o.number == n {
      var i :| 0 <= i < |out| && out[i] == o;
      assert Numbers(out)[i] == n;
    }
  }

  lemma NumbersAscend(out: seq<Entry>)
    ensures StrictlyIncreasing(Numbers(out)) <==> forall i, j :: 0 <= i < j < |out| ==> out[i].number < out[j].number
  {
    if StrictlyIncreasing(Numbers(out)) {
      forall i, j | 0 <= i < j < |out|
        ensures out[i].number < out[j].number
      {
        assert Numbers(out)[i] < Numbers(out)[j];
      }
    }
  }

  lemma LoadedNumbers(stored: seq<Entry>, out: seq<Entry>, n: int)
    requires IsLoaded(stored, out)
    ensures n in Numbers(out) <==> n > 0 && exists e :: e in stored && e.number == n && e.caption != ""
  {
    if n in Numbers(out) {
      var i :| 0 <= i < |out| && Numbers(out)[i] == n;
      assert out[i] in out;
    }
  }

  /** The numbers, and so the count, do not depend on how the sort breaks ties: the
      count reported is the number of entries CallKit is given. */
  lemma LoadedNumbersUnique(stored: seq<Entry>, a: seq<Entry>, b: seq<Entry>)
    requires IsLoaded(stored, a) && IsLoaded(stored, b)
    ensures Numbers(a) == Numbers(b) && |a| == |b|
  {
    forall n
      ensures n in Numbers(a) <==> n in Numbers(b)
    {
      LoadedNumbers(stored, a, n);
      LoadedNumbers(stored, b, n);
    }
    AscendingUnique(Numbers(a), Numbers(b));
    assert |Numbers(a)| == |a| && |Numbers(b)| == |b|;
  }

  /** No number has two usable entries that differ. */
  ghost predicate CaptionsUnambiguous(stored: seq<Entry>) {
    forall e, f :: e in stored && f in stored && Usable(e) && Usable(f) && e.number == f.number ==> e == f
  }

  lemma SameCaptions(stored: seq<Entry>, a: seq<Entry>, b: seq<Entry>)
    requires IsLoaded(stored, a) && IsLoaded(stored, b) && CaptionsUnambiguous(stored)
    ensures a == b
  {
    LoadedNumbersUnique(stored, a, b);
    forall i | 0 <= i < |a|
      ensures a[i] == b[i]
    {
      assert a[i] in a && b[i] in b && Numbers(a)[i] == Numbers(b)[i];
    }
  }

  lemma OtherLoad(stored: seq<Entry>, a: seq<Entry>) returns (b: seq<Entry>)
    requires IsLoaded(stored, a) && !CaptionsUnambiguous(stored)
    ensures IsLoaded(stored, b) && b != a
  {
    var e, f :| e in stored && f in stored && Usable(e) && Usable(f) && e.number == f.number && e != f;
    assert e.number in Numbers(a);
    var k :| 0 <= k < |a| && Numbers(a)[k] == e.number;
    var other := if a[k] == e then f else e;
    AnotherCaption(stored, a, k, other);
    b := a[k := other];
    assert b[k] != a[k];
  }

  /** The whole list, captions included, is determined exactly when no number has
      two different usable captions. */
  lemma CaptionsDeterminedExactly(stored: seq<Entry>, a: seq<Entry>)
    requires IsLoaded(stored, a)
    ensures (forall b :: IsLoaded(stored, b) ==> b == a) <==> CaptionsUnambiguous(stored)
  {
    if CaptionsUnambiguous(stored) {
      forall b | IsLoaded(stored, b)
        ensures b == a
      {
        SameCaptions(stored, a, b);
      }
    } else {
      var b := OtherLoad(stored, a);
    }
  }

  lemma AnotherCaption(stored: seq<Entry>, a: seq<Entry>, k: nat, e: Entry)
    requires IsLoaded(stored, a) && k < |a| && e in stored && Usable(e) && e.number == a[k].number
    ensures IsLoaded(stored, a[k := e])
  {
    assert Numbers(a[k := e]) == Numbers(a);
    forall x | x in a[k := e]
      ensures Usable(x) && x in stored
    {
      assert x == e || x in a;
    }
  }

  /** Saving what was loaded is a fixed point of loading. */
  lemma SaveLoadedFixed(stored: seq<Entry>, out: seq<Entry>, again: seq<Entry>)
    requires IsLoaded(stored, out) && IsLoaded(out, again)
    ensures again == out
  {
    assert IsLoaded(out, out) by {
      forall e | e in out
        ensures e.number in Numbers(out)
      {
        var i :| 0 <= i < |out| && out[i] == e;
        assert Numbers(out)[i] == e.number;
      }
    }
    forall e, f | e in out && f in out && e.number == f.number
      ensures e == f
    {
      var i :| 0 <= i < |out| && out[i] == e;
      var j :| 0 <= j < |out| && out[j] == f;
      assert Numbers(out)[i] == Numbers(out)[j];
    }
    SameCaptions(out, again, out);
  }

  // ---------------------------------------------------------------------------
  // The store
  // ---------------------------------------------------------------------------

  class CallDirectoryStore {
    /** Whether the shared container is provisioned. */
    const available: bool
    var blocked: seq<int>
    var identified: seq<Entry>

    constructor (available: bool)
      ensures this.available == available && blocked == [] && identified == []
    {
      this.available := available;
      blocked, identified := [], [];
    }

    method Save(newBlocked: seq<int>, newIdentified: seq<Entry>) returns (saved: bool)
      modifies this
      ensures saved <==> available
      ensures blocked == (if available then Normalized(newBlocked) else old(blocked))
      ensures identified == (if available then newIdentified else old(identified))
    {
      if !available {
        return false;
      }
      blocked, identified := Normalized(newBlocked), newIdentified;
      return true;
    }

    method LoadBlockedNumbers() returns (numbers: seq<int>)
      ensures StrictlyIncreasing(numbers)
      ensures forall y :: y in numbers <==> y in blocked && y > 0
    {
      numbers := Normalized(blocked);
      NormalizedMeaning(blocked);
    }

    /** The two counts are those of any load from the same contents. */
    method Counts(order: seq<Entry>) returns (blockedCount: nat, identifiedCount: nat)
      requires SortedOrder(identified, order)
      ensures blockedCount == |Normalized(blocked)|
      ensures forall out :: IsLoaded(identified, out) ==> identifiedCount == |out|
    {
      blockedCount := |Normalized(blocked)|;
      var entries := LoadIdentificationEntries(identified, order);
      identifiedCount := |entries|;
      forall out | IsLoaded(identified, out)
        ensures |entries| == |out|
      {
        LoadedNumbersUnique(identified, entries, out);
      }
    }
  }
}
