/** Mobile synchronisation by pages, and single against batch indicator checks. */
module Intelligence {
  import opened Text

  // ---------------------------------------------------------------------------
  // Paging
  // ---------------------------------------------------------------------------

  const MAX_LIMIT: int := 5000
  const DEFAULT_LIMIT: nat := 1000

  datatype Page<T> = Page(items: seq<T>, hasMore: bool, nextCursor: nat)

  /** A missing, malformed or excessive limit means the default. */
  function EffectiveLimit(limit: int): (r: nat)
    ensures 1 <= r <= MAX_LIMIT
  {
    if limit <= 0 || limit > MAX_LIMIT then DEFAULT_LIMIT else limit
  }

  function EffectiveOffset(offset: int, cursor: Option<int>): nat {
    if cursor.Some? && cursor.value > 0 then cursor.value else if offset < 0 then 0 else offset
  }

  function Slice<T>(all: seq<T>, limit: nat, offset: nat): seq<T> {
    if offset >= |all| then [] else if offset + limit < |all| then all[offset..offset + limit] else all[offset..]
  }

  function SyncPage<T>(all: seq<T>, limit: int, offset: int, cursor: Option<int>): Page<T> {
    var from := EffectiveOffset(offset, cursor);
    var items := Slice(all, EffectiveLimit(limit), from);
    var hasMore := from + |items| < |all|;
    Page(items, hasMore, if hasMore then from + |items| else 0)
  }

  /** A page, from the request's own numbers: limits from 1 to 5000 are honoured and
      any other means 1000; a positive cursor goes before the offset, and a negative
      offset means 0. */
  lemma PageMeaning<T>(all: seq<T>, limit: int, offset: int, cursor: Option<int>)
    ensures var page := SyncPage(all, limit, offset, cursor);
            var from := if cursor.Some? && cursor.value > 0 then cursor.value else if offset > 0 then offset else 0;
            var n := if 1 <= limit <= 5000 then limit else 1000;
            && |page.items| == (if |all| <= from then 0 else if |all| - from <= n then |all| - from else n)
            && (forall i :: 0 <= i < |page.items| ==> page.items[i] == all[from + i])
            && (page.hasMore <==> from + n < |all|)
            && page.nextCursor == if from + n < |all| then from + n else 0
  {
    SliceMeaning(all, EffectiveLimit(limit), EffectiveOffset(offset, cursor));
  }

  lemma SliceMeaning<T>(all: seq<T>, n: nat, from: nat)
    ensures |Slice(all, n, from)| == if |all| <= from then 0 else if |all| - from <= n then |all| - from else n
    ensures forall i :: 0 <= i < |Slice(all, n, from)| ==> Slice(all, n, from)[i] == all[from + i]
  {}

  /** A client that follows next_cursor over an unchanging list, asking for any
      limit it likes each time, ends with the whole list, each item once. */
  method FollowCursor<T>(all: seq<T>, limits: nat -> int) returns (got: seq<T>, pages: nat)
    ensures got == all
    ensures 1 <= pages <= |all| + 1
  {
    var page := SyncPage(all, limits(0), 0, None);
    got, pages := page.items, 1;
    while page.hasMore
      invariant |got| <= |all| && got == all[..|got|]
      invariant page.hasMore ==> page.nextCursor == |got| && 0 < |got| < |all|
      invariant !page.hasMore ==> got == all
      invariant 1 <= pages && (page.hasMore ==> pages <= |got|) && pages <= |all| + 1
      decreases page.hasMore, |all| - |got|
    {
      ghost var before := got;
      page := SyncPage(all, limits(pages), 0, Some(page.nextCursor));
      got := got + page.items;
      pages := pages + 1;
      assert got == all[..|got|];
    }
  }

  /** The delta form of a page: created since, and merely updated since. */
  method SplitDelta<T>(items: seq<T>, createdSince: T -> bool) returns (created: seq<T>, updated: seq<T>)
    ensures multiset(created) + multiset(updated) == multiset(items)
    ensures forall x :: x in created ==> createdSince(x)
    ensures forall x :: x in updated ==> !createdSince(x)
  {
    created, updated := [], [];
    for i := 0 to |items|
      invariant multiset(created) + multiset(updated) == multiset(items[..i])
      invariant forall x :: x in created ==> createdSince(x)
      invariant forall x :: x in updated ==> !createdSince(x)
    {
      assert items[..i + 1] == items[..i] + [items[i]];
      if createdSince(items[i]) {
        created := created + [items[i]];
      } else {
        updated := updated + [items[i]];
      }
    }
    assert items[..|items|] == items;
  }

  // ---------------------------------------------------------------------------
  // Checks
  // ---------------------------------------------------------------------------

  /** The hexadecimal SHA-256 of a value. */
  type Digest = string -> string

  ghost predicate Injective(digest: Digest) {
    forall v, w :: digest(v) == digest(w) ==> v == w
  }

  datatype Indicator = Indicator(value: string, hash: string)

  /** Rows carry the digest of their value, which the table keeps unique. */
  ghost predicate WellHashed(table: set<Indicator>, digest: Digest) {
    && (forall r :: r in table ==> r.hash == digest(r.value))
    && (forall r, s :: r in table && s in table && r.hash == s.hash ==> r == s)
  }

  /** The single check: the row with the value's hash. */
  predicate Check(table: set<Indicator>, digest: Digest, value: string) {
    exists r :: r in table && r.hash == digest(value)
  }

  /** The repository's batch query, which compares the column `value`. */
  function RowsByValue(table: set<Indicator>, keys: seq<string>): set<Indicator> {
    set r | r in table && r.value in keys
  }

  /** The query that the handler's use of the result supposes. */
  function RowsByHash(table: set<Indicator>, keys: seq<string>): set<Indicator> {
    set r | r in table && r.hash in keys
  }

  function Hashes(values: seq<string>, digest: Digest): (r: seq<string>)
    ensures |r| == |values| && forall i :: 0 <= i < |r| ==> r[i] == digest(values[i])
  {
    seq(|values|, i requires 0 <= i < |values| => digest(values[i]))
  }

  /** i is the last position of its value in the request. */
  predicate LastOccurrence(values: seq<string>, i: nat)
    requires i < |values|
  {
    forall k :: i < k < |values| ==> values[k] != values[i]
  }

  /** The same as far as the digests can tell. */
  predicate LastWithDigest(values: seq<string>, digest: Digest, i: nat)
    requires i < |values|
  {
    forall k :: i < k < |values| ==> digest(values[k]) != digest(values[i])
  }

  datatype Reply = NoIndicators | TooMany | Results(found: seq<Option<Indicator>>)

  /** The handler's loops over the rows that the repository returned. */
  method CheckBatch(values: seq<string>, digest: Digest, rows: set<Indicator>) returns (reply: Reply)
    ensures reply == NoIndicators <==> |values| == 0
    ensures reply == TooMany <==> |values| > 100
    ensures reply.Results? ==> |reply.found| == |values|
    ensures reply.Results? ==> forall i :: 0 <= i < |values| ==>
      (reply.found[i].Some? <==> BatchSays(values, digest, rows, i))
    ensures reply.Results? ==> forall i :: 0 <= i < |values| && reply.found[i].Some? ==>
      reply.found[i].value in rows && reply.found[i].value.hash == digest(values[i])
  {
    if |values| == 0 {
      return NoIndicators;
    }
    if |values| > 100 {
      return TooMany;
    }
    var hashToIndex: map<string, nat> := map[];
    for i := 0 to |values|
      invariant forall h :: h in hashToIndex ==> hashToIndex[h] < i && digest(values[hashToIndex[h]]) == h
      invariant forall k :: 0 <= k < i ==> digest(values[k]) in hashToIndex && hashToIndex[digest(values[k])] >= k
    {
      hashToIndex := hashToIndex[digest(values[i]) := i];
    }
    var results: seq<Option<Indicator>> := seq(|values|, _ => None);
    var todo := rows;
    while todo != {}
      invariant todo <= rows && |results| == |values|
      invariant forall i :: 0 <= i < |values| ==>
        (results[i].Some? <==> exists r :: r in rows - todo && r.hash in hashToIndex && hashToIndex[r.hash] == i)
      invariant forall i :: 0 <= i < |values| && results[i].Some? ==>
        results[i].value in rows && results[i].value.hash == digest(values[i])
      decreases todo
    {
      var r :| r in todo;
      ghost var before := results;
      if r.hash in hashToIndex {
        results := results[hashToIndex[r.hash] := Some(r)];
      }
      assert forall q :: q in rows - (todo - {r}) <==> q in rows - todo || q == r;
      todo := todo - {r};
    }
    forall i | 0 <= i < |values|
      ensures hashToIndex[digest(values[i])] == i <==> LastWithDigest(values, digest, i)
    {
      var last := hashToIndex[digest(values[i])];
      assert digest(values[last]) == digest(values[i]);
    }
    return Results(results);
  }

  /** The batch reply that the handler computes from a set of rows. */
  ghost predicate BatchSays(values: seq<string>, digest: Digest, rows: set<Indicator>, i: nat)
    requires i < |values|
  {
    LastWithDigest(values, digest, i) && exists r :: r in rows && r.hash == digest(values[i])
  }

  lemma LastByDigest(values: seq<string>, digest: Digest, i: nat)
    requires Injective(digest) && i < |values|
    ensures LastWithDigest(values, digest, i) <==> LastOccurrence(values, i)
  {}

  /** Batch and single check agree on every value of the request. */
  ghost predicate Agrees(values: seq<string>, digest: Digest, table: set<Indicator>, rows: set<Indicator>) {
    forall i :: 0 <= i < |values| ==> (BatchSays(values, digest, rows, i) <==> Check(table, digest, values[i]))
  }

  /** With a lookup by hash, the two agree exactly when no stored value is asked
      for twice; distinct values suffice. */
  lemma AgreesByHash(values: seq<string>, digest: Digest, table: set<Indicator>)
    requires Injective(digest) && WellHashed(table, digest)
    ensures Agrees(values, digest, table, RowsByHash(table, Hashes(values, digest)))
       <==> forall i :: 0 <= i < |values| && Check(table, digest, values[i]) ==> LastOccurrence(values, i)
  {
    var rows := RowsByHash(table, Hashes(values, digest));
    forall i | 0 <= i < |values|
      ensures (exists r :: r in rows && r.hash == digest(values[i])) <==> Check(table, digest, values[i])
      ensures LastWithDigest(values, digest, i) <==> LastOccurrence(values, i)
    {
      assert Hashes(values, digest)[i] == digest(values[i]);
      LastByDigest(values, digest, i);
    }
  }

  /** The row that the repository's query can return for a value: its digest was
      computed as a key, so the value must itself be the digest of a value of the
      request. */
  lemma RowFoundByValue(values: seq<string>, digest: Digest, table: set<Indicator>, i: nat)
    requires Injective(digest) && WellHashed(table, digest) && i < |values|
    ensures (exists r :: r in RowsByValue(table, Hashes(values, digest)) && r.hash == digest(values[i]))
       <==> Check(table, digest, values[i]) && values[i] in Hashes(values, digest)
  {
    if r :| r in table && r.hash == digest(values[i]) {
      assert r.value == values[i];
    }
  }

  /** The handler looks hashes up in the column of plain values. Batch and single
      check agree exactly when every requested value that is stored is the digest
      of another requested value, and is asked for at its last position. */
  lemma AgreesByValueExactly(values: seq<string>, digest: Digest, table: set<Indicator>)
    requires Injective(digest) && WellHashed(table, digest)
    ensures Agrees(values, digest, table, RowsByValue(table, Hashes(values, digest)))
       <==> forall i :: 0 <= i < |values| && Check(table, digest, values[i]) ==>
              LastOccurrence(values, i) && values[i] in Hashes(values, digest)
  {
    forall i | 0 <= i < |values|
      ensures (exists r :: r in RowsByValue(table, Hashes(values, digest)) && r.hash == digest(values[i]))
         <==> Check(table, digest, values[i]) && values[i] in Hashes(values, digest)
      ensures LastWithDigest(values, digest, i) <==> LastOccurrence(values, i)
    {
      RowFoundByValue(values, digest, table, i);
      LastByDigest(values, digest, i);
    }
  }

  /** So a stored indicator, checked alone in a batch of one, is reported clean
      unless it is its own digest. */
  lemma StoredValueMissed(value: string, digest: Digest, table: set<Indicator>)
    requires Injective(digest) && WellHashed(table, digest)
    requires Check(table, digest, value) && digest(value) != value
    ensures !BatchSays([value], digest, RowsByValue(table, Hashes([value], digest)), 0)
  {
    RowFoundByValue([value], digest, table, 0);
    assert Hashes([value], digest) == [digest(value)];
  }
}
