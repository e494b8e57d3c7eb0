/** The blocklist cache: a table of rules behind an in-memory hash prefilter that
    an asynchronous job builds row by row, with other processes writing to the
    same table. */
module Blocklist {
  import opened Text

  datatype RuleType = Exact | Wildcard | Regex

  datatype Row = Row(ruleType: RuleType, expires: Option<nat>)

  /** The bucket of a name: its hash value reduced to the filter's size. */
  type Hash = string -> nat

  /** queued: the builds waiting on the serial queue. todo: the rows that a running
      build has still to read. foreign: the names that another process wrote since
      the last build began; at the start, all rows. */
  datatype Cache = Cache(rows: map<string, Row>, allow: set<string>, filter: set<nat>, now: nat,
                         queued: nat, todo: set<string>, foreign: set<string>)

  /** Opening the cache schedules the first build. */
  function Opened(rows: map<string, Row>, allow: set<string>, now: nat): Cache {
    Cache(rows, allow, {}, now, 1, {}, rows.Keys)
  }

  predicate Unexpired(row: Row, now: nat) {
    row.expires.None? || row.expires.value > now
  }

  // ---------------------------------------------------------------------------
  // Updates
  // ---------------------------------------------------------------------------

  datatype Step =
    | Add(domain: string, row: Row)
    | BulkAdd(domains: seq<string>)
    | Remove(domain: string)
    | Clean
    | Clear
    | Allow(domain: string)
    | Disallow(domain: string)
    | BuildStart
    | BuildRow(domain: string)
    | Foreign(domain: string, row: Row)
    | Tick(elapsed: nat)

  function Hashes(domain: string, h: Hash): set<nat> {
    {h(domain), h(Lower(domain))}
  }

  function Added(c: Cache, domain: string, row: Row, h: Hash): Cache {
    c.(rows := c.rows[Lower(domain) := row], filter := c.filter + Hashes(domain, h))
  }

  function BulkAdded(c: Cache, domains: seq<string>, h: Hash): Cache {
    if domains == [] then c
    else Added(BulkAdded(c, domains[..|domains| - 1], h), domains[|domains| - 1], Row(Exact, None), h)
  }

  function WithoutKey(rows: map<string, Row>, key: string): map<string, Row> {
    map k | k in rows && k != key :: rows[k]
  }

  function Cleaned(rows: map<string, Row>, now: nat): map<string, Row> {
    map k | k in rows && !(rows[k].expires.Some? && rows[k].expires.value < now) :: rows[k]
  }

  function Next(c: Cache, step: Step, h: Hash): Cache {
    match step
    case Add(domain, row) => Added(c, domain, row, h)
    case BulkAdd(domains) => BulkAdded(c, domains, h).(queued := c.queued + 1)
    case Remove(domain) => c.(rows := WithoutKey(c.rows, Lower(domain)))
    case Clean => c.(rows := Cleaned(c.rows, c.now), queued := c.queued + 1)
    case Clear => c.(rows := map[], allow := {}, filter := {})
    case Allow(domain) => c.(allow := c.allow + {Lower(domain)})
    case Disallow(domain) => c.(allow := c.allow - {Lower(domain)})
    case BuildStart =>
      if c.queued > 0 && c.todo == {} then c.(queued := c.queued - 1, todo := c.rows.Keys, foreign := {}) else c
    case BuildRow(domain) =>
      if domain in c.todo then c.(filter := c.filter + Hashes(domain, h), todo := c.todo - {domain}) else c
    case Foreign(domain, row) => c.(rows := c.rows[domain := row], foreign := c.foreign + {domain})
    case Tick(elapsed) => c.(now := c.now + elapsed)
  }

  function Exec(c: Cache, steps: seq<Step>, h: Hash): Cache {
    if steps == [] then c else Next(Exec(c, steps[..|steps| - 1], h), steps[|steps| - 1], h)
  }

  lemma ExecSnoc(c: Cache, steps: seq<Step>, step: Step, h: Hash)
    ensures Exec(c, steps + [step], h) == Next(Exec(c, steps, h), step, h)
  {
    assert (steps + [step])[..|steps|] == steps;
  }

  lemma ExecThree(c: Cache, s: Step, t: Step, u: Step, h: Hash)
    ensures Exec(c, [s], h) == Next(c, s, h)
    ensures Exec(c, [s] + [t], h) == Next(Next(c, s, h), t, h)
    ensures Exec(c, [s] + [t] + [u], h) == Next(Next(Next(c, s, h), t, h), u, h)
  {
    assert [] + [s] == [s];
    ExecSnoc(c, [], s, h);
    ExecSnoc(c, [s], t, h);
    ExecSnoc(c, [s] + [t], u, h);
  }

  // ---------------------------------------------------------------------------
  // Lookups
  // ---------------------------------------------------------------------------

  predicate MightContain(c: Cache, domain: string, h: Hash) {
    h(domain) in c.filter && h(Lower(domain)) in c.filter
  }

  predicate PassesGate(c: Cache, domain: string, h: Hash) {
    MightContain(c, domain, h) || MightContain(c, Lower(domain), h)
  }

  /** The rows of the exact query. Its condition reads `domain = ? OR domain = ?
      AND unexpired`, where AND binds tighter than OR. */
  function ExactRows(c: Cache, domain: string): set<string> {
    set k | k in c.rows && (k == domain || (k == Lower(domain) && Unexpired(c.rows[k], c.now)))
  }

  function RemoveStars(pattern: string): string {
    if |pattern| >= 2 && pattern[0] == '*' && pattern[1] == '.' then RemoveStars(pattern[2..])
    else if pattern == [] then []
    else [pattern[0]] + RemoveStars(pattern[1..])
  }

  predicate WildcardMatches(rule: string, domain: string) {
    HasSuffix(Lower(domain), RemoveStars(rule))
  }

  /** At least two non-empty dot-separated parts. */
  predicate HasTwoParts(domain: string) {
    var parts := Split(domain, '.');
    exists i, j :: 0 <= i < j < |parts| && parts[i] != [] && parts[j] != []
  }

  function WildcardRows(c: Cache, domain: string): set<string> {
    if !HasTwoParts(Lower(domain)) then {}
    else
      set k | k in c.rows && c.rows[k].ruleType == Wildcard && Unexpired(c.rows[k], c.now)
           && WildcardMatches(k, domain)
  }

  predicate Allowlisted(c: Cache, domain: string) {
    Lower(domain) in c.allow
  }

  /** The decision of the tables alone. */
  predicate TableBlocks(c: Cache, domain: string) {
    !Allowlisted(c, domain) && (ExactRows(c, domain) != {} || WildcardRows(c, domain) != {})
  }

  /** The decision of the code: the prefilter first. */
  predicate CacheBlocks(c: Cache, domain: string, h: Hash) {
    PassesGate(c, domain, h) && TableBlocks(c, domain)
  }

  // ---------------------------------------------------------------------------
  // The prefilter against the table
  // ---------------------------------------------------------------------------

  predicate RowCovered(c: Cache, key: string, h: Hash) {
    Hashes(key, h) <= c.filter
  }

  /** Every row that the filter may miss is still to be read by the running build
      or was written by another process since it began. */
  predicate Tracked(c: Cache, h: Hash) {
    forall k :: k in c.rows && !RowCovered(c, k, h) ==> k in c.todo || k in c.foreign
  }

  predicate Covered(c: Cache, h: Hash) {
    forall k :: k in c.rows ==> RowCovered(c, k, h)
  }

  lemma AddedKeepsTracked(c: Cache, domain: string, row: Row, h: Hash)
    requires Tracked(c, h)
    ensures Tracked(Added(c, domain, row, h), h)
  {
    LowerIdempotent(domain);
    var next := Added(c, domain, row, h);
    forall k | k in next.rows && !RowCovered(next, k, h)
      ensures k in next.todo || k in next.foreign
    {
      assert k != Lower(domain);
      assert !RowCovered(c, k, h);
    }
  }

  lemma {:induction false} BulkAddedKeepsTracked(c: Cache, domains: seq<string>, h: Hash)
    requires Tracked(c, h)
    ensures Tracked(BulkAdded(c, domains, h), h)
  {
    if domains != [] {
      BulkAddedKeepsTracked(c, domains[..|domains| - 1], h);
      AddedKeepsTracked(BulkAdded(c, domains[..|domains| - 1], h), domains[|domains| - 1], Row(Exact, None), h);
    }
  }

  lemma StepKeepsTracked(c: Cache, step: Step, h: Hash)
    requires Tracked(c, h)
    ensures Tracked(Next(c, step, h), h)
  {
    match step
    case Add(domain, row) => AddedKeepsTracked(c, domain, row, h);
    case BulkAdd(domains) => BulkAddedKeepsTracked(c, domains, h);
    case Clear =>
    case _ =>
      var next := Next(c, step, h);
      assert forall k :: k in next.rows && k in c.rows && !RowCovered(next, k, h) ==> !RowCovered(c, k, h);
  }

  /** In every run over every initial table, the filter accounts for every row
      but the ones a build has yet to read and another process's fresh writes. */
  lemma {:induction false} FilterTracksTable(rows: map<string, Row>, allow: set<string>, now: nat, steps: seq<Step>,
                                             h: Hash)
    ensures var c := Exec(Opened(rows, allow, now), steps, h);
            Tracked(c, h) && (c.todo == {} && c.foreign == {} ==> Covered(c, h))
  {
    if steps != [] {
      var before := steps[..|steps| - 1];
      FilterTracksTable(rows, allow, now, before, h);
      StepKeepsTracked(Exec(Opened(rows, allow, now), before, h), steps[|steps| - 1], h);
    }
  }

  /** With the table covered, the filter never hides an exact rule, in any letter
      case of the query. */
  lemma ExactRowsPassGate(c: Cache, domain: string, h: Hash)
    requires Covered(c, h) && ExactRows(c, domain) != {}
    ensures PassesGate(c, domain, h)
  {
    LowerIdempotent(domain);
    var k :| k in ExactRows(c, domain);
    assert RowCovered(c, k, h);
    assert h(k) in Hashes(k, h) && h(Lower(k)) in Hashes(k, h);
  }

  predicate NoWildcards(c: Cache) {
    forall k :: k in c.rows ==> c.rows[k].ruleType != Wildcard
  }

  /** What the filter costs, exactly: a covered cache decides as its tables do
      unless a wildcard rule matches a name that the filter does not know. */
  lemma GateTransparent(c: Cache, domain: string, h: Hash)
    requires Covered(c, h)
    ensures (CacheBlocks(c, domain, h) <==> TableBlocks(c, domain))
       <==> (PassesGate(c, domain, h) || Allowlisted(c, domain) || WildcardRows(c, domain) == {})
  {
    if ExactRows(c, domain) != {} {
      ExactRowsPassGate(c, domain, h);
    }
  }

  // ---------------------------------------------------------------------------
  // One process
  // ---------------------------------------------------------------------------

  predicate NoForeign(steps: seq<Step>) {
    forall i :: 0 <= i < |steps| ==> !steps[i].Foreign?
  }

  lemma {:induction false} ForeignBeforeFirstBuild(c: Cache, steps: seq<Step>, h: Hash)
    requires NoForeign(steps) && (c.foreign == {} || c.queued > 0)
    ensures var e := Exec(c, steps, h); e.foreign == {} || e.queued > 0
  {
    if steps != [] {
      var before := steps[..|steps| - 1];
      ForeignBeforeFirstBuild(c, before, h);
      BulkAddedQueues(Exec(c, before, h), if steps[|steps| - 1].BulkAdd? then steps[|steps| - 1].domains else [], h);
    }
  }

  lemma {:induction false} BulkAddedQueues(c: Cache, domains: seq<string>, h: Hash)
    ensures var e := BulkAdded(c, domains, h); e.queued == c.queued && e.todo == c.todo && e.foreign == c.foreign
  {
    if domains != [] {
      BulkAddedQueues(c, domains[..|domains| - 1], h);
    }
  }

  /** While no other process writes, a cache whose builds have all finished covers
      its table, whatever it did before, between and during the builds. */
  lemma BuiltCacheCovers(rows: map<string, Row>, allow: set<string>, now: nat, steps: seq<Step>, h: Hash)
    requires NoForeign(steps)
    ensures var c := Exec(Opened(rows, allow, now), steps, h);
            c.queued == 0 && c.todo == {} ==> Covered(c, h)
  {
    FilterTracksTable(rows, allow, now, steps, h);
    ForeignBeforeFirstBuild(Opened(rows, allow, now), steps, h);
  }

  lemma {:induction false} BulkAddedKeepsCovered(c: Cache, domains: seq<string>, h: Hash)
    requires Covered(c, h)
    ensures Covered(BulkAdded(c, domains, h), h)
  {
    if domains != [] {
      var before := BulkAdded(c, domains[..|domains| - 1], h);
      BulkAddedKeepsCovered(c, domains[..|domains| - 1], h);
      AddedKeepsCovered(before, domains[|domains| - 1], Row(Exact, None), h);
    }
  }

  lemma AddedKeepsCovered(c: Cache, domain: string, row: Row, h: Hash)
    requires Covered(c, h)
    ensures Covered(Added(c, domain, row, h), h)
  {
    LowerIdempotent(domain);
    var next := Added(c, domain, row, h);
    forall k | k in next.rows
      ensures RowCovered(next, k, h)
    {
      assert k != Lower(domain) ==> RowCovered(c, k, h);
    }
  }

  lemma StepKeepsCovered(c: Cache, step: Step, h: Hash)
    requires Covered(c, h) && !step.Foreign?
    ensures Covered(Next(c, step, h), h)
  {
    match step
    case Add(domain, row) => AddedKeepsCovered(c, domain, row, h);
    case BulkAdd(domains) => BulkAddedKeepsCovered(c, domains, h);
    case Foreign(_, _) =>
    case _ =>
      var next := Next(c, step, h);
      assert forall k :: k in next.rows ==> RowCovered(c, k, h);
  }

  /** Once covered, the table stays covered in every further run of this process,
      with builds queued or running at any point. */
  lemma {:induction false} CoveredForever(c: Cache, steps: seq<Step>, h: Hash)
    requires Covered(c, h) && NoForeign(steps)
    ensures Covered(Exec(c, steps, h), h)
  {
    if steps != [] {
      CoveredForever(c, steps[..|steps| - 1], h);
      StepKeepsCovered(Exec(c, steps[..|steps| - 1], h), steps[|steps| - 1], h);
    }
  }

  /** The cache has once finished a build with no foreign write since it began: at
      the end of this run nothing is left to read. */
  predicate Settled(c: Cache) {
    c.todo == {} && c.foreign == {}
  }

  /** After every run that settles, and every further run of this process, with
      builds queued, running or finished, a table without wildcard rules is decided
      exactly, for every name in any letter case. */
  lemma FilterRefinesTable(rows: map<string, Row>, allow: set<string>, now: nat, steps: seq<Step>, more: seq<Step>,
                           h: Hash, domain: string)
    requires Settled(Exec(Opened(rows, allow, now), steps, h)) && NoForeign(more)
    requires NoWildcards(Exec(Exec(Opened(rows, allow, now), steps, h), more, h))
    ensures var c := Exec(Exec(Opened(rows, allow, now), steps, h), more, h);
            CacheBlocks(c, domain, h) <==> !Allowlisted(c, domain) && ExactRows(c, domain) != {}
  {
    FilterTracksTable(rows, allow, now, steps, h);
    CoveredForever(Exec(Opened(rows, allow, now), steps, h), more, h);
    CoveredDecides(Exec(Exec(Opened(rows, allow, now), steps, h), more, h), domain, h);
  }

  lemma CoveredDecides(c: Cache, domain: string, h: Hash)
    requires Covered(c, h) && NoWildcards(c)
    ensures CacheBlocks(c, domain, h) <==> !Allowlisted(c, domain) && ExactRows(c, domain) != {}
  {
    assert WildcardRows(c, domain) == {};
    GateTransparent(c, domain, h);
  }

  predicate BuildSteps(steps: seq<Step>) {
    forall i :: 0 <= i < |steps| ==> steps[i].BuildStart? || steps[i].BuildRow?
  }

  lemma {:induction false} RowsRead(c: Cache, todo: set<string>, h: Hash) returns (steps: seq<Step>)
    requires todo <= c.todo
    ensures BuildSteps(steps)
    ensures var e := Exec(c, steps, h);
            && e.todo == c.todo - todo && e.rows == c.rows && e.queued == c.queued && e.foreign == c.foreign
            && (forall k :: k in todo ==> RowCovered(e, k, h)) && c.filter <= e.filter
  {
    if todo == {} {
      steps := [];
    } else {
      var k :| k in todo;
      var before := RowsRead(c, todo - {k}, h);
      steps := before + [BuildRow(k)];
      ExecSnoc(c, before, BuildRow(k), h);
    }
  }

  /** A queued build can always run to its end: it takes itself off the queue, reads
      every row, its own process's and others', and leaves the table as it is. */
  lemma BuildCompletes(c: Cache, h: Hash) returns (steps: seq<Step>)
    requires c.queued > 0 && c.todo == {}
    ensures BuildSteps(steps)
    ensures var e := Exec(c, steps, h);
            Covered(e, h) && e.todo == {} && e.foreign == {} && e.queued == c.queued - 1 && e.rows == c.rows
  {
    var started := Next(c, BuildStart, h);
    var rest := RowsRead(started, c.rows.Keys, h);
    steps := [BuildStart] + rest;
    ExecAppend(c, [BuildStart], rest, h);
    assert Exec(c, [BuildStart], h) == started by {
      assert [] + [BuildStart] == [BuildStart];
      ExecSnoc(c, [], BuildStart, h);
    }
  }

  lemma {:induction false} ExecAppend(c: Cache, first: seq<Step>, second: seq<Step>, h: Hash)
    ensures Exec(c, first + second, h) == Exec(Exec(c, first, h), second, h)
  {
    if second == [] {
      assert first + second == first;
    } else {
      ExecAppend(c, first, second[..|second| - 1], h);
      assert (first + second)[..|first + second| - 1] == first + second[..|second| - 1];
    }
  }

  /** Bulk additions and cleaning each schedule a build, so that after one of them
      rows of other processes can be found. */
  lemma RebuildScheduled(c: Cache, step: Step, h: Hash) returns (steps: seq<Step>)
    requires (step.BulkAdd? || step.Clean?) && c.todo == {}
    ensures Next(c, step, h).queued == c.queued + 1
    ensures BuildSteps(steps) && Covered(Exec(Next(c, step, h), steps, h), h)
  {
    if step.BulkAdd? {
      BulkAddedQueues(c, step.domains, h);
    }
    steps := BuildCompletes(Next(c, step, h), h);
  }

  // ---------------------------------------------------------------------------
  // Rows that the filter has not seen
  // ---------------------------------------------------------------------------

  lemma GateByLowerCase(c: Cache, domain: string, h: Hash)
    ensures PassesGate(c, domain, h) <==> h(Lower(domain)) in c.filter
  {
    LowerIdempotent(domain);
  }

  predicate LowerCaseTable(c: Cache) {
    forall k :: k in c.rows ==> Lower(k) == k
  }

  /** Covered or not, a cache without wildcard rules decides every name as its
      tables do if and only if the filter holds the bucket of every row that the
      allowlist does not overrule. */
  lemma GateExactly(c: Cache, h: Hash)
    requires LowerCaseTable(c) && NoWildcards(c)
    ensures (forall d :: CacheBlocks(c, d, h) <==> TableBlocks(c, d))
            <==> (forall k :: k in c.rows && k !in c.allow ==> h(k) in c.filter)
  {
    if k :| k in c.rows && k !in c.allow && h(k) !in c.filter {
      GateByLowerCase(c, k, h);
      assert k in ExactRows(c, k);
      assert TableBlocks(c, k) && !CacheBlocks(c, k, h);
    } else {
      forall d
        ensures CacheBlocks(c, d, h) <==> TableBlocks(c, d)
      {
        GateByLowerCase(c, d, h);
        assert WildcardRows(c, d) == {};
        if k :| k in ExactRows(c, d) {
          assert k == Lower(d);
        }
      }
    }
  }

  /** The step puts a bucket into the filter. */
  ghost predicate Teaches(c: Cache, step: Step, bucket: nat, h: Hash) {
    match step
    case Add(domain, _) => bucket in Hashes(domain, h)
    case BulkAdd(domains) => exists i :: 0 <= i < |domains| && bucket in Hashes(domains[i], h)
    case BuildRow(domain) => domain in c.todo && bucket in Hashes(domain, h)
    case _ => false
  }

  lemma {:induction false} BulkAddedFilter(c: Cache, domains: seq<string>, bucket: nat, h: Hash)
    ensures bucket in BulkAdded(c, domains, h).filter
       <==> bucket in c.filter || exists i :: 0 <= i < |domains| && bucket in Hashes(domains[i], h)
  {
    if domains != [] {
      BulkAddedFilter(c, domains[..|domains| - 1], bucket, h);
    }
  }

  lemma FilterStep(c: Cache, step: Step, bucket: nat, h: Hash)
    ensures bucket in Next(c, step, h).filter <==> (bucket in c.filter && !step.Clear?) || Teaches(c, step, bucket, h)
  {
    if step.BulkAdd? {
      BulkAddedFilter(c, step.domains, bucket, h);
    }
  }

  /** Some step of the run does. */
  ghost predicate Taught(c: Cache, steps: seq<Step>, bucket: nat, h: Hash) {
    steps != [] &&
    var before, last := steps[..|steps| - 1], steps[|steps| - 1];
    Taught(c, before, bucket, h) || Teaches(Exec(c, before, h), last, bucket, h)
  }

  predicate NoClear(steps: seq<Step>) {
    forall i :: 0 <= i < |steps| ==> !steps[i].Clear?
  }

  lemma {:induction false} KnownExactly(c: Cache, steps: seq<Step>, bucket: nat, h: Hash)
    requires NoClear(steps)
    ensures bucket in Exec(c, steps, h).filter <==> bucket in c.filter || Taught(c, steps, bucket, h)
  {
    if steps != [] {
      var before, last := steps[..|steps| - 1], steps[|steps| - 1];
      KnownExactly(c, before, bucket, h);
      FilterStep(Exec(c, before, h), last, bucket, h);
    }
  }

  /** A row, whoever wrote it, over every run that keeps it: at the end it blocks if
      and only if its bucket was in the filter at the start, or some step of the run
      has put it there. So a row of another process is missed until a build reads it
      or this process learns its bucket, and blocks from then on. */
  lemma RowBlocksExactly(c: Cache, domain: string, steps: seq<Step>, h: Hash)
    requires Lower(domain) == domain && NoClear(steps)
    requires domain in Exec(c, steps, h).rows && !Allowlisted(Exec(c, steps, h), domain)
    ensures TableBlocks(Exec(c, steps, h), domain)
    ensures CacheBlocks(Exec(c, steps, h), domain, h) <==> h(domain) in c.filter || Taught(c, steps, h(domain), h)
  {
    KnownExactly(c, steps, h(domain), h);
    GateByLowerCase(Exec(c, steps, h), domain, h);
    assert domain in ExactRows(Exec(c, steps, h), domain);
  }

  /** A reachable run: the first build of an empty table finishes, then another
      process adds a rule. */
  lemma ForeignRowMissed(h: Hash)
    ensures var c := Exec(Opened(map[], {}, 0), [BuildStart] + [Foreign("a", Row(Exact, None))], h);
            TableBlocks(c, "a") && !CacheBlocks(c, "a", h)
  {
    var write := Foreign("a", Row(Exact, None));
    ExecThree(Opened(map[], {}, 0), BuildStart, write, write, h);
    var c := Exec(Opened(map[], {}, 0), [BuildStart] + [write], h);
    assert Lower("a") == "a";
    GateByLowerCase(c, "a", h);
    assert "a" in ExactRows(c, "a");
  }

  // ---------------------------------------------------------------------------
  // Wildcard rules
  // ---------------------------------------------------------------------------

  /** A wildcard rule is stored under its pattern, so the filter knows the pattern
      and not the names under it: only a bucket shared with a stored name lets a
      query for such a name reach the rule. */
  lemma WildcardHiddenByFilter(c: Cache, pattern: string, domain: string, h: Hash)
    requires Covered(c, h) && Lower(domain) == domain && h(domain) !in c.filter && !Allowlisted(c, domain)
    requires pattern in WildcardRows(c, domain)
    ensures TableBlocks(c, domain) && !CacheBlocks(c, domain, h)
  {}

  /** A wildcard suffix test respects label boundaries exactly when the name is the
      suffix itself or the character before the suffix is a dot. */
  lemma WildcardBoundary(rule: string, domain: string)
    requires WildcardMatches(rule, domain)
    ensures var name, suffix := Lower(domain), RemoveStars(rule);
            LabelSuffix(suffix, name) <==> |name| == |suffix| || name[|name| - |suffix| - 1] == '.'
  {
    var name, suffix := Lower(domain), RemoveStars(rule);
    LabelSuffixByChars(suffix, name);
    var cut := |name| - |suffix|;
    assert name[cut..] == suffix;
    if cut > 0 {
      assert name[cut - 1..] == [name[cut - 1]] + suffix;
    }
  }

  /** Every wildcard rule matches a name that is not under it. */
  lemma BoundaryIgnored(rule: string)
    requires var suffix := RemoveStars(rule); suffix != [] && Lower(suffix) == suffix
    ensures var suffix := RemoveStars(rule);
            WildcardMatches(rule, ['x'] + suffix) && !LabelSuffix(suffix, Lower(['x'] + suffix))
  {
    var suffix := RemoveStars(rule);
    LowerAppend(['x'], suffix);
    assert Lower(['x']) == ['x'];
    SuffixOfConcat(['x'], suffix);
    WildcardBoundary(rule, ['x'] + suffix);
  }

  const WILDCARD := "*.a.b"

  lemma WildcardSuffix()
    ensures RemoveStars(WILDCARD) == "a.b"
  {
    assert WILDCARD[2..] == "a.b" && "a.b"[1..] == ".b" && ".b"[1..] == "b" && "b"[1..] == "";
    assert RemoveStars("b") == "b";
    assert RemoveStars(".b") == ".b";
  }

  lemma NameOfTwo()
    ensures HasTwoParts("xa.b")
  {
    SplitJoin(["xa", "b"], '.');
    assert Join(["xa", "b"], '.') == "xa.b";
    assert Split("xa.b", '.')[0] != [] && Split("xa.b", '.')[1] != [];
  }

  lemma NameOfThree()
    ensures HasTwoParts("w.a.b")
  {
    SplitJoin(["w", "a", "b"], '.');
    assert ["w", "a", "b"][1..] == ["a", "b"] && ["a", "b"][1..] == ["b"];
    assert Join(["a", "b"], '.') == "a.b" && Join(["w", "a", "b"], '.') == "w.a.b";
    assert Split("w.a.b", '.')[0] != [] && Split("w.a.b", '.')[1] != [];
  }

  lemma QueriesMatch()
    ensures Lower(WILDCARD) == WILDCARD && Lower("xa.b") == "xa.b" && Lower("w.a.b") == "w.a.b"
    ensures WildcardMatches(WILDCARD, "xa.b") && WildcardMatches(WILDCARD, "w.a.b")
  {
    WildcardSuffix();
    assert "xa.b"[1..] == "a.b" && "w.a.b"[2..] == "a.b";
  }

  lemma BlockedByRule(c: Cache, rule: string, domain: string, h: Hash)
    requires rule in c.rows && c.rows[rule] == Row(Wildcard, None) && WildcardMatches(rule, domain)
    requires Lower(domain) == domain && HasTwoParts(domain) && c.allow == {}
    ensures TableBlocks(c, domain) && (CacheBlocks(c, domain, h) <==> h(domain) in c.filter)
  {
    assert rule in WildcardRows(c, domain);
    GateByLowerCase(c, domain, h);
  }

  /** A reachable run, with any hash: a name that was blocked and unblocked again is
      blocked once more by a wildcard rule for another domain. */
  lemma BoundaryRun(h: Hash)
    ensures var wild := Add(WILDCARD, Row(Wildcard, None));
            var c := Exec(Opened(map[], {}, 0), [Add("xa.b", Row(Exact, None))] + [Remove("xa.b")] + [wild], h);
            CacheBlocks(c, "xa.b", h)
    ensures !LabelSuffix("a.b", "xa.b")
  {
    var add, remove, wild := Add("xa.b", Row(Exact, None)), Remove("xa.b"), Add(WILDCARD, Row(Wildcard, None));
    NameOfTwo();
    QueriesMatch();
    ExecThree(Opened(map[], {}, 0), add, remove, wild, h);
    BlockedByRule(Exec(Opened(map[], {}, 0), [add] + [remove] + [wild], h), WILDCARD, "xa.b", h);
    LabelSuffixByChars("a.b", "xa.b");
  }

  /** Another: a wildcard rule blocks a name under it exactly when the two happen to
      share a bucket. */
  lemma WildcardRun(h: Hash)
    ensures var c := Exec(Opened(map[], {}, 0), [Add(WILDCARD, Row(Wildcard, None))], h);
            TableBlocks(c, "w.a.b") && (CacheBlocks(c, "w.a.b", h) <==> h("w.a.b") == h(WILDCARD))
  {
    var add := Add(WILDCARD, Row(Wildcard, None));
    NameOfThree();
    QueriesMatch();
    ExecThree(Opened(map[], {}, 0), add, add, add, h);
    var c := Added(Opened(map[], {}, 0), WILDCARD, Row(Wildcard, None), h);
    assert c.filter == {h(WILDCARD)} && c.rows[WILDCARD] == Row(Wildcard, None);
    BlockedByRule(c, WILDCARD, "w.a.b", h);
  }

  // ---------------------------------------------------------------------------
  // Expired rows and letter case
  // ---------------------------------------------------------------------------

  /** Rules added by this code are stored in lower case. */
  lemma {:induction false} AddsKeepLowerCase(c: Cache, steps: seq<Step>, h: Hash)
    requires LowerCaseTable(c)
    requires forall i :: 0 <= i < |steps| && steps[i].Foreign? ==> Lower(steps[i].domain) == steps[i].domain
    ensures LowerCaseTable(Exec(c, steps, h))
  {
    if steps != [] {
      var before := steps[..|steps| - 1];
      AddsKeepLowerCase(c, before, h);
      var last := steps[|steps| - 1];
      if last.BulkAdd? {
        BulkAddedLowerCase(Exec(c, before, h), last.domains, h);
      } else if last.Add? {
        LowerIdempotent(last.domain);
      }
    }
  }

  lemma {:induction false} BulkAddedLowerCase(c: Cache, domains: seq<string>, h: Hash)
    requires LowerCaseTable(c)
    ensures LowerCaseTable(BulkAdded(c, domains, h))
  {
    if domains != [] {
      BulkAddedLowerCase(c, domains[..|domains| - 1], h);
      LowerIdempotent(domains[|domains| - 1]);
    }
  }

  /** What the exact lookup is for: a live row under the name or its lower case. */
  predicate LiveExact(c: Cache, domain: string) {
    exists k :: k in c.rows && (k == domain || k == Lower(domain)) && Unexpired(c.rows[k], c.now)
  }

  predicate NoneExpired(c: Cache) {
    forall k :: k in c.rows ==> Unexpired(c.rows[k], c.now)
  }

  lemma ExpiredRowStillMatches(c: Cache, k: string)
    requires LowerCaseTable(c) && k in c.rows && !Unexpired(c.rows[k], c.now)
    ensures ExactRows(c, k) != {} && !LiveExact(c, k)
  {
    assert k in ExactRows(c, k);
  }

  /** The operator precedence lets a lower-case query match an expired row: the
      lookup honours expiry for every name exactly when no stored row is expired. */
  lemma ExpiryHonoured(c: Cache)
    requires LowerCaseTable(c)
    ensures (forall d :: ExactRows(c, d) != {} <==> LiveExact(c, d)) <==> NoneExpired(c)
  {
    if k :| k in c.rows && !Unexpired(c.rows[k], c.now) {
      ExpiredRowStillMatches(c, k);
    } else {
      forall d
        ensures ExactRows(c, d) != {} <==> LiveExact(c, d)
      {
        if k :| k in c.rows && (k == d || k == Lower(d)) {
          assert k in ExactRows(c, d);
        } else {
          assert ExactRows(c, d) == {};
        }
      }
    }
  }

  /** Upper-casing the first letter that has an upper case. */
  function CapitalizeOne(s: string): string {
    if s == [] then []
    else if 'a' <= s[0] <= 'z' then [(s[0] as int - 32) as char] + s[1..]
    else [s[0]] + CapitalizeOne(s[1..])
  }

  lemma {:induction false} CapitalizeOneLowers(s: string)
    ensures |CapitalizeOne(s)| == |s|
    ensures forall i :: 0 <= i < |s| ==> LowerChar(CapitalizeOne(s)[i]) == LowerChar(s[i])
  {
    if s != [] && !('a' <= s[0] <= 'z') {
      CapitalizeOneLowers(s[1..]);
    }
  }

  lemma {:induction false} CapitalizeOneChanges(s: string)
    requires HasLetter(s)
    ensures CapitalizeOne(s) != s
  {
    if 'a' <= s[0] <= 'z' {
      assert CapitalizeOne(s)[0] != s[0];
    } else {
      var i :| 0 <= i < |s| && 'a' <= s[i] <= 'z';
      assert s[1..][i - 1] == s[i];
      CapitalizeOneChanges(s[1..]);
      assert CapitalizeOne(s)[1..] == CapitalizeOne(s[1..]);
    }
  }

  predicate HasLetter(s: string) {
    exists i :: 0 <= i < |s| && 'a' <= s[i] <= 'z'
  }

  lemma CaseNeedsLetter(d: string)
    requires !HasLetter(Lower(d))
    ensures Lower(d) == d
  {
    assert forall i :: 0 <= i < |d| ==> Lower(d)[i] == LowerChar(d[i]) && !('a' <= Lower(d)[i] <= 'z');
  }

  lemma ExpiredRowFoundInOneCase(c: Cache, k: string)
    requires LowerCaseTable(c) && k in c.rows && HasLetter(k) && !Unexpired(c.rows[k], c.now)
    ensures ExactRows(c, CapitalizeOne(k)) == {} && ExactRows(c, Lower(CapitalizeOne(k))) != {}
  {
    CapitalizeOneLowers(k);
    CapitalizeOneChanges(k);
    var d := CapitalizeOne(k);
    assert Lower(d) == k by {
      assert Lower(k) == k;
    }
    assert d in c.rows ==> Lower(d) == d;
    assert k in ExactRows(c, Lower(d));
  }

  /** The same defect seen from the client: the answer is independent of the
      letter case of the query exactly when no row is expired, leaving aside the
      names that have only one spelling. */
  lemma CaseInsensitiveExactly(c: Cache)
    requires LowerCaseTable(c)
    ensures (forall d :: ExactRows(c, d) != {} <==> ExactRows(c, Lower(d)) != {})
       <==> (forall k :: k in c.rows && HasLetter(k) ==> Unexpired(c.rows[k], c.now))
  {
    if k :| k in c.rows && HasLetter(k) && !Unexpired(c.rows[k], c.now) {
      ExpiredRowFoundInOneCase(c, k);
    } else {
      forall d
        ensures ExactRows(c, d) != {} <==> ExactRows(c, Lower(d)) != {}
      {
        LowerIdempotent(d);
        if !HasLetter(Lower(d)) {
          CaseNeedsLetter(d);
        } else if Lower(d) in c.rows {
          assert Lower(d) in ExactRows(c, d) && Lower(d) in ExactRows(c, Lower(d));
        } else {
          assert d in c.rows ==> Lower(d) == d;
          assert ExactRows(c, d) == {} && ExactRows(c, Lower(d)) == {};
        }
      }
    }
  }

  // ---------------------------------------------------------------------------
  // What every update does, seen by the lookups
  // ---------------------------------------------------------------------------

  predicate OnlyTicks(steps: seq<Step>) {
    forall i :: 0 <= i < |steps| ==> steps[i].Tick?
  }

  function Total(ticks: seq<Step>): nat
    requires OnlyTicks(ticks)
  {
    if ticks == [] then 0 else Total(ticks[..|ticks| - 1]) + ticks[|ticks| - 1].elapsed
  }

  lemma {:induction false} TicksPass(c: Cache, ticks: seq<Step>, h: Hash)
    requires OnlyTicks(ticks)
    ensures Exec(c, ticks, h) == c.(now := c.now + Total(ticks))
  {
    if ticks != [] {
      TicksPass(c, ticks[..|ticks| - 1], h);
    }
  }

  /** A rule for a name, from the moment it is added: spelled otherwise than stored,
      the name is blocked until the rule's expiry, and no longer; spelled as stored,
      it is blocked for good. */
  lemma AddedRuleLives(c: Cache, domain: string, ruleType: RuleType, expires: Option<nat>, ticks: seq<Step>,
                       d: string, h: Hash)
    requires LowerCaseTable(c) && NoWildcards(c) && ruleType != Wildcard && OnlyTicks(ticks)
    requires Lower(d) == Lower(domain) && Lower(domain) !in c.allow
    ensures var e := Exec(Next(c, Add(domain, Row(ruleType, expires)), h), ticks, h);
            CacheBlocks(e, d, h) <==> (d == Lower(d) || expires.None? || c.now + Total(ticks) < expires.value)
  {
    var added := Next(c, Add(domain, Row(ruleType, expires)), h);
    var e := Exec(added, ticks, h);
    TicksPass(added, ticks, h);
    LowerIdempotent(domain);
    GateByLowerCase(e, d, h);
    assert Lower(domain) in e.rows && NoWildcards(e);
    assert WildcardRows(e, d) == {};
    assert forall k :: k in ExactRows(e, d) ==> k == Lower(d);
    assert Lower(d) in ExactRows(e, d) <==> (d == Lower(d) || expires.None? || e.now < expires.value);
  }

  /** A wildcard rule that is alone in the table matches until its expiry. */
  lemma AddedWildcardLives(c: Cache, pattern: string, expires: Option<nat>, ticks: seq<Step>, d: string, h: Hash)
    requires c.rows == map[] && Lower(d) !in c.allow && OnlyTicks(ticks)
    requires Lower(d) != Lower(pattern) && WildcardMatches(Lower(pattern), d) && HasTwoParts(Lower(d))
    ensures var e := Exec(Next(c, Add(pattern, Row(Wildcard, expires)), h), ticks, h);
            TableBlocks(e, d) <==> (expires.None? || c.now + Total(ticks) < expires.value)
  {
    var added := Next(c, Add(pattern, Row(Wildcard, expires)), h);
    var e := Exec(added, ticks, h);
    TicksPass(added, ticks, h);
    LowerIdempotent(pattern);
    assert e.rows == map[Lower(pattern) := Row(Wildcard, expires)];
    assert ExactRows(e, d) == {};
    assert Lower(pattern) in WildcardRows(e, d) <==> (expires.None? || e.now < expires.value);
    assert forall k :: k in WildcardRows(e, d) ==> k == Lower(pattern);
  }

  /** A row whose expiry has come is found by its own spelling only, and time does not
      bring it back. */
  lemma ExpiredStaysOut(c: Cache, k: string, ticks: seq<Step>, d: string, h: Hash)
    requires k in c.rows && c.rows[k].expires.Some? && c.rows[k].expires.value <= c.now && d != k && OnlyTicks(ticks)
    ensures var e := Exec(c, ticks, h);
            k in e.rows && k !in ExactRows(e, d) && k !in WildcardRows(e, d)
  {
    TicksPass(c, ticks, h);
  }

  /** Cleaning removes a row exactly when its expiry lies strictly in the past, so
      never one that a lookup still honours; a row that expires now stays. */
  lemma CleanedExactly(c: Cache, k: string, h: Hash)
    ensures var rows := Next(c, Clean, h).rows;
            && (k in rows <==> k in c.rows && (c.rows[k].expires.None? || c.now <= c.rows[k].expires.value))
            && (k in rows ==> rows[k] == c.rows[k])
            && (k in c.rows && k !in rows ==> forall d :: d != k ==> k !in ExactRows(c, d) && k !in WildcardRows(c, d))
  {}

  /** Adding and removing concern one row, that of the lower-cased name. */
  lemma OneRowChanges(c: Cache, domain: string, row: Row, k: string, h: Hash)
    ensures Next(c, Add(domain, row), h).rows == c.rows[Lower(domain) := row]
    ensures k in Next(c, Remove(domain), h).rows <==> k in c.rows && k != Lower(domain)
    ensures k in Next(c, Remove(domain), h).rows ==> Next(c, Remove(domain), h).rows[k] == c.rows[k]
  {}

  /** After its removal no spelling of a name has an exact row. */
  lemma RemovedIsGone(c: Cache, domain: string, d: string, h: Hash)
    requires LowerCaseTable(c) && Lower(d) == Lower(domain)
    ensures ExactRows(Next(c, Remove(domain), h), d) == {}
  {}

  /** The allowlist overrules every rule, for every spelling of its names and for no
      other name, until the name is taken off it. */
  lemma AllowlistOverrules(c: Cache, domain: string, d: string, h: Hash)
    ensures Lower(d) == Lower(domain) ==> !CacheBlocks(Next(c, Allow(domain), h), d, h)
    ensures Lower(d) != Lower(domain) ==> (CacheBlocks(Next(c, Allow(domain), h), d, h) <==> CacheBlocks(c, d, h))
    ensures Lower(d) != Lower(domain) ==> (CacheBlocks(Next(c, Disallow(domain), h), d, h) <==> CacheBlocks(c, d, h))
    ensures Lower(d) == Lower(domain) ==>
      (CacheBlocks(Next(c, Disallow(domain), h), d, h)
       <==> PassesGate(c, d, h) && (ExactRows(c, d) != {} || WildcardRows(c, d) != {}))
  {
    var allowed, disallowed := Next(c, Allow(domain), h), Next(c, Disallow(domain), h);
    assert ExactRows(allowed, d) == ExactRows(c, d) && WildcardRows(allowed, d) == WildcardRows(c, d);
    assert ExactRows(disallowed, d) == ExactRows(c, d) && WildcardRows(disallowed, d) == WildcardRows(c, d);
  }

  /** Clearing leaves nothing blocked and nothing on the allowlist. */
  lemma ClearedBlocksNothing(c: Cache, d: string, h: Hash)
    ensures !TableBlocks(Next(c, Clear, h), d) && !Allowlisted(Next(c, Clear, h), d)
  {}

  /** Wildcard rules are not asked for a name of one label. */
  lemma OneLabelUnmatched(c: Cache, d: string)
    requires '.' !in Lower(d)
    ensures WildcardRows(c, d) == {}
  {
    SplitFirst(Lower(d), [], '.');
  }

  lemma {:induction false} NoStars(s: string)
    requires '*' !in s
    ensures RemoveStars(s) == s
  {
    if s != [] {
      NoStars(s[1..]);
      assert s == [s[0]] + s[1..];
    }
  }

  /** The usual pattern stands for its suffix, and matches exactly the names that end
      in it. */
  lemma StarredSuffix(s: string, d: string)
    requires '*' !in s
    ensures RemoveStars(['*', '.'] + s) == s
    ensures WildcardMatches(['*', '.'] + s, d) <==> exists front :: Lower(d) == front + s
  {
    assert (['*', '.'] + s)[2..] == s;
    NoStars(s);
    if HasSuffix(Lower(d), s) {
      assert Lower(d) == Lower(d)[..|Lower(d)| - |s|] + s;
    }
    if front :| Lower(d) == front + s {
      SuffixOfConcat(front, s);
    }
  }

  // ---------------------------------------------------------------------------
  // The cache object
  // ---------------------------------------------------------------------------

  class BlocklistCache {
    const h: Hash
    var rows: map<string, Row>
    var allow: set<string>
    var filter: set<nat>
    var now: nat
    var queued: nat
    var todo: set<string>
    ghost var foreign: set<string>

    ghost function Contents(): Cache
      reads this
    {
      Cache(rows, allow, filter, now, queued, todo, foreign)
    }

    constructor (rows: map<string, Row>, allow: set<string>, now: nat, h: Hash)
      ensures Contents() == Opened(rows, allow, now) && this.h == h
    {
      this.h := h;
      this.rows, this.allow, this.now := rows, allow, now;
      filter, queued, todo, foreign := {}, 1, {}, rows.Keys;
    }

    method AddToBloomFilter(domain: string)
      modifies this`filter
      ensures filter == old(filter) + Hashes(domain, h)
    {
      var hash1 := h(domain);
      var hash2 := h(Lower(domain));
      filter := filter + {hash1};
      filter := filter + {hash2};
    }

    method AddRule(domain: string, ruleType: RuleType, expires: Option<nat>)
      modifies this`rows, this`filter
      ensures Contents() == Next(old(Contents()), Add(domain, Row(ruleType, expires)), h)
    {
      rows := rows[Lower(domain) := Row(ruleType, expires)];
      AddToBloomFilter(domain);
    }

    method RemoveRule(domain: string)
      modifies this`rows
      ensures Contents() == Next(old(Contents()), Remove(domain), h)
    {
      rows := rows - {Lower(domain)};
      assert rows == WithoutKey(old(rows), Lower(domain));
    }

    /** The rules, then another build on the queue. */
    method BulkAddRules(domains: seq<string>)
      modifies this`rows, this`filter, this`queued
      ensures Contents() == Next(old(Contents()), BulkAdd(domains), h)
    {
      for i := 0 to |domains|
        invariant Contents() == BulkAdded(old(Contents()), domains[..i], h)
      {
        AddRule(domains[i], Exact, None);
        assert domains[..i + 1][..i] == domains[..i];
      }
      assert domains[..|domains|] == domains;
      BulkAddedQueues(old(Contents()), domains, h);
      queued := queued + 1;
    }

    method CleanExpiredRules()
      modifies this`rows, this`queued
      ensures Contents() == Next(old(Contents()), Clean, h)
    {
      rows := map k | k in rows && !(rows[k].expires.Some? && rows[k].expires.value < now) :: rows[k];
      queued := queued + 1;
    }

    method ClearAllRules()
      modifies this`rows, this`allow, this`filter
      ensures Contents() == Next(old(Contents()), Clear, h)
    {
      rows, allow := map[], {};
      filter := {};
    }

    /** One row of the cursor. */
    method ReadRow(domain: string)
      requires domain in todo
      modifies this`filter, this`todo
      ensures Contents() == Next(old(Contents()), BuildRow(domain), h)
    {
      AddToBloomFilter(domain);
      todo := todo - {domain};
    }

    /** One uninterrupted run of the asynchronous build: the cursor's rows go into
        the filter one by one. The queue it runs on is serial. */
    method BuildBloomFilter() returns (ghost steps: seq<Step>)
      requires todo == {} && queued > 0
      modifies this`filter, this`queued, this`todo, this`foreign
      ensures Contents() == Exec(old(Contents()), steps, h)
      ensures Covered(Contents(), h) && todo == {} && foreign == {}
    {
      ghost var start := Contents();
      queued, todo, foreign := queued - 1, rows.Keys, {};
      steps := [BuildStart];
      ExecThree(start, BuildStart, BuildStart, BuildStart, h);
      while todo != {}
        invariant todo <= rows.Keys && foreign == {}
        invariant forall k :: k in rows && k !in todo ==> Hashes(k, h) <= filter
        invariant Contents() == Exec(start, steps, h)
        decreases todo
      {
        var domain :| domain in todo;
        ReadRow(domain);
        ExecSnoc(start, steps, BuildRow(domain), h);
        steps := steps + [BuildRow(domain)];
      }
      assert forall k :: k in rows ==> RowCovered(Contents(), k, h);
    }

    /** Which matching rule is reported is the database's choice. */
    method ShouldBlock(domain: string) returns (blocked: bool, rule: Option<string>)
      ensures blocked <==> CacheBlocks(Contents(), domain, h)
      ensures blocked <==> rule.Some?
      ensures rule.Some? ==>
        var exact := ExactRows(Contents(), domain);
        rule.value in exact || (exact == {} && rule.value in WildcardRows(Contents(), domain))
    {
      var lowercased := Lower(domain);
      LowerIdempotent(domain);
      var asGiven := h(domain) in filter && h(lowercased) in filter;
      var inLowerCase := h(lowercased) in filter && h(Lower(lowercased)) in filter;
      if !asGiven && !inLowerCase {
        return false, None;
      }
      if lowercased in allow {
        return false, None;
      }
      var exact := set k | k in rows && (k == domain || (k == lowercased && Unexpired(rows[k], now)));
      if exact != {} {
        var found :| found in exact;
        return true, Some(found);
      }
      if HasTwoParts(lowercased) {
        var wildcards := set k | k in rows && rows[k].ruleType == Wildcard && Unexpired(rows[k], now)
                              && WildcardMatches(k, domain);
        if wildcards != {} {
          var found :| found in wildcards;
          return true, Some(found);
        }
      }
      return false, None;
    }
  }
}
