/** Endpoint templates of the API contract gate: normalization, segment matching,
    and what a match means for the concrete request paths a client can send. */
module PathTemplates {
  import opened Text

  const PARAM: string := "{param}"

  datatype Verb = Get | Post | Put | Delete | Patch

  /** The verb of an application call; Any when its declaration names none. */
  datatype CallVerb = Any | Only(verb: Verb)

  datatype Registration = Registration(verb: Verb, path: string)

  // ---------------------------------------------------------------------------
  // Normalization
  // ---------------------------------------------------------------------------

  predicate IsParamSegment(segment: string) {
    '{' in segment || '}' in segment
  }

  function NormalizeSegment(segment: string): string {
    if IsParamSegment(segment) then PARAM else segment
  }

  function NormalizeSegments(segments: seq<string>): (r: seq<string>)
    ensures |r| == |segments| && forall i :: 0 <= i < |r| ==> r[i] == NormalizeSegment(segments[i])
  {
    seq(|segments|, i requires 0 <= i < |segments| => NormalizeSegment(segments[i]))
  }

  function StripTrailing(s: string, c: char): (r: string)
    ensures r <= s
    ensures r == [] || r[|r| - 1] != c
  {
    if s != [] && s[|s| - 1] == c then StripTrailing(s[..|s| - 1], c) else s
  }

  function Trimmed(path: string): string {
    if |path| > 1 && path[|path| - 1] == '/' then StripTrailing(path, '/') else path
  }

  function Normalize(path: string): string {
    Join(NormalizeSegments(Split(Trimmed(path), '/')), '/')
  }

  /** Trimming removes slashes at the end, all of them unless the path is one slash. */
  lemma {:induction false} TrimmedMeaning(path: string)
    ensures Trimmed(path) <= path && forall i :: |Trimmed(path)| <= i < |path| ==> path[i] == '/'
    ensures path == "/" ==> Trimmed(path) == "/"
    ensures path != "/" && Trimmed(path) != [] ==> Trimmed(path)[|Trimmed(path)| - 1] != '/'
  {
    StrippedSlashes(path);
  }

  lemma {:induction false} StrippedSlashes(s: string)
    ensures forall i :: |StripTrailing(s, '/')| <= i < |s| ==> s[i] == '/'
  {
    if s != [] && s[|s| - 1] == '/' {
      StrippedSlashes(s[..|s| - 1]);
    }
  }

  /** The loop appends one output segment per input segment. */
  method NormalizePath(path: string) returns (r: string)
    ensures r == Normalize(path)
    ensures var before, after := Split(Trimmed(path), '/'), Split(r, '/');
            |after| == |before| && forall i :: 0 <= i < |before| ==>
              after[i] == if '{' in before[i] || '}' in before[i] then PARAM else before[i]
  {
    var segments := Split(Trimmed(path), '/');
    var out: seq<string> := [];
    for i := 0 to |segments|
      invariant out == NormalizeSegments(segments[..i])
    {
      if '{' in segments[i] || '}' in segments[i] {
        out := out + [PARAM];
      } else {
        out := out + [segments[i]];
      }
    }
    assert segments[..|segments|] == segments;
    NormalizedSegments(path);
    r := Join(out, '/');
  }

  lemma NormalizedSegments(path: string)
    ensures Split(Normalize(path), '/') == NormalizeSegments(Split(Trimmed(path), '/'))
  {
    SplitJoin(NormalizeSegments(Split(Trimmed(path), '/')), '/');
  }

  /** A joined path ends in the separator only when its last piece is empty. */
  lemma {:induction false} JoinEnd(parts: seq<string>, sep: char)
    requires |parts| >= 1 && forall i :: 0 <= i < |parts| ==> sep !in parts[i]
    ensures var s := Join(parts, sep);
            s != [] && s[|s| - 1] == sep <==> |parts| > 1 && parts[|parts| - 1] == []
    ensures Join(parts, sep) == [] <==> parts == [[]]
  {
    if |parts| > 1 {
      JoinEnd(parts[1..], sep);
      var tail := Join(parts[1..], sep);
      assert Join(parts, sep) == parts[0] + ([sep] + tail);
      var s := Join(parts, sep);
      assert s[|s| - 1] == ([sep] + tail)[|tail|];
      assert parts[1..][|parts| - 2] == parts[|parts| - 1];
      if |parts| == 2 {
        assert parts[1..] == [parts[1]];
      }
    }
  }

  lemma NormalizeKeepsTrim(path: string)
    ensures Trimmed(Normalize(path)) == Normalize(path)
  {
    var trimmed := Trimmed(path);
    var segments := Split(trimmed, '/');
    JoinSplit(trimmed, '/');
    JoinEnd(segments, '/');
    JoinEnd(NormalizeSegments(segments), '/');
    if trimmed == "/" {
      assert segments == [[], []];
      assert NormalizeSegments(segments) == segments;
    }
  }

  lemma NormalizeIdempotent(path: string)
    ensures Normalize(Normalize(path)) == Normalize(path)
  {
    NormalizeKeepsTrim(path);
    NormalizedSegments(path);
    var n := NormalizeSegments(Split(Trimmed(path), '/'));
    assert NormalizeSegments(n) == n;
  }

  // ---------------------------------------------------------------------------
  // Concrete requests and templates
  // ---------------------------------------------------------------------------

  predicate SegmentInstance(concrete: string, template: string) {
    template == PARAM || concrete == template
  }

  /** concrete is a request path obtained from template by choosing a value for
      every parameter segment. */
  predicate Instantiates(concrete: string, template: string) {
    var c, t := Split(concrete, '/'), Split(template, '/');
    |c| == |t| && forall i :: 0 <= i < |t| ==> SegmentInstance(c[i], t[i])
  }

  /** The matching rule: a route parameter accepts anything, a route literal
      accepts only the same literal. */
  predicate Covers(app: string, route: string) {
    var a, b := Split(app, '/'), Split(route, '/');
    |a| == |b| && forall i :: 0 <= i < |a| ==> b[i] == PARAM || (a[i] != PARAM && a[i] == b[i])
  }

  method PathMatches(app: string, route: string) returns (matched: bool)
    ensures matched <==> Covers(app, route)
  {
    var a, b := Split(app, '/'), Split(route, '/');
    if |a| != |b| {
      return false;
    }
    for i := 0 to |a|
      invariant forall k :: 0 <= k < i ==> b[k] == PARAM || (a[k] != PARAM && a[k] == b[k])
    {
      if b[i] == PARAM {
        continue;
      }
      if a[i] == PARAM || a[i] != b[i] {
        return false;
      }
    }
    return true;
  }

  /** Some route covers the call and has its verb. */
  predicate CallMatched(verb: CallVerb, path: string, routes: set<Registration>) {
    exists r :: r in routes && Covers(path, r.path) && (verb == Any || verb == Only(r.verb))
  }

  method MatchCall(verb: CallVerb, path: string, routes: set<Registration>) returns (matched: bool)
    ensures matched <==> CallMatched(verb, path, routes)
    ensures verb == Any ==> (matched <==> exists r :: r in routes && Covers(path, r.path))
    ensures verb.Only? ==> (matched <==> exists r :: r in routes && r.verb == verb.verb && Covers(path, r.path))
  {
    var todo := routes;
    while todo != {}
      invariant todo <= routes
      invariant forall r :: r in routes - todo ==> !(Covers(path, r.path) && (verb == Any || verb == Only(r.verb)))
      decreases todo
    {
      var r :| r in todo;
      var covers := PathMatches(path, r.path);
      if covers && (verb == Any || verb == Only(r.verb)) {
        return true;
      }
      todo := todo - {r};
    }
    return false;
  }

  /** A value longer than any literal segment of a route of length below n. */
  function FreshSegment(n: nat): (r: string)
    ensures |r| == n && '/' !in r
  {
    seq(n, _ => 'x')
  }

  /** The instance of app whose parameters all take the fresh value. */
  function FreshInstance(app: string, n: nat): string {
    var a := Split(app, '/');
    Join(seq(|a|, i requires 0 <= i < |a| => if a[i] == PARAM then FreshSegment(n) else a[i]), '/')
  }

  lemma FreshInstanceSegments(app: string, n: nat)
    ensures var a, c := Split(app, '/'), Split(FreshInstance(app, n), '/');
            |c| == |a| && forall i :: 0 <= i < |a| ==> c[i] == if a[i] == PARAM then FreshSegment(n) else a[i]
    ensures Instantiates(FreshInstance(app, n), app)
  {
    var a := Split(app, '/');
    SplitJoin(seq(|a|, i requires 0 <= i < |a| => if a[i] == PARAM then FreshSegment(n) else a[i]), '/');
  }

  /** A route that accepts the fresh instance accepts every instance. */
  lemma FreshInstanceDecides(app: string, route: string, n: nat)
    requires |route| < n && Instantiates(FreshInstance(app, n), route)
    ensures Covers(app, route)
  {
    FreshInstanceSegments(app, n);
  }

  lemma CoversInstances(app: string, route: string, concrete: string)
    requires Covers(app, route) && Instantiates(concrete, app)
    ensures Instantiates(concrete, route)
  {}

  /** path_matches is exactly language inclusion between the two templates. */
  lemma CoversIsInclusion(app: string, route: string)
    ensures Covers(app, route) <==> forall c :: Instantiates(c, app) ==> Instantiates(c, route)
  {
    if Covers(app, route) {
      forall c | Instantiates(c, app)
        ensures Instantiates(c, route)
      {
        CoversInstances(app, route, c);
      }
    }
    if forall c :: Instantiates(c, app) ==> Instantiates(c, route) {
      FreshInstanceSegments(app, |route| + 1);
      FreshInstanceDecides(app, route, |route| + 1);
    }
  }

  /** Matching is a preorder on templates. */
  lemma CoversPreorder(a: string, b: string, c: string)
    ensures Covers(a, a)
    ensures Covers(a, b) && Covers(b, c) ==> Covers(a, c)
  {
    CoversIsInclusion(a, b);
    CoversIsInclusion(b, c);
    CoversIsInclusion(a, c);
  }

  lemma {:induction false} RouteLengthBound(routes: set<Registration>) returns (n: nat)
    ensures forall r :: r in routes ==> |r.path| < n
  {
    if routes == {} {
      n := 0;
    } else {
      var r :| r in routes;
      var m := RouteLengthBound(routes - {r});
      n := if |r.path| < m then m else |r.path| + 1;
    }
  }

  /** The request path reaches some route. */
  ghost predicate Reaches(concrete: string, routes: set<Registration>) {
    exists r :: r in routes && Instantiates(concrete, r.path)
  }

  /** The routes of one verb. */
  function OfVerb(routes: set<Registration>, verb: Verb): (s: set<Registration>)
    ensures forall r :: r in s <==> r in routes && r.verb == verb
  {
    set r | r in routes && r.verb == verb
  }

  /** Some route covers the path exactly when every request of the path reaches a
      route, even if different requests could have reached different routes. */
  lemma CoveredIsReached(path: string, routes: set<Registration>)
    ensures (exists r :: r in routes && Covers(path, r.path))
            <==> forall c :: Instantiates(c, path) ==> Reaches(c, routes)
  {
    if r :| r in routes && Covers(path, r.path) {
      forall c | Instantiates(c, path)
        ensures Reaches(c, routes)
      {
        CoversInstances(path, r.path, c);
      }
    }
    if forall c :: Instantiates(c, path) ==> Reaches(c, routes) {
      var n := RouteLengthBound(routes);
      FreshInstanceSegments(path, n);
      assert Reaches(FreshInstance(path, n), routes);
      var r :| r in routes && Instantiates(FreshInstance(path, n), r.path);
      FreshInstanceDecides(path, r.path, n);
    }
  }

  /** A call with a verb is matched exactly when every request it can produce reaches
      a route of that verb; a call without one, when every request reaches some route. */
  lemma MatchedIsServed(path: string, routes: set<Registration>)
    ensures forall v :: CallMatched(Only(v), path, routes)
                   <==> forall c :: Instantiates(c, path) ==>
                          exists r :: r in routes && r.verb == v && Instantiates(c, r.path)
    ensures CallMatched(Any, path, routes)
       <==> forall c :: Instantiates(c, path) ==> exists r :: r in routes && Instantiates(c, r.path)
  {
    CoveredIsReached(path, routes);
    assert CallMatched(Any, path, routes) <==> exists r :: r in routes && Covers(path, r.path);
    forall v
      ensures CallMatched(Only(v), path, routes)
         <==> forall c :: Instantiates(c, path) ==> exists r :: r in routes && r.verb == v && Instantiates(c, r.path)
    {
      MatchedWithVerb(v, path, routes);
    }
  }

  lemma MatchedWithVerb(v: Verb, path: string, routes: set<Registration>)
    ensures CallMatched(Only(v), path, routes)
       <==> forall c :: Instantiates(c, path) ==> exists r :: r in routes && r.verb == v && Instantiates(c, r.path)
  {
    CoveredIsReached(path, OfVerb(routes, v));
    assert CallMatched(Only(v), path, routes) <==> exists r :: r in OfVerb(routes, v) && Covers(path, r.path);
    forall c
      ensures Reaches(c, OfVerb(routes, v)) <==> exists r :: r in routes && r.verb == v && Instantiates(c, r.path)
    {
    }
  }

  /** A raw router pattern, before normalization: a segment with a brace in it
      accepts any value. */
  predicate PatternAccepts(concrete: string, pattern: string) {
    var c, t := Split(concrete, '/'), Split(pattern, '/');
    |c| == |t| && forall i :: 0 <= i < |t| ==> IsParamSegment(t[i]) || c[i] == t[i]
  }

  /** Normalizing changes the spelling of the parameters, not the requests. */
  lemma NormalizeKeepsRequests(pattern: string, concrete: string)
    ensures Instantiates(concrete, Normalize(pattern)) <==> PatternAccepts(concrete, Trimmed(pattern))
  {
    NormalizedSegments(pattern);
  }
}
