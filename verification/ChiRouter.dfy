/** The scope-stack parser that recovers nested chi routes from router source.

    A source line is given by what the parser's four patterns find in it and by
    its net brace count; each pattern is searched independently of the others. */
module ChiRouter {
  import opened Text
  import opened PathTemplates

  datatype VerbCall = VerbCall(router: string, verb: Verb, path: string)
  datatype RouteCall = RouteCall(parent: string, path: string, child: string)
  datatype GroupCall = GroupCall(parent: string, child: string)

  datatype Line = Line(verb: Option<VerbCall>, route: Option<RouteCall>, group: Option<GroupCall>,
                       mount: Option<string>, delta: int)

  /** A router variable bound by an enclosing Route or Group closure. */
  datatype Scope = Scope(name: string, prefix: string, openDepth: int)

  datatype State = State(routes: set<Registration>, stack: seq<Scope>, depth: int)

  type Vars = map<string, string>

  /** The routes a RegisterRoutes call adds for the prefix of its argument. */
  type Mounts = string -> set<Registration>

  const START := State({}, [], 0)

  function Lookup(name: string, env: Vars): Option<string> {
    if name in env then Some(env[name]) else None
  }

  /** Innermost binding first, then the top-level router variables. */
  function Resolve(name: string, stack: seq<Scope>, vars: Vars): Option<string> {
    if stack == [] then Lookup(name, vars)
    else if stack[|stack| - 1].name == name then Some(stack[|stack| - 1].prefix)
    else Resolve(name, stack[..|stack| - 1], vars)
  }

  function PopClosed(stack: seq<Scope>, depth: int): seq<Scope> {
    if stack != [] && depth <= stack[|stack| - 1].openDepth then PopClosed(stack[..|stack| - 1], depth) else stack
  }

  function VerbRoutes(call: Option<VerbCall>, prefix: Option<string>): set<Registration> {
    if call.Some? && prefix.Some? then {Registration(call.value.verb, Normalize(prefix.value + call.value.path))}
    else {}
  }

  function AfterVerb(st: State, line: Line, vars: Vars): State {
    match line.verb
    case None => st
    case Some(v) => st.(routes := st.routes + VerbRoutes(line.verb, Resolve(v.router, st.stack, vars)))
  }

  function AfterRoute(st: State, line: Line, vars: Vars): State {
    match line.route
    case None => st
    case Some(r) =>
      match Resolve(r.parent, st.stack, vars)
      case None => st
      case Some(prefix) => st.(stack := st.stack + [Scope(r.child, prefix + r.path, st.depth)])
  }

  function AfterGroup(st: State, line: Line, vars: Vars): State {
    match line.group
    case None => st
    case Some(g) =>
      match Resolve(g.parent, st.stack, vars)
      case None => st
      case Some(prefix) => st.(stack := st.stack + [Scope(g.child, prefix, st.depth)])
  }

  function AfterMount(st: State, line: Line, vars: Vars, mounts: Mounts): State {
    match line.mount
    case None => st
    case Some(m) =>
      match Resolve(m, st.stack, vars)
      case None => st
      case Some(prefix) => st.(routes := st.routes + mounts(prefix))
  }

  function AfterBraces(st: State, delta: int): State {
    var depth := st.depth + delta;
    st.(depth := depth, stack := PopClosed(st.stack, depth))
  }

  /** After the parser's four searches, in their order. */
  function AfterSearches(st: State, line: Line, vars: Vars, mounts: Mounts): State {
    AfterBindings(AfterVerb(st, line, vars), line, vars, mounts)
  }

  function AfterBindings(st: State, line: Line, vars: Vars, mounts: Mounts): State {
    AfterMount(AfterGroup(AfterRoute(st, line, vars), line, vars), line, vars, mounts)
  }

  function StepLine(st: State, line: Line, vars: Vars, mounts: Mounts): State {
    AfterBraces(AfterSearches(st, line, vars, mounts), line.delta)
  }

  function ParseLines(lines: seq<Line>, st: State, vars: Vars, mounts: Mounts): State {
    if lines == [] then st else ParseLines(lines[1..], StepLine(st, lines[0], vars, mounts), vars, mounts)
  }

  lemma {:induction false} ParseLinesSnoc(lines: seq<Line>, line: Line, st: State, vars: Vars, mounts: Mounts)
    ensures ParseLines(lines + [line], st, vars, mounts)
         == StepLine(ParseLines(lines, st, vars, mounts), line, vars, mounts)
  {
    if lines == [] {
      assert [line][1..] == [];
    } else {
      ParseLinesSnoc(lines[1..], line, StepLine(st, lines[0], vars, mounts), vars, mounts);
      assert (lines + [line])[1..] == lines[1..] + [line];
    }
  }

  /** The lookup walks the stack from its top. */
  method ResolveVar(name: string, stack: seq<Scope>, vars: Vars) returns (prefix: Option<string>)
    ensures prefix == Resolve(name, stack, vars)
  {
    var i := |stack|;
    assert stack[..i] == stack;
    while i > 0
      invariant 0 <= i <= |stack|
      invariant Resolve(name, stack, vars) == Resolve(name, stack[..i], vars)
    {
      i := i - 1;
      assert stack[..i + 1][..i] == stack[..i];
      if stack[i].name == name {
        return Some(stack[i].prefix);
      }
    }
    return Lookup(name, vars);
  }

  method PopScopes(open: seq<Scope>, depth: int) returns (stack: seq<Scope>)
    ensures stack == PopClosed(open, depth)
  {
    stack := open;
    while stack != [] && depth <= stack[|stack| - 1].openDepth
      invariant PopClosed(stack, depth) == PopClosed(open, depth)
    {
      stack := stack[..|stack| - 1];
    }
  }

  /** The registrations of one line: the four searches, in the parser's order. */
  method ScanLine(line: Line, st: State, vars: Vars, mounts: Mounts)
    returns (routes: set<Registration>, stack: seq<Scope>)
    ensures State(routes, stack, st.depth) == AfterSearches(st, line, vars, mounts)
  {
    routes, stack := st.routes, st.stack;
    if line.verb.Some? {
      var prefix := ResolveVar(line.verb.value.router, stack, vars);
      if prefix.Some? {
        routes := routes + {Registration(line.verb.value.verb, Normalize(prefix.value + line.verb.value.path))};
      }
    }
    assert State(routes, stack, st.depth) == AfterVerb(st, line, vars);
    routes, stack := ScanBindings(line, State(routes, stack, st.depth), vars, mounts);
  }

  method ScanBindings(line: Line, st: State, vars: Vars, mounts: Mounts)
    returns (routes: set<Registration>, stack: seq<Scope>)
    ensures State(routes, stack, st.depth) == AfterBindings(st, line, vars, mounts)
  {
    routes, stack := st.routes, st.stack;
    if line.route.Some? {
      var prefix := ResolveVar(line.route.value.parent, stack, vars);
      if prefix.Some? {
        stack := stack + [Scope(line.route.value.child, prefix.value + line.route.value.path, st.depth)];
      }
    }
    ghost var routed := State(routes, stack, st.depth);
    assert routed == AfterRoute(st, line, vars);
    if line.group.Some? {
      var prefix := ResolveVar(line.group.value.parent, stack, vars);
      if prefix.Some? {
        stack := stack + [Scope(line.group.value.child, prefix.value, st.depth)];
      }
    }
    ghost var grouped := State(routes, stack, st.depth);
    assert grouped == AfterGroup(routed, line, vars);
    if line.mount.Some? {
      var prefix := ResolveVar(line.mount.value, stack, vars);
      if prefix.Some? {
        routes := routes + mounts(prefix.value);
      }
    }
    assert State(routes, stack, st.depth) == AfterMount(grouped, line, vars, mounts);
  }

  /** One turn of the parser's loop. */
  method ProcessLine(line: Line, st: State, vars: Vars, mounts: Mounts) returns (next: State)
    ensures next == StepLine(st, line, vars, mounts)
  {
    var routes, stack := ScanLine(line, st, vars, mounts);
    var depth := st.depth + line.delta;
    stack := PopScopes(stack, depth);
    next := State(routes, stack, depth);
  }

  /** The parser itself. */
  method ParseChi(lines: seq<Line>, vars: Vars, mounts: Mounts) returns (routes: set<Registration>)
    ensures routes == ParseLines(lines, START, vars, mounts).routes
  {
    var st := START;
    for i := 0 to |lines|
      invariant st == ParseLines(lines[..i], START, vars, mounts)
    {
      assert lines[..i + 1] == lines[..i] + [lines[i]];
      ParseLinesSnoc(lines[..i], lines[i], START, vars, mounts);
      st := ProcessLine(lines[i], st, vars, mounts);
    }
    assert lines[..|lines|] == lines;
    routes := st.routes;
  }

  // ---------------------------------------------------------------------------
  // Router source as nested blocks
  // ---------------------------------------------------------------------------

  /** What the patterns find on a line that carries at most one registration. */
  datatype Head =
    | Plain
    | Register(router: string, verb: Verb, path: string)
    | Route(parent: string, path: string, child: string)
    | Group(parent: string, child: string)
    | Mount(router: string)

  type pos = n: int | 0 < n witness 1

  /** Block-structured source: lines whose braces balance, and blocks that open
      some braces on their first line and close them on their last. */
  datatype Source =
    | End
    | Flat(head: Head, rest: Source)
    | Block(head: Head, braces: pos, body: Source, rest: Source)

  function HeadLine(head: Head, delta: int): Line {
    match head
    case Plain => Line(None, None, None, None, delta)
    case Register(router, verb, path) => Line(Some(VerbCall(router, verb, path)), None, None, None, delta)
    case Route(parent, path, child) => Line(None, Some(RouteCall(parent, path, child)), None, None, delta)
    case Group(parent, child) => Line(None, None, Some(GroupCall(parent, child)), None, delta)
    case Mount(router) => Line(None, None, None, Some(router), delta)
  }

  function Print(src: Source): seq<Line> {
    match src
    case End => []
    case Flat(head, rest) => [HeadLine(head, 0)] + Print(rest)
    case Block(head, braces, body, rest) =>
      [HeadLine(head, braces)] + Print(body) + [HeadLine(Plain, 0 - braces)] + Print(rest)
  }

  /** The variable bindings in force inside the closure that head opens. */
  function Bind(head: Head, env: Vars): Vars {
    match head
    case Route(parent, path, child) => if parent in env then env[child := env[parent] + path] else env
    case Group(parent, child) => if parent in env then env[child := env[parent]] else env
    case _ => env
  }

  /** The routes that head itself registers. */
  function Registers(head: Head, env: Vars, mounts: Mounts): set<Registration> {
    match head
    case Register(router, verb, path) =>
      if router in env then {Registration(verb, Normalize(env[router] + path))} else {}
    case Mount(router) => if router in env then mounts(env[router]) else {}
    case _ => {}
  }

  /** What the source means: lexical scoping, an inner binding shadowing an outer
      one exactly for the length of its block. */
  function Routes(src: Source, env: Vars, mounts: Mounts): set<Registration> {
    match src
    case End => {}
    case Flat(head, rest) => Registers(head, env, mounts) + Routes(rest, env, mounts)
    case Block(head, braces, body, rest) =>
      Registers(head, env, mounts) + Routes(body, Bind(head, env), mounts) + Routes(rest, env, mounts)
  }

  // ---------------------------------------------------------------------------
  // Parsing a printed source gives its meaning
  // ---------------------------------------------------------------------------

  /** Open depths strictly increase towards the top and stay below the depth. */
  predicate WellScoped(stack: seq<Scope>, depth: int) {
    stack == []
    || (stack[|stack| - 1].openDepth < depth && WellScoped(stack[..|stack| - 1], stack[|stack| - 1].openDepth))
  }

  function Env(stack: seq<Scope>, vars: Vars): Vars {
    if stack == [] then vars
    else Env(stack[..|stack| - 1], vars)[stack[|stack| - 1].name := stack[|stack| - 1].prefix]
  }

  lemma {:induction false} ResolveIsLookup(name: string, stack: seq<Scope>, vars: Vars)
    ensures Resolve(name, stack, vars) == Lookup(name, Env(stack, vars))
  {
    if stack != [] {
      ResolveIsLookup(name, stack[..|stack| - 1], vars);
    }
  }

  /** The stack inside the block that head opens. */
  function Pushed(head: Head, st: State, vars: Vars): seq<Scope> {
    match head
    case Route(parent, path, child) =>
      var env := Env(st.stack, vars);
      if parent in env then st.stack + [Scope(child, env[parent] + path, st.depth)] else st.stack
    case Group(parent, child) =>
      var env := Env(st.stack, vars);
      if parent in env then st.stack + [Scope(child, env[parent], st.depth)] else st.stack
    case _ => st.stack
  }

  lemma PushedBinds(head: Head, st: State, vars: Vars)
    ensures Env(Pushed(head, st, vars), vars) == Bind(head, Env(st.stack, vars))
  {
    var pushed := Pushed(head, st, vars);
    assert |pushed| > |st.stack| ==> pushed[..|pushed| - 1] == st.stack;
  }

  /** What one line does: its own routes, its binding, then its braces. */
  function HeadEffect(head: Head, delta: int, st: State, vars: Vars, mounts: Mounts): State {
    AfterBraces(State(st.routes + Registers(head, Env(st.stack, vars), mounts), Pushed(head, st, vars), st.depth),
                delta)
  }

  lemma HeadStep(head: Head, delta: int, st: State, vars: Vars, mounts: Mounts)
    ensures StepLine(st, HeadLine(head, delta), vars, mounts) == HeadEffect(head, delta, st, vars, mounts)
  {
    assert st.routes + {} == st.routes;
    match head
    case Plain =>
    case Register(router, verb, path) => ResolveIsLookup(router, st.stack, vars);
    case Route(parent, path, child) => ResolveIsLookup(parent, st.stack, vars);
    case Group(parent, child) => ResolveIsLookup(parent, st.stack, vars);
    case Mount(router) => ResolveIsLookup(router, st.stack, vars);
  }

  /** Entering a block pops nothing; leaving it pops exactly what it pushed. */
  lemma PushedThenClosed(head: Head, st: State, vars: Vars)
    requires WellScoped(st.stack, st.depth)
    ensures var pushed := Pushed(head, st, vars);
            forall d :: d > st.depth ==> WellScoped(pushed, d) && PopClosed(pushed, d) == pushed
    ensures PopClosed(Pushed(head, st, vars), st.depth) == st.stack
  {
    var pushed := Pushed(head, st, vars);
    if |pushed| > |st.stack| {
      assert pushed[..|pushed| - 1] == st.stack;
    }
  }

  /** The state between the first line of a block and its body. */
  function Entered(head: Head, braces: pos, st: State, vars: Vars, mounts: Mounts): State {
    State(st.routes + Registers(head, Env(st.stack, vars), mounts), Pushed(head, st, vars), st.depth + braces)
  }

  lemma EnteredScope(head: Head, braces: pos, st: State, vars: Vars, mounts: Mounts)
    requires WellScoped(st.stack, st.depth)
    ensures var inner := Entered(head, braces, st, vars, mounts);
            WellScoped(inner.stack, inner.depth) && Env(inner.stack, vars) == Bind(head, Env(st.stack, vars))
  {
    PushedThenClosed(head, st, vars);
    PushedBinds(head, st, vars);
  }

  /** Any way of running lines that treats a first line as the parser does. */
  type Run = (seq<Line>, State) -> State

  ghost predicate RunsHead(run: Run, head: Head, delta: int, lines: seq<Line>, st: State, vars: Vars, mounts: Mounts) {
    run([HeadLine(head, delta)] + lines, st) == run(lines, HeadEffect(head, delta, st, vars, mounts))
  }

  ghost predicate RunsHeads(run: Run, vars: Vars, mounts: Mounts) {
    forall head, delta, lines, st :: RunsHead(run, head, delta, lines, st, vars, mounts)
  }

  lemma ParserRunsHeads(vars: Vars, mounts: Mounts)
    ensures RunsHeads((lines, st) => ParseLines(lines, st, vars, mounts), vars, mounts)
  {
    var run: Run := (lines, st) => ParseLines(lines, st, vars, mounts);
    forall head, delta, lines, st
      ensures RunsHead(run, head, delta, lines, st, vars, mounts)
    {
      HeadStep(head, delta, st, vars, mounts);
      ParseFirst(HeadLine(head, delta), lines, st, vars, mounts);
    }
  }

  lemma ParseFirst(line: Line, lines: seq<Line>, st: State, vars: Vars, mounts: Mounts)
    ensures ParseLines([line] + lines, st, vars, mounts)
         == ParseLines(lines, StepLine(st, line, vars, mounts), vars, mounts)
  {
    assert ([line] + lines)[1..] == lines;
  }

  lemma FlatLine(run: Run, head: Head, lines: seq<Line>, st: State, vars: Vars, mounts: Mounts)
    requires RunsHeads(run, vars, mounts) && WellScoped(st.stack, st.depth)
    ensures run([HeadLine(head, 0)] + lines, st)
         == run(lines, st.(routes := st.routes + Registers(head, Env(st.stack, vars), mounts)))
  {
    assert RunsHead(run, head, 0, lines, st, vars, mounts);
    PushedThenClosed(head, st, vars);
  }

  lemma FirstLine(run: Run, head: Head, braces: pos, lines: seq<Line>, st: State, vars: Vars, mounts: Mounts)
    requires RunsHeads(run, vars, mounts) && WellScoped(st.stack, st.depth)
    ensures run([HeadLine(head, braces)] + lines, st) == run(lines, Entered(head, braces, st, vars, mounts))
  {
    assert RunsHead(run, head, braces, lines, st, vars, mounts);
    PushedThenClosed(head, st, vars);
  }

  lemma LastLine(run: Run, head: Head, braces: pos, lines: seq<Line>, st: State, found: set<Registration>, vars: Vars,
                 mounts: Mounts)
    requires RunsHeads(run, vars, mounts) && WellScoped(st.stack, st.depth)
    ensures run([HeadLine(Plain, 0 - braces)] + lines, State(found, Pushed(head, st, vars), st.depth + braces))
         == run(lines, st.(routes := found))
  {
    var inner := State(found, Pushed(head, st, vars), st.depth + braces);
    assert RunsHead(run, Plain, 0 - braces, lines, inner, vars, mounts);
    PushedThenClosed(head, st, vars);
    assert found + {} == found;
  }

  /** The printed source in front of more lines. */
  function PrintOnto(src: Source, more: seq<Line>): seq<Line> {
    match src
    case End => more
    case Flat(head, rest) => [HeadLine(head, 0)] + PrintOnto(rest, more)
    case Block(head, braces, body, rest) =>
      [HeadLine(head, braces)] + PrintOnto(body, [HeadLine(Plain, 0 - braces)] + PrintOnto(rest, more))
  }

  lemma {:induction false} PrintOntoAppends(src: Source, more: seq<Line>)
    ensures PrintOnto(src, more) == Print(src) + more
  {
    match src
    case End =>
    case Flat(head, rest) => PrintOntoAppends(rest, more);
    case Block(head, braces, body, rest) =>
      PrintOntoAppends(rest, more);
      PrintOntoAppends(body, [HeadLine(Plain, 0 - braces)] + PrintOnto(rest, more));
      BlockInOrder([HeadLine(head, braces)], Print(body), [HeadLine(Plain, 0 - braces)], Print(rest), more);
  }

  lemma BlockInOrder(a: seq<Line>, b: seq<Line>, c: seq<Line>, d: seq<Line>, e: seq<Line>)
    ensures a + (b + (c + (d + e))) == a + b + c + d + e
  {}

  lemma UnionInOrder(a: set<Registration>, b: set<Registration>, c: set<Registration>, d: set<Registration>)
    ensures a + b + d == a + (b + d)
    ensures a + b + c + d == a + (b + c + d)
  {}

  /** The state after a printed source: its routes are added, stack and depth are
      as they were. */
  function After(src: Source, st: State, vars: Vars, mounts: Mounts): State {
    st.(routes := st.routes + Routes(src, Env(st.stack, vars), mounts))
  }

  lemma AfterFlat(head: Head, rest: Source, st: State, vars: Vars, mounts: Mounts)
    ensures var found := st.routes + Registers(head, Env(st.stack, vars), mounts);
            After(rest, st.(routes := found), vars, mounts) == After(Flat(head, rest), st, vars, mounts)
  {
    var env := Env(st.stack, vars);
    UnionInOrder(st.routes, Registers(head, env, mounts), {}, Routes(rest, env, mounts));
  }

  /** The state after a block, before what follows it. */
  function AfterBlock(head: Head, body: Source, st: State, vars: Vars, mounts: Mounts): State {
    var env := Env(st.stack, vars);
    st.(routes := st.routes + Registers(head, env, mounts) + Routes(body, Bind(head, env), mounts))
  }

  lemma AfterBlockAndRest(head: Head, braces: pos, body: Source, rest: Source, st: State, vars: Vars, mounts: Mounts)
    ensures After(rest, AfterBlock(head, body, st, vars, mounts), vars, mounts)
         == After(Block(head, braces, body, rest), st, vars, mounts)
  {
    var env := Env(st.stack, vars);
    var found, added := Registers(head, env, mounts), Routes(body, Bind(head, env), mounts);
    UnionInOrder(st.routes, found, added, Routes(rest, env, mounts));
  }

  lemma {:induction false} RunPrinted(run: Run, src: Source, more: seq<Line>, st: State, vars: Vars, mounts: Mounts)
    requires RunsHeads(run, vars, mounts) && WellScoped(st.stack, st.depth)
    ensures run(PrintOnto(src, more), st) == run(more, After(src, st, vars, mounts))
    decreases src, 1
  {
    match src
    case End =>
      assert st.routes + {} == st.routes;
    case Flat(head, rest) =>
      FlatLine(run, head, PrintOnto(rest, more), st, vars, mounts);
      var next := st.(routes := st.routes + Registers(head, Env(st.stack, vars), mounts));
      RunPrinted(run, rest, more, next, vars, mounts);
      AfterFlat(head, rest, st, vars, mounts);
    case Block(head, braces, body, rest) =>
      RunBlock(run, head, braces, body, PrintOnto(rest, more), st, vars, mounts);
      RunPrinted(run, rest, more, AfterBlock(head, body, st, vars, mounts), vars, mounts);
      AfterBlockAndRest(head, braces, body, rest, st, vars, mounts);
  }

  /** A block from its first line to its last brace. */
  lemma {:induction false} RunBlock(run: Run, head: Head, braces: pos, body: Source, more: seq<Line>, st: State,
                                    vars: Vars, mounts: Mounts)
    requires RunsHeads(run, vars, mounts) && WellScoped(st.stack, st.depth)
    ensures run([HeadLine(head, braces)] + PrintOnto(body, [HeadLine(Plain, 0 - braces)] + more), st)
         == run(more, AfterBlock(head, body, st, vars, mounts))
    decreases body, 2
  {
    var closing := [HeadLine(Plain, 0 - braces)] + more;
    var inner := Entered(head, braces, st, vars, mounts);
    FirstLine(run, head, braces, PrintOnto(body, closing), st, vars, mounts);
    EnteredScope(head, braces, st, vars, mounts);
    RunPrinted(run, body, closing, inner, vars, mounts);
    LastLine(run, head, braces, more, st, After(body, inner, vars, mounts).routes, vars, mounts);
  }

  /** From any state that respects the scoping discipline, whatever follows, parsing
      a printed source adds its routes and leaves stack and depth as they were. */
  lemma ParsePrinted(src: Source, more: seq<Line>, st: State, vars: Vars, mounts: Mounts)
    requires WellScoped(st.stack, st.depth)
    ensures ParseLines(Print(src) + more, st, vars, mounts)
         == ParseLines(more, st.(routes := st.routes + Routes(src, Env(st.stack, vars), mounts)), vars, mounts)
  {
    ParserRunsHeads(vars, mounts);
    RunPrinted((lines, s) => ParseLines(lines, s, vars, mounts), src, more, st, vars, mounts);
    PrintOntoAppends(src, more);
  }

  /** Parsing recovers exactly the routes of the source, at any nesting depth. */
  lemma ParseRecoversRoutes(src: Source, vars: Vars, mounts: Mounts)
    ensures ParseLines(Print(src), START, vars, mounts) == State(Routes(src, vars, mounts), [], 0)
  {
    ParsePrinted(src, [], START, vars, mounts);
    assert Print(src) + [] == Print(src);
    assert {} + Routes(src, vars, mounts) == Routes(src, vars, mounts);
  }

  // ---------------------------------------------------------------------------
  // Handler-owned RegisterRoutes blocks
  // ---------------------------------------------------------------------------

  /** A RegisterRoutes definition: its router parameter and its body lines. */
  datatype Handler = Handler(param: string, body: seq<Line>)

  const NO_MOUNTS: Mounts := (prefix: string) => {}

  function HandlerRoutes(handlers: seq<Handler>, prefix: string): set<Registration> {
    if handlers == [] then {}
    else HandlerRoutes(handlers[..|handlers| - 1], prefix)
         + var h := handlers[|handlers| - 1]; ParseLines(h.body, START, map[h.param := prefix], NO_MOUNTS).routes
  }

  method ParseRegisterRoutes(handlers: seq<Handler>, prefix: string) returns (routes: set<Registration>)
    ensures routes == HandlerRoutes(handlers, prefix)
  {
    routes := {};
    for i := 0 to |handlers|
      invariant routes == HandlerRoutes(handlers[..i], prefix)
    {
      var found := ParseChi(handlers[i].body, map[handlers[i].param := prefix], NO_MOUNTS);
      routes := routes + found;
      assert handlers[..i + 1][..i] == handlers[..i];
    }
    assert handlers[..|handlers|] == handlers;
  }

  datatype HandlerSource = HandlerSource(param: string, body: Source)

  function PrintHandlers(sources: seq<HandlerSource>): (r: seq<Handler>)
    ensures |r| == |sources|
  {
    seq(|sources|, i requires 0 <= i < |sources| => Handler(sources[i].param, Print(sources[i].body)))
  }

  /** A mounted handler contributes its own block structure, its parameter bound
      to the mounting prefix and nothing else in scope. */
  function SourceRoutes(sources: seq<HandlerSource>, prefix: string): set<Registration> {
    if sources == [] then {}
    else SourceRoutes(sources[..|sources| - 1], prefix)
         + var last := sources[|sources| - 1]; Routes(last.body, map[last.param := prefix], NO_MOUNTS)
  }

  lemma {:induction false} MountedRoutesRecovered(sources: seq<HandlerSource>, prefix: string)
    ensures HandlerRoutes(PrintHandlers(sources), prefix) == SourceRoutes(sources, prefix)
  {
    if sources != [] {
      var n := |sources| - 1;
      MountedRoutesRecovered(sources[..n], prefix);
      assert PrintHandlers(sources)[..n] == PrintHandlers(sources[..n]);
      ParseRecoversRoutes(sources[n].body, map[sources[n].param := prefix], NO_MOUNTS);
    }
  }

  // ---------------------------------------------------------------------------
  // The gate
  // ---------------------------------------------------------------------------

  /** The gate's verdict on a call, against a printed router, is the truth about
      the requests of that call. */
  lemma GateDecidesService(src: Source, vars: Vars, mounts: Mounts, path: string)
    ensures var parsed, routes := ParseLines(Print(src), START, vars, mounts).routes, Routes(src, vars, mounts);
            && (forall v :: CallMatched(Only(v), path, parsed)
                       <==> forall c :: Instantiates(c, path) ==>
                              exists r :: r in routes && r.verb == v && Instantiates(c, r.path))
            && (CallMatched(Any, path, parsed)
                <==> forall c :: Instantiates(c, path) ==> exists r :: r in routes && Instantiates(c, r.path))
  {
    ParseRecoversRoutes(src, vars, mounts);
    MatchedIsServed(path, Routes(src, vars, mounts));
  }

  /** A verb call on the same line as the Route or Group that binds its router. */
  function SameLine(head: Head, verb: Verb, path: string): Line
    requires head.Route? || head.Group?
  {
    HeadLine(head, 0).(verb := Some(VerbCall(head.child, verb, path)))
  }

  /** The call is resolved before the binding exists: in the outer scope. */
  lemma SameLineRegistration(st: State, head: Head, verb: Verb, path: string, vars: Vars, mounts: Mounts)
    requires head.Route? || head.Group?
    ensures StepLine(st, SameLine(head, verb, path), vars, mounts).routes
         == st.routes + Registers(Register(head.child, verb, path), Env(st.stack, vars), mounts)
  {
    ResolveIsLookup(head.child, st.stack, vars);
    assert st.routes + {} == st.routes;
  }

  predicate SameEndpoint(outer: Vars, inner: Vars, router: string, path: string)
    requires router in outer && router in inner
  {
    Normalize(outer[router] + path) == Normalize(inner[router] + path)
  }

  /** One registration per line is needed: the call registers what it would inside
      the closure if and only if the closure binds nothing, or the outer scope
      binds the same name to a prefix that leads to the same endpoint. */
  lemma SameLineExactly(stack: seq<Scope>, depth: int, head: Head, verb: Verb, path: string, vars: Vars, mounts: Mounts)
    requires head.Route? || head.Group?
    ensures var outer := Env(stack, vars);
            var inner := Bind(head, outer);
            var found := StepLine(State({}, stack, depth), SameLine(head, verb, path), vars, mounts).routes;
            found == Registers(Register(head.child, verb, path), inner, mounts)
            <==> (head.parent !in outer || (head.child in outer && SameEndpoint(outer, inner, head.child, path)))
  {
    var outer := Env(stack, vars);
    var call := Register(head.child, verb, path);
    SameLineRegistration(State({}, stack, depth), head, verb, path, vars, mounts);
    assert {} + Registers(call, outer, mounts) == Registers(call, outer, mounts);
    if head.parent in outer {
      var endpoint := Registration(verb, Normalize(Bind(head, outer)[head.child] + path));
      assert Registers(call, Bind(head, outer), mounts) == {endpoint};
      assert endpoint in Registers(call, outer, mounts) <==> Registers(call, outer, mounts) == {endpoint};
    }
  }

  /** Routers whose only endpoint is lost that way, though the same call on a line
      of its own is found. */
  lemma SameLineEndpointLost(parent: string, prefix: string, child: string, verb: Verb, path: string)
    requires parent != child
    ensures var vars: Vars := map[parent := ""];
            var head := Route(parent, prefix, child);
            && ParseLines([SameLine(head, verb, path)], START, vars, NO_MOUNTS).routes == {}
            && Routes(Block(head, 1, Flat(Register(child, verb, path), End), End), vars, NO_MOUNTS)
               == {Registration(verb, Normalize(prefix + path))}
  {
    var vars: Vars := map[parent := ""];
    var head := Route(parent, prefix, child);
    var line := SameLine(head, verb, path);
    SameLineRegistration(START, head, verb, path, vars, NO_MOUNTS);
    ParseFirst(line, [], START, vars, NO_MOUNTS);
    assert [line] + [] == [line];
    OwnLineRoutes(head, verb, path, vars);
    assert "" + prefix == prefix;
  }

  lemma OwnLineRoutes(head: Head, verb: Verb, path: string, vars: Vars)
    requires head.Route? && head.parent in vars
    ensures Routes(Block(head, 1, Flat(Register(head.child, verb, path), End), End), vars, NO_MOUNTS)
         == {Registration(verb, Normalize(vars[head.parent] + head.path + path))}
  {
    var inner := Bind(head, vars);
    var call := Register(head.child, verb, path);
    assert Routes(Flat(call, End), inner, NO_MOUNTS) == Registers(call, inner, NO_MOUNTS) + {};
    assert Routes(Block(head, 1, Flat(call, End), End), vars, NO_MOUNTS)
           == {} + Routes(Flat(call, End), inner, NO_MOUNTS) + {};
  }

  /** A recovered endpoint under different prefixes: both spell /a. */
  lemma SameLineEndpointKept()
    ensures var vars: Vars := map["v" := "/a/", "p" := "/a"];
            var head := Route("p", "", "v");
            && vars["v"] != vars["p"]
            && StepLine(START, SameLine(head, Get, ""), vars, NO_MOUNTS).routes
               == Registers(Register("v", Get, ""), Bind(head, vars), NO_MOUNTS)
  {
    var vars: Vars := map["v" := "/a/", "p" := "/a"];
    var head := Route("p", "", "v");
    assert "/a/" != "/a" by { assert |"/a/"| != |"/a"|; }
    assert "v"[0] != "p"[0];
    assert "/a/" + "" == "/a/" && "/a" + "" + "" == "/a";
    assert "/a/"[..2] == "/a";
    assert Trimmed("/a/") == "/a" && Trimmed("/a") == "/a";
    SameLineExactly([], 0, head, Get, "", vars, NO_MOUNTS);
  }
}
