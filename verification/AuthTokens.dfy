/** Device registration and refresh-token rotation over the shared key store:
    session tokens, refresh tokens and API keys, each with an expiry. Requests
    are serialised; every write to the store and every deletion may fail. */
module AuthTokens {
  import opened Text

  const HOUR: nat := 3600
  const SESSION_TTL: nat := 24 * HOUR
  const REFRESH_TTL: nat := 30 * 24 * HOUR
  const API_KEY_TTL: nat := 365 * 24 * HOUR

  type Token = nat

  datatype Identity = Identity(user: string, device: string)

  const NOBODY := Identity("", "")

  /** chain is the registration the entry descends from; the service does not
      store it, and no decision reads it. */
  datatype Session = Session(identity: Identity, expires: nat, chain: nat)

  /** ttl is when the store drops the entry, expires the deadline written in it. */
  datatype Claims = Claims(identity: Identity, session: Option<Token>, expires: nat, ttl: nat, chain: nat)

  datatype ApiKey = ApiKey(device: string, expires: nat)

  /** How the two writes of a new token pair go. */
  datatype Writes = BothStored | SessionWriteFails | RefreshWriteFails

  /** The writes of a registration: the device record, the API key, the pair. */
  datatype Enrolment = DeviceWriteFails | KeyWriteFails | Enrolled(writes: Writes)

  /** Which of a rotation's deletions are executed; their failures are ignored. */
  datatype Deletes = Deletes(session: bool, refresh: bool)

  /** What a registration is bound to, and the pair issued for it last. */
  datatype Chain = Chain(identity: Identity, session: Token, refresh: Token)

  /** The key spaces, the device records with their current API key; then what has
      happened so far: every token generated, the refresh tokens accepted, and the
      chains. */
  datatype Store = Store(now: nat, sessions: map<Token, Session>, refreshes: map<Token, Claims>,
                         apiKeys: map<Token, ApiKey>, devices: map<string, Token>,
                         issued: set<Token>, accepted: seq<Token>, chains: seq<Chain>)

  const INIT := Store(0, map[], map[], map[], map[], {}, [], [])

  datatype Step =
    | Tick(elapsed: nat)
    | Register(device: string, apiKey: Token, session: Token, refresh: Token, enrolment: Enrolment)
    | Rotate(token: Token, session: Token, refresh: Token, writes: Writes, deletes: Deletes)

  /** The random generator never repeats itself. */
  predicate FreshPair(s: Store, session: Token, refresh: Token) {
    session !in s.issued && refresh !in s.issued && session != refresh
  }

  /** The token pair of one chain, stored as far as the writes succeed. */
  function Issue(s: Store, chain: nat, identity: Identity, session: Token, refresh: Token, writes: Writes): Store
    requires chain < |s.chains|
  {
    var marked := s.(issued := s.issued + {session, refresh},
                     chains := s.chains[chain := Chain(identity, session, refresh)]);
    var withSession := marked.(sessions := s.sessions[session := Session(identity, s.now + SESSION_TTL, chain)]);
    match writes
    case SessionWriteFails => marked
    case RefreshWriteFails => withSession
    case BothStored =>
      var deadline := s.now + REFRESH_TTL;
      withSession.(refreshes := s.refreshes[refresh := Claims(identity, Some(session), deadline, deadline, chain)])
  }

  function Without<V>(m: map<Token, V>, t: Token): map<Token, V> {
    map k | k in m && k != t :: m[k]
  }

  predicate SessionLive(s: Store, token: Token) {
    token in s.sessions && s.now < s.sessions[token].expires
  }

  /** The store still returns the entry. */
  predicate RefreshStored(s: Store, token: Token) {
    token in s.refreshes && s.now < s.refreshes[token].ttl
  }

  predicate Accepts(s: Store, token: Token) {
    RefreshStored(s, token) && s.now <= s.refreshes[token].expires && s.refreshes[token].identity != NOBODY
  }

  function Rejected(s: Store, token: Token, deletes: Deletes): Store {
    if deletes.refresh then s.(refreshes := Without(s.refreshes, token)) else s
  }

  function Revoked(s: Store, token: Token, deletes: Deletes): Store
    requires token in s.refreshes
  {
    var claims := s.refreshes[token];
    s.(sessions := if claims.session.Some? && deletes.session then Without(s.sessions, claims.session.value)
                   else s.sessions,
       refreshes := if deletes.refresh then Without(s.refreshes, token) else s.refreshes,
       accepted := s.accepted + [token])
  }

  function Registered(s: Store, device: string, apiKey: Token): Store {
    s.(apiKeys := s.apiKeys[apiKey := ApiKey(device, s.now + API_KEY_TTL)], devices := s.devices[device := apiKey],
       issued := s.issued + {apiKey}, chains := s.chains + [Chain(Identity("", device), apiKey, apiKey)])
  }

  function Enrol(s: Store, device: string, apiKey: Token, session: Token, refresh: Token, enrolment: Enrolment): Store {
    match enrolment
    case DeviceWriteFails => s.(issued := s.issued + {apiKey})
    case KeyWriteFails => s.(devices := s.devices[device := apiKey], issued := s.issued + {apiKey})
    case Enrolled(writes) =>
      Issue(Registered(s, device, apiKey), |s.chains|, Identity("", device), session, refresh, writes)
  }

  predicate FreshKey(s: Store, apiKey: Token, session: Token, refresh: Token) {
    apiKey !in s.issued && apiKey != session && apiKey != refresh && FreshPair(s, session, refresh)
  }

  function Next(s: Store, step: Step): Store {
    match step
    case Tick(elapsed) => s.(now := s.now + elapsed)
    case Register(device, apiKey, session, refresh, enrolment) =>
      if device == "" || !FreshKey(s, apiKey, session, refresh) then s
      else Enrol(s, device, apiKey, session, refresh, enrolment)
    case Rotate(token, session, refresh, writes, deletes) =>
      if !FreshPair(s, session, refresh) || !RefreshStored(s, token) then s
      else if !Accepts(s, token) then Rejected(s, token, deletes)
      else if s.refreshes[token].chain >= |s.chains| then s
      else
        var claims := s.refreshes[token];
        Issue(Revoked(s, token, deletes), claims.chain, claims.identity, session, refresh, writes)
  }

  function Exec(steps: seq<Step>): Store {
    if steps == [] then INIT else Next(Exec(steps[..|steps| - 1]), steps[|steps| - 1])
  }

  lemma ExecAppend(steps: seq<Step>, more: seq<Step>)
    requires more != []
    ensures Exec(steps + more) == Next(Exec(steps + more[..|more| - 1]), more[|more| - 1])
  {
    assert (steps + more)[..|steps + more| - 1] == steps + more[..|more| - 1];
  }

  // ---------------------------------------------------------------------------
  // What every run keeps, whatever fails
  // ---------------------------------------------------------------------------

  /** Stored refresh entries can be told apart by the session they name, and the
      store drops them when they expire. */
  ghost predicate Sound(s: Store) {
    && (forall t :: t in s.sessions ==> t in s.issued)
    && (forall t :: t in s.refreshes ==> SoundEntry(s, t))
    && (forall t, u :: t in s.refreshes && u in s.refreshes && s.refreshes[t].session == s.refreshes[u].session ==>
          t == u)
  }

  ghost predicate SoundEntry(s: Store, t: Token)
    requires t in s.refreshes
  {
    var e := s.refreshes[t];
    && t in s.issued && e.session.Some? && e.session.value in s.issued
    && e.ttl == e.expires && e.identity != NOBODY
  }

  lemma IssueKeepsSound(s: Store, chain: nat, identity: Identity, session: Token, refresh: Token, writes: Writes)
    requires Sound(s) && FreshPair(s, session, refresh) && chain < |s.chains| && identity != NOBODY
    ensures Sound(Issue(s, chain, identity, session, refresh, writes))
  {
    var next := Issue(s, chain, identity, session, refresh, writes);
    forall t | t in next.refreshes
      ensures SoundEntry(next, t)
    {
      assert t in s.refreshes ==> SoundEntry(s, t);
    }
  }

  lemma RevokedKeepsSound(s: Store, token: Token, deletes: Deletes)
    requires Sound(s) && token in s.refreshes
    ensures Sound(Revoked(s, token, deletes))
  {
    var next := Revoked(s, token, deletes);
    forall t | t in next.refreshes
      ensures SoundEntry(next, t)
    {
      assert SoundEntry(s, t);
    }
  }

  lemma RegisteredKeepsSound(s: Store, device: string, apiKey: Token)
    requires Sound(s)
    ensures Sound(Registered(s, device, apiKey))
  {
    forall t | t in s.refreshes
      ensures SoundEntry(Registered(s, device, apiKey), t)
    {
      assert SoundEntry(s, t);
    }
  }

  lemma EnrolKeepsSound(s: Store, device: string, apiKey: Token, session: Token, refresh: Token, enrolment: Enrolment)
    requires Sound(s) && device != "" && FreshKey(s, apiKey, session, refresh)
    ensures Sound(Enrol(s, device, apiKey, session, refresh, enrolment))
  {
    if enrolment.Enrolled? {
      RegisteredKeepsSound(s, device, apiKey);
      var identity := Identity("", device);
      IssueKeepsSound(Registered(s, device, apiKey), |s.chains|, identity, session, refresh, enrolment.writes);
    } else {
      assert forall t :: t in s.refreshes ==> SoundEntry(s, t);
    }
  }

  /** With sound entries, a stored refresh token is an accepted one. */
  lemma StoredIsAccepted(s: Store, token: Token)
    requires Sound(s)
    ensures Accepts(s, token) <==> RefreshStored(s, token)
  {
    assert token in s.refreshes ==> SoundEntry(s, token);
  }

  lemma StepKeepsSound(s: Store, step: Step)
    requires Sound(s)
    ensures Sound(Next(s, step))
  {
    match step
    case Tick(_) =>
      assert forall t :: t in s.refreshes ==> SoundEntry(s, t);
    case Register(device, apiKey, session, refresh, enrolment) =>
      if device != "" && FreshKey(s, apiKey, session, refresh) {
        EnrolKeepsSound(s, device, apiKey, session, refresh, enrolment);
      }
    case Rotate(token, session, refresh, writes, deletes) =>
      StoredIsAccepted(s, token);
      if FreshPair(s, session, refresh) && Accepts(s, token) {
        var claims, revoked := s.refreshes[token], Revoked(s, token, deletes);
        RevokedKeepsSound(s, token, deletes);
        if claims.chain < |s.chains| {
          IssueKeepsSound(revoked, claims.chain, claims.identity, session, refresh, writes);
        }
      }
  }

  lemma {:induction false} AlwaysSound(steps: seq<Step>)
    ensures Sound(Exec(steps))
  {
    if steps != [] {
      AlwaysSound(steps[..|steps| - 1]);
      StepKeepsSound(Exec(steps[..|steps| - 1]), steps[|steps| - 1]);
    }
  }

  /** No two stored refresh entries name the same session. */
  lemma SessionNamedOnce(steps: seq<Step>, t: Token, u: Token)
    requires t in Exec(steps).refreshes && u in Exec(steps).refreshes
    requires Exec(steps).refreshes[t].session == Exec(steps).refreshes[u].session
    ensures t == u
  {
    AlwaysSound(steps);
  }

  /** Every entry is bound to the identity of its registration. */
  ghost predicate Bound(s: Store) {
    && (forall t :: t in s.sessions ==> BoundTo(s, s.sessions[t].chain, s.sessions[t].identity))
    && (forall t :: t in s.refreshes ==> BoundTo(s, s.refreshes[t].chain, s.refreshes[t].identity))
  }

  predicate BoundTo(s: Store, chain: nat, identity: Identity) {
    chain < |s.chains| && identity == s.chains[chain].identity
  }

  lemma IssueKeepsBound(s: Store, chain: nat, identity: Identity, session: Token, refresh: Token, writes: Writes)
    requires Bound(s) && chain < |s.chains| && identity == s.chains[chain].identity
    ensures Bound(Issue(s, chain, identity, session, refresh, writes))
  {}

  lemma StepKeepsBound(s: Store, step: Step)
    requires Bound(s)
    ensures Bound(Next(s, step))
  {
    match step
    case Tick(_) =>
    case Register(device, apiKey, session, refresh, enrolment) =>
      if enrolment.Enrolled? {
        var identity := Identity("", device);
        IssueKeepsBound(Registered(s, device, apiKey), |s.chains|, identity, session, refresh, enrolment.writes);
      }
    case Rotate(token, session, refresh, writes, deletes) =>
      if RefreshStored(s, token) {
        var claims := s.refreshes[token];
        IssueKeepsBound(Revoked(s, token, deletes), claims.chain, claims.identity, session, refresh, writes);
      }
  }

  lemma {:induction false} AlwaysBound(steps: seq<Step>)
    ensures Bound(Exec(steps))
  {
    if steps != [] {
      AlwaysBound(steps[..|steps| - 1]);
      StepKeepsBound(Exec(steps[..|steps| - 1]), steps[|steps| - 1]);
    }
  }

  lemma IssueKeepsBinding(s: Store, chain: nat, identity: Identity, session: Token, refresh: Token, writes: Writes,
                          c: nat)
    requires chain < |s.chains| && identity == s.chains[chain].identity && c < |s.chains|
    ensures var next := Issue(s, chain, identity, session, refresh, writes);
            c < |next.chains| && next.chains[c].identity == s.chains[c].identity
  {}

  lemma StepKeepsBinding(s: Store, step: Step, c: nat)
    requires Bound(s) && c < |s.chains|
    ensures c < |Next(s, step).chains| && Next(s, step).chains[c].identity == s.chains[c].identity
  {
    match step
    case Tick(_) =>
    case Register(device, apiKey, session, refresh, enrolment) =>
      if enrolment.Enrolled? {
        var identity := Identity("", device);
        IssueKeepsBinding(Registered(s, device, apiKey), |s.chains|, identity, session, refresh, enrolment.writes, c);
      }
    case Rotate(token, session, refresh, writes, deletes) =>
      if RefreshStored(s, token) {
        var claims := s.refreshes[token];
        IssueKeepsBinding(Revoked(s, token, deletes), claims.chain, claims.identity, session, refresh, writes, c);
      }
  }

  lemma {:induction false} BindingsPersist(steps: seq<Step>, more: seq<Step>, c: nat)
    requires c < |Exec(steps).chains|
    ensures BoundTo(Exec(steps + more), c, Exec(steps).chains[c].identity)
  {
    if more == [] {
      assert steps + more == steps;
    } else {
      var before := more[..|more| - 1];
      BindingsPersist(steps, before, c);
      ExecAppend(steps, more);
      AlwaysBound(steps + before);
      StepKeepsBinding(Exec(steps + before), more[|more| - 1], c);
    }
  }

  /** The identity never changes along a chain, whatever fails: a refresh entry now
      and a session or refresh entry of the same registration at any later time
      agree on it. */
  lemma IdentityNeverChanges(steps: seq<Step>, more: seq<Step>, t: Token, u: Token)
    requires t in Exec(steps).refreshes
    ensures var e, later := Exec(steps).refreshes[t], Exec(steps + more);
            && (u in later.refreshes && later.refreshes[u].chain == e.chain ==>
                later.refreshes[u].identity == e.identity)
            && (u in later.sessions && later.sessions[u].chain == e.chain ==> later.sessions[u].identity == e.identity)
  {
    AlwaysBound(steps);
    AlwaysBound(steps + more);
    BindingsPersist(steps, more, Exec(steps).refreshes[t].chain);
  }

  // ---------------------------------------------------------------------------
  // Accepting a token
  // ---------------------------------------------------------------------------

  /** The step is a refresh request that the service accepts. */
  predicate AcceptedBy(s: Store, step: Step) {
    step.Rotate? && Accepts(s, step.token) && FreshPair(s, step.session, step.refresh)
  }

  /** The tokens of the accepted refresh requests, read off the run. */
  function AcceptedTokens(steps: seq<Step>): seq<Token> {
    if steps == [] then []
    else
      var before, last := steps[..|steps| - 1], steps[|steps| - 1];
      AcceptedTokens(before) + if AcceptedBy(Exec(before), last) then [last.token] else []
  }

  lemma StepLogs(s: Store, step: Step)
    requires Bound(s)
    ensures Next(s, step).accepted == s.accepted + if AcceptedBy(s, step) then [step.token] else []
  {}

  lemma {:induction false} AcceptedIsLogged(steps: seq<Step>)
    ensures AcceptedTokens(steps) == Exec(steps).accepted
  {
    if steps != [] {
      var before := steps[..|steps| - 1];
      AcceptedIsLogged(before);
      AlwaysBound(before);
      StepLogs(Exec(before), steps[|steps| - 1]);
    }
  }

  /** The tokens accepted so far are gone from the store, and differ. */
  ghost predicate UsedGone(s: Store) {
    && (forall i :: 0 <= i < |s.accepted| ==> s.accepted[i] in s.issued && s.accepted[i] !in s.refreshes)
    && (forall i, j :: 0 <= i < j < |s.accepted| ==> s.accepted[i] != s.accepted[j])
  }

  /** The step keeps a refresh token that it uses. */
  predicate KeepsUsed(step: Step) {
    step.Rotate? && !step.deletes.refresh
  }

  lemma IssueKeepsUsedGone(s: Store, chain: nat, identity: Identity, session: Token, refresh: Token, writes: Writes)
    requires UsedGone(s) && FreshPair(s, session, refresh) && chain < |s.chains|
    ensures UsedGone(Issue(s, chain, identity, session, refresh, writes))
  {}

  lemma RevokedKeepsUsedGone(s: Store, token: Token, deletes: Deletes)
    requires UsedGone(s) && token in s.refreshes && token in s.issued && deletes.refresh
    ensures UsedGone(Revoked(s, token, deletes))
  {}

  lemma StepKeepsUsedGone(s: Store, step: Step)
    requires UsedGone(s) && Sound(s) && !KeepsUsed(step)
    ensures UsedGone(Next(s, step))
  {
    match step
    case Tick(_) =>
    case Register(device, apiKey, session, refresh, enrolment) =>
      if device != "" && FreshKey(s, apiKey, session, refresh) && enrolment.Enrolled? {
        var identity := Identity("", device);
        IssueKeepsUsedGone(Registered(s, device, apiKey), |s.chains|, identity, session, refresh, enrolment.writes);
      }
    case Rotate(token, session, refresh, writes, deletes) =>
      if FreshPair(s, session, refresh) && Accepts(s, token) && s.refreshes[token].chain < |s.chains| {
        var claims := s.refreshes[token];
        assert SoundEntry(s, token);
        RevokedKeepsUsedGone(s, token, deletes);
        IssueKeepsUsedGone(Revoked(s, token, deletes), claims.chain, claims.identity, session, refresh, writes);
      }
  }

  lemma {:induction false} UsedStayGone(steps: seq<Step>)
    requires forall i :: 0 <= i < |steps| ==> !KeepsUsed(steps[i])
    ensures UsedGone(Exec(steps))
  {
    if steps != [] {
      var before := steps[..|steps| - 1];
      UsedStayGone(before);
      AlwaysSound(before);
      StepKeepsUsedGone(Exec(before), steps[|steps| - 1]);
    }
  }

  /** While used tokens are deleted, whatever else fails, none is accepted twice. */
  lemma AcceptedOnce(steps: seq<Step>)
    requires forall i :: 0 <= i < |steps| && steps[i].Rotate? ==> steps[i].deletes.refresh
    ensures forall i, j :: 0 <= i < j < |AcceptedTokens(steps)| ==> AcceptedTokens(steps)[i] != AcceptedTokens(steps)[j]
  {
    AcceptedIsLogged(steps);
    UsedStayGone(steps);
  }

  /** What a request leaves of the pair that it uses. */
  lemma ReplayableNow(s: Store, token: Token, session: Token, refresh: Token, writes: Writes, deletes: Deletes)
    requires Sound(s) && Bound(s) && Accepts(s, token) && FreshPair(s, session, refresh)
    ensures var next := Next(s, Rotate(token, session, refresh, writes, deletes));
            var named := s.refreshes[token].session;
            && (Accepts(next, token) <==> !deletes.refresh)
            && named.Some? && (named.value in next.sessions <==> !deletes.session && named.value in s.sessions)
  {
    assert SoundEntry(s, token);
  }

  /** After every run: a used token can be presented again at once if and only if its
      deletion failed, which the service only logs; the old session survives if and
      only if its deletion failed. */
  lemma ReplayExactly(steps: seq<Step>, token: Token, session: Token, refresh: Token, writes: Writes, deletes: Deletes)
    requires Accepts(Exec(steps), token) && FreshPair(Exec(steps), session, refresh)
    ensures var s := Exec(steps);
            var next := Next(s, Rotate(token, session, refresh, writes, deletes));
            var named := s.refreshes[token].session;
            && (Accepts(next, token) <==> !deletes.refresh)
            && named.Some? && (named.value in next.sessions <==> !deletes.session && named.value in s.sessions)
  {
    AlwaysSound(steps);
    AlwaysBound(steps);
    ReplayableNow(Exec(steps), token, session, refresh, writes, deletes);
  }

  /** A request is accepted exactly when the store has the entry, its deadline has not
      passed, and it is bound to a user or to a device. */
  lemma AcceptedExactly(s: Store, token: Token)
    ensures Accepts(s, token)
       <==> && token in s.refreshes && s.now < s.refreshes[token].ttl && s.now <= s.refreshes[token].expires
            && (s.refreshes[token].identity.user != "" || s.refreshes[token].identity.device != "")
  {}

  /** A stored entry that is not accepted is deleted, if the store deletes it, and the
      request changes nothing else; neither does a request for a token without entry. */
  lemma RejectionDeletes(s: Store, token: Token, session: Token, refresh: Token, writes: Writes, deletes: Deletes,
                         t: Token)
    requires FreshPair(s, session, refresh) && !Accepts(s, token)
    ensures var next := Next(s, Rotate(token, session, refresh, writes, deletes));
            && next.sessions == s.sessions && next.apiKeys == s.apiKeys && next.devices == s.devices
            && (t != token ==> (t in next.refreshes <==> t in s.refreshes))
            && (t in next.refreshes ==> t in s.refreshes && next.refreshes[t] == s.refreshes[t])
            && (RefreshStored(s, token) ==> (token in next.refreshes <==> !deletes.refresh))
  {}

  /** The generator may yield any tokens that have not been generated before. */
  lemma FreshExactly(s: Store, apiKey: Token, session: Token, refresh: Token)
    ensures FreshPair(s, session, refresh) <==> session !in s.issued && refresh !in s.issued && session != refresh
    ensures FreshKey(s, apiKey, session, refresh)
       <==> FreshPair(s, session, refresh) && apiKey !in s.issued && apiKey !in {session, refresh}
  {}

  /** Generated tokens are spent, whichever writes fail. */
  lemma GeneratedIsSpent(s: Store, device: string, apiKey: Token, session: Token, refresh: Token, enrolment: Enrolment,
                         token: Token, writes: Writes, deletes: Deletes)
    requires Bound(s) && FreshKey(s, apiKey, session, refresh) && device != ""
    ensures var next := Next(s, Register(device, apiKey, session, refresh, enrolment));
            && s.issued <= next.issued && apiKey in next.issued
            && (enrolment.Enrolled? ==> {session, refresh} <= next.issued)
    ensures var next := Next(s, Rotate(token, session, refresh, writes, deletes));
            s.issued <= next.issued && (Accepts(s, token) ==> {session, refresh} <= next.issued)
  {}

  // ---------------------------------------------------------------------------
  // Revoking a session
  // ---------------------------------------------------------------------------

  /** Some stored refresh entry names the session and outlives it. */
  ghost predicate Revocable(s: Store, x: Token)
    requires x in s.sessions
  {
    exists t :: t in s.refreshes && Names(s, t, x)
  }

  predicate Names(s: Store, t: Token, x: Token)
    requires t in s.refreshes && x in s.sessions
  {
    s.refreshes[t].session == Some(x) && s.sessions[x].expires <= s.refreshes[t].expires
  }

  ghost predicate AllRevocable(s: Store) {
    forall x :: x in s.sessions ==> Revocable(s, x)
  }

  /** The step strands a session: the second write of a new pair fails, or a rotation
      deletes the used token and not the session that it names. */
  predicate Strands(s: Store, step: Step) {
    match step
    case Tick(_) => false
    case Register(device, apiKey, session, refresh, enrolment) =>
      device != "" && FreshKey(s, apiKey, session, refresh) && enrolment == Enrolled(RefreshWriteFails)
    case Rotate(token, session, refresh, writes, deletes) =>
      AcceptedBy(s, step) && (writes == RefreshWriteFails || DropsName(s, token, deletes))
  }

  predicate DropsName(s: Store, token: Token, deletes: Deletes)
    requires token in s.refreshes
  {
    var named := s.refreshes[token].session;
    deletes.refresh && !deletes.session && named.Some? && named.value in s.sessions
  }

  /** Issuing a pair changes nothing for the other sessions. */
  lemma IssueElsewhere(s: Store, chain: nat, identity: Identity, session: Token, refresh: Token, writes: Writes,
                       x: Token)
    requires Sound(s) && FreshPair(s, session, refresh) && chain < |s.chains| && x in s.sessions
    ensures var next := Issue(s, chain, identity, session, refresh, writes);
            x in next.sessions && (Revocable(next, x) <==> Revocable(s, x))
  {
    var next := Issue(s, chain, identity, session, refresh, writes);
    assert x != session && next.sessions[x] == s.sessions[x];
    forall t | t in s.refreshes
      ensures t in next.refreshes && next.refreshes[t] == s.refreshes[t]
    {
      assert SoundEntry(s, t);
    }
    if Revocable(s, x) {
      var t :| t in s.refreshes && Names(s, t, x);
      assert Names(next, t, x);
    }
    if Revocable(next, x) {
      var t :| t in next.refreshes && Names(next, t, x);
      assert t in s.refreshes && Names(s, t, x);
    }
  }

  lemma IssuedRevocable(s: Store, chain: nat, identity: Identity, session: Token, refresh: Token, writes: Writes)
    requires Sound(s) && FreshPair(s, session, refresh) && chain < |s.chains| && writes != SessionWriteFails
    ensures var next := Issue(s, chain, identity, session, refresh, writes);
            session in next.sessions && (Revocable(next, session) <==> writes == BothStored)
  {
    var next := Issue(s, chain, identity, session, refresh, writes);
    forall t | t in s.refreshes
      ensures s.refreshes[t].session != Some(session)
    {
      assert SoundEntry(s, t);
    }
    if writes == BothStored {
      assert Names(next, refresh, session);
    }
  }

  lemma IssueRevocable(s: Store, chain: nat, identity: Identity, session: Token, refresh: Token, writes: Writes)
    requires Sound(s) && FreshPair(s, session, refresh) && chain < |s.chains|
    ensures AllRevocable(Issue(s, chain, identity, session, refresh, writes))
       <==> AllRevocable(s) && writes != RefreshWriteFails
  {
    var next := Issue(s, chain, identity, session, refresh, writes);
    forall x | x in s.sessions
      ensures x in next.sessions && (Revocable(next, x) <==> Revocable(s, x))
    {
      IssueElsewhere(s, chain, identity, session, refresh, writes, x);
    }
    if writes != SessionWriteFails {
      IssuedRevocable(s, chain, identity, session, refresh, writes);
    }
    assert forall x :: x in next.sessions ==> x in s.sessions || (x == session && writes != SessionWriteFails);
  }

  lemma RevokedRevocable(s: Store, token: Token, deletes: Deletes)
    requires Sound(s) && AllRevocable(s) && token in s.refreshes
    ensures AllRevocable(Revoked(s, token, deletes)) <==> !DropsName(s, token, deletes)
  {
    var next := Revoked(s, token, deletes);
    assert SoundEntry(s, token);
    var named := s.refreshes[token].session.value;
    forall x | x in next.sessions && (x != named || !deletes.refresh)
      ensures Revocable(next, x)
    {
      assert Revocable(s, x);
      var t :| t in s.refreshes && Names(s, t, x);
      assert t in next.refreshes && Names(next, t, x);
    }
    if DropsName(s, token, deletes) {
      assert named in next.sessions && !Revocable(next, named);
    }
  }

  lemma RevocableAfterRotate(s: Store, token: Token, session: Token, refresh: Token, writes: Writes, deletes: Deletes)
    requires Sound(s) && Bound(s) && AllRevocable(s)
    ensures var step := Rotate(token, session, refresh, writes, deletes);
            AllRevocable(Next(s, step)) <==> !Strands(s, step)
  {
    StoredIsAccepted(s, token);
    if FreshPair(s, session, refresh) && Accepts(s, token) {
      var claims := s.refreshes[token];
      RevokedKeepsSound(s, token, deletes);
      RevokedRevocable(s, token, deletes);
      IssueRevocable(Revoked(s, token, deletes), claims.chain, claims.identity, session, refresh, writes);
    }
  }

  lemma SameEntries(a: Store, b: Store)
    requires a.sessions == b.sessions && a.refreshes == b.refreshes && AllRevocable(a)
    ensures AllRevocable(b)
  {
    forall x | x in b.sessions
      ensures Revocable(b, x)
    {
      assert Revocable(a, x);
      var t :| t in a.refreshes && Names(a, t, x);
      assert Names(b, t, x);
    }
  }

  /** From a store in which every session can be revoked, exactly the stranding steps
      lead to one that holds a session which no request can revoke. */
  lemma RevocableExactly(s: Store, step: Step)
    requires Sound(s) && Bound(s) && AllRevocable(s)
    ensures AllRevocable(Next(s, step)) <==> !Strands(s, step)
  {
    match step
    case Tick(_) => SameEntries(s, Next(s, step));
    case Register(device, apiKey, session, refresh, enrolment) =>
      if device != "" && FreshKey(s, apiKey, session, refresh) {
        var registered := Registered(s, device, apiKey);
        RegisteredKeepsSound(s, device, apiKey);
        SameEntries(s, registered);
        if enrolment.Enrolled? {
          IssueRevocable(registered, |s.chains|, Identity("", device), session, refresh, enrolment.writes);
        } else {
          SameEntries(s, Next(s, step));
        }
      }
    case Rotate(token, session, refresh, writes, deletes) =>
      RevocableAfterRotate(s, token, session, refresh, writes, deletes);
  }

  ghost predicate AlwaysRevocable(steps: seq<Step>) {
    forall k :: 0 <= k <= |steps| ==> AllRevocable(Exec(steps[..k]))
  }

  predicate NeverStrands(steps: seq<Step>) {
    forall k :: 0 <= k < |steps| ==> !Strands(Exec(steps[..k]), steps[k])
  }

  lemma PrefixStep(steps: seq<Step>, k: nat)
    requires k < |steps|
    ensures Exec(steps[..k + 1]) == Next(Exec(steps[..k]), steps[k])
  {
    assert steps[..k + 1][..k] == steps[..k];
  }

  lemma {:induction false} NeverStrandedPrefix(steps: seq<Step>, k: nat)
    requires NeverStrands(steps) && k <= |steps|
    ensures AllRevocable(Exec(steps[..k]))
  {
    if k > 0 {
      NeverStrandedPrefix(steps, k - 1);
      PrefixStep(steps, k - 1);
      AlwaysSound(steps[..k - 1]);
      AlwaysBound(steps[..k - 1]);
      RevocableExactly(Exec(steps[..k - 1]), steps[k - 1]);
    }
  }

  /** Over every run, all sessions can be revoked at every moment if and only if no
      step strands one. */
  lemma RevocableOverRuns(steps: seq<Step>)
    ensures AlwaysRevocable(steps) <==> NeverStrands(steps)
  {
    if NeverStrands(steps) {
      forall k | 0 <= k <= |steps|
        ensures AllRevocable(Exec(steps[..k]))
      {
        NeverStrandedPrefix(steps, k);
      }
    }
    if AlwaysRevocable(steps) {
      forall k | 0 <= k < |steps|
        ensures !Strands(Exec(steps[..k]), steps[k])
      {
        PrefixStep(steps, k);
        AlwaysSound(steps[..k]);
        AlwaysBound(steps[..k]);
        assert AllRevocable(Exec(steps[..k])) && AllRevocable(Exec(steps[..k + 1]));
        RevocableExactly(Exec(steps[..k]), steps[k]);
      }
    }
  }

  /** In such a run every live session is named by exactly one refresh entry, which
      is accepted: the session's 24 hours end before the refresh token's 30 days. */
  lemma LiveSessionRevocable(steps: seq<Step>, x: Token) returns (t: Token)
    requires NeverStrands(steps) && SessionLive(Exec(steps), x)
    ensures var s := Exec(steps);
            && Accepts(s, t) && s.refreshes[t].session == Some(x)
            && forall u :: u in s.refreshes && s.refreshes[u].session == Some(x) ==> u == t
  {
    var s := Exec(steps);
    assert steps[..|steps|] == steps;
    NeverStrandedPrefix(steps, |steps|);
    AlwaysSound(steps);
    assert Revocable(s, x);
    t :| t in s.refreshes && Names(s, t, x);
    assert SoundEntry(s, t);
  }

  /** The exception is real: when the second write of a registration fails, the
      client is told it failed, and a live session that no refresh entry names is
      left in the store. */
  lemma LostRefreshEntryLeavesSession(steps: seq<Step>, device: string, apiKey: Token, session: Token, refresh: Token)
    requires device != "" && FreshKey(Exec(steps), apiKey, session, refresh)
    ensures var next := Next(Exec(steps), Register(device, apiKey, session, refresh, Enrolled(RefreshWriteFails)));
            SessionLive(next, session) && forall t :: t in next.refreshes ==> next.refreshes[t].session != Some(session)
  {
    AlwaysSound(steps);
    assert forall t :: t in Exec(steps).refreshes ==> SoundEntry(Exec(steps), t);
  }

  /** Where both deletions fail, the used token still revokes the old session. */
  lemma SecondChance(s: Store, token: Token, first: Token, refresh: Token, second: Token, third: Token)
    requires Sound(s) && Bound(s) && Accepts(s, token) && FreshPair(s, first, refresh)
    requires FreshPair(s, second, third) && {second, third} !! {first, refresh}
    ensures var once := Next(s, Rotate(token, first, refresh, BothStored, Deletes(false, false)));
            && Accepts(once, token) && s.refreshes[token].session.Some?
            && s.refreshes[token].session.value
               !in Next(once, Rotate(token, second, third, BothStored, Deletes(true, true))).sessions
  {
    assert SoundEntry(s, token);
    var once := Next(s, Rotate(token, first, refresh, BothStored, Deletes(false, false)));
    assert once.refreshes[token] == s.refreshes[token];
  }

  /** A session that has left the store by rotation never comes back. */
  lemma {:induction false} RevokedForever(steps: seq<Step>, more: seq<Step>, x: Token)
    requires x in Exec(steps).issued && x !in Exec(steps).sessions
    ensures x in Exec(steps + more).issued && x !in Exec(steps + more).sessions
  {
    if more == [] {
      assert steps + more == steps;
    } else {
      var before := more[..|more| - 1];
      RevokedForever(steps, before, x);
      ExecAppend(steps, more);
      StepRevives(Exec(steps + before), more[|more| - 1], x);
    }
  }

  lemma StepRevives(s: Store, step: Step, x: Token)
    requires x in s.issued && x !in s.sessions
    ensures x in Next(s, step).issued && x !in Next(s, step).sessions
  {}

  /** After every run, rotation ends the old session at once and leaves the API keys
      alone. */
  lemma RotateRevokes(steps: seq<Step>, token: Token, session: Token, refresh: Token, writes: Writes)
    requires Accepts(Exec(steps), token) && FreshPair(Exec(steps), session, refresh)
    ensures var s := Exec(steps);
            var next := Next(s, Rotate(token, session, refresh, writes, BOTH_DELETED));
            && s.refreshes[token].session.Some? && s.refreshes[token].session.value !in next.sessions
            && token !in next.refreshes && next.apiKeys == s.apiKeys
            && (writes == BothStored ==> SessionLive(next, session) && Accepts(next, refresh))
  {
    AlwaysSound(steps);
    AlwaysBound(steps);
    assert SoundEntry(Exec(steps), token);
  }

  // ---------------------------------------------------------------------------
  // One pair per registration, while deletions are executed
  // ---------------------------------------------------------------------------

  ghost predicate SessionsOfChains(s: Store) {
    forall t :: t in s.sessions ==> s.sessions[t].chain < |s.chains| && t == s.chains[s.sessions[t].chain].session
  }

  ghost predicate RefreshesOfChains(s: Store) {
    forall t :: t in s.refreshes ==>
      var e := s.refreshes[t];
      e.chain < |s.chains| && t == s.chains[e.chain].refresh && e.session == Some(s.chains[e.chain].session)
  }

  /** Stored entries are those of their registration's latest pair. */
  ghost predicate Valid(s: Store) {
    SessionsOfChains(s) && RefreshesOfChains(s)
  }

  /** The chain has no entry stored. */
  ghost predicate ChainEmpty(s: Store, chain: nat) {
    && (forall t :: t in s.refreshes ==> s.refreshes[t].chain != chain)
    && (forall t :: t in s.sessions ==> s.sessions[t].chain != chain)
  }

  lemma IssueKeepsSessions(s: Store, chain: nat, identity: Identity, session: Token, refresh: Token, writes: Writes)
    requires SessionsOfChains(s) && chain < |s.chains| && ChainEmpty(s, chain)
    ensures SessionsOfChains(Issue(s, chain, identity, session, refresh, writes))
  {}

  lemma IssueKeepsRefreshes(s: Store, chain: nat, identity: Identity, session: Token, refresh: Token, writes: Writes)
    requires RefreshesOfChains(s) && chain < |s.chains| && ChainEmpty(s, chain)
    ensures RefreshesOfChains(Issue(s, chain, identity, session, refresh, writes))
  {}

  lemma IssueKeepsValid(s: Store, chain: nat, identity: Identity, session: Token, refresh: Token, writes: Writes)
    requires Valid(s) && chain < |s.chains| && ChainEmpty(s, chain)
    ensures Valid(Issue(s, chain, identity, session, refresh, writes))
  {
    IssueKeepsSessions(s, chain, identity, session, refresh, writes);
    IssueKeepsRefreshes(s, chain, identity, session, refresh, writes);
  }

  const BOTH_DELETED := Deletes(true, true)

  /** The step wants to delete something, and the store does not. */
  predicate LosesDelete(step: Step) {
    step.Rotate? && step.deletes != BOTH_DELETED
  }

  predicate DeletesAll(steps: seq<Step>) {
    forall i :: 0 <= i < |steps| ==> !LosesDelete(steps[i])
  }

  lemma RevokedKeepsValid(s: Store, token: Token)
    requires Valid(s) && token in s.refreshes
    ensures var next := Revoked(s, token, BOTH_DELETED);
            Valid(next) && ChainEmpty(next, s.refreshes[token].chain)
  {
    var next := Revoked(s, token, BOTH_DELETED);
    assert SessionsOfChains(next) && RefreshesOfChains(next);
  }

  lemma RegisteredKeepsValid(s: Store, device: string, apiKey: Token)
    requires Valid(s)
    ensures Valid(Registered(s, device, apiKey)) && ChainEmpty(Registered(s, device, apiKey), |s.chains|)
  {}

  lemma StepKeepsValid(s: Store, step: Step)
    requires Valid(s) && !LosesDelete(step)
    ensures Valid(Next(s, step))
  {
    match step
    case Tick(_) =>
    case Register(device, apiKey, session, refresh, enrolment) =>
      if enrolment.Enrolled? {
        RegisteredKeepsValid(s, device, apiKey);
        var identity := Identity("", device);
        IssueKeepsValid(Registered(s, device, apiKey), |s.chains|, identity, session, refresh, enrolment.writes);
      }
    case Rotate(token, session, refresh, writes, _) =>
      if RefreshStored(s, token) {
        var claims := s.refreshes[token];
        RevokedKeepsValid(s, token);
        IssueKeepsValid(Revoked(s, token, BOTH_DELETED), claims.chain, claims.identity, session, refresh, writes);
      }
  }

  lemma {:induction false} RotationSafe(steps: seq<Step>)
    requires DeletesAll(steps)
    ensures Valid(Exec(steps))
  {
    if steps != [] {
      RotationSafe(steps[..|steps| - 1]);
      StepKeepsValid(Exec(steps[..|steps| - 1]), steps[|steps| - 1]);
    }
  }

  /** Over every run, failed writes included, a registration has at most one stored
      refresh entry and at most one stored session entry, both bound to the
      identity that registered. */
  lemma OneEntryPerRegistration(steps: seq<Step>)
    requires forall i :: 0 <= i < |steps| && steps[i].Rotate? ==> steps[i].deletes == Deletes(true, true)
    ensures var refreshes, sessions := Exec(steps).refreshes, Exec(steps).sessions;
            && (forall t, u :: t in refreshes && u in refreshes && refreshes[t].chain == refreshes[u].chain ==> t == u)
            && (forall t, u :: t in sessions && u in sessions && sessions[t].chain == sessions[u].chain ==> t == u)
            && (forall t, x :: t in refreshes && x in sessions && refreshes[t].chain == sessions[x].chain ==>
                  refreshes[t].session == Some(x) && refreshes[t].identity == sessions[x].identity)
  {
    RotationSafe(steps);
    AlwaysBound(steps);
  }

  // ---------------------------------------------------------------------------
  // How long an issued credential is good for
  // ---------------------------------------------------------------------------

  /** The API key is in the store and has not expired. */
  predicate KeyLive(s: Store, apiKey: Token) {
    apiKey in s.apiKeys && s.now < s.apiKeys[apiKey].expires
  }

  /** After the step, some time passes. */
  function Later(s: Store, step: Step, seconds: nat): Store {
    Next(Next(s, step), Tick(seconds))
  }

  /** A registration gives an API key for a year of 365 days, a session for 24 hours
      and a refresh token for 30 days, all bound to the device. */
  lemma RegistrationLasts(steps: seq<Step>, device: string, apiKey: Token, session: Token, refresh: Token, seconds: nat)
    requires device != "" && FreshKey(Exec(steps), apiKey, session, refresh)
    ensures var s := Later(Exec(steps), Register(device, apiKey, session, refresh, Enrolled(BothStored)), seconds);
            && (KeyLive(s, apiKey) <==> seconds < 365 * 24 * 3600)
            && (SessionLive(s, session) <==> seconds < 24 * 3600)
            && (Accepts(s, refresh) <==> seconds < 30 * 24 * 3600)
            && apiKey in s.apiKeys && s.apiKeys[apiKey].device == device
            && device in s.devices && s.devices[device] == apiKey
            && session in s.sessions && s.sessions[session].identity == Identity("", device)
            && refresh in s.refreshes && s.refreshes[refresh].identity == Identity("", device)
            && s.refreshes[refresh].session == Some(session)
  {}

  /** An accepted rotation gives a new session and a new refresh token for as long, for
      the identity of the used one. */
  lemma RotationLasts(steps: seq<Step>, token: Token, session: Token, refresh: Token, deletes: Deletes, seconds: nat)
    requires Accepts(Exec(steps), token) && FreshPair(Exec(steps), session, refresh)
    ensures var s := Later(Exec(steps), Rotate(token, session, refresh, BothStored, deletes), seconds);
            var identity := Exec(steps).refreshes[token].identity;
            && (SessionLive(s, session) <==> seconds < 24 * 3600)
            && (Accepts(s, refresh) <==> seconds < 30 * 24 * 3600)
            && session in s.sessions && s.sessions[session].identity == identity
            && refresh in s.refreshes && s.refreshes[refresh].identity == identity
            && s.refreshes[refresh].session == Some(session)
  {
    AlwaysSound(steps);
    AlwaysBound(steps);
    assert SoundEntry(Exec(steps), token);
  }

  /** A rejected request, and one whose first write fails, hands out nothing. */
  lemma NothingIssued(steps: seq<Step>, token: Token, session: Token, refresh: Token, writes: Writes, deletes: Deletes)
    requires FreshPair(Exec(steps), session, refresh)
    requires !Accepts(Exec(steps), token) || writes == SessionWriteFails
    ensures var next := Next(Exec(steps), Rotate(token, session, refresh, writes, deletes));
            session !in next.sessions && refresh !in next.refreshes
  {
    AlwaysSound(steps);
    assert refresh !in Exec(steps).refreshes by {
      assert forall t :: t in Exec(steps).refreshes ==> SoundEntry(Exec(steps), t);
    }
  }

  /** A registration stores as much as the writes before the first failure. */
  lemma RegistrationStops(steps: seq<Step>, device: string, apiKey: Token, session: Token, refresh: Token,
                          enrolment: Enrolment)
    requires device != "" && FreshKey(Exec(steps), apiKey, session, refresh)
    ensures var s := Exec(steps);
            var next := Next(s, Register(device, apiKey, session, refresh, enrolment));
            && (enrolment == DeviceWriteFails ==> next.devices == s.devices)
            && (enrolment != DeviceWriteFails ==> next.devices == s.devices[device := apiKey])
            && (enrolment.Enrolled? <==> next.apiKeys != s.apiKeys)
            && (session in next.sessions <==> enrolment.Enrolled? && enrolment.writes != SessionWriteFails)
            && (refresh in next.refreshes <==> enrolment == Enrolled(BothStored))
  {
    AlwaysSound(steps);
    KeysIssued(steps);
    assert forall t :: t in Exec(steps).refreshes ==> SoundEntry(Exec(steps), t);
  }

  lemma {:induction false} KeysIssued(steps: seq<Step>)
    ensures forall t :: t in Exec(steps).apiKeys ==> t in Exec(steps).issued
  {
    if steps != [] {
      KeysIssued(steps[..|steps| - 1]);
      StepKeepsKeysIssued(Exec(steps[..|steps| - 1]), steps[|steps| - 1]);
    }
  }

  lemma StepKeepsKeysIssued(s: Store, step: Step)
    requires forall t :: t in s.apiKeys ==> t in s.issued
    ensures forall t :: t in Next(s, step).apiKeys ==> t in Next(s, step).issued
  {}

  // ---------------------------------------------------------------------------
  // The handler object
  // ---------------------------------------------------------------------------

  datatype Reply = BadRequest | Unauthorized | ServerError | Tokens(session: Token, refresh: Token)

  class AuthHandler {
    var now: nat
    var sessions: map<Token, Session>
    var refreshes: map<Token, Claims>
    var apiKeys: map<Token, ApiKey>
    var devices: map<string, Token>
    ghost var issued: set<Token>
    ghost var accepted: seq<Token>
    var chains: seq<Chain>

    ghost function Contents(): Store
      reads this
    {
      Store(now, sessions, refreshes, apiKeys, devices, issued, accepted, chains)
    }

    constructor ()
      ensures Contents() == INIT
    {
      now, sessions, refreshes, apiKeys, devices := 0, map[], map[], map[], map[];
      issued, accepted, chains := {}, [], [];
    }

    /** session and refresh stand for the generator's output. */
    method IssueSession(chain: nat, identity: Identity, session: Token, refresh: Token, writes: Writes)
      returns (ok: bool)
      requires FreshPair(Contents(), session, refresh) && chain < |chains|
      modifies this
      ensures Contents() == Issue(old(Contents()), chain, identity, session, refresh, writes)
      ensures ok <==> writes == BothStored
    {
      issued := issued + {session, refresh};
      chains := chains[chain := Chain(identity, session, refresh)];
      if writes == SessionWriteFails {
        return false;
      }
      sessions := sessions[session := Session(identity, now + SESSION_TTL, chain)];
      if writes == RefreshWriteFails {
        return false;
      }
      refreshes := refreshes[refresh := Claims(identity, Some(session), now + REFRESH_TTL, now + REFRESH_TTL, chain)];
      return true;
    }

    method DeleteRefresh(token: Token, executed: bool)
      modifies this`refreshes
      ensures refreshes == if executed then Without(old(refreshes), token) else old(refreshes)
    {
      if executed {
        refreshes := map k | k in refreshes && k != token :: refreshes[k];
      }
    }

    method DeleteSession(token: Token, executed: bool)
      modifies this`sessions
      ensures sessions == if executed then Without(old(sessions), token) else old(sessions)
    {
      if executed {
        sessions := map k | k in sessions && k != token :: sessions[k];
      }
    }

    /** The used token and the session it names. */
    method Revoke(token: Token, deletes: Deletes)
      requires token in refreshes
      modifies this`sessions, this`refreshes, this`accepted
      ensures Contents() == Revoked(old(Contents()), token, deletes)
    {
      var claims := refreshes[token];
      if claims.session.Some? {
        DeleteSession(claims.session.value, deletes.session);
      }
      DeleteRefresh(token, deletes.refresh);
      accepted := accepted + [token];
    }

    method Refresh(token: Option<Token>, session: Token, refresh: Token, writes: Writes, deletes: Deletes)
      returns (reply: Reply)
      requires FreshPair(Contents(), session, refresh) && Bound(Contents())
      modifies this
      ensures token.None? ==> reply == BadRequest && Contents() == old(Contents())
      ensures token.Some? ==>
        Contents() == Next(old(Contents()), Rotate(token.value, session, refresh, writes, deletes))
      ensures token.Some? ==>
        reply == if !old(Accepts(Contents(), token.value)) then Unauthorized
                 else if writes == BothStored then Tokens(session, refresh) else ServerError
    {
      if token.None? {
        return BadRequest;
      }
      var t := token.value;
      if !(t in refreshes && now < refreshes[t].ttl) {
        return Unauthorized;
      }
      var claims := refreshes[t];
      if now > claims.expires {
        DeleteRefresh(t, deletes.refresh);
        return Unauthorized;
      }
      if claims.identity.user == "" && claims.identity.device == "" {
        DeleteRefresh(t, deletes.refresh);
        return Unauthorized;
      }
      Revoke(t, deletes);
      var ok := IssueSession(claims.chain, claims.identity, session, refresh, writes);
      return if ok then Tokens(session, refresh) else ServerError;
    }

    method RegisterDevice(device: string, apiKey: Token, session: Token, refresh: Token, enrolment: Enrolment)
      returns (reply: Reply)
      requires FreshKey(Contents(), apiKey, session, refresh)
      modifies this
      ensures Contents() == Next(old(Contents()), Register(device, apiKey, session, refresh, enrolment))
      ensures reply == if device == "" then BadRequest
                       else if enrolment == Enrolled(BothStored) then Tokens(session, refresh) else ServerError
    {
      if device == "" {
        return BadRequest;
      }
      issued := issued + {apiKey};
      if enrolment.DeviceWriteFails? {
        return ServerError;
      }
      devices := devices[device := apiKey];
      if enrolment.KeyWriteFails? {
        return ServerError;
      }
      apiKeys := apiKeys[apiKey := ApiKey(device, now + API_KEY_TTL)];
      chains := chains + [Chain(Identity("", device), apiKey, apiKey)];
      assert Contents() == Registered(old(Contents()), device, apiKey);
      var ok := IssueSession(|chains| - 1, Identity("", device), session, refresh, enrolment.writes);
      return if ok then Tokens(session, refresh) else ServerError;
    }
  }
}
