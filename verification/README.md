# OrbGuard: verified model of the protection core

OrbGuard is a mobile security application with a Go service behind it. This
project models its self-contained algorithms and protocols in Dafny and proves
what they promise. Each module follows one part of the system:

- `PathTemplates`, `ChiRouter`, `ClientScan`: the API contract gate. It recovers
  nested chi routes from router source with a stack over brace depth, and
  decides whether each call of the app is served. The parser is proved against
  lexical scoping of a block-structured source, the matcher against inclusion of
  sets of request paths.
- `IpPacket`, `DnsName`, `DnsTunnel`: the packet tunnel. It classifies IPv4
  packets, parses the queried name, asks the blocklist, and rewrites the query
  packet into its NXDOMAIN reply (RFC 1071 section 1, RFC 791 section 3.1,
  RFC 1035 section 4.1.2). `DnsTunnel` joins the three with the blocklist.
- `Blocklist`: the rule table and the hash prefilter in front of it, with the
  filter built row by row in the background and other processes writing.
- `LockProtocol`: the aggregator's lock with a time to live, its refreshers, its
  ownerless release, and the retry loop inside it.
- `WebSocketHub`, `EventBus`: fan-out over bounded channels, as interleaved steps.
- `AuthTokens`: device registration and refresh-token rotation.
- `Evidence`, `IocScanner`: consolidation of detected threats and matching
  against known indicators, in any order of map iteration.
- `BackgroundTask`, `CallDirectory`, `Uploads`, `Intelligence`: exactly-once
  completion, CallKit lists, upload limits, sync paging and batch checks.
- `Text`, `Bytes`, `Sequences`, `Grouping`: what these share.

Operations that change state are methods on classes or arrays, proved equal to
a step of a state machine over immutable values; what the system promises is
then proved about every run of that state machine.

## Where the code does less than it appears to

Each of these is proved, with its exact condition or a run that shows it:

- The exact blocklist lookup matches expired rows for lower-case queries, since
  AND binds tighter than OR (`Blocklist.ExpiryHonoured`).
- Wildcard rules sit behind a filter that knows the patterns and not the names
  under them (`Blocklist.GateTransparent`, `Blocklist.WildcardRun`).
- A rule that another process wrote does not block until this process learns its
  bucket (`Blocklist.GateExactly`, `Blocklist.RowBlocksExactly`).
- A wildcard suffix need not start at a label boundary
  (`Blocklist.WildcardBoundary`, `Blocklist.BoundaryRun`).
- The batch indicator check passes hashes to a query over plain values
  (`Intelligence.AgreesByValueExactly`).
- Bus keys collide from subscription 0xD801 on (`EventBus.SafeExactly`).
- A late lock holder's release, or a punctual one's that lands late, removes its
  successor's lock (`LockProtocol.ExclusionOverRuns`,
  `LockProtocol.LateReleaseStealsLock`, `LockProtocol.LateDeletionStealsLock`).
- The retry delay turns negative at attempt 30 (`LockProtocol.BackoffExactly`);
  the caller stops at 3.
- Indicators stored with a capital letter miss their subdomains
  (`IocScanner.SubdomainsFoundExactly`).
- A failed second write, or the deletion of a used refresh token without that of
  the session it names, leaves a session that no refresh can revoke
  (`AuthTokens.RevocableExactly`, `AuthTokens.RevocableOverRuns`); a failed
  deletion of a used refresh token lets it be used again
  (`AuthTokens.ReplayExactly`).
- A header length field below five words is let through, and the reply is then
  misaddressed (`IpPacket.AddressedExactly`).
- A literal that ends in a backslash hides its closing quote from the argument
  scan (`ClientScan.LiteralCallExactly`), and brackets other than parentheses
  protect no comma from it (`ClientScan.FirstArgExactly`).
- Overlapping publishes reach subscribers in different orders
  (`EventBus.InOrderExactly`, `EventBus.OrdersCrossed`).
- A verb call on the line of its own Route or Group call is resolved in the outer
  scope (`ChiRouter.SameLineExactly`).

## Model

| member | source | states |
|---|---|---|
| `ChiRouter.ParseRecoversRoutes` | app/tools/check_api_contract.py:239-287 | For every block-structured router, of any nesting depth and with any shadowing of router variables, parsing its printed lines gives exactly the routes that lexical scoping gives it, and leaves an empty stack at depth 0 |
| `ChiRouter.ParsePrinted` | app/tools/check_api_contract.py:255-287 | The same from any state whose open depths strictly increase and stay below the current depth, with any lines following: stack and depth come back unchanged |
| `ChiRouter.RunPrinted` | app/tools/check_api_contract.py:255-287 | Any way of running lines that treats one line as the parser does runs a printed source to its scoped routes: the theorem needs nothing else of the parser |
| `ChiRouter.PushedThenClosed` | app/tools/check_api_contract.py:264-285 | Entering a block pops nothing and keeps the depth invariant; returning to the outer depth pops exactly what the block pushed |
| `ChiRouter.HeadStep` | app/tools/check_api_contract.py:255-285 | One line against the environment: what a verb call, Route, Group or RegisterRoutes line adds to routes and stack is determined by the innermost bindings alone |
| `ChiRouter.ParseChi` | app/tools/check_api_contract.py:239-287 | The line loop computes the state-by-state meaning of the lines |
| `ChiRouter.ProcessLine` | app/tools/check_api_contract.py:255-285 | One turn of the loop: the searches of the line, the brace count, the scopes that close |
| `ChiRouter.ScanLine` | app/tools/check_api_contract.py:258-281 | The four searches of a line, in their order, each against the stack that the earlier ones left |
| `ChiRouter.ResolveVar` | app/tools/check_api_contract.py:249-253 | A name means its innermost open binding, else the top-level variable, else nothing |
| `ChiRouter.PopScopes` | app/tools/check_api_contract.py:283-285 | The pop loop removes the maximal run of scopes opened at or above the current depth |
| `ChiRouter.ParseRegisterRoutes` | app/tools/check_api_contract.py:290-319 | The union of the routes of all handler-owned bodies under the mounting prefix |
| `ChiRouter.MountedRoutesRecovered` | app/tools/check_api_contract.py:290-319 | Each mounted handler contributes exactly its own scoped routes, with nothing but its parameter in scope |
| `ChiRouter.GateDecidesService` | app/tools/check_api_contract.py:341-345 | Against a parsed router, the gate accepts a call with a verb exactly when every concrete request the call can produce reaches a route of that verb, and a call without one exactly when every request reaches some route |
| `ChiRouter.SameLineRegistration` | app/tools/check_api_contract.py:258-274 | A verb call on the line of the Route or Group that binds its router registers what it would in the outer scope |
| `ChiRouter.SameLineExactly` | app/tools/check_api_contract.py:258-274 | That is what it would register inside the closure if and only if the closure binds nothing, or the outer scope binds the same name to a prefix that normalizes to the same endpoint |
| `ChiRouter.SameLineEndpointLost` | app/tools/check_api_contract.py:258-268 | One-line routers, for any names, prefix and path, whose only endpoint is lost this way, though their two-line spelling has it |
| `ChiRouter.SameLineEndpointKept` | app/tools/check_api_contract.py:258-268 | A concrete one-line router whose endpoint is kept although the two prefixes differ |
| `PathTemplates.CoversIsInclusion` | app/tools/check_api_contract.py:326-338 | Template matching is exactly language inclusion: every request path of the app template is one of the route template |
| `PathTemplates.FreshInstanceDecides` | app/tools/check_api_contract.py:326-338 | One request, with a value longer than the route in every parameter, decides inclusion |
| `PathTemplates.CoversPreorder` | app/tools/check_api_contract.py:326-338 | Matching is reflexive and transitive |
| `PathTemplates.PathMatches` | app/tools/check_api_contract.py:326-338 | The segment loop decides the matching rule |
| `PathTemplates.MatchCall` | app/tools/check_api_contract.py:341-345 | The scan answers whether some registration of the call's verb, or of any verb for a call without one, covers the path |
| `PathTemplates.MatchedIsServed` | app/tools/check_api_contract.py:341-345 | A single covering route of the verb exists exactly when every request of the call reaches a route of that verb, even if several routes share the work; the same without a verb |
| `PathTemplates.NormalizeIdempotent` | app/tools/check_api_contract.py:67-78 | Normalizing twice is normalizing once |
| `PathTemplates.NormalizeKeepsRequests` | app/tools/check_api_contract.py:67-78 | Normalization changes how parameters are spelled, not which request paths a pattern accepts |
| `PathTemplates.NormalizePath` | app/tools/check_api_contract.py:67-78 | The segment loop: every segment with a brace in it becomes a parameter, and every other one stays |
| `PathTemplates.TrimmedMeaning` | app/tools/check_api_contract.py:69-70 | Only slashes are trimmed, and all of them unless the path is a single slash |
| `ClientScan.ExtractFirstArg` | app/tools/check_api_contract.py:164-186 | The character scan returns the specified first argument, or nothing for an unbalanced call |
| `ClientScan.StripMeaning` | app/tools/check_api_contract.py:182-184 | The argument is stripped of all space at both ends and of nothing else |
| `ClientScan.FirstArgRecovered` | app/tools/check_api_contract.py:164-186 | For any call anywhere in a text, the stripped first argument comes back, whatever it contains of escaped quotes, single-quoted strings that do not end in a backslash, and nested parentheses with any commas inside them; double quotes, square and curly brackets are plain characters, as for the scan |
| `ClientScan.FirstArgExactly` | app/tools/check_api_contract.py:164-186 | Of such arguments with commas anywhere, exactly those without a comma outside literals and parentheses come back: a comma in square or curly brackets ends the argument |
| `ClientScan.CommaCutsArg` | app/tools/check_api_contract.py:183-184 | Otherwise what comes back is the text before the first such comma |
| `ClientScan.QuotedExactly` | app/tools/check_api_contract.py:172-176 | Of the literals that are escaped as the language demands, the scan finds the end of exactly those that do not end in a backslash |
| `ClientScan.LiteralCallExactly` | app/tools/check_api_contract.py:164-186 | A well-escaped literal as first argument, whatever follows it in the text, is read correctly if and only if it does not end in a backslash |
| `ClientScan.LiteralLost` | app/tools/check_api_contract.py:164-186 | For one that does, the scan finds no argument or one that reaches beyond the literal |
| `ClientScan.LiteralUnbalanced` | app/tools/check_api_contract.py:164-186 | With no quote in the rest of the text the call counts as unbalanced |
| `ClientScan.LiteralWrongArgument` | app/tools/check_api_contract.py:164-186 | With a quote further on, text that is not an argument is returned |
| `ClientScan.SkipArg` | app/tools/check_api_contract.py:170-185 | Scanning passes over any well-formed argument without stopping and with depth and string state unchanged |
| `ClientScan.LineOf` | app/tools/check_api_contract.py:117-132 | The binary search finds the line whose start is the last one not beyond the offset |
| `ClientScan.LineText` | app/tools/check_api_contract.py:117-132 | The text at a line's computed start is that line |
| `IpPacket.BuildDNSResponsePacket` | app/ios/OrbGuardVPN/PacketTunnelProvider.swift:230-269 | For every packet the classification passes on, short header length fields included: every byte of the reply, both length fields, and the checksum of its header; nothing exactly when a length does not fit 16 bits or the reply has no checksum field; with a whole header, a header sum of all ones |
| `IpPacket.AddressedExactly` | app/ios/OrbGuardVPN/PacketTunnelProvider.swift:193-205 | Replies to packets classified as DNS queries with an n-byte header always go back to the sender if and only if n is at least 20, which the classification does not check |
| `IpPacket.ShortHeaderMisaddresses` | app/ios/OrbGuardVPN/PacketTunnelProvider.swift:193-205 | For each shorter header length a packet that is classified as a DNS query and whose reply is misaddressed |
| `IpPacket.ReplyExists` | app/ios/OrbGuardVPN/PacketTunnelProvider.swift:230-269 | Every packet and message that fit have a reply |
| `IpPacket.ReplyParts` | app/ios/OrbGuardVPN/PacketTunnelProvider.swift:230-269 | With a whole header the reply keeps its framing, carries the message as payload and is consistent |
| `IpPacket.SetLengths` | app/ios/OrbGuardVPN/PacketTunnelProvider.swift:251-259 | Both length fields are those of the packet they are in; all other bytes stay |
| `IpPacket.SetChecksum` | app/ios/OrbGuardVPN/PacketTunnelProvider.swift:261-266 | The checksum field is that of the header with the field taken as zero; all other bytes stay |
| `IpPacket.SwapAndFill` | app/ios/OrbGuardVPN/PacketTunnelProvider.swift:231-249 | Byte by byte, where each header byte of the reply comes from |
| `IpPacket.ReplyFields` | app/ios/OrbGuardVPN/PacketTunnelProvider.swift:234-253 | Addresses and ports change places; IP options and the UDP checksum stay as they were |
| `IpPacket.ReplyOfReply` | app/ios/OrbGuardVPN/PacketTunnelProvider.swift:230-269 | Replying to the reply with the original payload restores the original packet byte for byte if and only if its own length and checksum fields were consistent |
| `IpPacket.ReplyUnique` | app/ios/OrbGuardVPN/PacketTunnelProvider.swift:230-269 | Query and message determine every byte of the reply |
| `IpPacket.ReplyClassified` | app/ios/OrbGuardVPN/PacketTunnelProvider.swift:185-209 | The reply is not taken for a query on its way back, unless the client's own port was 53 |
| `IpPacket.ClassifiedByBytes` | app/ios/OrbGuardVPN/PacketTunnelProvider.swift:186-208 | The verdict from the bytes: version 4, both headers within the packet and protocol 17 or ignored, then destination port 53 or passed on |
| `IpPacket.SumWords` | app/ios/OrbGuardVPN/PacketTunnelProvider.swift:271-281 | The 32-bit running sum does not overflow and is the sum of the zero-padded big-endian words |
| `IpPacket.CalculateIPChecksum` | app/ios/OrbGuardVPN/PacketTunnelProvider.swift:271-288 | The fold loop terminates and gives the complement of the folded sum |
| `IpPacket.ChecksumVerifies` | app/ios/OrbGuardVPN/PacketTunnelProvider.swift:261-266 | A header that carries the computed checksum sums to 0xFFFF in one's complement |
| `IpPacket.FoldResidue` | app/ios/OrbGuardVPN/PacketTunnelProvider.swift:283-285 | Folding is the residue modulo 65535, and is 0 only for 0 |
| `IpPacket.ComplementFolds` | app/ios/OrbGuardVPN/PacketTunnelProvider.swift:283-287 | A sum plus the complement of its fold folds to all ones |
| `DnsName.ParseDNSQuery` | app/ios/OrbGuardVPN/PacketTunnelProvider.swift:370-394 | The parser stays in bounds on all bytes and gives the name: nothing for a short message, a label that runs past the end, or no decodable label |
| `DnsName.QueryNameRoundTrip` | app/ios/OrbGuardVPN/PacketTunnelProvider.swift:370-394 | Any header, any non-empty list of ASCII labels, any tail: the encoded question parses to the labels joined by dots |
| `DnsName.RawLabelsOfEncoded` | app/ios/OrbGuardVPN/PacketTunnelProvider.swift:377-391 | Label by label, reading back what was encoded, with arbitrary bytes in a label and around the name |
| `DnsName.NameDeterminesLabels` | app/ios/OrbGuardVPN/PacketTunnelProvider.swift:393 | The dotted name determines the labels when they are free of dots |
| `DnsName.CreateNXDomainResponse` | app/ios/OrbGuardVPN/PacketTunnelProvider.swift:396-416 | Length, identifier, question count and all bytes from 12 on kept; flags and the three other counts set; short messages handled |
| `DnsName.NXDomainEchoesQuestion` | app/ios/OrbGuardVPN/PacketTunnelProvider.swift:396-416 | Parsing the answer gives the name of the query, and answering again changes nothing |
| `DnsTunnel.ProcessPacket` | app/ios/OrbGuardVPN/PacketTunnelProvider.swift:185-228 | For every packet, from its bytes: dropped, with nothing sent, unless it is IPv4 UDP with both headers whole; written back unless for port 53; a question answered with an NXDOMAIN reply, relayed from the upstream server, or trapped, and exactly when each; a blocked question is not sent upstream, and any other is, unchanged |
| `DnsTunnel.HandleDNSQuery` | app/ios/OrbGuardVPN/PacketTunnelProvider.swift:332-368 | A stopped proxy completes with nothing; a running one answers itself exactly when the question parses to a name the blocklist cache blocks, and otherwise passes on what the upstream server sends |
| `DnsTunnel.ForwardToUpstream` | app/ios/OrbGuardVPN/PacketTunnelProvider.swift:418-469 | The completion is the datagram cut off at 512 bytes, or nothing for none or an empty one |
| `DnsTunnel.RelayTrapsExactly` | app/ios/OrbGuardVPN/PacketTunnelProvider.swift:251-266 | A relayed reply can trap only for a header length field of zero and a response of one to three bytes |
| `DnsTunnel.AnswerFitsQuestion` | app/ios/OrbGuardVPN/PacketTunnelProvider.swift:211-269 | The device gets its own identifier, question count and name back, from the server it asked |
| `DnsTunnel.TunnelDecidesByTable` | app/ios/OrbGuardVPN/PacketTunnelProvider.swift:332-368 | From the wire to the table: after such runs, a question for any ASCII labels is blocked exactly when the dotted name has a row and no allowlist entry |
| `Blocklist.FilterTracksTable` | app/ios/Shared/BlocklistCache.swift:162-189 | In every run of adds, bulk adds, removals, cleaning, clearing, row-by-row builds and foreign writes, over every initial table, the filter misses only rows a running build has yet to read or that another process wrote since |
| `Blocklist.StepKeepsTracked` | app/ios/Shared/BlocklistCache.swift:162-189 | That accounting is kept by every single step |
| `Blocklist.FilterRefinesTable` | app/ios/Shared/BlocklistCache.swift:199-250 | After any run that finishes a build with no foreign write since it began, and any further run of this process, builds running or not: with no wildcard rows, prefilter plus lookup equals the ungated allowlist-then-exact decision for every name in any letter case |
| `Blocklist.GateTransparent` | app/ios/Shared/BlocklistCache.swift:199-223 | A covered cache decides as its tables do if and only if the name passes the filter, is allowlisted, or no wildcard rule matches it |
| `Blocklist.ExactRowsPassGate` | app/ios/Shared/BlocklistCache.swift:199-203 | The filter never hides an exact row, in any letter case of the query |
| `Blocklist.WildcardHiddenByFilter` | app/ios/Shared/BlocklistCache.swift:199-221 | A wildcard rule does not block a name whose bucket the filter does not hold |
| `Blocklist.GateExactly` | app/ios/Shared/BlocklistCache.swift:199-203 | For any cache without wildcard rows, covered or not: the gated decision is that of the tables for every name if and only if the filter holds the bucket of every row that is not allowlisted |
| `Blocklist.RowBlocksExactly` | app/ios/Shared/BlocklistCache.swift:162-203 | Over every run that keeps a row: at its end the row blocks if and only if its bucket was in the filter at the start or some step of the run put it there |
| `Blocklist.KnownExactly` | app/ios/Shared/BlocklistCache.swift:162-189 | Over every run without clearing, a bucket is in the filter at the end if and only if it was at the start or an add, a bulk add or a build has put it there |
| `Blocklist.ForeignRowMissed` | app/ios/Shared/BlocklistCache.swift:162-203 | A reachable run in which another process adds a rule after the first build, and the rule does not block |
| `Blocklist.BuiltCacheCovers` | app/ios/Shared/BlocklistCache.swift:162-181 | While no other process writes, a cache whose scheduled builds have all finished covers its table, whatever happened before, between and during them |
| `Blocklist.BuildCompletes` | app/ios/Shared/BlocklistCache.swift:162-181 | A queued build can always run to its end, and then every row, other processes' included, is covered and the table is as it was |
| `Blocklist.CoveredForever` | app/ios/Shared/BlocklistCache.swift:162-189 | Once covered, the table stays covered over every further run of this process, with builds queued or running at any point |
| `Blocklist.ExpiryHonoured` | app/ios/Shared/BlocklistCache.swift:227-233 | Because AND binds tighter than OR, the exact lookup honours expiry for every name if and only if no stored row is expired |
| `Blocklist.ExpiredRowStillMatches` | app/ios/Shared/BlocklistCache.swift:227-233 | An expired row matches a query spelled as it is stored |
| `Blocklist.CaseInsensitiveExactly` | app/ios/Shared/BlocklistCache.swift:227-241 | The exact lookup is independent of letter case if and only if no row with a letter in its name is expired |
| `Blocklist.AddedRuleLives` | app/ios/Shared/BlocklistCache.swift:225-250 | From the moment a rule is added and after any time: spelled otherwise than stored, the name is blocked exactly until the expiry; spelled as stored, for good |
| `Blocklist.AddedWildcardLives` | app/ios/Shared/BlocklistCache.swift:252-283 | A wildcard rule matches exactly until its expiry |
| `Blocklist.ExpiredStaysOut` | app/ios/Shared/BlocklistCache.swift:225-283 | A row whose expiry has come is found by its own spelling only, and time does not bring it back |
| `Blocklist.CleanedExactly` | app/ios/Shared/BlocklistCache.swift:509-512 | Cleaning removes exactly the rows whose expiry lies strictly in the past, so none that a lookup still honours |
| `Blocklist.OneRowChanges` | app/ios/Shared/BlocklistCache.swift:315-369 | Adding and removing concern exactly the row of the lower-cased name |
| `Blocklist.RemovedIsGone` | app/ios/Shared/BlocklistCache.swift:356-369 | After its removal no spelling of a name has an exact row |
| `Blocklist.AllowlistOverrules` | app/ios/Shared/BlocklistCache.swift:384-428 | An allowlisted name is never blocked in any spelling, no other name is affected, and taking it off restores the decision of the rules |
| `Blocklist.ClearedBlocksNothing` | app/ios/Shared/BlocklistCache.swift:514-519 | Clearing leaves nothing blocked or allowlisted |
| `Blocklist.StarredSuffix` | app/ios/Shared/BlocklistCache.swift:273-274 | A pattern matches exactly the names that end in what follows its star and dot |
| `Blocklist.OneLabelUnmatched` | app/ios/Shared/BlocklistCache.swift:254-255 | Names of one label match no wildcard rule |
| `Blocklist.WildcardBoundary` | app/ios/Shared/BlocklistCache.swift:273-274 | A wildcard suffix match respects label boundaries if and only if it is the whole name or follows a dot |
| `Blocklist.BoundaryIgnored` | app/ios/Shared/BlocklistCache.swift:273-274 | Every wildcard rule matches a name that is not under it |
| `Blocklist.BoundaryRun` | app/ios/Shared/BlocklistCache.swift:199-283 | A reachable run, for every hash, after which a wildcard rule for one domain blocks another |
| `Blocklist.WildcardRun` | app/ios/Shared/BlocklistCache.swift:199-221 | A reachable run after which a wildcard rule blocks a name under it if and only if the two share a bucket |
| `Blocklist.AddsKeepLowerCase` | app/ios/Shared/BlocklistCache.swift:333 | Tables stay in lower case over every run of this code |
| `Blocklist.BlocklistCache.ShouldBlock` | app/ios/Shared/BlocklistCache.swift:199-283 | The gated decision, with a reported rule that is an exact row if there is one, else a matching wildcard row |
| `Blocklist.BlocklistCache.BuildBloomFilter` | app/ios/Shared/BlocklistCache.swift:162-181 | An uninterrupted build takes one from the queue, is a run of the row-by-row steps, and leaves every row covered |
| `Blocklist.BlocklistCache.AddToBloomFilter` | app/ios/Shared/BlocklistCache.swift:183-189 | The buckets of the name and of its lower case join the filter |
| `Blocklist.BlocklistCache.AddRule` | app/ios/Shared/BlocklistCache.swift:315-354 | The row is stored under the lower-cased name, replacing an older one, and the filter learns the name |
| `Blocklist.BlocklistCache.RemoveRule` | app/ios/Shared/BlocklistCache.swift:356-369 | The lower-cased row goes, the filter keeps its buckets |
| `Blocklist.BlocklistCache.BulkAddRules` | app/ios/Shared/BlocklistCache.swift:371-380 | The loop adds every rule as an exact rule without expiry, in order, and schedules a build |
| `Blocklist.BlocklistCache.CleanExpiredRules` | app/ios/Shared/BlocklistCache.swift:509-512 | Exactly the rows whose expiry lies strictly in the past go, and a build is scheduled |
| `Blocklist.BlocklistCache.ClearAllRules` | app/ios/Shared/BlocklistCache.swift:514-519 | Rows, allowlist and filter become empty |
| `LockProtocol.ExclusionOverRuns` | backend/cmd/aggregator/main.go:195-240 | Along a run no step can ever let a second worker in if and only if the key is live at every point where a worker is inside; runs interleave any number of workers, late refreshes, ownerless deletions, and commands that land long after their call failed |
| `LockProtocol.MutualExclusion` | backend/cmd/aggregator/main.go:195-240 | If no holder is silent for the TTL and no failed deletion lands on a holder, at most one worker is between acquire and release in every run |
| `LockProtocol.ExclusionByClock` | backend/cmd/aggregator/main.go:195-240 | The same from the clock and the steps of the run alone: if at every moment each worker inside acquired, or refreshed a live key, less than a TTL ago, no two workers are inside |
| `LockProtocol.RefreshExtends` | backend/cmd/aggregator/main.go:233-237 | After a refresh of a live key, by its holder or a worker long gone, another worker is refused until exactly a TTL has passed |
| `LockProtocol.AcquireLasts` | backend/cmd/aggregator/main.go:196-206 | So after an acquire |
| `LockProtocol.RefreshTooLate` | backend/cmd/aggregator/main.go:233-237 | A key that has run out is not revived by a refresh |
| `LockProtocol.ReleaseFrees` | backend/internal/infrastructure/cache/redis.go:264-267 | An executed release frees the key at once whatever time is left, a failed one leaves it until its deletion lands |
| `LockProtocol.LostAcquireBlocks` | backend/internal/infrastructure/cache/redis.go:259-262 | An acquire whose reply is lost may land later for nobody, and then blocks everyone for a TTL |
| `LockProtocol.NothingOutOfTurn` | backend/cmd/aggregator/main.go:195-213 | A worker outside releases nothing, one inside asks for nothing, and only a command in flight lands, once |
| `LockProtocol.HeldIsLastSign` | backend/cmd/aggregator/main.go:195-240 | Who is inside, and since when without a sign of life, read off the run |
| `LockProtocol.StepKeepsSafe` | backend/cmd/aggregator/main.go:195-240 | Each step keeps exclusion and the fact that the key outlives its holder's last sign of life |
| `LockProtocol.ExclusionExact` | backend/cmd/aggregator/main.go:195-240 | From an exclusive state, every next step keeps exclusion if and only if the key is live or nobody is inside |
| `LockProtocol.LateReleaseStealsLock` | backend/cmd/aggregator/main.go:209-213 | A concrete run where one late holder's ownerless release costs a punctual successor its exclusion too |
| `LockProtocol.LateDeletionStealsLock` | backend/cmd/aggregator/main.go:209-213 | A concrete run of punctual workers where a release that failed lands late and costs the successor its exclusion |
| `LockProtocol.FreeAfterTTL` | backend/internal/infrastructure/cache/redis.go:259-267 | In every run, a quiet TTL lets any worker in that is not inside already |
| `LockProtocol.LockStore.RunWithRetry` | backend/cmd/aggregator/main.go:243-278 | One to four attempts, all but the last failed; waiting is the sum of the delays, at most 210 s; success, cancellation and exhaustion told apart exactly; to the store it is the others' steps during each wait and each attempt, every wait lasting at least its delay |
| `LockProtocol.RetriesAreSteps` | backend/cmd/aggregator/main.go:243-278 | What the retry loop makes of the store is a run of single steps: the others' during each wait and attempt, and time until each delay is over |
| `LockProtocol.EndMeaning` | backend/cmd/aggregator/main.go:246-277 | Where the loop ends, by the outcomes of its attempts and waits |
| `LockProtocol.TotalWait` | backend/cmd/aggregator/main.go:28-38 | The full waiting time is 210 s, below the lock's TTL |
| `LockProtocol.RetriesTakeTime` | backend/cmd/aggregator/main.go:243-278 | The loop takes at least the delays before the attempts it made, whatever the others do meanwhile |
| `LockProtocol.CalculateBackoff` | backend/cmd/aggregator/main.go:346-352 | For any attempt number in 64-bit nanoseconds: exponential and capped from 1 to 29, negative at 30, zero below 1 and beyond 64, never above the cap |
| `LockProtocol.BackoffExactly` | backend/cmd/aggregator/main.go:346-352 | The computed delays are the capped exponential ones for all attempts up to n if and only if n is at most 29 |
| `LockProtocol.BackoffGrows` | backend/cmd/aggregator/main.go:346-352 | Delays never shrink, and sit at the cap exactly from the fifth attempt on |
| `LockProtocol.LockStore.TryAcquire` | backend/internal/infrastructure/cache/redis.go:259-262 | Set-if-absent on a key with TTL; a call that fails leaves its command in flight |
| `LockProtocol.LockStore.ReleaseLock` | backend/internal/infrastructure/cache/redis.go:264-267 | Deletion without owner, executed or left in flight |
| `LockProtocol.LockStore.RunWithLockAndRetry` | backend/cmd/aggregator/main.go:195-222 | A worker's whole path, with the steps of refreshers, other workers and late commands during each of its waits and attempts: one acquire, the attempts, one release attempt; without the lock, nothing else |
| `WebSocketHub.NeverPanics` | backend/internal/streaming/websocket.go:56-130 | In every interleaving no send reaches a closed channel, no channel is closed twice, and every queue stays within 256 |
| `WebSocketHub.StepKeepsValid` | backend/internal/streaming/websocket.go:56-130 | Each step keeps registered clients open and queues bounded |
| `WebSocketHub.StepDelivery` | backend/internal/streaming/websocket.go:80-100 | A step adds to a client's delivery exactly the event offered to it with room in its buffer |
| `WebSocketHub.DispatchReaches` | backend/internal/streaming/websocket.go:91-98 | After every run, a dispatch gives its event to every registered client with room that has set no filter or whose filter accepts it |
| `WebSocketHub.DispatchPassesBy` | backend/internal/streaming/websocket.go:91-98 | It gives nothing to a client that is full or has left, nor once the hub has stopped |
| `WebSocketHub.ClientsCome` | backend/internal/streaming/websocket.go:114-119 | A new client is open, empty and without a filter; a subscription message sets the filter of its client only |
| `WebSocketHub.ClientsGo` | backend/internal/streaming/websocket.go:103-130 | Leaving closes one channel and keeps what waits in it; a shutdown closes every registered one and stops the loop |
| `WebSocketHub.DeliveryInOrder` | backend/internal/streaming/websocket.go:80-100 | A client receives an in-order subsequence of the events offered under its subscription of the moment, and all of them if and only if no offer met a full buffer |
| `WebSocketHub.OfferedInOrder` | backend/internal/streaming/websocket.go:80-100 | What is offered to a client is an in-order part of what was dispatched |
| `WebSocketHub.BroadcastFifo` | backend/internal/streaming/websocket.go:56-78 | The broadcast queue is first in, first out and loses nothing it accepted |
| `WebSocketHub.EndToEnd` | backend/internal/streaming/websocket.go:56-130 | From acceptance to client: an in-order part of the accepted events |
| `WebSocketHub.LeftForGood` | backend/internal/streaming/websocket.go:122-130 | A client that has left stays closed and unregistered and gets nothing more |
| `WebSocketHub.StreamHub.BroadcastEvent` | backend/internal/streaming/websocket.go:72-78 | Accepted if the queue has room, dropped otherwise |
| `WebSocketHub.StreamHub.SendToClients` | backend/internal/streaming/websocket.go:91-99 | Every registered client whose subscription matches gets the event if its buffer has room; each send finds its channel open |
| `WebSocketHub.StreamHub.RunOnce` | backend/internal/streaming/websocket.go:65-66 | One turn of the loop takes the oldest event and offers it |
| `WebSocketHub.StreamHub.RegisterClient` | backend/internal/streaming/websocket.go:114-119 | A new client is registered with an empty open channel |
| `WebSocketHub.StreamHub.UnregisterClient` | backend/internal/streaming/websocket.go:122-130 | A registered client is removed and closed; otherwise nothing happens |
| `WebSocketHub.StreamHub.CloseAllClients` | backend/internal/streaming/websocket.go:103-111 | Every registered client is removed and closed, each channel once |
| `WebSocketHub.StreamHub.WriteBatch` | backend/internal/streaming/websocket.go:203-221 | A batch is everything waiting, in order; none of its receives blocks |
| `EventBus.BusSafe` | backend/internal/streaming/eventbus.go:30-125 | Over every run with at most 0xD800 subscriptions, publishes overlapping in any way: no send or close hits a closed channel, queues hold at most 100, open channels and map entries correspond one to one |
| `EventBus.SentOnce` | backend/internal/streaming/eventbus.go:38-48 | Conservation at every moment of every run: what was sent to a subscription and what is on its way there are exactly the events published while it was open, each once, however publishes overlap |
| `EventBus.PublishedAscending` | backend/internal/streaming/eventbus.go:38-48 | The events published to a subscription are numbered in the order in which publishing began, so none repeats |
| `EventBus.SerialInOrder` | backend/internal/streaming/eventbus.go:38-48 | While publishes do not overlap, every subscription is sent its events in the order of the publishes |
| `EventBus.InOrderExactly` | backend/internal/streaming/eventbus.go:38-48 | Over every run: a subscription is sent its events in the order in which they were published if and only if every send to it is of the oldest event still on the way |
| `EventBus.DeliveredAsPublished` | backend/internal/streaming/eventbus.go:38-48 | Then what the subscriber gets is an in-order part of what was published while it was subscribed |
| `EventBus.SubscribeOpens` | backend/internal/streaming/eventbus.go:64-70 | After every run with no publish in progress, a new subscription has an empty open channel that every later publish visits; no other channel changes |
| `EventBus.UnsubscribeCloses` | backend/internal/streaming/eventbus.go:75-83 | Leaving closes and unmaps the one subscription and keeps what waits in its channel |
| `EventBus.OrdersCrossed` | backend/internal/streaming/eventbus.go:39-48 | A run from the start in which two overlapping publishes reach two subscribers in opposite orders |
| `EventBus.OrdersCanCross` | backend/internal/streaming/eventbus.go:39-48 | They can do so from any state, to any two subscribers with room: the read lock does not order them |
| `EventBus.StepKeepsValid` | backend/internal/streaming/eventbus.go:30-125 | Each step keeps that correspondence while keys are distinct |
| `EventBus.KeysDistinctExactly` | backend/internal/streaming/eventbus.go:66-69 | The keys of the first n subscriptions are distinct if and only if n is at most 0xD800 |
| `EventBus.StepDelivery` | backend/internal/streaming/eventbus.go:38-48 | Only a send into a buffer with room adds to a subscriber's delivery |
| `EventBus.DeliveryInOrder` | backend/internal/streaming/eventbus.go:38-48 | A subscriber receives an in-order subsequence of what was sent to it, and all of it if and only if its buffer never overflowed |
| `EventBus.OneMoreOrphans` | backend/internal/streaming/eventbus.go:66-69 | One more subscription takes over the previous one's entry and leaves an open channel that nothing reaches |
| `EventBus.SafeExactly` | backend/internal/streaming/eventbus.go:30-125 | No run with up to n subscriptions ever sends to or closes a closed channel if and only if n is at most 0xD800 |
| `EventBus.OneMoreCanPanic` | backend/internal/streaming/eventbus.go:75-83 | With one more, unsubscribe, subscribe, unsubscribe again closes a channel twice |
| `EventBus.Bus.Publish` | backend/internal/streaming/eventbus.go:38-48 | A publish that no other overlaps is a run of the interleaved steps and offers the event to every mapped channel once; each send finds its channel open |
| `EventBus.Bus.Subscribe` | backend/internal/streaming/eventbus.go:64-70 | A new ticket with an empty channel, entered under its key |
| `EventBus.Bus.Unsubscribe` | backend/internal/streaming/eventbus.go:75-83 | The channel ends closed and unmapped; repeating it, also after the bus has closed, changes nothing |
| `EventBus.Bus.CloseBus` | backend/internal/streaming/eventbus.go:113-120 | Every mapped channel is closed once and the map emptied |
| `AuthTokens.RotationSafe` | backend/internal/api/handlers/auth.go:72-96 | Over every run whose deletions are executed, failed writes included, stored entries are those of their registration's latest pair |
| `AuthTokens.StepKeepsValid` | backend/internal/api/handlers/auth.go:129-294 | Registration, rotation and time each keep that invariant |
| `AuthTokens.OneEntryPerRegistration` | backend/internal/api/handlers/auth.go:129-191 | While deletions are executed, a registration has at most one stored refresh entry and one stored session entry, and they name each other and the same identity |
| `AuthTokens.AcceptedOnce` | backend/internal/api/handlers/auth.go:143-170 | While used tokens are deleted, whatever else fails, no refresh token is accepted twice, read off the run itself |
| `AuthTokens.ReplayExactly` | backend/internal/api/handlers/auth.go:165-170 | After every run, whatever failed in it: a used token can be presented again at once if and only if its deletion failed, and the old session survives if and only if its own did |
| `AuthTokens.AcceptedExactly` | backend/internal/api/handlers/auth.go:143-161 | A refresh is accepted exactly when the store holds the entry, neither of its deadlines has passed, and it names a user or a device |
| `AuthTokens.IdentityNeverChanges` | backend/internal/api/handlers/auth.go:172 | The bound identity never changes along a chain of rotations, whatever writes and deletions fail |
| `AuthTokens.LiveSessionRevocable` | backend/internal/api/handlers/auth.go:17-21 | In every run without a stranding step, every live session is named by exactly one refresh entry, which is still accepted: 24 hours end before 30 days |
| `AuthTokens.SessionNamedOnce` | backend/internal/api/handlers/auth.go:86-91 | In every run, whatever fails, no two stored refresh entries name the same session |
| `AuthTokens.LostRefreshEntryLeavesSession` | backend/internal/api/handlers/auth.go:78-93 | When the second write of a pair fails, a live session that no refresh entry names is left behind |
| `AuthTokens.RevocableExactly` | backend/internal/api/handlers/auth.go:78-93 | From a store whose sessions can all be revoked by a stored refresh token that outlives them, a step leads to one with a session that no request can revoke if and only if it issues a pair and its second write fails, or it deletes a used token and not the stored session that the token names |
| `AuthTokens.RevocableOverRuns` | backend/internal/api/handlers/auth.go:129-191 | Over every run: all sessions can be revoked at every moment if and only if no step strands one in that way |
| `AuthTokens.SecondChance` | backend/internal/api/handlers/auth.go:165-170 | Where both deletions fail, the used token is still accepted and presenting it again removes the old session |
| `AuthTokens.AlwaysSound` | backend/internal/api/handlers/auth.go:72-96 | Whatever fails: stored entries are issued ones, refresh entries name distinct sessions, and the store drops them when they expire |
| `AuthTokens.RotateRevokes` | backend/internal/api/handlers/auth.go:163-172 | After every run, rotation with executed deletions removes the old session and the used token at once, leaves API keys alone, and its new pair is live |
| `AuthTokens.RegistrationLasts` | backend/internal/api/handlers/auth.go:193-294 | A registration is good for exactly 365 days by API key, 24 hours by session and 30 days by refresh token, all bound to the device |
| `AuthTokens.RotationLasts` | backend/internal/api/handlers/auth.go:72-96 | An accepted rotation gives a session for exactly 24 hours and a refresh token for 30 days, for the identity of the used one |
| `AuthTokens.NothingIssued` | backend/internal/api/handlers/auth.go:143-177 | A rejected request and one whose first write fails hand out nothing |
| `AuthTokens.RegistrationStops` | backend/internal/api/handlers/auth.go:242-278 | A registration stores exactly what precedes the first failing write |
| `AuthTokens.RevokedForever` | backend/internal/api/handlers/auth.go:165-167 | A session token that has left the store never returns |
| `AuthTokens.AuthHandler.IssueSession` | backend/internal/api/handlers/auth.go:72-96 | Session entry first, refresh entry second, stored as far as the writes succeed |
| `AuthTokens.AuthHandler.Refresh` | backend/internal/api/handlers/auth.go:129-191 | The rejections and what each deletes, and the rotation otherwise, whichever of its deletions and writes fail |
| `AuthTokens.AuthHandler.Revoke` | backend/internal/api/handlers/auth.go:163-170 | The session first, then the used token, as far as the deletions are executed |
| `AuthTokens.AuthHandler.RegisterDevice` | backend/internal/api/handlers/auth.go:193-294 | Device record, API key and first pair for a non-empty device identifier, up to the write that fails |
| `Evidence.EvidenceConserved` | backend/internal/forensics/service.go:308-382 | Every anomaly and IOC match is in the result as often as in the input, for any order of the type map |
| `Evidence.EvidencePerType` | backend/internal/forensics/service.go:308-382 | And per type: an entry has exactly the anomalies and IOC matches of the threats of its type, each as often |
| `Evidence.AdviceKept` | backend/internal/forensics/service.go:349-361 | Techniques and remediation of an entry are exactly those of its type, without repetition when merged |
| `Evidence.EntryTimes` | backend/internal/forensics/service.go:363-372 | In the consolidated list, first detected is the earliest and last active the latest time given by a threat of the type |
| `Evidence.EntryConfidence` | backend/internal/forensics/service.go:336-374 | There, the confidence bounds those of the type and is attained where one is not negative |
| `Evidence.EntryHeading` | backend/internal/forensics/service.go:318-376 | There, name, severity and attribution are those of the first threat of the type, and the description is its own, with a note of the number of sources where several were merged |
| `Evidence.DecimalValue` | backend/internal/forensics/service.go:375 | The number in the note reads back |
| `Evidence.OrderIrrelevant` | backend/internal/forensics/service.go:308-382 | Two walks of the type map in different orders give the same threats |
| `Evidence.ConsolidateIdempotent` | backend/internal/forensics/service.go:308-382 | Consolidating again changes nothing but the order |
| `Evidence.ConsolidatedIsStable` | backend/internal/forensics/service.go:308-382 | A list with one threat per type is its own consolidation |
| `Evidence.MaxConfidenceExact` | backend/internal/forensics/service.go:323-376 | The merged confidence is the highest of its group if and only if the group holds a confidence that is not negative |
| `Evidence.MaxConfidenceBounds` | backend/internal/forensics/service.go:323-376 | It bounds the group from above and is zero or attained |
| `Evidence.SeenBounds` | backend/internal/forensics/service.go:323-376 | First seen is the earliest and last active the latest of the times given, and each is attained |
| `Evidence.ConsolidateThreats` | backend/internal/forensics/service.go:308-382 | Exactly one entry per type that occurs: the threat itself, or the merge of its group |
| `Evidence.MergeGroup` | backend/internal/forensics/service.go:323-376 | The merge loop, all accumulators at once, computes the merged threat |
| `Evidence.AppendUnseen` | backend/internal/forensics/service.go:349-361 | Appending through the seen-set is removing later repetitions from the concatenation |
| `Evidence.ContainsHelper` | backend/internal/forensics/service.go:512-519 | True exactly when the substring occurs somewhere |
| `Evidence.OccursMeaning` | backend/internal/forensics/service.go:512-519 | Occurring is being the middle of a concatenation |
| `Evidence.Contains` | backend/internal/forensics/service.go:508-510 | The guards around the scan do not change that, empty strings included |
| `Evidence.ContainsFolded` | backend/internal/forensics/service.go:521-537 | The same up to ASCII letter case |
| `IocScanner.ScanFindsExactly` | backend/internal/forensics/ioc_scanner.go:430-451 | For lower-case values, exactly the stored domains whose labels are a suffix of the domain's labels are reported |
| `IocScanner.SubdomainsFoundExactly` | backend/internal/forensics/ioc_scanner.go:438-439 | Matching is label-suffix matching up to case for every domain if and only if the stored value is in lower case |
| `IocScanner.LowerCaseHit` | backend/internal/forensics/ioc_scanner.go:438-439 | For a lower-case value the test is the label-suffix test |
| `IocScanner.CapitalMissesSubdomain` | backend/internal/forensics/ioc_scanner.go:438-439 | A value with a capital misses a domain under it |
| `IocScanner.ScanDomain` | backend/internal/forensics/ioc_scanner.go:430-451 | The scan reports the hits in the order of the indicators, with the lower-cased domain |
| `IocScanner.RaiseAnomalies` | backend/internal/forensics/ioc_scanner.go:541-567 | In place, each anomaly is raised by all matches and no other element is touched |
| `IocScanner.RaiseAllMeaning` | backend/internal/forensics/ioc_scanner.go:541-567 | No confidence is lowered; it is raised to 0.95 and the severity to critical exactly when a related match asks for it |
| `IocScanner.LastMatchStored` | backend/internal/forensics/ioc_scanner.go:546-554 | The match stored with an anomaly is the last one about it |
| `IocScanner.UnrelatedUntouched` | backend/internal/forensics/ioc_scanner.go:546-547 | An anomaly that no match is about stays as it is |
| `IocScanner.CampaignThreats` | backend/internal/forensics/ioc_scanner.go:569-585 | One threat for each named campaign with at least two matches, carrying all of them |
| `IocScanner.ThreatsExactly` | backend/internal/forensics/ioc_scanner.go:569-585 | A campaign has a threat exactly when it is named and has two matches, then only one, with exactly its matches |
| `IocScanner.ThreatsPartitionMatches` | backend/internal/forensics/ioc_scanner.go:569-585 | The threats' lists partition exactly the matches of those campaigns |
| `BackgroundTask.ExactlyOnce` | app/ios/Runner/BackgroundScanService.swift:339-378 | In every interleaving of the single actions of work item, expiration handler and notification callbacks: at most one completion and one record; when both sides are done, exactly one completion, exactly one record if the service exists, and they agree |
| `BackgroundTask.SuccessIsHonest` | app/ios/Runner/BackgroundScanService.swift:349-375 | Success is recorded if and only if the finished checks reach the latch before the expiration handler does |
| `BackgroundTask.CanFinish` | app/ios/Runner/BackgroundScanService.swift:339-443 | From every reachable state some continuation ends the task: no interleaving is a dead end |
| `BackgroundTask.WorkGoesThrough` | app/ios/Runner/BackgroundScanService.swift:353-366 | Checks that finish first record their findings as a success, and complete the task with success after the notification is refused or posted |
| `BackgroundTask.ExpiryGoesThrough` | app/ios/Runner/BackgroundScanService.swift:369-377 | An expiration that comes first cancels the work, records a failure without findings while the service exists, and completes the task as failed |
| `BackgroundTask.CancelledYetSuccessful` | app/ios/Runner/BackgroundScanService.swift:354-369 | The race in a run from the start: a work item already cancelled latches first and the task ends in success |
| `BackgroundTask.StepKeepsValid` | app/ios/Runner/BackgroundScanService.swift:339-443 | The completion, made or owed, always belongs to whoever fired the latch |
| `BackgroundTask.OnceFlag.TryFire` | app/ios/Runner/BackgroundScanService.swift:450-462 | True for the first caller only |
| `CallDirectory.NormalizedMeaning` | app/ios/Shared/CallDirectoryStore.swift:113-115 | Strictly increasing, and exactly the positive numbers of the input |
| `CallDirectory.NormalizedIdempotent` | app/ios/Shared/CallDirectoryStore.swift:113-115 | Normalizing twice is normalizing once |
| `CallDirectory.AscendingUnique` | app/ios/Shared/CallDirectoryStore.swift:113-115 | Elements and order determine the list, so any correct sort gives this one |
| `CallDirectory.LoadIdentificationEntries` | app/ios/Shared/CallDirectoryStore.swift:62-71 | Strictly increasing usable entries, one for every number with a usable entry, for any order the sort leaves among equals |
| `CallDirectory.LoadedMeaning` | app/ios/Shared/CallDirectoryStore.swift:62-71 | A load is strictly ascending in its numbers, takes only usable stored entries, and leaves no usable number out |
| `CallDirectory.LoadedNumbersUnique` | app/ios/Shared/CallDirectoryStore.swift:62-71 | Numbers and count do not depend on how the sort breaks ties |
| `CallDirectory.CaptionsDeterminedExactly` | app/ios/Shared/CallDirectoryStore.swift:62-71 | The captions are determined if and only if no number has two different usable captions |
| `CallDirectory.SaveLoadedFixed` | app/ios/Shared/CallDirectoryStore.swift:62-94 | Saving what was loaded and loading again is the identity |
| `CallDirectory.CallDirectoryStore.Save` | app/ios/Shared/CallDirectoryStore.swift:78-94 | Both lists are overwritten, the blocked one normalized, or nothing changes when the container is missing |
| `CallDirectory.CallDirectoryStore.LoadBlockedNumbers` | app/ios/Shared/CallDirectoryStore.swift:56-58 | What is fed to CallKit is strictly increasing and exactly the positive stored numbers |
| `CallDirectory.CallDirectoryStore.Counts` | app/ios/OrbGuardCallDirectory/CallDirectoryHandler.swift:53-63 | The counts are the numbers of entries the extension feeds to CallKit |
| `Uploads.SortExtensions` | backend/internal/api/handlers/forensics.go:396-403 | In place, the exchange loops give a permutation sorted by descending length |
| `Uploads.MatchAllowedExtension` | backend/internal/api/handlers/forensics.go:360-368 | The first listed extension that the lower-cased name ends with, or none |
| `Uploads.FirstMatchIsLongest` | backend/internal/api/handlers/forensics.go:360-403 | After the sort the match is the longest allowed suffix and the only one of its length |
| `Uploads.ChoiceIndependentOfOrder` | backend/internal/api/handlers/forensics.go:392-403 | So the order of the map of extensions cannot be seen in the choice |
| `Uploads.UnsortedCanShorten` | backend/internal/api/handlers/forensics.go:396-403 | Without the sort a shorter extension can hide a longer one |
| `Uploads.ExtractZipArchive` | backend/internal/api/handlers/forensics.go:481-532 | At most one byte beyond the cap is written; without rejected paths extraction succeeds if and only if the true sizes sum to at most the cap |
| `Intelligence.FollowCursor` | backend/internal/api/handlers/intelligence.go:320-333 | Following next_cursor over an unchanging list, with any limit on each page, terminates and yields the whole list in order, each item once |
| `Intelligence.PageMeaning` | backend/internal/api/handlers/intelligence.go:320-333 | Which items a page holds, whether there are more and where the next begins, from the limit, offset and cursor of the request |
| `Intelligence.SplitDelta` | backend/internal/api/handlers/intelligence.go:375-384 | A delta page is partitioned into created and updated items, conserving multiplicity |
| `Intelligence.CheckBatch` | backend/internal/api/handlers/intelligence.go:519-572 | The reply per position: flagged exactly for the last position of a hash that a returned row carries; empty and oversized requests refused |
| `Intelligence.AgreesByHash` | backend/internal/api/handlers/intelligence.go:488-572 | With a lookup by hash, batch and single check agree if and only if no stored value is asked for again later in the request |
| `Intelligence.AgreesByValueExactly` | backend/internal/infrastructure/database/repository/indicator.go:511-542 | With the lookup in the column of plain values that the repository makes, they agree if and only if every stored requested value is also the digest of a requested value, and is at its last position |
| `Intelligence.RowFoundByValue` | backend/internal/infrastructure/database/repository/indicator.go:511-542 | Which rows that lookup can contribute |
| `Intelligence.StoredValueMissed` | backend/internal/infrastructure/database/repository/indicator.go:511-542 | A stored value checked in a batch of one is reported clean unless it is its own digest |

## Left out

- ChiRouter.ParseChi: lines arrive as what the four patterns find in them plus a net brace count, so the regular expressions, the removal of comments at line 256 and the reading of files are not modelled.
- ChiRouter.ParseRegisterRoutes: the handlers' bodies are given; cutting them out of Go text by balanced braces is not modelled.
- ClientScan.LineOf: lines end in a single newline character, as the code's own offset count assumes.
- IpPacket.BuildDNSResponsePacket: a trap of the Swift runtime is an empty result; the UDP checksum is left as the code leaves it.
- IpPacket.SumWords: bytes are bounded integers, and shifts and masks are written as multiplication, division and remainder.
- DnsName.ParseDNSQuery: the UTF-8 decoder is a parameter, assumed to read ASCII as it stands; compression pointers are read as lengths, as the code does.
- DnsTunnel.ProcessPacket: the statistics counters are not modelled, and the completion is called at once; the socket exchange with the upstream server is a parameter that may yield nothing.
- Blocklist.BlocklistCache.ShouldBlock: ASCII case folding stands for Unicode lower-casing, time is an abstract order instead of SQLite date text, a failing statement and the hit counters are not modelled, and which of several matching rows is reported is left open.
- Blocklist.BlocklistCache.BulkAddRules: the scheduled build is counted as queued; when it starts, and what happens between its rows, is left to the state machine.
- Blocklist.BlocklistCache.AddToBloomFilter: data races on the unsynchronised Swift set are not modelled; each insertion is atomic.
- LockProtocol.MutualExclusion: the store executes a command at most once; lost connections between store replicas are not modelled.
- LockProtocol.LockStore.RunWithLockAndRetry: what the others do, and which attempts succeed, are given beforehand and do not react to the worker.
- WebSocketHub.StreamHub.SendToClients: events that fail to marshal, pings, deadlines and the unsynchronised write to a client's subscription are not modelled.
- EventBus.Bus.Subscribe: NATS is off, so the forwarder at lines 90-98, which sends without the lock, is not modelled; the subscription argument is ignored, as in the code.
- AuthTokens.AuthHandler.Refresh: requests are serialised, so two concurrent requests inside one rotation are not modelled; the random generator never repeats; each entry carries the number of its registration, which the service does not store and no decision reads.
- AuthTokens.AuthHandler.RegisterDevice: the device row in Postgres, whose failures are only logged, is not modelled, nor the descriptive fields of the device record.
- Evidence.ConsolidateThreats: the loops of mergeResults only append, so they, the timeline and the pattern analysis are not modelled; confidences are real numbers.
- IocScanner.RaiseAnomalies: path and process patterns, the collection of matches in ScanForensicResult, threat texts and raw-data counts are not modelled; matches are given.
- IocScanner.ScanDomain: ASCII case folding stands for EqualFold and ToLower.
- BackgroundTask.ExactlyOnce: the checks, the scheduling of the next request and the notification text are not modelled; the three writes of a record count as one; that the two notification-centre callbacks each run once is assumed.
- CallDirectory.CallDirectoryStore.Save: encoding and write errors are not modelled.
- Uploads.ExtractZipArchive: cleaning and joining of entry paths (an entry is marked as escaping or not) and I/O errors are not modelled; neither is the multipart loop.
- Uploads.MatchAllowedExtension: the base name is given; ASCII case folding stands for ToLower.
- Intelligence.FollowCursor: platform filtering, version numbers, the up-to-date branch and a list that changes between pages are not modelled.
- Intelligence.CheckBatch: a failing database call is not modelled; the digest is a parameter, assumed injective only where a lemma says so.
- URL caches, Retry-After parsing, the SMS classifier, device ownership, scanners for jailbreak and spyware, dashboards, Ruby scripts, the Flutter interface and the remaining CRUD handlers: finite case analysis or plumbing that would add only easy members.
