# Wicket, modelled and proved in Dafny

Wicket is an L4/L7 proxy with a Kubernetes Gateway API controller. This project models its decision
logic and proves what it promises, over every input, every run and every interleaving. `dafny verify
dfyconfig.toml` checks all of it.

What is modelled, one module per component:

- `LeaderElection`, `LeaseRenewal`: any number of replicas get, create and patch one shared Lease. Reads, clock readings,
  writes and reports are separate steps that interleave with each other, with time and with deletion.
- `ClientHello`: the cursor parser that takes the server name from a TLS ClientHello (section 5.1 and
  4.1.2 of RFC 8446, section 3 of RFC 6066), a serializer, and the round trip between them. `PeekLength`
  says how much of the input it needs, `Utf8` what its text test accepts.
- `Names`, `SniRouting`, `CertStorage`: four implementations of one-label wildcards and the theorems that
  say when they agree.
- `Planner`, `AttachmentPlan`, `ResultOrder`: which routes attach to which listeners, with counting and sorting.
- `HttpRouting`, `HttpRendering`, `HttpMeaning`, `GatewayMeaning`, `CertRendering`, `StreamRendering`,
  `ConfigGenerator`, `Listening`, `RouteLoading`, `RouterMeaning`: Gateway API objects compiled to a proxy configuration, and what that
  configuration then does.
- `Config`, `Validation`: what a valid configuration is, and the validator's checks.
- `RoundRobin`, `Health`, `HealthRefinement`, `Drain`, `HotReload`, `StreamTable`: the stream proxy's shared state.
- `ProxyProtocol`, `AccessLog`, `JsonLog`: encoders with their decoders.
- `Text`, `Bytes`, `Decimal`, `Ordering`, `GatewayApi`, `ControllerState`: shared definitions; `Ordering`
  holds the stable sort and the proof that its result is determined by the key classes alone.

Conventions. A hash map whose enumeration order the code sees is a list in arbitrary order. A protocol is
a total function `Step` or `Next` over actions, where an action that is not enabled changes nothing, and
`Run` folds it over any list of actions. A loop in the source is a method proved equal to a recursive
function, and the promises are proved of that function. Strings are sequences of ASCII characters.

## What turned out otherwise

Where the code and its documentation disagree the model follows the code.

- A Lease stores its duration truncated to whole seconds in an `i32`, while the holder is told the full
  duration: exclusion holds exactly for whole seconds below 2^31 (`SafeIffExactDurations`).
- The merge patch names no version. Exclusion then holds in every run only for a single replica
  (`UnversionedPatchSafeIffOneReplica`, `RacingPatchesBothWin`), and otherwise rests on the absence of races
  (`UnracedPatchIsSafe`).
- Deleting the Lease inside a window, or while a creation is under way, breaks exclusion
  (`DeleteIsSafeIff`, `DeletionOverlaps`, `StaleCreateOverlaps`).
- The ClientHello parser does not keep the name inside the record (`NameInsideRecordIff`,
  `NameOutsideRecord`). It is inside when the announced lengths nest (`NestedInsideRecord`), as they do in every
  well-formed record (`WellFormedInsideRecord`).
- `reload` is documented as an atomic swap but stores two slots one after the other. The exact condition
  for no connection to notice is `SeamlessIffNamesShared`.
- The accept loop may take another connection after cancellation (`CancelledMayStartIff`).
- A success report racing a failure report can lose the cooldown mark (`RaceLosesMark`,
  `LostMarkDisablesCooldown`); `MarkLostIff` says exactly when.
- A selector does not always deny a namespace without known labels; `UnlabelledNamespaceMayBeAllowed` says
  which selectors allow it.
- `hostname_intersects` disagrees with the data plane in two ways (`IntersectsAgreesIff`). It is
  case-sensitive although the data plane is not (`IntersectsIsCaseSensitive`). And it lets a pattern with a
  colon intersect itself, although the data plane cuts the port off a host before comparing and so never
  matches such a pattern (`ColonPatternsShareNoHost`).
- The certificate store and the SNI router differ on names that start with a dot (`RouterAgreesWithStore`).
- SNI keys that differ only in case make the router depend on the enumeration order of its map
  (`OrderFreeIff`).
- Round-robin shares are exact, and picks eligible, across counter wrap-around only for backend counts that
  divide 2^64 (`AlwaysExactIff`, `AlwaysEligibleIff`).
- Generated upstream names can collide, for HTTP rules (`MovedDashLosesBackends`,
  `OwnBackendsIffUnambiguous`) and for stream backends, whose names leave out namespace and port of the
  backend (`NamespacesCollide`, `AlwaysOwnServersIff`).
- An HTTPRoute is rendered with its first hostname only, and its path prefixes are compared as text
  (`MeaningKeptIff`).
- Some generated configurations are refused by the proxy's own validator (`GeneratedValidIff`,
  `TimeoutIsRefused`, `PendingTcpRouteIsRefused`). Some valid ones still make no router, for a star inside a
  hostname (`GeneratedLoadsIff`, `InnerStarIsNotBuilt`).
- Rendered rules answer in list order, not by the Gateway API's precedence of exact paths over prefixes
  (`ListOrderDecides`).
- The generator's comment on TLSRoutes speaks of the first rule's first backend; the code renders every
  backend of every rule, and the first one keeps the hostname (`ApplyAllMirrors`).
- `escape_json` leaves control characters that JSON requires to be escaped (`JsonContentIff`). No client can
  send one into an entry (`NamesDecideJson`): only a configured route or upstream name can hold one, and
  validation accepts it (`ControlNameBreaksJson`).

## Model

| member | source | states |
|---|---|---|
| `LeaderElection.WindowsNeverOverlap` | crates/wicket-controller/src/leader_election.rs:77-225 | in every run of any number of replicas and across all Lease objects of the run: if a patch conflicts when the Lease changed since it was read, every duration is stored exactly and the Lease is deleted only when no creation can overlap, validity windows of different holders never overlap, and leaseTransitions is the number of holder changes of the current Lease |
| `LeaderElection.StepKeepsInv` | crates/wicket-controller/src/leader_election.rs:77-225 | every step of every replica, of time and of such a deletion keeps: all windows ever granted disjoint, the Lease in agreement with the last grant, the transition count right, and what a replica remembers true while the version stands |
| `LeaderElection.RunKeepsInv` | crates/wicket-controller/src/leader_election.rs:77-225 | so every run keeps it |
| `LeaderElection.PatchExtendsGrants` | crates/wicket-controller/src/leader_election.rs:168-225 | a patch that did not conflict starts its window after every other holder's window of the run has ended |
| `LeaderElection.CreateExtendsGrants` | crates/wicket-controller/src/leader_election.rs:117-165 | so does a creation, if the Lease was deleted safely |
| `LeaderElection.PatchCountsTransitions` | crates/wicket-controller/src/leader_election.rs:174-187 | the patched transition count is the number of changes in the list of holders, the new one included |
| `LeaderElection.SafeIffExactDurations` | crates/wicket-controller/src/leader_election.rs:117-198 | for every initial Lease and any two or more replicas: no run overlaps two holders' windows if and only if every duration is a whole number of seconds below 2^31 (it is stored truncated, as an i32) |
| `LeaderElection.TakeOverGrants` | crates/wicket-controller/src/leader_election.rs:95-101 | how it fails otherwise: once the Lease is free one replica wins it, and the second takes over as soon as the stored, shorter duration has passed, while the first was told its window still runs |
| `LeaderElection.AttemptWins` | crates/wicket-controller/src/leader_election.rs:77-225 | an undisturbed attempt on an absent or expired Lease wins it, with the window and the expiry the code computes |
| `LeaderElection.DeleteIsSafeIff` | crates/wicket-controller/src/leader_election.rs:117-165 | deleting the Lease keeps windows apart in every continuation if and only if every other holder's window has ended, by the clock and by the stamp of any creation already under way |
| `LeaderElection.StaleCreateOverlaps` | crates/wicket-controller/src/leader_election.rs:117-165 | a creation stamped before another holder's window ended, landing on the deleted Lease, overlaps it |
| `LeaderElection.DeletionOverlaps` | crates/wicket-controller/src/leader_election.rs:117-165 | a deletion inside a window: any two replicas end with overlapping windows, conflicts detected or not |
| `LeaderElection.AnyDeletionIffOneReplica` | crates/wicket-controller/src/leader_election.rs:77-225 | with deletions at any time, no run overlaps if and only if there is at most one replica |
| `LeaderElection.UnracedRunsCoincide` | crates/wicket-controller/src/leader_election.rs:182-198 | without any conflict detection, a run whose patches each land on the version they were computed from goes exactly as if conflicts were detected |
| `LeaderElection.UnracedPatchIsSafe` | crates/wicket-controller/src/leader_election.rs:182-198 | hence such runs, with safe deletions, have disjoint windows and right transition counts |
| `LeaderElection.RacingPatchesBothWin` | crates/wicket-controller/src/leader_election.rs:182-213 | otherwise exclusion fails: from any state with an expired Lease, two replicas that both read before either patches are both told they lead, with overlapping windows |
| `LeaderElection.UnversionedPatchSafeIffOneReplica` | crates/wicket-controller/src/leader_election.rs:182-213 | the patch as the code sends it, for every initial Lease and with no deletion at all: no run overlaps if and only if there is at most one replica |
| `LeaderElection.HolderKeepsLease` | crates/wicket-controller/src/leader_election.rs:77-225 | with or without conflict detection, from any state with nobody else between read and answer: while the Lease stays unexpired and is not deleted the holder never changes, and every other replica's flag is false from its next completed attempt on |
| `LeaseRenewal.PunctualLeaderStays` | crates/wicket-controller/src/leader_election.rs:77-225 | with or without conflict detection, in every schedule where the holder makes attempt after attempt, each written before the stored duration has passed since the stamp of the one before, and everybody else and time do what they like: the Lease never expires, the holder never changes, its flag is up from its first completed attempt on, and the other flags go down |
| `LeaseRenewal.RenewalWins` | crates/wicket-controller/src/leader_election.rs:89-106 | the holder's own undisturbed attempt always renews, expired or not: a window from now for the configured duration, the clock as renewal time, the same transition count, answered yes |
| `LeaseRenewal.CreationWins` | crates/wicket-controller/src/leader_election.rs:117-165 | an undisturbed attempt on an absent Lease creates it with no transition counted |
| `LeaseRenewal.TakeOverIffRunOut` | crates/wicket-controller/src/leader_election.rs:93-114 | somebody else's Lease is taken over, with one more transition, if and only if no renewal is recorded or more than the stored seconds (15 if none are stored) have passed; otherwise the answer is no and nothing changes |
| `LeaseRenewal.StoredExactly` | crates/wicket-controller/src/leader_election.rs:133 | the stored duration is the whole seconds modulo 2^32 as a signed 32-bit number |
| `LeaseRenewal.AnswerIsReported` | crates/wicket-controller/src/main.rs:177-192 | the answer of an attempt becomes the flag the controller reads |
| `LeaseRenewal.FailureLowersFlag` | crates/wicket-controller/src/main.rs:193-197 | a failed attempt lowers the flag and leaves the Lease alone |
| `LeaderElection.OtherStep` | crates/wicket-controller/src/main.rs:175-203 | a step of a non-holder cannot touch an unexpired Lease, and completing an attempt lowers that replica's flag |
| `LeaderElection.ExactDurationIsWholeSeconds` | crates/wicket-controller/src/leader_election.rs:133 | the stored duration equals the configured one exactly for whole seconds below 2^31 |
| `ClientHello.ExtractSni` | crates/wicket-stream/src/sni.rs:48-152 | the cursor parser with its two nested loops returns on every byte string, and returns what the recursive parser specifies |
| `ClientHello.Cursor.ScanNames` | crates/wicket-stream/src/sni.rs:113-144 | the inner loop over server names, started anywhere with any end, equals the recursive scan |
| `ClientHello.Cursor.ScanExtensions` | crates/wicket-stream/src/sni.rs:107-149 | the outer loop over extensions likewise, including the jump past unknown extensions |
| `ClientHello.Cursor.SkipFixedPart` | crates/wicket-stream/src/sni.rs:79-95 | session id, cipher suites and compression methods are skipped to exactly where the extensions length stands, or the parse stops |
| `ClientHello.Cursor.ReadU16` | crates/wicket-stream/src/sni.rs:197-206 | a big-endian read that moves the cursor by two, or fails and leaves it |
| `ClientHello.ParseRoundTrip` | crates/wicket-stream/src/sni.rs:48-152 | for every well-formed ClientHello (any session id, ciphers, compression, extensions, name entries) and any trailing bytes, parsing its serialization yields exactly the name it announces, and none if it announces none |
| `ClientHello.AnnouncedHostIsFound` | crates/wicket-stream/src/sni.rs:107-149 | foreign extensions and foreign name types in front do not hide the host name |
| `ClientHello.ParseSound` | crates/wicket-stream/src/sni.rs:58-149 | on every byte string a returned name is at most 253 bytes of valid UTF-8, a slice of the buffer preceded by type 0 and its own length; the buffer begins with content type 22 and has message type 1 at byte 5, and the announced record fits it |
| `Utf8.ValidIffEncodes` | crates/wicket-stream/src/sni.rs:137 | the UTF-8 test accepts exactly the encodings of sequences of Unicode scalar values |
| `ClientHello.ParseStable` | crates/wicket-stream/src/sni.rs:48-152 | a name found is still found, unchanged, after appending any bytes |
| `ClientHello.PeekNeverMisleads` | crates/wicket-stream/src/proxy.rs:498-500 | a short peek finds nothing or the same name as the whole input |
| `ClientHello.Cursor.ReadU8` | crates/wicket-stream/src/sni.rs:186-195 | reads one byte and moves past it, or fails at the end and leaves the cursor |
| `ClientHello.Cursor.ReadU24` | crates/wicket-stream/src/sni.rs:208-217 | a big-endian read that moves the cursor by three, or fails and leaves it |
| `ClientHello.Cursor.Skip` | crates/wicket-stream/src/sni.rs:219-227 | moves the cursor within the buffer, or fails and leaves it |
| `PeekLength.PeekFindsIff` | crates/wicket-stream/src/proxy.rs:498-500 | exactly how long a peek must be: it finds the name if and only if it reaches the end of the record, of the message and of the name |
| `PeekLength.NameInsideRecordIff` | crates/wicket-stream/src/sni.rs:58-77 | the name lies inside the record if and only if the record by itself, taken as one whole message, parses |
| `PeekLength.NestedInsideRecord` | crates/wicket-stream/src/sni.rs:58-77 | a guard on the announced lengths: if the entry ends inside its list, the list inside the extensions block and the block inside the record, the name is inside the record |
| `PeekLength.WellFormedInsideRecord` | crates/wicket-stream/src/sni.rs:58-77 | whatever follows it, a well-formed ClientHello record contains the name it announces |
| `PeekLength.NameOutsideRecord` | crates/wicket-stream/src/sni.rs:58-77 | it need not: for every record length up to 53 and every positive block length, a 59-byte buffer yields a name that ends at byte 59, beyond the record; so the end of the block alone is no guard |
| `Names.WildcardMatchesFromFirstDot` | crates/wicket-stream/src/router.rs:30-41 | a wildcard accepts exactly the hosts whose remainder from the first dot is its suffix, with a non-empty first label |
| `Names.ParsePatternInjective` | crates/wicket-stream/src/router.rs:18-27 | patterns that compile alike are equal up to case |
| `Names.HostMatcherAgreesWithPattern` | crates/wicket-core/src/routing.rs:265-311 | the HTTP router's host matcher accepts a host exactly when the stream router's pattern accepts the lower-cased name without its port |
| `Names.IntersectsIffShareHost` | crates/wicket-controller/src/reconcilers/attachment_planner.rs:755-779 | for all patterns the data plane compiles: some host is accepted by both matchers if and only if neither pattern has a colon and hostname_intersects holds of the lower-cased patterns |
| `Names.IntersectsAgreesIff` | crates/wicket-controller/src/reconcilers/attachment_planner.rs:755-779 | for all patterns the data plane compiles, as written: the check agrees with the data plane if and only if a pair it takes to intersect has no colon, and a pair it takes not to intersect has one or does not intersect in lower case either |
| `Names.IntersectionHasHost` | crates/wicket-controller/src/reconcilers/attachment_planner.rs:755-779 | an intersection the control plane reports is witnessed by a host |
| `Names.CommonHostIntersects` | crates/wicket-controller/src/reconcilers/attachment_planner.rs:755-779 | a host accepted by both patterns is reported as an intersection |
| `Names.IntersectsSymmetric` | crates/wicket-controller/src/reconcilers/attachment_planner.rs:755-779 | the check is symmetric and no two different wildcards intersect |
| `Names.IntersectsIsCaseSensitive` | crates/wicket-controller/src/reconcilers/attachment_planner.rs:755-779 | every colon-free pattern that is not in lower case shares a host with its lower-case form and yet is reported disjoint from it |
| `Names.ColonPatternsShareNoHost` | crates/wicket-core/src/routing.rs:265-311 | every pattern with a colon accepts no host, yet is reported to intersect itself |
| `SniRouting.MatchSni` | crates/wicket-stream/src/router.rs:110-121 | the scan loop returns the upstream of the first route in sorted order that accepts the lower-cased name, else the default |
| `SniRouting.RouterMembers` | crates/wicket-stream/src/router.rs:76-100 | the router's list is a sorted rearrangement of the compiled entries, as a multiset, and keeps their order wherever the comparator does not decide |
| `SniRouting.MatchByKey` | crates/wicket-stream/src/router.rs:18-41 | a pattern accepts a host exactly when its lower-cased key is the host or the host's one-label wildcard |
| `SniRouting.OwnEntryWins` | crates/wicket-stream/src/router.rs:44-49 | an entry for the name itself wins over any wildcard |
| `SniRouting.RouterEqualsIndex` | crates/wicket-stream/src/router.rs:76-121 | for every table in every enumeration order the sorted scan equals: first entry of the lower-cased name, else of its wildcard at the first dot, else the default |
| `SniRouting.OrderFreeIff` | crates/wicket-stream/src/router.rs:76-100 | the answer is the same for every enumeration order of the map and every name if and only if keys that differ only in case share their upstream |
| `SniRouting.FrontAnswers` | crates/wicket-stream/src/router.rs:76-100 | why: whichever of two such keys is enumerated first answers |
| `CertStorage.CertStore.Insert` | crates/wicket-tls/src/cert_store.rs:40-52 | registering domains extends the registration history; both hash maps stay indexes of that history and the default is untouched |
| `CertStorage.CertStore.SetDefault` | crates/wicket-tls/src/cert_store.rs:55-57 | sets the default and nothing else |
| `CertStorage.CertStore.Resolve` | crates/wicket-tls/src/cert_store.rs:67-91 | certificate and outcome are those of the last exact registration, else the last covering wildcard registration, else the default |
| `CertStorage.RegisterKeepsIndexes` | crates/wicket-tls/src/cert_store.rs:40-52 | one registration updates exactly one of the two indexes and keeps both right |
| `CertStorage.RouterAgreesWithStore` | crates/wicket-tls/src/cert_store.rs:67-91 | registered with the same table, certificate store and SNI router choose alike if and only if it is not the case that the name starts with a dot, has no entry, and star plus the whole name is registered with something other than the default |
| `CertStorage.CertStore.constructor` | crates/wicket-tls/src/cert_store.rs:20-34 | an empty store with no registration and no default |
| `RoundRobin.Upstream.NextServer` | crates/wicket-stream/src/proxy.rs:164-182 | the scan from the shared counter picks the first eligible backend in cyclic order, or the counter's own when none is, and advances the counter by one with 64-bit wrap |
| `RoundRobin.PickAvoidsIneligible` | crates/wicket-stream/src/proxy.rs:164-182 | never an ineligible backend while one is eligible, when the scan does not cross the counter's wrap-around or n divides 2^64 |
| `RoundRobin.AlwaysEligibleIff` | crates/wicket-stream/src/proxy.rs:164-182 | at every counter value and for every eligible set the pick is eligible if and only if n divides 2^64; otherwise a scan across the wrap skips a backend |
| `RoundRobin.PickBefore` | crates/wicket-stream/src/proxy.rs:164-182 | the pick made d slots before backend j is j exactly when d is less than j's share |
| `RoundRobin.CountSlides` | crates/wicket-stream/src/proxy.rs:164-182 | a window of n calls counts the same wherever it starts below wrap-around, or anywhere when n divides 2^64 |
| `RoundRobin.ExactShares` | crates/wicket-stream/src/proxy.rs:164-182 | any n consecutive calls over n backends, below counter wrap-around, pick each eligible backend exactly its cyclic distance from the previous eligible one, each ineligible one never, and each one once when none is eligible |
| `RoundRobin.AlwaysExactIff` | crates/wicket-stream/src/proxy.rs:164-182 | with the wrapping 64-bit counter: every window of n calls, at every counter value and for every eligible set, gives those shares if and only if n divides 2^64 |
| `RoundRobin.WrappedCountAgrees` | crates/wicket-stream/src/proxy.rs:164-182 | when n divides 2^64 the wrapping counter picks like an unbounded one |
| `RoundRobin.LastBackendMissed` | crates/wicket-stream/src/proxy.rs:164-182 | otherwise the window at the last counter value misses the last backend |
| `RoundRobin.Upstream.constructor` | crates/wicket-stream/src/proxy.rs:133-157 | the counter starts at zero |
| `Health.BackendHealth.RecordSuccess` | crates/wicket-stream/src/health.rs:44-57 | appends a success to the history, of which the three fields stay the summary: failure count, health flag, time of the first failure of the trailing run |
| `Health.BackendHealth.RecordFailure` | crates/wicket-stream/src/health.rs:60-70 | appends a failure; an unhealthy backend's mark does not move |
| `Health.BackendHealth.IsEligible` | crates/wicket-stream/src/health.rs:73-87 | eligible exactly unless the trailing run of failures began, at a non-zero time, less than one cooldown ago |
| `Health.FailuresKeepDownSince` | crates/wicket-stream/src/health.rs:60-70 | repeated failures never extend the cooldown |
| `Health.DenialsAreTimely` | crates/wicket-stream/src/health.rs:44-87 | under every interleaving of the atomic steps of any number of threads, a backend is refused only within one cooldown of a time some failure report read |
| `Health.MarkLostIff` | crates/wicket-stream/src/health.rs:44-70 | in every run and interleaving from a tracked state with the clock past zero: at the end an unhealthy backend is neither marked nor about to be if and only if some success report cleared the mark while the backend was unhealthy again with nobody left to mark it, and no success report has swapped since |
| `Health.TrackedStep` | crates/wicket-stream/src/health.rs:44-70 | the same for one step: only such a late clear loses the mark, only a success report's swap makes it good |
| `Health.MarkSurvivesFailures` | crates/wicket-stream/src/health.rs:60-70 | without success reports the mark survives every interleaving of failures and checks |
| `Health.QuiescentBackend` | crates/wicket-stream/src/health.rs:44-70 | at rest an unhealthy backend is marked with a clock value some failure report read, unless it lost its mark in that way |
| `Health.CooldownIsApplied` | crates/wicket-stream/src/health.rs:73-87 | while marked and without success reports the mark never moves, and in every interleaving every check is refused exactly within one cooldown of it |
| `Health.RaceLosesMark` | crates/wicket-stream/src/health.rs:44-70 | a concrete schedule that loses the mark: a success report's clear lands after a later failure's store |
| `HealthRefinement.SerialRunDigests` | crates/wicket-stream/src/health.rs:44-87 | refinement: used by one thread at a time, in any order of reports, checks and waits, the atomics hold exactly what the sequential reports say |
| `HealthRefinement.NewBackendDigests` | crates/wicket-stream/src/health.rs:24-31 | in particular from a new backend on |
| `HealthRefinement.SuccessAlone` | crates/wicket-stream/src/health.rs:60-70 | an undisturbed success report adds a success to the history |
| `HealthRefinement.FailureAlone` | crates/wicket-stream/src/health.rs:73-87 | an undisturbed failure report adds a failure at the present clock value |
| `HealthRefinement.CheckAlone` | crates/wicket-stream/src/health.rs:44-57 | an undisturbed check is refused exactly when the sequential one answers no, and changes nothing else |
| `Health.LostMarkDisablesCooldown` | crates/wicket-stream/src/health.rs:60-87 | and then, until the next success, no run of failures ever gets it refused |
| `Health.BackendHealth.constructor` | crates/wicket-stream/src/health.rs:24-31 | a new backend is healthy with an empty history |
| `Drain.LimitIsRespected` | crates/wicket-stream/src/proxy.rs:411-455 | in every run at most max_connections handlers run at once, and held plus available permits is constant |
| `Drain.DrainIsSound` | crates/wicket-stream/src/proxy.rs:457-479 | in every run a drain that reports success has every accepted connection's handler back, one that reports a timeout has waited for it, and the drain loop ends within the timeout plus one tick of 100 ms plus scheduler lag |
| `Drain.ExitReasons` | crates/wicket-stream/src/proxy.rs:440-479 | the loop stops as drained exactly at a due look that finds every handler back, as timed out exactly at one that does not and comes after the timeout, and as failed exactly at an accept error |
| `Drain.LooksAgain` | crates/wicket-stream/src/proxy.rs:457-479 | a look that does not stop the drain is repeated 100 ms later |
| `Drain.AdmitsAtStart` | crates/wicket-stream/src/proxy.rs:341-347 | a new listener admits a connection at once; max_connections 0 means no limit, a positive number that limit |
| `Drain.OneStageAtATime` | crates/wicket-stream/src/proxy.rs:424-440 | a task is spawned, runs, returns, is uncounted and gives its permit back, in that order |
| `Drain.RunKeepsInv` | crates/wicket-stream/src/proxy.rs:404-482 | permits are conserved and the counter counts exactly those spawned tasks that have not decremented it, over every interleaving |
| `Drain.NoTaskAfterDrainBegins` | crates/wicket-stream/src/proxy.rs:448-455 | once the loop has left for the drain no task starts |
| `Drain.CancelledMayStartIff` | crates/wicket-stream/src/proxy.rs:411-455 | from every cancelled state some run still starts a task if and only if the loop has not yet left for the drain, a full listener included |
| `HotReload.NeverTwoBehind` | crates/wicket-stream/src/proxy.rs:368-398 | in every run with one reloader a connection's upstreams are at most one version behind its router |
| `HotReload.StableNameResolves` | crates/wicket-stream/src/proxy.rs:491-538 | a name defined in the version before the router's and in all later ones always resolves |
| `HotReload.UndisturbedConnectionResolves` | crates/wicket-stream/src/proxy.rs:491-538 | a connection whose two loads see no reload step between them always resolves, for validated configurations |
| `HotReload.MatchIsRoutable` | crates/wicket-config/src/lib.rs:934-960 | the router only ever answers with a name the validator checks |
| `HotReload.AnswersIff` | crates/wicket-stream/src/proxy.rs:523-538 | the router names an upstream for some connection if and only if it is the default or what some key of the table looks up |
| `HotReload.AnswersAreRoutable` | crates/wicket-config/src/lib.rs:934-960 | these are exactly the names the validator checks when keys that differ only in case share their upstream |
| `HotReload.SeamlessIffNamesShared` | crates/wicket-stream/src/proxy.rs:388-389 | a reload between any two validated configurations leaves no connection without upstream, in every interleaving, if and only if each router names only upstreams the other version defines, too |
| `HotReload.StreamProxy.Reload` | crates/wicket-stream/src/proxy.rs:368-398 | the reload with its build loop: succeeds exactly when every server parses, then both slots are the new router and table; on failure neither slot changes and the error does not parse |
| `HotReload.TableNames` | crates/wicket-stream/src/proxy.rs:373-386 | the table built from a configuration names exactly the upstreams its validation looks at |
| `StreamTable.BuildTable` | crates/wicket-stream/src/proxy.rs:306-316 | the build loop: stops at the first upstream with a server that does not parse, else yields the specified table |
| `StreamTable.TableExact` | crates/wicket-stream/src/proxy.rs:306-316 | the table holds exactly the configured names, each with the servers of its last entry |
| `StreamTable.OwnServersIff` | crates/wicket-stream/src/proxy.rs:306-316 | every configured entry is reached under its name if and only if entries that share a name share their servers |
| `Validation.Validate` | crates/wicket-config/src/lib.rs:663-733 | the chain of check-and-bail passes accepts exactly the valid configurations, and any error it reports is a real defect of the kind it names |
| `Validation.ValidateStreams` | crates/wicket-config/src/lib.rs:896-932 | with two growing sets: names and listen addresses pairwise distinct, each stream good by itself; otherwise a real defect is named |
| `Validation.ValidateStream` | crates/wicket-config/src/lib.rs:934-979 | passes exactly when every upstream named by default or SNI route is defined, there is one, and each has a server; otherwise the offender is named |
| `Validation.ValidateRoutes` | crates/wicket-config/src/lib.rs:680-713 | passes exactly when every route names a known upstream and has a match, supported filters and no timeout |
| `Validation.ValidateRouteFilters` | crates/wicket-config/src/lib.rs:735-772 | passes exactly when the only filter is a URL rewrite to an absolute path |
| `Validation.ValidateRoute` | crates/wicket-config/src/lib.rs:681-713 | one route, check by check, with the defect found |
| `Validation.ValidateAcme` | crates/wicket-config/src/lib.rs:774-790 | passes exactly when the mode needs no ACME section or it is there with a domain for every certificate |
| `Validation.ValidateFile` | crates/wicket-config/src/lib.rs:800-819 | passes exactly when the mode needs no file section or it is there with at most one certificate without domains |
| `Validation.CountDefaults` | crates/wicket-config/src/lib.rs:805-811 | the count is at most one exactly when no two certificates lack domains |
| `Validation.ValidateOneRouteTls` | crates/wicket-config/src/lib.rs:824-890 | one route's three TLS checks |
| `Validation.ValidateNextStream` | crates/wicket-config/src/lib.rs:900-929 | one stream against those before it: blank or repeated name, bad or repeated address, or a defect of its own |
| `Validation.ValidateLogging` | crates/wicket-config/src/lib.rs:664-678 | access logging needs files, and files need names |
| `Validation.ValidateRouteTls` | crates/wicket-config/src/lib.rs:821-894 | passes exactly when every route's TLS choice is available |
| `Config.HttpListenAddrs` | crates/wicket-config/src/lib.rs:218-229 | the primary address first, then the others, without duplicates |
| `Config.DedupExact` | crates/wicket-config/src/lib.rs:218-229 | deduplication keeps each address exactly once, in order of first occurrence |
| `Config.DedupAbsorbs` | crates/wicket-config/src/lib.rs:218-229 | deduplicating an already deduplicated tail changes nothing |
| `Config.DedupLoop` | crates/wicket-controller/src/reconcilers/config_generator.rs:585-597 | the loop with its seen-set keeps first occurrences only |
| `Planner.EvaluateRoute` | crates/wicket-controller/src/reconcilers/attachment_planner.rs:1110-1297 | the loop over selected listeners yields the specified results |
| `Planner.SelectedExact` | crates/wicket-controller/src/reconcilers/attachment_planner.rs:1133-1191 | a parentRef selects exactly the listeners it means by section name and port, in listener order |
| `Planner.VerdictExact` | crates/wicket-controller/src/reconcilers/attachment_planner.rs:1193-1296 | every status is exactly its reason: protocol if that does not fit, namespace policy if only the protocol fits, kind policy if only those two pass, hostname if only those three pass, the first unresolved reference if all four pass, and attached otherwise |
| `Planner.CheckListener` | crates/wicket-controller/src/reconcilers/attachment_planner.rs:1185-1296 | the chain of checks computes that status |
| `Planner.FittingPairs` | crates/wicket-controller/src/reconcilers/attachment_planner.rs:704-714 | HTTPRoutes fit HTTP and HTTPS, TCPRoutes TCP, TLSRoutes TLS, and nothing else fits |
| `Planner.SelectListeners` | crates/wicket-controller/src/reconcilers/attachment_planner.rs:1134-1170 | the first listener of the section name, or all, and only on the requested port |
| `Planner.TargetsGateway` | crates/wicket-controller/src/reconcilers/attachment_planner.rs:644-656 | a parentRef targets the Gateway by group, kind, namespace (the route's by default) and name |
| `Planner.NamespaceIsAllowed` | crates/wicket-controller/src/reconcilers/attachment_planner.rs:794-830 | the namespace policy, `Same` by default; a selector judges the labels with the namespace's name added |
| `Planner.LabelSelectorMatches` | crates/wicket-controller/src/reconcilers/attachment_planner.rs:841-876 | the two loops accept exactly when every label and every requirement holds; an unknown operator is refused |
| `Planner.KindIsAllowed` | crates/wicket-controller/src/reconcilers/attachment_planner.rs:882-896 | no list allows every kind; otherwise one entry must name the kind, in the Gateway API group or none |
| `Planner.HostnamesAreCompatible` | crates/wicket-controller/src/reconcilers/attachment_planner.rs:735-748 | no listener hostname or no route hostname is compatible with anything; otherwise some pair must intersect |
| `Planner.FirstUnresolvedRef` | crates/wicket-controller/src/reconcilers/attachment_planner.rs:916-970 | the loop stops at the first core Service reference that is unknown in the route's namespace or not granted in another |
| `Planner.IsPermitted` | crates/wicket-controller/src/reconcilers/attachment_planner.rs:948-957 | some ReferenceGrant of the target namespace allows the reference |
| `Planner.AllowsServiceReference` | crates/wicket-controller/src/crds/referencegrant.rs:114-129 | a grant allows a reference exactly when one of its from entries names the route's kind and namespace and one of its to entries the Service or all Services |
| `Planner.ReadHttp` | crates/wicket-controller/src/reconcilers/attachment_planner.rs:987-1018 | namespace default and empty name by default, and all rules' references in order |
| `Planner.ReadStream` | crates/wicket-controller/src/reconcilers/attachment_planner.rs:1021-1086 | the same for TCPRoutes and TLSRoutes, of which only the latter have hostnames |
| `Planner.FirstUnresolvedExact` | crates/wicket-controller/src/reconcilers/attachment_planner.rs:916-969 | no complaint exactly when every reference is present locally or granted in its target namespace; otherwise the first offender is blamed |
| `Planner.EvaluateExact` | crates/wicket-controller/src/reconcilers/attachment_planner.rs:1110-1297 | one result per listener the parentRef means, in listener order, with that listener's name and the exact reason, or a single NoMatchingParent for its section; each repeats route, section, port and generation |
| `Planner.UnlabelledNamespaceMayBeAllowed` | crates/wicket-controller/src/reconcilers/attachment_planner.rs:794-870 | contrary to the module documentation a namespace without known labels passes a selector if and only if its matchLabels name at most the name label with this value, each requirement on another key is NotIn or DoesNotExist, and each on the name label holds of the name |
| `AttachmentPlan.MakePlan` | crates/wicket-controller/src/reconcilers/attachment_planner.rs:397-637 | the nested loops compute the specified plan, failing exactly on an unknown Gateway |
| `AttachmentPlan.PlanRoute` | crates/wicket-controller/src/reconcilers/attachment_planner.rs:420-472 | one route's results are appended and tallied, for targeting parentRefs only |
| `AttachmentPlan.TallyResults` | crates/wicket-controller/src/reconcilers/attachment_planner.rs:452-469 | the counting loops, with their two gateway-wide branches, compute the specified tally |
| `AttachmentPlan.PlanResultsExact` | crates/wicket-controller/src/reconcilers/attachment_planner.rs:397-602 | the plan is a rearrangement, as a multiset, of the results of all targeting parentRefs, in key order |
| `AttachmentPlan.PlanIgnoresEnumerationOrder` | crates/wicket-controller/src/reconcilers/attachment_planner.rs:587-602 | for routes with distinct names per kind, every enumeration order of the three route maps gives the identical plan |
| `AttachmentPlan.ObjectsDecidePlan` | crates/wicket-controller/src/reconcilers/attachment_planner.rs:415-584 | the same from the stored HTTPRoute, TCPRoute and TLSRoute objects on, with their defaults for namespace and name |
| `AttachmentPlan.ResultsAreAboutObjects` | crates/wicket-controller/src/reconcilers/attachment_planner.rs:397-584 | from the stored objects on: there is a plan exactly when the Gateway is known by namespace and name, and every result names a stored object of its kind and carries the given generation |
| `AttachmentPlan.NewTally` | crates/wicket-controller/src/reconcilers/attachment_planner.rs:409-412 | every listener starts with no attached route |
| `AttachmentPlan.SummarizeListeners` | crates/wicket-controller/src/reconcilers/attachment_planner.rs:605-624 | one summary per listener with its count and what its protocol supports |
| `AttachmentPlan.AcceptanceExact` | crates/wicket-controller/src/reconcilers/attachment_planner.rs:663-697 | a listener supports exactly the route kinds its protocol fits, is accepted exactly if there is one, and otherwise carries a reason |
| `ResultOrder.PlanIsInOrder` | crates/wicket-controller/src/reconcilers/attachment_planner.rs:586-602 | results are in the order of namespace, name, kind, listener and port, an absent listener or port first |
| `ResultOrder.KeyOrder` | crates/wicket-controller/src/reconcilers/attachment_planner.rs:586-602 | the sort key compares exactly like the tuple of those five |
| `ResultOrder.SummariesAreInOrder` | crates/wicket-controller/src/reconcilers/attachment_planner.rs:626-627 | summaries are in the order of listener names |
| `AttachmentPlan.RawHasNoWideAttachment` | crates/wicket-controller/src/reconcilers/attachment_planner.rs:452-469 | no attached result lacks a listener name, so the gateway-wide counting branches never fire |
| `AttachmentPlan.OneKindPerListener` | crates/wicket-controller/src/reconcilers/attachment_planner.rs:704-714 | a listener attaches routes of one kind only, so the count key may omit the kind |
| `AttachmentPlan.SummariesCountRoutes` | crates/wicket-controller/src/reconcilers/attachment_planner.rs:605-627 | one summary per listener, sorted by name, each counting the distinct (kind, namespace, name) routes attached to it |
| `AttachmentPlan.PlanRoutes` | crates/wicket-controller/src/reconcilers/attachment_planner.rs:418-473 | all routes of one kind, in the order given |
| `AttachmentPlan.PlanAll` | crates/wicket-controller/src/reconcilers/attachment_planner.rs:415-584 | HTTP, then TCP, then TLS routes |
| `AttachmentPlan.TallyIsAttachedKeys` | crates/wicket-controller/src/reconcilers/attachment_planner.rs:452-469 | a listener's tally is the set of keys of results attached to it |
| `HttpRouting.Build` | crates/wicket-core/src/routing.rs:80-88 | compiles every route in place or reports the error of the first that does not compile |
| `HttpRouting.MatchRequest` | crates/wicket-core/src/routing.rs:98-121 | the decision is that of the first matching route, and none exactly when no route matches |
| `RouterMeaning.DecisionExact` | crates/wicket-core/src/routing.rs:98-121 | on the configurations: nothing if and only if none answers; otherwise name, upstream and URL rewrite are those of the first that answers, and the matched prefix is its exact path, else its prefix, else the request's path |
| `RouterMeaning.CompiledRouteAnswers` | crates/wicket-core/src/routing.rs:123-217 | a compiled route matches exactly the requests its configuration describes by host, path or prefix, method and headers |
| `HttpRendering.RenderHttp` | crates/wicket-controller/src/reconcilers/config_generator.rs:209-357 | the nested rendering loops compute the specified routes and upstream map |
| `HttpRendering.RenderRule` | crates/wicket-controller/src/reconcilers/config_generator.rs:226-354 | a rule without addresses renders nothing; otherwise one upstream and one route per non-regex match, or one catch-all |
| `HttpRendering.EntrySlotsExact` | crates/wicket-controller/src/reconcilers/config_generator.rs:209-357 | rendered routes are exactly the renderable matches of accepted routes, in (route key, rule, match) order |
| `HttpRendering.CollectBackends` | crates/wicket-controller/src/reconcilers/config_generator.rs:229-250 | the addresses of a rule: sorted endpoints of known Services, cluster names of the others, in reference order |
| `ControllerState.AddressesOf` | crates/wicket-controller/src/reconcilers/config_generator.rs:231-249 | the sorted endpoints of a known Service, else its cluster name with the reference's port or the default one |
| `ControllerState.IsAccepted` | crates/wicket-controller/src/reconcilers/config_generator.rs:64-71 | some parent status of this controller has Accepted=True |
| `ControllerState.ParseDurationToSecs` | crates/wicket-controller/src/reconcilers/config_generator.rs:600-616 | trimming, number and unit, with release-build wrap-around |
| `ControllerState.DurationMeaning` | crates/wicket-controller/src/reconcilers/config_generator.rs:600-616 | a printed number with s, m or h, in any white space, is that many seconds, minutes or hours, and with any other last character nothing |
| `ControllerState.DurationNeedsDigit` | crates/wicket-controller/src/reconcilers/config_generator.rs:600-616 | text without a digit, a lone sign or unit among it, is no duration |
| `HttpRendering.RenderMatch` | crates/wicket-controller/src/reconcilers/config_generator.rs:297-351 | the route of one match, or nothing for a regular expression |
| `HttpRendering.CollectHeaders` | crates/wicket-controller/src/reconcilers/config_generator.rs:328-333 | header matches collected into a map, the last of a name kept |
| `HttpRendering.MethodText` | crates/wicket-controller/src/reconcilers/config_generator.rs:321-325 | the text of each of the nine methods |
| `HttpRendering.RenderMatches` | crates/wicket-controller/src/reconcilers/config_generator.rs:297-351 | one route per match that is not a regular expression, in match order |
| `HttpRendering.RenderRoute` | crates/wicket-controller/src/reconcilers/config_generator.rs:222-354 | all rules of a route, in order |
| `HttpMeaning.RenderedMeaning` | crates/wicket-controller/src/reconcilers/config_generator.rs:278-352 | a rendered route, once compiled, matches exactly the requests its HTTPRoute match describes, with the first hostname and with prefixes of the path text |
| `HttpMeaning.RouterKeepsMeaning` | crates/wicket-core/src/routing.rs:98-211 | whenever the generated routes compile, the router's answer to every request is the upstream of the earliest rendered match that holds, and none exactly when none holds |
| `HttpMeaning.UpstreamsExact` | crates/wicket-controller/src/reconcilers/config_generator.rs:228-266 | every generated upstream is what some rendered rule of that name defines, and every rendered rule has one |
| `HttpMeaning.OwnBackendsIffUnambiguous` | crates/wicket-controller/src/reconcilers/config_generator.rs:226-260 | every rendered rule's upstream holds that rule's own backends if and only if routes whose namespace and name join alike agree rule by rule |
| `HttpMeaning.RuleNamesEqualIff` | crates/wicket-controller/src/reconcilers/config_generator.rs:227 | two rules get one upstream name if and only if their routes' namespace and name join alike and they have the same index |
| `HttpMeaning.MovedDashLosesBackends` | crates/wicket-controller/src/reconcilers/config_generator.rs:226-260 | it fails for accepted routes between whose namespace and name a dash moves, each with one backend of the same name and no known endpoints: one gets the other's address |
| `HttpMeaning.DistinctJoinsKeepBackends` | crates/wicket-controller/src/reconcilers/config_generator.rs:226-260 | if no two routes' namespace and name join alike, traffic reaches its own rule's backends |
| `HttpMeaning.DashFreeNamespacesKeepBackends` | crates/wicket-controller/src/reconcilers/config_generator.rs:228-266 | hence with dash-free namespaces traffic reaches its own rule's backends |
| `GatewayMeaning.MeaningKeptIff` | crates/wicket-controller/src/reconcilers/config_generator.rs:278-352 | that is the Gateway API's meaning (any hostname, whole path elements) for every request if and only if the first hostname covers the others and a path prefix ends in a slash |
| `GatewayMeaning.CoveredPattern` | crates/wicket-core/src/routing.rs:284-311 | a pattern that accepts another pattern's text accepts every host the other accepts |
| `GatewayMeaning.LongerElement` | crates/wicket-core/src/routing.rs:315-323 | a prefix without a closing slash also accepts longer last elements |
| `CertRendering.CollectCerts` | crates/wicket-controller/src/reconcilers/config_generator.rs:359-396 | the nested loops compute the specified certificate map |
| `CertRendering.CertUsesExact` | crates/wicket-controller/src/reconcilers/config_generator.rs:364-386 | the uses merged are exactly the certificate references of listeners that have a hostname and a known Secret |
| `CertRendering.CertsMergeUses` | crates/wicket-controller/src/reconcilers/config_generator.rs:359-396 | one entry per Secret, whose domains are the hostnames it is used for, each once |
| `CertRendering.CertsExact` | crates/wicket-controller/src/reconcilers/config_generator.rs:359-396 | each emitted certificate carries its Secret's name and paths and exactly the hostnames it is used for |
| `CertRendering.CertsOncePerSecret` | crates/wicket-controller/src/reconcilers/config_generator.rs:359-396 | each used Secret is emitted exactly once |
| `CertRendering.CollectRefs` | crates/wicket-controller/src/reconcilers/config_generator.rs:370-393 | one listener's certificate references, skipping those without hostname or known Secret |
| `CertRendering.CollectListeners` | crates/wicket-controller/src/reconcilers/config_generator.rs:368-394 | all listeners of a gateway |
| `StreamRendering.RenderStreams` | crates/wicket-controller/src/reconcilers/config_generator.rs:415-539 | the loops over TLSRoutes then TCPRoutes compute the specified upstream list, SNI routes and catch-all |
| `StreamRendering.ApplyOne` | crates/wicket-controller/src/reconcilers/config_generator.rs:431-492 | one backend: its upstream is appended, unclaimed hostnames go to it, or the free catch-all slot |
| `StreamRendering.UsesExact` | crates/wicket-controller/src/reconcilers/config_generator.rs:415-539 | the backends rendered are exactly the references of accepted routes |
| `StreamRendering.ApplyAllMirrors` | crates/wicket-controller/src/reconcilers/config_generator.rs:449-490 | upstreams mirror the references in order; each claimed hostname appears once, with its first claimant; the catch-all is the first TLSRoute reference without hostnames, and none if there is none |
| `StreamRendering.SniReachesFirstClaimant` | crates/wicket-controller/src/reconcilers/config_generator.rs:541-563 | if no two hostnames differ only in case, the SNI router built from the rendered routes, in any enumeration order, names for every client the upstream of the first claimant of the name, else of its wildcard, else of the first reference without hostnames |
| `StreamRendering.ClientReachesClaimant` | crates/wicket-stream/src/proxy.rs:523-538 | end to end: if moreover references that share a name share their servers, every client reaches the servers of its claimant |
| `StreamRendering.UsesOwnServersIff` | crates/wicket-stream/src/proxy.rs:306-316 | every reference's clients reach its own servers if and only if references that share an upstream name share their servers (the last one wins the name) |
| `StreamRendering.AlwaysOwnServersIff` | crates/wicket-controller/src/reconcilers/config_generator.rs:431-447 | whatever endpoints the Services have, if and only if references that share a name mean one Service under one DNS name and port |
| `StreamRendering.NamespacesCollide` | crates/wicket-controller/src/reconcilers/config_generator.rs:431-447 | it fails for one TLSRoute with backends of one name in two namespaces |
| `StreamRendering.RenderRefs` | crates/wicket-controller/src/reconcilers/config_generator.rs:431-492 | the backends of one rule, in order |
| `StreamRendering.RenderRules` | crates/wicket-controller/src/reconcilers/config_generator.rs:430-493 | the rules of one route, in order |
| `StreamRendering.RenderEntries` | crates/wicket-controller/src/reconcilers/config_generator.rs:415-494 | accepted routes only, in key order |
| `ConfigGenerator.GenerateConfig` | crates/wicket-controller/src/reconcilers/config_generator.rs:126-583 | the generator computes the specified configuration |
| `ConfigGenerator.BucketAll` | crates/wicket-controller/src/reconcilers/config_generator.rs:150-165 | listeners are split by protocol family, gateways by key, listeners in declaration order |
| `ConfigGenerator.ListenersExact` | crates/wicket-controller/src/reconcilers/config_generator.rs:150-165 | a listener is in a bucket exactly when some gateway declares it with a protocol of that family |
| `ConfigGenerator.ServerSection` | crates/wicket-controller/src/reconcilers/config_generator.rs:181-206 | the server section for each combination of HTTP and HTTPS listeners |
| `Listening.HttpPortsAreDeclared` | crates/wicket-controller/src/reconcilers/config_generator.rs:182-206 | when an HTTP listener exists, the proxy binds, on all interfaces, exactly the port numbers of the declared HTTP listeners, each once, in order of first declaration by gateway key and listener index |
| `Listening.HttpsPortIsDeclared` | crates/wicket-controller/src/reconcilers/config_generator.rs:182-206 | HTTPS is bound on the port of the first declared HTTPS listener |
| `Listening.StreamPortIsDeclared` | crates/wicket-controller/src/reconcilers/config_generator.rs:549-556 | the stream is bound on the port of the first declared TCP or TLS listener and named after it |
| `Listening.DefaultServer` | crates/wicket-controller/src/reconcilers/config_generator.rs:203-205 | without HTTP and HTTPS listeners the server section is the built-in one on port 8080 |
| `ConfigGenerator.HttpListensAreDeclared` | crates/wicket-controller/src/reconcilers/config_generator.rs:585-597 | removing repeats from the further listeners only gives the same sockets as removing them from all HTTP listeners |
| `ConfigGenerator.ListensAsDeclared` | crates/wicket-controller/src/reconcilers/config_generator.rs:150-206 | the generated proxy listens for plain HTTP unless the gateways declare HTTPS listeners and no HTTP one, and for HTTPS exactly when they declare an HTTPS one |
| `ConfigGenerator.GenerateIgnoresOrder` | crates/wicket-controller/src/reconcilers/config_generator.rs:126-165 | the configuration does not depend on the enumeration order of any of the four object maps |
| `ConfigGenerator.GeneratedValidIff` | crates/wicket-controller/src/reconcilers/config_generator.rs:126-583 | the proxy's validator accepts the generated configuration if and only if no rendered rule has a parseable timeout and, when a stream is emitted, some accepted TLSRoute or TCPRoute has a backend and none of their backends is a Service known to be empty |
| `RouteLoading.RouterBuildsIff` | crates/wicket-core/src/routing.rs:80-88 | the router builds from the generated routes if and only if no rendered HTTPRoute has a first hostname with a star elsewhere than in front |
| `RouteLoading.GeneratedLoadsIff` | crates/wicket-controller/src/reconcilers/config_generator.rs:126-583 | the generated configuration is both valid and buildable if and only if that holds together with the conditions on timeouts and stream backends |
| `RouteLoading.InnerStarIsNotBuilt` | crates/wicket-core/src/routing.rs:80-88 | any accepted HTTPRoute whose first hostname has an inner star gives a valid configuration whose router does not build |
| `RouteLoading.ListOrderDecides` | crates/wicket-core/src/routing.rs:98-121 | of a rule for an exact path and a rule for a prefix of it, the exact one answers requests for the path if and only if it is listed first |
| `ConfigGenerator.TimeoutIsRefused` | crates/wicket-config/src/lib.rs:693-698 | an accepted HTTPRoute with a one-second timeout makes the configuration invalid |
| `ConfigGenerator.PendingTcpRouteIsRefused` | crates/wicket-controller/src/reconcilers/config_generator.rs:541-563 | a TCPRoute that is not accepted, beside a TCP or TLS listener, makes the whole configuration invalid |
| `ConfigGenerator.BucketListeners` | crates/wicket-controller/src/reconcilers/config_generator.rs:150-164 | one gateway's listeners by protocol family; UDP in none |
| `ConfigGenerator.StreamOkIff` | crates/wicket-config/src/lib.rs:934-979 | the emitted stream passes its validation exactly when it has an upstream and each upstream has an address |
| `ConfigGenerator.RoutableIsDefined` | crates/wicket-config/src/lib.rs:938-959 | every upstream named by a rendered SNI route or catch-all is among the rendered upstreams |
| `ConfigGenerator.RoutesOkIff` | crates/wicket-config/src/lib.rs:680-716 | generated routes pass validation exactly when none carries a timeout |
| `ConfigGenerator.TlsOk` | crates/wicket-config/src/lib.rs:774-894 | generated certificates and routes always pass the TLS checks |
| `ConfigGenerator.UpstreamsNonEmpty` | crates/wicket-config/src/lib.rs:718-723 | no generated upstream is empty |
| `ProxyProtocol.EncodeV2` | crates/wicket-stream/src/protocol.rs:93-156 | the bytes appended are signature, command, family, length, both addresses in the client's family and both ports |
| `ProxyProtocol.RoundTripV2` | crates/wicket-stream/src/protocol.rs:93-156 | a version 2 header in front of any payload decodes to the client, the proxy address in the client's family, and exactly that payload |
| `ProxyProtocol.LengthFieldExact` | crates/wicket-stream/src/protocol.rs:102-148 | the length field is the number of bytes that follow it |
| `ProxyProtocol.RoundTripV1` | crates/wicket-stream/src/protocol.rs:49-88 | a version 1 header in front of any payload decodes likewise |
| `ProxyProtocol.DestinationKeptIff` | crates/wicket-stream/src/protocol.rs:49-88 | the destination address survives normalisation if and only if it is not an unmapped IPv6 address reached by an IPv4 client |
| `ProxyProtocol.NormalisedExact` | crates/wicket-stream/src/protocol.rs:49-88 | which destination a header names: the address itself in the client's own family, the mapped form for an IPv6 client, the unmapped form or 0.0.0.0 for an IPv4 client |
| `AccessLog.PassesAreOnePass` | crates/wicket-core/src/proxy.rs:356-363 | the five replace passes equal one pass that escapes each character by itself |
| `AccessLog.QuotedRoundTrip` | crates/wicket-core/src/proxy.rs:356-363 | an escaped field between quotes reads back exactly, whatever follows it |
| `AccessLog.EscapedHasNoBreaks` | crates/wicket-core/src/proxy.rs:356-363 | an escaped field has no raw newline, return or tab |
| `AccessLog.CombinedRoundTrip` | crates/wicket-core/src/proxy.rs:318-335 | a combined line gives back every column for any client-controlled content; only the address must have no blank and the timestamp no closing bracket |
| `AccessLog.OneEntryIsOneLine` | crates/wicket-core/src/proxy.rs:318-335 | a line contains a raw break if and only if the timestamp does |
| `AccessLog.JsonContentIff` | crates/wicket-core/src/proxy.rs:365-372 | an escaped value is JSON string content if and only if the value has no control character besides newline, return and tab |
| `JsonLog.NamesDecideJson` | crates/wicket-core/src/proxy.rs:337-372 | with request fields as the proxy receives them, every text field of a JSON entry is JSON string content if and only if the route label and the upstream name have no control character besides those escaped |
| `JsonLog.ControlNameBreaksJson` | crates/wicket-core/src/proxy.rs:778-784 | a route name with another control character is accepted by validation, compiles, matches every path under the root, and makes the entry of each request it answers invalid |
| `AccessLog.FieldsRoundTrip` | crates/wicket-core/src/proxy.rs:318-335 | any list of quoted fields is separable again |

## Left out

- Sockets, TLS handshakes, tokio, Pingora and rustls: connecting, copying bytes and scheduling are I/O.
- The eBPF sockmap crate: kernel calls.
- Metrics, tracing, command line, PID file and systemd notification: no property beyond plumbing.
- TOML and serde parsing, PEM and X.509 loading, ACME and DNS providers: library behaviour.
- Watch loops, the object store and status patching: API plumbing; the planner and the generator are proved for every enumeration order of what a store may return.
- CRD fields that neither planner nor generator reads, among them query-parameter matches, the header match type, backend weights and HTTPRoute filters, which the generator ignores.
- Unicode case folding and white space: names are ASCII.
- The weak memory ordering of Relaxed atomics: steps are sequentially consistent.
- Fixed integer widths other than those named: lengths and counts are unbounded, `attached_routes` is not cut to 32 bits, and an offset never overflows 64 bits.
- The clock of leader election: one shared clock that never goes back, in whole microseconds, which is the resolution a Lease stores.
- The other parts of `Config` that validation does not read, such as health checks and timeouts of streams.
- URL rewriting and header filters of the HTTP router: the validator refuses most of them and the rest are one-line string edits.
- `TLSRoute::matches_sni` and the store's indexes: not used by the modelled paths.
- IPv6 text: the version 1 PROXY header takes the printer as a parameter, with a reader that undoes it.
- `split_at` in duration parsing: a last character of more than one byte makes the code panic; with ASCII text that cannot happen.
- Build profile: a duration that overflows 64 bits wraps, as in a release build.
- Validation.Validate: the error is one real defect; the wording of messages is not modelled.
- RouteLoading.ListOrderDecides: shows where list order and Gateway API precedence part for paths; precedence among hostnames, methods and header counts is not modelled, since the renderer sorts by none of them.
- Handlers that panic or never return: a handler returns, decrements the counter and gives its permit back.
- The window of whoever holds the Lease before the run begins: windows are those granted in the run.
- Gateway API details the renderer leaves alone in the same way on both sides of `GatewayMeaning`: wildcards stand for one label, header names are compared as text, and of repeated header names the last counts.
