# Signed-manifest protocol: a verified model

The service issues short-lived signed manifests that tell VPN clients which endpoints
exist. A single active issuer allocates version numbers durably, an offline root signs
policies that divide the version space among online keys, and clients advance a trusted
state that must never go back. This project models that protocol, the endpoint planner,
the discovery fallback and the access register in Dafny, and proves what they guarantee
over whole runs: restarts, crashes, power losses, saves that fail half way, key rotations,
reordered and forged envelopes, clocks that jump.

`dafny verify dfyconfig.toml` checks the whole project.

## How the model is built

| file | contents |
|---|---|
| `Basics.dfy` | results, machine-integer bounds, instants, base64 lengths, symbolic digests |
| `Ordering.dfy` | Go string order, sorting by (number, string), uniqueness of sorted arrangements |
| `KeyPolicies.dfy` | root-signed key policies and the partition of versions |
| `Catalogs.dfy` | catalog validation loops, canonical form, catalog digest |
| `Manifests.dfy` | `Issue`, `Verify`, a client over a whole run |
| `Issuance.dfy` | durable state, the fallible atomic save, the process lock |
| `Issuers.dfy` | `NewIssuer`, `Issue`, `refresh`, `Close`: as functions and as a class that computes them in place |
| `IssuerRuns.dfy` | freshness and refresh spacing over any sequence of calls |
| `Protocol.dfy` | the state machine of processes, disk, published log and clients |
| `Restarts.dfy` | when an issuer can be restarted, under the same policy or another |
| `Samples.dfy` | concrete keys, policies and catalogs |
| `Rotation.dfy` | when an issuer can sign; a run that strands a client for a while |
| `Reuse.dfy` | how often a version can be signed |
| `Planner.dfy`, `PlannerGuarantees.dfy` | `Rank`, `mostDiverse`, `Cooldown`, and what they guarantee |
| `Discovery.dfy` | `Fetch` and its time budget |
| `AccessStore.dfy` | register and revoke transactions under READ COMMITTED |

Modelling decisions:

- Time is an integer number of nanoseconds since Go's zero `time.Time`, so 0 is the instant
  whose `IsZero` holds.
- SHA-256 is taken to be collision free: a digest is represented by what it was computed
  from. Ed25519 (section 5.1 of RFC 8032) is taken to be unforgeable: a signature value names
  its signer and payload. A public key is named by its key identifier. Unpadded base64url
  (section 5 of RFC 4648) appears only through its lengths. Several texts that decode alike
  are kept apart by a `variant` number.
- The length of a JSON-encoded document, catalog contents read from disk, clock readings and
  the outcome of every save are inputs, chosen freely by the environment.
- `Save` has three outcomes: done; failed before the rename; failed after it, when the new
  state is visible but the caller is told it failed. The disk keeps apart what is visible
  and what is known to survive a power loss, and a power loss is a step of the protocol.
- In `Protocol.dfy`, an envelope may reach a client in any order, any number of times and
  with any contents, except that a signature under a key listed in a root-signed policy
  comes from a published envelope (`Unforged`).
- `sort.Slice` is not stable. In the methods every sort may break ties as it likes; each is
  shown to be determined when the validation of what it sorts passes, and validation itself
  not to depend on it.

- Every limit, default and rule is also stated with its value on the fields themselves, apart
  from the definitions that the operations use: in the lemmas below and in those whose names
  end in `Meaning`.

Three findings about the code:

- A client that skipped versions refuses exactly those later envelopes that the key it knows
  signed under another epoch, and accepts again as soon as another key signs
  (`SkippingClientAccepts`, `StuckUntilAnotherKeySigns`). The issuer does not rule that out:
  in `RegrantedKeyStrandsClients` every issuer that starts gets the lock, every call
  publishes, and a client refuses one envelope throughout its window.
- docs/adr/0002-signed-discovery-and-replay.md:10 and :24-25 say that a restarted signer
  must not reuse a version and that a crash may skip one but not reuse it. The code keeps
  that for published versions, and for every version whose save was reported done
  (`ReportedVersionsAreNeverSignedAgain`). It does not keep it for signatures, because
  `refresh` signs before it saves. `NextSignature` says when a signature fails to advance:
  exactly when the save for the signature before it was not reported done, whether it failed
  before or after the rename, and either the same process goes on or the version visible at
  the restart is below the one that was signed. `SignedTwiceIffStalled` extends that to
  whole runs: some version is signed twice exactly if some signature fails to advance.
  `SameProcessSignsAgain` and `SignedVersionsCanGoBack` are runs in which a version is
  signed for two catalogs under one revision, without and with a restart; in the second the
  signed versions go 1, 2, 1. At most one envelope per version is ever published.
- `Rank` takes Go's zero time for "no retry time yet". With a clock before that instant, a
  cooldown that ends exactly at it and another that ends later, the retry time depends on the
  order in which a valid document lists its nodes and endpoints (`BlurredExample`). That is
  the only such case: `RankIgnoresOrderExactly` is an if and only if over documents.

## Model

| member | source | states |
|---|---|---|
| Ordering.SortedUnique | internal/manifest/keypolicy.go:218-227 | elements with distinct sort keys have exactly one sorted arrangement, so an unstable sort is determined |
| KeyPolicies.ValidateKeyPolicyShape | internal/manifest/keypolicy.go:156-204 | the shape check accepts exactly the policies whose grants, in version order, form one gapless chain from version 1 and epoch 1, open-ended at its end, whichever way the sort breaks ties |
| KeyPolicies.ShapeMeaning | internal/manifest/keypolicy.go:156-204 | without the sort: a policy is well shaped if and only if it has a version, a root name of 43 characters, no signature or one of 86, and 1 to 64 grants that can be arranged so that epochs count up from 1, versions join from 1 on, only the last is open-ended, and every key is named by its identifier and granted once |
| KeyPolicies.CheckGrantChain | internal/manifest/keypolicy.go:169-203 | the seen-map loop accepts exactly gapless chains with distinct, matching keys |
| KeyPolicies.LookupGrant | internal/manifest/keypolicy.go:124-139 | the early-return scan computes the lookup function on the list as given: it succeeds if and only if the first grant to the key includes the version and its key decodes, and returns that grant |
| KeyPolicies.Owner | internal/manifest/keypolicy.go:156-204 | every version from 1 to 2^64-1 is covered by one and only one grant of a well-shaped policy |
| KeyPolicies.PolicyPartitionsVersions | internal/manifest/keypolicy.go:124-139 | the lookup on the unsorted list succeeds for exactly one key per version and for none at version 0 |
| KeyPolicies.EpochsFollowVersions | internal/manifest/keypolicy.go:186-199 | epochs never decrease with the version, and two versions have the same key if and only if they have the same epoch |
| KeyPolicies.OnlyRootSignedPoliciesValidate | internal/manifest/keypolicy.go:92-122 | a policy is accepted if and only if it is what the pinned root would sign for its version and grants, up to grant order and the choice of signature; what was signed is this version, this root and these grants |
| KeyPolicies.CheckKeyPolicy | internal/manifest/keypolicy.go:92-122 | the check with its three separate unstable sorts computes the specified verdict and digest |
| KeyPolicies.SignGrants | internal/manifest/keypolicy.go:61-80 | signing with its unstable sorts computes the specified policy |
| KeyPolicies.PolicyOrderIsIrrelevant | internal/manifest/keypolicy.go:92-122 | validity, digest and authorisation do not depend on the order of the grants |
| KeyPolicies.PolicyDigestIdentifiesContents | internal/manifest/keypolicy.go:113-121 | valid policies have equal digests if and only if they differ only in grant order |
| KeyPolicies.SignedPolicyValidates | internal/manifest/keypolicy.go:61-80 | what the root signs validates against the root's key and no other, in any grant order |
| Catalogs.ValidateDiscovery | internal/manifest/manifest.go:361-392 | the loop accepts exactly 1 to 16 valid mirrors with distinct identifiers |
| Catalogs.ValidateNodes | internal/manifest/manifest.go:322-358 | the nested loops accept exactly valid nodes with distinct node identifiers and endpoint identifiers distinct across all nodes |
| Catalogs.ValidateCatalogContents | internal/manifest/manifest.go:314-359 | the whole content check, counts included, as an if and only if |
| Catalogs.ContentsMeaning | internal/manifest/manifest.go:314-425 | entry by entry, with every limit and pattern: a catalog is valid if and only if its 1 to 16 mirrors, 1 to 1000 nodes and their 1 to 16 endpoints each follow the rules and no identifier of a kind occurs twice anywhere |
| Catalogs.SortNodes | internal/manifest/manifest.go:501-516 | sorting copies node by node rearranges and changes nothing else |
| Catalogs.ComputeDigest | internal/manifest/manifest.go:261-284 | the imperative digest succeeds and agrees with the specified one however ties are broken |
| Catalogs.ValidityIgnoresOrder | internal/manifest/manifest.go:314-359 | validity is unchanged by reordering mirrors, nodes, or endpoints within a node |
| Catalogs.CatalogDigestIdentifiesContents | internal/manifest/manifest.go:261-284 | digests exist exactly for valid catalogs, and are equal if and only if the revisions are equal and the catalogs differ only in order |
| Catalogs.CanonicalCatalogIsFixed | internal/manifest/manifest.go:490-516 | canonicalising twice is canonicalising once |
| Catalogs.CanonicalOrder | internal/manifest/manifest.go:490-516 | in the canonical form mirrors, and the endpoints of each node, stand by priority and then identifier, and nodes by identifier, with Go's order on strings spelled out |
| Manifests.Verify | internal/manifest/manifest.go:182-257 | a failed call leaves the trusted state unchanged; a changed state means acceptance of a higher version |
| Manifests.AcceptanceMeaning | internal/manifest/manifest.go:182-257 | for every envelope, clock and client state, reached or not: accepted if and only if the envelope is genuine on its own fields, the clock is from 120 seconds before issue to just before expiry, and the state is empty, or complete and followed by the same payload or a successor; what is remembered is what the envelope says |
| Manifests.RoundTrip | internal/manifest/manifest.go:111-177 | an issued envelope is at most 1,399,126 bytes long, fits the decoder's limit and is accepted by a new client at exactly the instants from 120 seconds before issue until expiry, as the canonical catalog, with matching version, policy digest, key and epoch |
| Manifests.IssueManifest | internal/manifest/manifest.go:111-160 | issuing from unstable sorts and validation loops computes the specified envelope, which a new client accepts at once |
| Manifests.IssueMeaning | internal/manifest/manifest.go:111-160 | for all inputs, exactly when an envelope is issued: sound key, granted version, lifetime of one minute to one hour, valid catalog with a revision, times that can be encoded, at most 1,048,576 bytes |
| Manifests.ClientNeverRegresses | internal/manifest/manifest.go:427-471 | over any sequence of arbitrary envelopes, version, policy version, epoch and issue time never decrease |
| Manifests.ClientAcceptsOnePayloadPerVersion | internal/manifest/manifest.go:449-457 | two accepted documents with one version are the same bytes, however far apart in the run |
| Manifests.ReachableStatesAreSelfConsistent | internal/manifest/manifest.go:428-442 | every state a client reaches passes the completeness, digest and key-identifier checks of its next transition |
| Manifests.TransitionDecision | internal/manifest/manifest.go:427-471 | the transition check accepts exactly the empty start, the same state, or a genuine successor |
| Manifests.OnlyGenuineReasonsRefuse | internal/manifest/manifest.go:182-257 | for a state the client wrote itself, an authentic envelope in its window is accepted if and only if it is the first, the same, or a genuine successor |
| Manifests.PayloadDeterminesCandidate | internal/manifest/manifest.go:224-249 | the payload bytes alone determine signer, epoch and the state a client derives |
| Issuance.FileStore.Save | internal/issuance/state.go:77-134 | the three outcomes of the atomic replace, for what is visible and for what is durable; success only when the new state is both |
| Issuance.FileStore.Load | internal/issuance/state.go:33-75 | a file that cannot be read, or is neither a complete state nor one from before key policies, is an error and never the same as no file |
| Issuance.ProcessLock.Close | internal/issuance/lock_linux.go:65-79 | releases once, and closing again never releases another holder |
| Issuance.AcquireProcessLock | internal/issuance/lock_linux.go:20-63 | succeeds if and only if nothing fails on the way to the lock and nobody holds it, and otherwise changes nothing |
| Issuers.NewIssuer | internal/service/issuer.go:61-167 | a second issuer, or one that cannot open the lock, is refused without effect; a later failure gives the lock back; the disk and memory afterwards are the specified ones; lifetimes of 1m to 1h and cache times of 1s to half of that are required, and a readable state |
| Issuers.Issuer.SignNext | internal/service/issuer.go:220-257 | what is signed authenticates under the pinned root as the next version, with the contents of the catalog just loaded and the configured lifetime; revision and time have not gone back and an unchanged revision means an unchanged catalog; all of it computed through the validation loops and unstable sorts |
| Issuers.Issuer.RefreshState | internal/service/issuer.go:220-263 | the new state is durable before the envelope is returned; a failed save leaves memory alone |
| Issuers.Issuer.IssueEnvelope | internal/service/issuer.go:171-208 | one call moves memory and disk as the specified step, cache and backoff included, and a closed issuer answers nothing and changes nothing |
| Issuers.Issuer.Close | internal/service/issuer.go:210-218 | closing frees the lock once and ends issuing |
| IssuerRuns.StartIsFresh | internal/service/issuer.go:69-74 | every started issuer meets the assumptions of the run theorems below: lifetimes in range, cache time at most half the lifetime, nothing cached |
| IssuerRuns.RepliesExactly | internal/service/issuer.go:171-208 | over every sequence of calls: a call that publishes answers with its envelope, and any other answers if and only if something was published before and the clock is between its issue and its expiry, and then with the last envelope published |
| IssuerRuns.AnswersUntilExpiry | internal/service/issuer.go:182-199 | a published envelope is answered with, unchanged, at every second of its lifetime until the next is published, through every failure in between |
| IssuerRuns.EveryReplyIsFresh | internal/service/issuer.go:171-208 | every envelope ever returned is current at the instant used, carries the version in the issuer's state, and without a pending error has more than ttl minus cache time, at least half its lifetime, left |
| IssuerRuns.RefreshesAreSpaced | internal/service/issuer.go:178-207 | for every sequence of clock readings, attempts i and j are at least j-i times min(5s, cache time) apart |
| IssuerRuns.NextAttemptExactly | internal/service/issuer.go:182-206 | the next attempt happens at a clock reading if and only if the cache time after a success, or the gap after a failure, is over |
| Protocol.PreparedStateIsSound | internal/service/issuer.go:243-261 | every state built after a successful signature passes validation, follows the state in memory, and records exactly what the envelope authenticates as |
| Protocol.EveryStep | internal/service/issuer.go:91-148 | every step of the protocol keeps the invariant, extends the log and never lowers the durable version |
| Protocol.PublishedEnvelopesAdvance | internal/service/issuer.go:220-263 | over every run, published versions strictly increase; issue time, catalog revision, policy version and epoch never decrease; equal revisions mean equal catalogs and equal policy versions equal policies |
| Protocol.DurableVersionsNeverDecrease | internal/issuance/state.go:77-134 | the durable version never decreases, across power losses too, and is at least every published version |
| Protocol.VisibleVersionsNeverDecrease | internal/issuance/state.go:118-131 | without a power loss the visible version never decreases either |
| Protocol.SingleActiveIssuer | internal/issuance/lock_linux.go:17-63 | in every reachable world at most one issuer is open |
| Protocol.ClientsAgree | internal/manifest/manifest.go:452-457 | two clients at one version hold the same state and payload, and no client is ahead of the durable version |
| Protocol.SkippingClientAccepts | internal/manifest/manifest.go:443-470 | in every reachable world a client accepts a published envelope if and only if its clock is from 120 seconds before issue to just before expiry, the envelope is not older than its state, and the key that signed both has one epoch; it then holds exactly that envelope's state |
| Protocol.StuckUntilAnotherKeySigns | internal/manifest/manifest.go:464-466 | a client that refused an envelope because of its key's epoch accepts, of everything published from there on, exactly what another key signed, in its window |
| Protocol.ClientsCatchUp | internal/manifest/manifest.go:182-257 | if the root never gives one key two epochs, a new or lagging client accepts every later published envelope in its window and then holds exactly its state |
| Restarts.RestartCompleteness | internal/service/issuer.go:96-148 | after any run under one policy, a restart with that policy passes every check if and only if the key is granted the version after the one on disk and versions are left |
| Restarts.StartCondition | internal/service/issuer.go:96-148 | after any run with any rotations, from a disk that is empty, from before key policies or written by an issuer: an issuer starts if and only if its options are accepted, the key is granted the next version, and the policy adopts the old state, is the state's policy up to grant order, or is newer with an epoch that fits the key; under the state's own policy the consistency check never fires |
| Restarts.RunFits | internal/service/issuer.go:248-261 | whatever happened, what is on disk is the initial state or was written under a policy some issuer was started with |
| Restarts.SameDigestSamePolicy | internal/service/issuer.go:122-132 | the durable digest equals that of a valid policy exactly when their grants differ in order alone, and then the state is consistent with the policy |
| Restarts.ChecksReduceToAuthorisation | internal/service/issuer.go:126-148 | for a state written under the policy the consistency and epoch checks never fire |
| Restarts.NextStateFits | internal/service/issuer.go:244-261 | every state a refresh saves is consistent with the policy it was signed under |
| Restarts.MigratedFits | internal/service/issuer.go:97-110 | migrating a state from before key policies binds it consistently to the policy |
| Rotation.SigningCondition | internal/service/issuer.go:220-247 | a refresh gets its envelope signed if and only if catalog, clock, version space, key and size allow it |
| Rotation.RegrantedKeyStrandsClients | internal/manifest/manifest.go:464-466 | a concrete run in which every start gets the lock, every call publishes and nothing crashes half way, and a client that skipped a version refuses the third envelope throughout its window, which a new client accepts, and accepts the fourth, signed by another key |
| Reuse.NextVersion | internal/service/issuer.go:243-262 | over every run, for two signatures with none in between: the second's version is one more than the version visible at the last restart between them, or without a restart the first's, plus one if its save was reported done |
| Reuse.NextSignature | docs/adr/0002-signed-discovery-and-replay.md:24-25 | over every run, exactly when a signature does not advance the version of the one before, and exactly when it repeats it |
| Reuse.SignedTwiceIffStalled | docs/adr/0002-signed-discovery-and-replay.md:10-11 | over every run, some version is signed twice if and only if some signature is followed, after a save not reported done, by one of the same process or of one that saw a lower version at its start |
| Reuse.EveryVersionBelowWasSigned | internal/service/issuer.go:243-262 | over every run, every version between the initial one and a signed one has itself been signed by then |
| Reuse.ReportedVersionsAreNeverSignedAgain | internal/service/issuer.go:258-262 | over every run, every signature has a higher version than all earlier ones whose save was reported done, and than everything published, and its envelope authenticates as that version |
| Reuse.PublishingIsSigning | internal/service/issuer.go:244-262 | over every run, exactly the signatures of calls that end with a save reported done are published |
| Reuse.SameProcessSignsAgain | internal/service/issuer.go:244-261 | for every way a save can fail, a run in which one process signs one version for two catalogs under one revision and publishes the second |
| Reuse.SignedVersionsCanGoBack | internal/issuance/state.go:118-131 | a run with two crashes and a power loss in which signed versions go 1, 2, 1 and the third differs in contents from the first |
| Planner.ScoreOf | internal/selector/planner.go:71-74 | the score and the window above it fit 64 bits for every input |
| Planner.Collect | internal/selector/planner.go:57-80 | the nested scan computes the eligible candidates and the retry time |
| Planner.MostDiverse | internal/selector/planner.go:103-129 | the two scans return the first position of the best diversity class within the window |
| Planner.Select | internal/selector/planner.go:89-100 | the loop with in-place deletion makes the greedy picks |
| Planner.Rank | internal/selector/planner.go:45-101 | the whole computation, error cases included, equals the specified plan |
| Planner.RetryAtIsEarliest | internal/selector/planner.go:65-70 | for every clock, the retry time is the earliest end of a cooldown unless that is the zero time and another ends later; from the zero time on it is 0 if and only if nothing is cooling |
| Planner.RankIgnoresOrderExactly | internal/selector/planner.go:45-101 | for a document that `Rank` accepts, the answer is the same for every order of its mirrors, nodes and endpoints if and only if that exception does not apply |
| Planner.BlurredDependsOnOrder | internal/selector/planner.go:57-70 | for every accepted document to which it applies, one order of nodes and endpoints makes `Rank` report 0, the earliest end, and another a later time |
| Planner.BlurredExample | internal/selector/planner.go:57-70 | two valid documents that differ in the order of two endpoints, and a clock before the zero time, for which `Rank` reports 0 for one and five seconds past it for the other |
| Planner.RankIgnoresOrder | internal/selector/planner.go:45-101 | the plan is unchanged by reordering mirrors, nodes or endpoints, and so is the retry time outside that exception |
| PlannerGuarantees.RankMeetsSpecification | internal/selector/planner.go:57-129 | each pick is the one of which least was used before, then with the least score, then the first identifier, among the remaining eligible candidates within 10,000 of every remaining score; only one plan is like that; and the eligible ones are exactly the listed endpoints whose transport can be used and whose cooldown is over, with the score spelled out |
| PlannerGuarantees.EligibleIsPlanned | internal/selector/planner.go:57-100 | every eligible endpoint is planned when the limit, 8 by default, is not below their number |
| PlannerGuarantees.RankGuarantees | internal/selector/planner.go:89-100 | length is the smaller of limit and eligible, nobody planned needs missing UDP or is cooling down, endpoints are distinct, the best is first, and nobody is lifted over a candidate better by more than the window |
| PlannerGuarantees.HealthBeforeDiversity | internal/selector/planner.go:104-107 | a candidate with fewer failures, and at most 89 priority steps behind, is always planned first |
| PlannerGuarantees.ScoreMeaning | internal/selector/planner.go:71-74 | what failures, priority and a verified transfer weigh against each other and against the window |
| PlannerGuarantees.RankSpreadsProviders | internal/selector/planner.go:90-99 | if all scores lie within the window and providers match ASNs one to one, the plan starts with pairwise distinct providers |
| PlannerGuarantees.DoubleUpTo | internal/selector/planner.go:152-162 | the loop returns the capped doubling and stops while the doubled base is within the cap |
| PlannerGuarantees.Cooldown | internal/selector/planner.go:144-180 | for every class, with its base and cap, and every failure count: 0, or min(cap, base times 2^(n-1)), inside 64 bits, with at most five doublings |
| PlannerGuarantees.DelayMonotone | internal/selector/planner.go:142-163 | more failures never shorten the delay |
| Discovery.CheckSources | internal/discovery/client.go:84-99 | the loop accepts exactly valid sources with distinct identifiers |
| Discovery.VerifiedMirrorsAreUsable | internal/discovery/client.go:186-192 | the mirrors of any verified document pass the client's own checks, which look at less than manifest validation |
| Discovery.Fetch | internal/discovery/client.go:47-142 | succeeds exactly when an attempt answers before its budget, the deadline and the caller's cancellation, with that mirror's verified document and state |
| Discovery.SelectedInOrder | internal/discovery/client.go:63-110 | the mirrors tried are all sources, or the first as many as the client sets, by priority and then identifier, strictly in that order |
| Discovery.ShareNeverShrinks | internal/discovery/client.go:117-119 | with integer division, using no more than one's share leaves every other mirror at least as much |
| Discovery.FairShare | internal/discovery/client.go:112-137 | with P spent between attempts, every attempt gets at least min(timeout, D/n - P), all stay within D, mirrors are tried in (priority, identifier) order until the first that succeeds, and something is attempted exactly when a nanosecond is left for each when the first begins |
| Discovery.CancellationCutsOff | internal/discovery/client.go:112-137 | a cancelled fetch makes a prefix of the attempts of one left alone, is identical to it if that one is over first, and otherwise answers nothing |
| Discovery.OnePromptMirrorSuffices | internal/discovery/client.go:115-132 | a selected mirror that serves a verifying envelope within its guaranteed share makes the fetch succeed there or earlier, unless the caller cancels within the total time |
| Discovery.AnyPromptSourceSuffices | internal/discovery/client.go:21-142 | with default settings, any one of the sources that serves a verifying envelope within 12 seconds and its share of 60 makes the fetch succeed there or earlier |
| AccessStore.AuditMatchesRows | internal/pilotaccess/postgres/store.go:48-132 | under any interleaving, committed references are unique, each row has exactly one registration event, and exactly one revocation event if and only if it is revoked and was not inserted that way |
| AccessStore.RevocationEventIffRevoked | internal/pilotaccess/access.go:74-103 | with the accesses the service creates, there is one revocation event exactly for revoked rows |
| AccessStore.InsertedRevokedHasNoRevocationEvent | internal/pilotaccess/postgres/store.go:58-81 | a concrete run that inserts a revoked access and leaves it without a revocation event |
| AccessStore.RevocationIsFinal | internal/pilotaccess/postgres/store.go:98-103 | a revocation time never changes once set, and rows never disappear |
| AccessStore.RetryReturnsOriginal | internal/pilotaccess/postgres/store.go:105-119 | a retry returns the committed record and changes nothing |
| AccessStore.RetryFindsRevokedRow | internal/pilotaccess/postgres/store.go:105-119 | over every run, a revocation that found nothing active goes on with exactly the committed revoked row if there is one, and is given up otherwise |
| AccessStore.Store.CreateAccess | internal/pilotaccess/postgres/store.go:48-86 | succeeds if and only if nothing fails and no constraint is violated; both tables change or neither; success is reported only after the commit; the outcome is that of the transaction's steps with no other one open |
| AccessStore.Store.RevokeAccess | internal/pilotaccess/postgres/store.go:88-132 | exactly when it succeeds: an active access is revoked once, at the time given and with one event; a revoked one is returned as it was; a missing one is an error; the outcome is that of the transaction's steps with no other one open |

## Left out

- Byte-level JSON, base64, SHA-256 and Ed25519: symbolic, as described above.
- URL, host, port and server-name syntax: the verdicts of those parsers are part of the text (`CheckedText`, `UrlText`); identifier, region, country and credential patterns are modelled.
- Error texts: abbreviated, and several checks of one function may share a text.
- File permissions, symbolic links, `openat` and `flock` details, temporary-file clean-up: they appear only as failures that may happen.
- The size limits on the state, catalog and key-policy files, and reading them.
- Manual deletion or roll-back of the state file, compromise of an online key, root-key rotation: outside the issuer's contract.
- HTTP handlers, headers, authentication, the in-flight limiter, telemetry, metrics, node validators, probe classification, provider clients, configuration and commands: they would add only easy members.
- AccessStore.AuditMatchesRows: deleting devices, which deletes their accesses, and foreign keys to devices and nodes appear only as roll-backs; audit metadata is not modelled.
- Ordering.SortSlice: sorts a value rather than a slice in place; update in place is not captured.
