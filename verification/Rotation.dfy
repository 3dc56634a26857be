/** When an issuer gets an envelope signed, and what happens when the root grants a retired
    key again: internal/service/issuer.go and internal/manifest/manifest.go. */
module Rotation {
  import opened Basics
  import opened Ordering
  import opened KeyPolicies
  import opened Catalogs
  import opened Manifests
  import opened Issuance
  import opened Issuers
  import opened Protocol
  import opened Samples

  // ----- the exact condition for signing

  /** The catalog at hand may follow what the state records. */
  predicate CatalogContinues(s: State, c: Catalog) {
    s.lastVersion > 0 ==>
      && s.catalogRevision <= c.revision
      && (s.catalogRevision == c.revision ==> s.catalogDigest == DigestOf(CanonicalCatalog(c)))
  }

  predicate CanSign(m: Memory, now: Time, input: Input) {
    && input.catalog.Ok? && input.catalog.value.revision > 0
    && ValidContents(input.catalog.value.discovery, input.catalog.value.nodes)
    && CatalogContinues(m.state, input.catalog.value)
    && (m.state.lastVersion > 0 ==> m.state.lastIssuedAt <= now)
    && m.state.lastVersion < MAX_U64
    && ValidPrivateKey(m.options.privateKey)
    && KeyPolicyGrant(m.options.policy, m.keyId, m.state.lastVersion + 1).Ok?
    && now != 0 && now + m.options.ttl != 0
    && EncodableTime(now) && EncodableTime(now + m.options.ttl)
    && input.size <= MAX_MANIFEST_BYTES
  }

  lemma {:induction false} IssueCondition(catalog: Catalog, version: U64, policy: KeyPolicy, root: RootBytes,
                                          now: Time, ttl: int, key: PrivateKey, size: Pos)
    requires ValidateKeyPolicy(policy, root).Ok? && now % SECOND == 0 && MINUTE <= ttl <= HOUR && version > 0
    ensures Issue(catalog, version, policy, root, now, ttl, key, size).Ok? <==>
            && ValidPrivateKey(key) && KeyPolicyGrant(policy, KeyID(key.public), version).Ok?
            && catalog.revision > 0 && ValidContents(catalog.discovery, catalog.nodes)
            && now != 0 && now + ttl != 0 && EncodableTime(now) && EncodableTime(now + ttl)
            && size <= MAX_MANIFEST_BYTES
  {
    hide ValidContents, GrantIn, GrantChain;
    assert TruncateToSecond(now) == now;
    CanonicalValidity(catalog);
    CanonicalPolicyIsShaped(policy, root);
  }

  lemma {:induction false} CanonicalPolicyIsShaped(policy: KeyPolicy, root: RootBytes)
    requires ValidateKeyPolicy(policy, root).Ok?
    ensures ShapeOk(CanonicalKeyPolicy(policy)) && !CanonicalKeyPolicy(policy).signature.Unsigned?
  {
    hide GrantChain;
    CanonicalGrantsKeepChain(policy.keys);
  }

  /** A running issuer gets its next envelope signed if and only if the catalog is valid and
      newer or unchanged, the clock has not gone back, versions are left, and the policy
      grants the next version to its key. */
  lemma {:induction false} SigningCondition(root: RootBytes, m: Memory, now: Time, input: Input)
    requires ConfigOk(root, m) && MINUTE <= m.options.ttl <= HOUR && now % SECOND == 0
    ensures Prepare(m, now, input).Ok? <==> CanSign(m, now, input)
  {
    hide Issue, ValidateKeyPolicy, KeyPolicyGrant, ValidContents, HoldsGrant;
    if input.catalog.Ok? {
      CanonicalValidity(input.catalog.value);
      if m.state.lastVersion < MAX_U64 {
        IssueCondition(input.catalog.value, m.state.lastVersion + 1, m.options.policy, root, now,
                       m.options.ttl, m.options.privateKey, input.size);
      }
    }
  }

  // ----- extending runs

  /** A start gets the lock, a call publishes, and nothing breaks off in the middle. */
  predicate GoesWell(w: World, ev: Event, w': World) {
    match ev
    case StartUp(p, _, _, _) => w.holder.None? && w'.holder == Some(p)
    case CallIssuer(_, _) => |w'.log| == |w.log| + 1
    case CrashInCall(_, _) => false
    case PowerLoss(_) => false
    case _ => true
  }

  predicate AllGoesWell(worlds: seq<World>, events: seq<Event>) {
    |worlds| == |events| + 1 && forall i | 0 <= i < |events| :: GoesWell(worlds[i], events[i], worlds[i+1])
  }

  lemma {:induction false} Extend(root: RootBytes, worlds: seq<World>, events: seq<Event>, ev: Event)
    requires IsRun(root, worlds, events) && Allowed(root, worlds[|events|], ev)
    ensures IsRun(root, worlds + [Apply(root, worlds[|events|], ev)], events + [ev])
    ensures AllGoesWell(worlds, events) && GoesWell(worlds[|events|], ev, Apply(root, worlds[|events|], ev)) ==>
              AllGoesWell(worlds + [Apply(root, worlds[|events|], ev)], events + [ev])
  {
    hide Allowed, Apply, GoesWell;
    var ws, es := worlds + [Apply(root, worlds[|events|], ev)], events + [ev];
    forall i | 0 <= i < |es| ensures StepAt(root, ws, es, i) {
      if i < |events| { assert StepAt(root, worlds, events, i); }
    }
  }

  /** An issuer that starts on what is visible can sign right away. */
  predicate RoundPossible(root: RootBytes, w: World, p: nat, o: Options, input: Input) {
    && w.holder.None? && p !in w.procs && o.root == root && GoodOptions(o)
    && (w.disk.visible.Some? ==> w.disk.visible.value.policyVersion > 0)
    && CheckState(o, w.disk.visible).Ok?
    && input.clock % SECOND == 0 && input.save.Saved?
    && CanSign(NewMemory(o, CheckState(o, w.disk.visible).value, w.disk.visible), input.clock, input)
  }

  lemma {:induction false} StartSucceeds(root: RootBytes, w: World, p: nat, o: Options, input: Input)
    requires Inv(root, w) && RoundPossible(root, w, p, o, input)
    ensures var m := NewMemory(o, CheckState(o, w.disk.visible).value, w.disk.visible);
            Apply(root, w, StartUp(p, o, false, Saved)) == w.(holder := Some(p), procs := w.procs[p := m])
  {
    hide CheckState, LogOk, ProcsOk, ClientsOk, Follows, CanSign;
  }

  lemma {:induction false} CallPublishes(root: RootBytes, m: Memory, disk: Disk, input: Input)
    requires ConfigOk(root, m) && Refreshes(m, input.clock) && MINUTE <= m.options.ttl <= HOUR
    requires input.clock % SECOND == 0 && input.save.Saved? && CanSign(m, input.clock, input)
    ensures Prepare(m, input.clock, input).Ok?
    ensures var (e, next) := Prepare(m, input.clock, input).value;
            && Published(m, disk, input) == [Publication(e, next)]
            && Call(m, disk, input).disk == Disk(Some(next), Some(next))
            && next == NextState(m, input.catalog.value, DigestOf(CanonicalCatalog(input.catalog.value)), input.clock)
            && Describes(root, e, next)
  {
    hide Prepare, Call, Published, ConfigOk;
    assert TruncateToSecond(input.clock) == input.clock;
    SigningCondition(root, m, input.clock, input);
    CallUnfolds(m, disk, input);
    PreparedFields(root, m, input.clock, input);
    PreparedStateIsSound(root, m, input.clock, input);
  }

  lemma {:induction false} FreshMemoryRefreshes(m: Memory, now: Time, input: Input)
    requires !m.closed && m.cached.None? && m.lastError.None? && CanSign(m, now, input)
    ensures Refreshes(m, now)
  {
    hide ValidContents, KeyPolicyGrant, CatalogContinues;
  }

  /** What one start, one published envelope and one crash leave behind. */
  predicate RoundDone(root: RootBytes, w: World, o: Options, input: Input, w': World)
    requires CheckState(o, w.disk.visible).Ok? && input.catalog.Ok?
  {
    var m := NewMemory(o, CheckState(o, w.disk.visible).value, w.disk.visible);
    && w'.holder.None? && w'.procs == w.procs && w'.clients == w.clients
    && |w'.log| == |w.log| + 1 && w'.log[..|w.log|] == w.log
    && m.state.lastVersion < MAX_U64
    && w'.disk.visible == Some(w'.log[|w.log|].state)
    && w'.log[|w.log|].state
       == NextState(m, input.catalog.value, DigestOf(CanonicalCatalog(input.catalog.value)), input.clock)
    && Describes(root, w'.log[|w.log|].envelope, w'.log[|w.log|].state)
  }

  lemma {:induction false} StartedMemoryIsOk(root: RootBytes, w: World, p: nat, o: Options, input: Input)
    requires Inv(root, w) && RoundPossible(root, w, p, o, input)
    ensures var m := NewMemory(o, CheckState(o, w.disk.visible).value, w.disk.visible);
            ConfigOk(root, m) && MINUTE <= m.options.ttl <= HOUR
  {
    hide CheckState, LogOk, ProcsOk, ClientsOk, Follows, CanSign, ConfigOk, ValidateKeyPolicy;
    LaunchIsOk(root, o, w.disk.visible);
  }

  lemma {:induction false} RoundWorlds(root: RootBytes, w: World, p: nat, o: Options, input: Input)
    requires Inv(root, w) && RoundPossible(root, w, p, o, input)
    ensures var w1 := Apply(root, w, StartUp(p, o, false, Saved));
            && p in w1.procs
            && var w2 := Apply(root, w1, CallIssuer(p, input));
            && p in w2.procs
            && GoesWell(w, StartUp(p, o, false, Saved), w1) && GoesWell(w1, CallIssuer(p, input), w2)
            && RoundDone(root, w, o, input, Apply(root, w2, Crash(p)))
  {
    hide CheckState, Inv, CanSign, Describes, Published, Call, ConfigOk, Prepare, Refreshes;
    StartSucceeds(root, w, p, o, input);
    StartedMemoryIsOk(root, w, p, o, input);
    var m := NewMemory(o, CheckState(o, w.disk.visible).value, w.disk.visible);
    FreshMemoryRefreshes(m, input.clock, input);
    CallPublishes(root, m, w.disk, input);
    var w1 := w.(holder := Some(p), procs := w.procs[p := m]);
    var w2 := Apply(root, w1, CallIssuer(p, input));
    assert (w2.procs - {p}) == w.procs;
  }

  lemma {:induction false} Round(
    root: RootBytes, worlds: seq<World>, events: seq<Event>, p: nat, o: Options, input: Input)
    returns (worlds': seq<World>, events': seq<Event>)
    requires IsRun(root, worlds, events) && RoundPossible(root, worlds[|events|], p, o, input)
    ensures IsRun(root, worlds', events') && (AllGoesWell(worlds, events) ==> AllGoesWell(worlds', events'))
    ensures events' == events + [StartUp(p, o, false, Saved), CallIssuer(p, input), Crash(p)]
    ensures worlds <= worlds' && |worlds'| == |worlds| + 3
    ensures RoundDone(root, worlds[|events|], o, input, worlds'[|events'|])
  {
    hide Inv, Apply, CheckState, CanSign, RoundDone, GoodOptions, AllGoesWell, StepAt, Initial;
    var w := worlds[|events|];
    RunKeepsInv(root, worlds, events, |events|);
    RoundWorlds(root, w, p, o, input);
    var w1 := Apply(root, w, StartUp(p, o, false, Saved));
    var w2 := Apply(root, w1, CallIssuer(p, input));
    Extend(root, worlds, events, StartUp(p, o, false, Saved));
    Extend(root, worlds + [w1], events + [StartUp(p, o, false, Saved)], CallIssuer(p, input));
    Extend(root, (worlds + [w1]) + [w2], (events + [StartUp(p, o, false, Saved)]) + [CallIssuer(p, input)], Crash(p));
    worlds' := ((worlds + [w1]) + [w2]) + [Apply(root, w2, Crash(p))];
    events' := ((events + [StartUp(p, o, false, Saved)]) + [CallIssuer(p, input)]) + [Crash(p)];
  }

  // ----- a key granted again

  const L := Named('l')
  const M := Named('m')
  const N := Named('n')

  lemma {:induction false} NamesDiffer()
    ensures KeyID(K) != KeyID(L) && KeyID(K) != KeyID(M) && KeyID(L) != KeyID(M)
    ensures KeyID(N) != KeyID(K) && KeyID(N) != KeyID(L) && KeyID(N) != KeyID(M)
  {
    assert KeyID(K)[0] == 'k' && KeyID(L)[0] == 'l' && KeyID(M)[0] == 'm' && KeyID(N)[0] == 'n';
  }

  /** `FIRST` grants everything to K; then K retires after version 1 and L takes over; then K
      is granted again, with the next epoch, for version 3; then N takes over. */
  const SECOND_GRANTS := [Grant(K, 1, 1, 1), Grant(L, 2, 2, 0)]
  const THIRD := [Grant(M, 1, 1, 1), Grant(L, 2, 2, 2), Grant(K, 3, 3, 0)]
  const FOURTH := [Grant(M, 1, 1, 1), Grant(L, 2, 2, 2), Grant(K, 3, 3, 3), Grant(N, 4, 4, 0)]

  lemma {:induction false} GrantsChain()
    ensures GrantChain(FIRST) && GrantChain(SECOND_GRANTS) && GrantChain(THIRD) && GrantChain(FOURTH)
  {
    NamesDiffer();
  }

  function OptionsWith(key: PublicKey, version: U64, gs: seq<KeyGrant>): Options {
    Options(15 * MINUTE, 30 * SECOND, Holder(key), RootKey(ROOT), PolicyWith(version, gs))
  }

  lemma {:induction false} GrantsFound()
    ensures KeyPolicyGrant(PolicyWith(1, FIRST), KeyID(K), 1) == Ok(FIRST[0])
    ensures KeyPolicyGrant(PolicyWith(2, SECOND_GRANTS), KeyID(L), 2) == Ok(SECOND_GRANTS[1])
    ensures KeyPolicyGrant(PolicyWith(3, THIRD), KeyID(K), 3) == Ok(THIRD[2])
    ensures KeyPolicyGrant(PolicyWith(4, FOURTH), KeyID(N), 4) == Ok(FOURTH[3])
  {
    NamesDiffer();
    SkipGrant(SECOND_GRANTS[0], [SECOND_GRANTS[1]], KeyID(L), 2);
    assert SECOND_GRANTS == [SECOND_GRANTS[0]] + [SECOND_GRANTS[1]];
    SkipGrant(THIRD[0], [THIRD[1], THIRD[2]], KeyID(K), 3);
    SkipGrant(THIRD[1], [THIRD[2]], KeyID(K), 3);
    assert THIRD == [THIRD[0]] + [THIRD[1], THIRD[2]] && [THIRD[1], THIRD[2]] == [THIRD[1]] + [THIRD[2]];
    LastGrantFound();
  }

  lemma {:induction false} LastGrantFound()
    ensures KeyPolicyGrant(PolicyWith(4, FOURTH), KeyID(N), 4) == Ok(FOURTH[3])
  {
    NamesDiffer();
    var a, b, c, d := FOURTH[0], FOURTH[1], FOURTH[2], FOURTH[3];
    SkipGrant(a, [b, c, d], KeyID(N), 4);
    SkipGrant(b, [c, d], KeyID(N), 4);
    SkipGrant(c, [d], KeyID(N), 4);
    assert FOURTH == [a] + [b, c, d] && [b, c, d] == [b] + [c, d] && [c, d] == [c] + [d];
  }

  lemma {:induction false} SkipGrant(g: KeyGrant, rest: seq<KeyGrant>, keyId: string, version: U64)
    requires g.keyId != keyId
    ensures GrantIn([g] + rest, keyId, version) == GrantIn(rest, keyId, version)
  {
    assert ([g] + rest)[1..] == rest;
  }

  function InputAt(clock: Time): Input {
    Input(clock, Ok(SAMPLE), 1000, Saved)
  }

  lemma {:induction false} SetUp(key: PublicKey, version: U64, gs: seq<KeyGrant>)
    requires version > 0 && GrantChain(gs)
    ensures GoodOptions(OptionsWith(key, version, gs))
  {
    hide GrantChain, ValidateKeyPolicy;
    PolicyIsValid(version, gs);
  }

  /** A state of the sample history: who signed it, under which epoch and policy. */
  predicate Written(s: State, key: PublicKey, epoch: U64, policyVersion: U64, version: U64, at: Time) {
    && s.keyId == KeyID(key) && s.keyEpoch == epoch && s.policyVersion == policyVersion && s.lastVersion == version
    && s.lastIssuedAt == at && s.catalogRevision == 1 && s.catalogDigest == DigestOf(CanonicalCatalog(SAMPLE))
  }

  lemma {:induction false} SampleSigns(m: Memory, clock: Time)
    requires m.options.privateKey.wellSized && m.options.privateKey.derived == m.options.privateKey.public
    requires m.options.ttl == 15 * MINUTE && m.state.lastVersion < MAX_U64
    requires KeyPolicyGrant(m.options.policy, m.keyId, m.state.lastVersion + 1).Ok?
    requires m.state.lastVersion > 0 ==>
               m.state.lastIssuedAt <= clock && m.state.catalogRevision == 1
               && m.state.catalogDigest == DigestOf(CanonicalCatalog(SAMPLE))
    requires 0 < clock < 100 * HOUR
    ensures CanSign(m, clock, InputAt(clock))
  {
    hide ValidContents, KeyPolicyGrant, CanonicalCatalog;
    SampleIsValid();
  }

  const T1: Time := HOUR
  const T2: Time := 2 * HOUR
  const T3: Time := 3 * HOUR
  const T4: Time := 4 * HOUR

  lemma {:induction false} FirstRound() returns (worlds: seq<World>, events: seq<Event>)
    ensures IsRun(RootKey(ROOT), worlds, events) && AllGoesWell(worlds, events)
    ensures var w := worlds[|events|];
            && w.holder.None? && w.procs == map[] && w.clients == map[] && |w.log| == 1
            && w.disk.visible == Some(w.log[0].state) && Written(w.log[0].state, K, 1, 1, 1, T1)
  {
    hide GoodOptions, CanSign, KeyPolicyGrant, GrantChain, Apply, Describes, ValidateKeyPolicy;
    var o := OptionsWith(K, 1, FIRST);
    var w := World(Disk(None, None), None, map[], [], map[]);
    assert IsRun(RootKey(ROOT), [w], []);
    GrantsChain();
    SetUp(K, 1, FIRST);
    GrantsFound();
    SampleSigns(NewMemory(o, 1, None), T1);
    worlds, events := Round(RootKey(ROOT), [w], [], 0, o, InputAt(T1));
  }

  lemma {:induction false} NextRound(worlds: seq<World>, events: seq<Event>, last: State, key: PublicKey, epoch: U64,
                                     policyVersion: U64, gs: seq<KeyGrant>, at: Time)
    returns (worlds': seq<World>, events': seq<Event>)
    requires IsRun(RootKey(ROOT), worlds, events) && AllGoesWell(worlds, events)
    requires var w := worlds[|events|]; w.holder.None? && w.procs == map[] && w.disk.visible == Some(last)
    requires GrantChain(gs) && 0 < last.lastVersion < MAX_U64 && 0 < last.policyVersion < policyVersion
    requires last.catalogRevision == 1 && last.catalogDigest == DigestOf(CanonicalCatalog(SAMPLE))
    requires last.lastIssuedAt <= at && 0 < at < 100 * HOUR && at % SECOND == 0
    requires KeyID(key) != last.keyId && last.keyEpoch < epoch
    requires KeyPolicyGrant(PolicyWith(policyVersion, gs), KeyID(key), last.lastVersion + 1).Ok?
    requires KeyPolicyGrant(PolicyWith(policyVersion, gs), KeyID(key), last.lastVersion + 1).value.epoch == epoch
    ensures IsRun(RootKey(ROOT), worlds', events') && AllGoesWell(worlds', events')
    ensures var w, w' := worlds[|events|], worlds'[|events'|];
            && w'.holder.None? && w'.procs == map[] && w'.clients == w.clients
            && |w'.log| == |w.log| + 1 && w'.log[..|w.log|] == w.log
            && w'.disk.visible == Some(w'.log[|w.log|].state)
            && Written(w'.log[|w.log|].state, key, epoch, policyVersion, last.lastVersion + 1, at)
  {
    hide GoodOptions, CanSign, KeyPolicyGrant, GrantChain, Apply, Describes, ValidateKeyPolicy;
    var o := OptionsWith(key, policyVersion, gs);
    SetUp(key, policyVersion, gs);
    SampleSigns(NewMemory(o, epoch, Some(last)), at);
    worlds', events' := Round(RootKey(ROOT), worlds, events, 0, o, InputAt(at));
  }

  /** A new client takes up the first published envelope. */
  lemma {:induction false} FirstClient(
    worlds: seq<World>, events: seq<Event>)
    returns (worlds': seq<World>, events': seq<Event>)
    requires IsRun(RootKey(ROOT), worlds, events) && AllGoesWell(worlds, events)
    requires var w := worlds[|events|]; w.clients == map[] && |w.log| == 1 && w.log[0].state.lastIssuedAt == T1
    ensures IsRun(RootKey(ROOT), worlds', events') && AllGoesWell(worlds', events')
    ensures var w, w' := worlds[|events|], worlds'[|events'|];
            && Authenticate(w.log[0].envelope, RootKey(ROOT)).Ok?
            && w' == w.(clients := map[0 := Authenticate(w.log[0].envelope, RootKey(ROOT)).value.1])
  {
    hide Authenticate, Unforged, ProcsOk, DiskOk;
    var root, w := RootKey(ROOT), worlds[|events|];
    RunKeepsInv(root, worlds, events, |events|);
    assert EntryOk(root, w.log, 0);
    var e := w.log[0].envelope;
    assert Unforged(root, w.log, e) by { PublishedIsUnforged(root, w.log, 0); }
    CandidateRecordsPayload(e, root);
    CandidateLifetime(e, root);
    VerifyDecision(e, root, T1, EMPTY_STATE);
    Extend(root, worlds, events, Deliver(0, e, T1));
    worlds', events' := worlds + [Apply(root, w, Deliver(0, e, T1))], events + [Deliver(0, e, T1)];
  }

  lemma {:induction false} PublishedIsUnforged(root: RootBytes, log: seq<Publication>, i: nat)
    requires i < |log|
    ensures Unforged(root, log, log[i].envelope)
  {
    hide ValidateKeyPolicy;
    assert log[i] in log;
  }

  lemma {:induction false} CandidateLifetime(e: Envelope, root: RootBytes)
    requires Authenticate(e, root).Ok?
    ensures Authenticate(e, root).value.0.issuedAt < Authenticate(e, root).value.0.expiresAt
  {
    hide ValidContents, GrantChain, GrantIn;
  }

  /** Completeness fails without the condition on epochs: there is a run in which the root
      grants a retired key again with a higher epoch, every issuer that starts gets the lock,
      every call publishes and nothing crashes half way. A client that holds the first
      envelope and missed the second refuses the third at every instant of its window, which
      a new client accepts; the fourth, signed by another key, it accepts again. */
  lemma {:induction false} RegrantedKeyStrandsClients() returns (worlds: seq<World>, events: seq<Event>)
    ensures IsRun(RootKey(ROOT), worlds, events) && AllGoesWell(worlds, events)
    ensures var w, root := worlds[|events|], RootKey(ROOT);
            && |w.log| == 4
            && (forall i | 0 <= i < 4 :: Authenticate(w.log[i].envelope, root).Ok?)
            && ClientState(w, 0) == TrustedAt(root, w.log, 0) && ClientState(w, 1) == EMPTY_STATE
            && (forall clock | InWindow(Authenticate(w.log[2].envelope, root).value.0, clock) ::
                  && Verify(w.log[2].envelope, root, clock, ClientState(w, 0)).document.Err?
                  && Verify(w.log[2].envelope, root, clock, ClientState(w, 1)).document.Ok?)
            && (forall clock | InWindow(Authenticate(w.log[3].envelope, root).value.0, clock) ::
                  Verify(w.log[3].envelope, root, clock, ClientState(w, 0)).document.Ok?)
  {
    hide KeyPolicyGrant, GrantChain, Authenticate, Verify, Apply, Allowed, Unforged, AllGoesWell;
    GrantsChain();
    GrantsFound();
    NamesDiffer();
    var ws, es := FirstRound();
    var first := ws[|es|].log[0];
    ws, es := FirstClient(ws, es);
    ws, es := NextRound(ws, es, first.state, L, 2, 2, SECOND_GRANTS, T2);
    var second := ws[|es|].log[1];
    ws, es := NextRound(ws, es, second.state, K, 3, 3, THIRD, T3);
    var third := ws[|es|].log[2];
    ws, es := NextRound(ws, es, third.state, N, 4, 4, FOURTH, T4);
    worlds, events := ws, es;
    StrandedAt(worlds, events);
  }

  lemma {:induction false} StrandedAt(worlds: seq<World>, events: seq<Event>)
    requires IsRun(RootKey(ROOT), worlds, events)
    requires var w := worlds[|events|];
             && |w.log| == 4 && w.log[0].state.keyId == w.log[2].state.keyId != w.log[3].state.keyId
             && w.log[0].state.keyEpoch != w.log[2].state.keyEpoch
             && Authenticate(w.log[0].envelope, RootKey(ROOT)).Ok?
             && ClientState(w, 0) == TrustedAt(RootKey(ROOT), w.log, 0) && ClientState(w, 1) == EMPTY_STATE
    ensures var w, root := worlds[|events|], RootKey(ROOT);
            && (forall i | 0 <= i < 4 :: Authenticate(w.log[i].envelope, root).Ok?)
            && (forall clock | InWindow(Authenticate(w.log[2].envelope, root).value.0, clock) ::
                  && Verify(w.log[2].envelope, root, clock, ClientState(w, 0)).document.Err?
                  && Verify(w.log[2].envelope, root, clock, ClientState(w, 1)).document.Ok?)
            && (forall clock | InWindow(Authenticate(w.log[3].envelope, root).value.0, clock) ::
                  Verify(w.log[3].envelope, root, clock, ClientState(w, 0)).document.Ok?)
  {
    hide Authenticate, Verify, ProcsOk, ClientsOk, DiskOk;
    var n, w, root := |events|, worlds[|events|], RootKey(ROOT);
    RunKeepsInv(root, worlds, events, n);
    assert EntryOk(root, w.log, 0) && EntryOk(root, w.log, 1) && EntryOk(root, w.log, 2) && EntryOk(root, w.log, 3);
    assert InOrder(w.log, 0, 2) && InOrder(w.log, 0, 3);
    CandidateIsSelfConsistent(w.log[2].envelope, root);
    forall clock | InWindow(Authenticate(w.log[2].envelope, root).value.0, clock)
      ensures Verify(w.log[2].envelope, root, clock, ClientState(w, 0)).document.Err?
      ensures Verify(w.log[2].envelope, root, clock, ClientState(w, 1)).document.Ok?
    {
      SkippingClientAccepts(root, worlds, events, n, 0, 2, clock);
      SkippingClientAccepts(root, worlds, events, n, 1, 2, clock);
    }
    forall clock | InWindow(Authenticate(w.log[3].envelope, root).value.0, clock)
      ensures Verify(w.log[3].envelope, root, clock, ClientState(w, 0)).document.Ok?
    {
      SkippingClientAccepts(root, worlds, events, n, 0, 3, clock);
    }
  }
}
