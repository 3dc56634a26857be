/** The issuer: internal/service/issuer.go. Each operation is given twice, as a function
    from one memory to the next and as a method of a class that computes it in place. */
module Issuers {
  import opened Basics
  import opened KeyPolicies
  import opened Catalogs
  import opened Manifests
  import opened Issuance

  datatype Options = Options(
    ttl: int,
    cacheFor: int,
    privateKey: PrivateKey,
    root: RootBytes,
    policy: KeyPolicy)

  /** The fields of a running issuer. */
  datatype Memory = Memory(
    options: Options,
    keyId: string,
    keyEpoch: U64,
    policyDigest: Digest<KeyPolicy>,
    state: State,
    cached: Option<Envelope>,
    cacheUntil: Time,
    validUntil: Time,
    retryAt: Time,
    lastError: Option<string>,
    closed: bool)

  const RETRY_DELAY: int := 5 * SECOND

  // ----- starting

  predicate GoodOptions(o: Options) {
    && o.privateKey.wellSized
    && ValidateKeyPolicy(o.policy, o.root).Ok?
    && MINUTE <= o.ttl <= HOUR
    && SECOND <= o.cacheFor <= o.ttl / 2
  }

  /** Binding a state from before key policies existed to the policy at hand. */
  function Migrated(o: Options, s: State): Result<State> {
    var grant := KeyPolicyGrant(o.policy, s.keyId, s.lastVersion);
    var digest := ValidateKeyPolicy(o.policy, o.root);
    if grant.Err? || digest.Err? then Err("legacy state key is not authorized by the offline-root policy")
    else Ok(s.(keyEpoch := grant.value.epoch, policyVersion := o.policy.version, policyDigest := digest.value))
  }

  /** The checks a policy must pass against an existing durable state. */
  function PolicyContinues(o: Options, s: State): Result<()> {
    if o.policy.version < s.policyVersion then Err("key policy is older than durable policy")
    else if o.policy.version == s.policyVersion && ValidateKeyPolicy(o.policy, o.root) != Ok(s.policyDigest) then
      Err("key policy changed without increasing its version")
    else if o.policy.version == s.policyVersion
            && (var g := KeyPolicyGrant(o.policy, s.keyId, s.lastVersion); g.Err? || g.value.epoch != s.keyEpoch) then
      Err("durable signing state is inconsistent with the key policy")
    else Ok(())
  }

  /** The checks between loading the durable state and running: the epoch the issuer will
      sign under. */
  function CheckState(o: Options, stored: Option<State>): Result<U64> {
    var keyId := KeyID(o.privateKey.public);
    if stored.None? then
      var grant := KeyPolicyGrant(o.policy, keyId, 1);
      if grant.Err? then Err("current signing key is not authorized for the next version") else Ok(grant.value.epoch)
    else
      var s := stored.value;
      if s.lastVersion == MAX_U64 then Err("manifest version space exhausted")
      else if PolicyContinues(o, s).Err? then Err(PolicyContinues(o, s).reason)
      else
        var grant := KeyPolicyGrant(o.policy, keyId, s.lastVersion + 1);
        if grant.Err? then Err("current signing key is not authorized for the next version")
        else if keyId == s.keyId && grant.value.epoch != s.keyEpoch then
          Err("signing key epoch changed without changing the key")
        else if keyId != s.keyId && grant.value.epoch <= s.keyEpoch then
          Err("replacement signing key does not advance the durable epoch")
        else Ok(grant.value.epoch)
  }

  function NewMemory(o: Options, epoch: U64, stored: Option<State>): Memory {
    var digest := ValidateKeyPolicy(o.policy, o.root);
    Memory(o, KeyID(o.privateKey.public), epoch, if digest.Ok? then digest.value else NoDigest,
           if stored.Some? then stored.value else NO_STATE, None, 0, 0, 0, None, false)
  }

  datatype StartResult = StartResult(memory: Result<Memory>, disk: Disk)

  /** Everything `NewIssuer` does once it has the lock. */
  function Start(o: Options, disk: Disk, readFails: bool, save: SaveOutcome): StartResult {
    var loaded := Loaded(disk, readFails);
    if !GoodOptions(o) then StartResult(Err("invalid options"), disk)
    else if loaded.Err? then StartResult(Err(loaded.reason), disk)
    else if loaded.value.Some? && loaded.value.value.policyVersion == 0 then
      var migrated := Migrated(o, loaded.value.value);
      if migrated.Err? then StartResult(Err(migrated.reason), disk)
      else
        var disk' := SavedDisk(disk, migrated.value, save);
        if !SaveSucceeds(migrated.value, save) then StartResult(Err("migrate legacy state"), disk')
        else StartResult(Launch(o, Some(migrated.value)), disk')
    else StartResult(Launch(o, loaded.value), disk)
  }

  function Launch(o: Options, stored: Option<State>): Result<Memory> {
    var epoch := CheckState(o, stored);
    if epoch.Err? then Err(epoch.reason) else Ok(NewMemory(o, epoch.value, stored))
  }

  /** What a stored state demands of a policy and a key: the policy is not older, and if it has
      the version of the state it is that policy and grants the state's last version to the
      state's key under the state's epoch; a version is left, and granted to the key, under
      the same epoch for the same key and a higher one for another. */
  predicate Continuable(o: Options, s: State) {
    && s.lastVersion < 18_446_744_073_709_551_615
    && s.policyVersion <= o.policy.version
    && (s.policyVersion == o.policy.version ==>
          && ValidateKeyPolicy(o.policy, o.root) == Ok(s.policyDigest)
          && var g := KeyPolicyGrant(o.policy, s.keyId, s.lastVersion);
          && g.Ok? && g.value.epoch == s.keyEpoch)
    && var g := KeyPolicyGrant(o.policy, o.privateKey.public.id, s.lastVersion + 1);
    && g.Ok?
    && if o.privateKey.public.id == s.keyId then g.value.epoch == s.keyEpoch else g.value.epoch > s.keyEpoch
  }

  /** A state from before key policies, bound to the policy at hand. */
  predicate BoundTo(o: Options, s: State, s': State) {
    && var g := KeyPolicyGrant(o.policy, s.keyId, s.lastVersion);
    && g.Ok? && s'.keyEpoch == g.value.epoch
    && s'.policyVersion == o.policy.version && ValidateKeyPolicy(o.policy, o.root) == Ok(s'.policyDigest)
    && s'.keyId == s.keyId && s'.lastVersion == s.lastVersion && s'.lastIssuedAt == s.lastIssuedAt
    && s'.catalogRevision == s.catalogRevision && s'.catalogDigest == s.catalogDigest
  }

  /** The options an issuer accepts. */
  predicate AcceptedOptions(o: Options) {
    && o.privateKey.wellSized && ValidateKeyPolicy(o.policy, o.root).Ok?
    && 60_000_000_000 <= o.ttl <= 3_600_000_000_000 && 1_000_000_000 <= o.cacheFor <= o.ttl / 2
  }

  lemma {:induction false} CheckMeaning(o: Options, s: State)
    ensures CheckState(o, Some(s)).Ok? <==> Continuable(o, s)
  {
    hide ValidateKeyPolicy, GrantIn;
  }

  /** Without a stored state, an issuer starts if and only if its options are accepted and its
      key is granted version 1. */
  lemma {:induction false} FirstStartMeaning(o: Options, disk: Disk, readFails: bool, save: SaveOutcome)
    requires disk.visible.None?
    ensures var r := Start(o, disk, readFails, save);
            && r.disk == disk
            && (r.memory.Ok? <==>
                  AcceptedOptions(o) && !readFails && KeyPolicyGrant(o.policy, o.privateKey.public.id, 1).Ok?)
            && (r.memory.Ok? ==> r.memory.value.state.lastVersion == 0)
  {
    hide ValidateKeyPolicy, GrantIn;
  }

  /** On a stored state, if and only if the state can be read and continued, and then with that
      state; an invalid one is refused and left alone. */
  lemma {:induction false} StoredStartMeaning(o: Options, disk: Disk, readFails: bool, save: SaveOutcome)
    requires disk.visible.Some? && (Storable(disk.visible.value) || !Readable(disk.visible.value))
    ensures var r, s := Start(o, disk, readFails, save), disk.visible.value;
            && r.disk == disk
            && (r.memory.Ok? <==> AcceptedOptions(o) && !readFails && Storable(s) && Continuable(o, s))
            && (r.memory.Ok? ==> r.memory.value.state == s)
  {
    hide ValidateKeyPolicy, KeyPolicyGrant, CheckState, Continuable;
    StateMeaning(disk.visible.value);
    CheckMeaning(o, disk.visible.value);
  }

  lemma {:induction false} MigratedMeaning(o: Options, s: State, s': State)
    requires ValidateKeyPolicy(o.policy, o.root).Ok?
    ensures Migrated(o, s) == Ok(s') <==> BoundTo(o, s, s')
    ensures Migrated(o, s).Ok? <==> KeyPolicyGrant(o.policy, s.keyId, s.lastVersion).Ok?
  {
    hide ValidateKeyPolicy, KeyPolicyGrant;
  }

  /** On a state from before key policies, if and only if the policy grants its last version to
      its key, the bound state is saved, and it can be continued. */
  lemma {:induction false} OldStartMeaning(o: Options, disk: Disk, readFails: bool, save: SaveOutcome, s': State)
    requires disk.visible.Some? && Readable(disk.visible.value) && !Storable(disk.visible.value)
    requires BoundTo(o, disk.visible.value, s')
    ensures var r := Start(o, disk, readFails, save);
            && (r.memory.Ok? <==>
                  AcceptedOptions(o) && !readFails && save.Saved? && Storable(s') && Continuable(o, s'))
            && (r.memory.Ok? ==> r.memory.value.state == s' && r.disk == Disk(Some(s'), Some(s')))
            && (r.disk != disk ==> AcceptedOptions(o) && !readFails && r.disk.visible == Some(s'))
  {
    hide ValidateKeyPolicy, KeyPolicyGrant, CheckState, Continuable, Migrated;
    StateMeaning(disk.visible.value);
    StateMeaning(s');
    CheckMeaning(o, s');
    if ValidateKeyPolicy(o.policy, o.root).Ok? { MigratedMeaning(o, disk.visible.value, s'); }
  }

  /** And if it does not grant that, the issuer does not start and the state is left alone. */
  lemma {:induction false} OldStartRefusalMeaning(o: Options, disk: Disk, readFails: bool, save: SaveOutcome)
    requires disk.visible.Some? && Readable(disk.visible.value) && !Storable(disk.visible.value)
    requires KeyPolicyGrant(o.policy, disk.visible.value.keyId, disk.visible.value.lastVersion).Err?
    ensures Start(o, disk, readFails, save).memory.Err? && Start(o, disk, readFails, save).disk == disk
  {
    hide ValidateKeyPolicy, KeyPolicyGrant, CheckState;
    StateMeaning(disk.visible.value);
  }

  // ----- issuing

  /** What the world contributes to one call: the clock, the catalog file, the length of
      the encoded document, and how saving ends. */
  datatype Input = Input(clock: Time, catalog: Result<Catalog>, size: Pos, save: SaveOutcome)

  datatype Reply = Reply(result: Result<Envelope>, memory: Memory, disk: Disk)

  /** The state `refresh` saves before publishing. */
  function NextState(m: Memory, catalog: Catalog, digest: Digest<Catalog>, now: Time): State
    requires m.state.lastVersion < MAX_U64
  {
    State(m.keyId, m.keyEpoch, m.options.policy.version, m.policyDigest,
          m.state.lastVersion + 1, catalog.revision, digest, now)
  }

  /** `refresh` up to and including the signature: the envelope and the state to save. */
  function Prepare(m: Memory, now: Time, input: Input): Result<(Envelope, State)> {
    if input.catalog.Err? then Err("load manifest catalog")
    else
      var catalog := input.catalog.value;
      var digest := CatalogDigest(catalog);
      if digest.Err? then Err("validate manifest catalog")
      else if m.state.lastVersion > 0 && catalog.revision < m.state.catalogRevision then
        Err("catalog revision is older than durable revision")
      else if m.state.lastVersion > 0 && catalog.revision == m.state.catalogRevision
              && digest.value != m.state.catalogDigest then
        Err("catalog changed without increasing its revision")
      else if m.state.lastVersion > 0 && now < m.state.lastIssuedAt then
        Err("system clock moved behind the last issuance time")
      else if m.state.lastVersion == MAX_U64 then Err("manifest version space exhausted")
      else
        var envelope := Issue(catalog, m.state.lastVersion + 1, m.options.policy, m.options.root, now,
                              m.options.ttl, m.options.privateKey, input.size);
        if envelope.Err? then Err("sign manifest")
        else Ok((envelope.value, NextState(m, catalog, digest.value, now)))
  }

  function Refresh(m: Memory, disk: Disk, now: Time, input: Input): Reply {
    var prepared := Prepare(m, now, input);
    if prepared.Err? then Reply(Err(prepared.reason), m, disk)
    else
      var (envelope, next) := prepared.value;
      var disk' := SavedDisk(disk, next, input.save);
      if !SaveSucceeds(next, input.save) then Reply(Err("persist monotonic state before publish"), m, disk')
      else Reply(Ok(envelope), m.(state := next), disk')
  }

  /** Whether a call at the whole second `now` reaches `refresh`. */
  predicate Refreshes(m: Memory, now: Time) {
    && !m.closed
    && !(m.state.lastVersion > 0 && now < m.state.lastIssuedAt)
    && !(m.cached.Some? && now < m.cacheUntil)
    && !(m.lastError.Some? && now < m.retryAt)
  }

  function AfterRefresh(r: Reply, now: Time): Reply {
    var m := r.memory;
    if r.result.Err? then
      var retryAt := now + Min(RETRY_DELAY, m.options.cacheFor);
      var failed := m.(lastError := Some(r.result.reason), retryAt := retryAt);
      if m.cached.Some? && now < m.validUntil then
        Reply(Ok(m.cached.value), failed.(cacheUntil := Min(retryAt, m.validUntil)), r.disk)
      else Reply(r.result, failed, r.disk)
    else
      Reply(r.result,
            m.(lastError := None, retryAt := 0, cached := Some(r.result.value),
               cacheUntil := now + m.options.cacheFor, validUntil := now + m.options.ttl),
            r.disk)
  }

  /** One call of `(*Issuer).Issue`. */
  function Call(m: Memory, disk: Disk, input: Input): Reply {
    var now := TruncateToSecond(input.clock);
    if m.closed then Reply(Err("closed"), m, disk)
    else if m.state.lastVersion > 0 && now < m.state.lastIssuedAt then
      Reply(Err("system clock moved behind the last issuance time"), m, disk)
    else if m.cached.Some? && now < m.cacheUntil then Reply(Ok(m.cached.value), m, disk)
    else if m.lastError.Some? && now < m.retryAt then
      Reply(if m.cached.Some? && now < m.validUntil then Ok(m.cached.value) else Err(m.lastError.value), m, disk)
    else AfterRefresh(Refresh(m, disk, now, input), now)
  }

  /** A call that refreshed and succeeded, and so published a new envelope. */
  predicate Publishes(m: Memory, disk: Disk, input: Input) {
    Refreshes(m, TruncateToSecond(input.clock)) && Refresh(m, disk, TruncateToSecond(input.clock), input).result.Ok?
  }

  // ----- what a signature says

  /** The next version after `s`; nothing has gone back, and an unchanged revision means an
      unchanged catalog. */
  predicate Successor(s: State, next: State) {
    && next.lastVersion == s.lastVersion + 1
    && (s.lastVersion > 0 ==>
          && s.catalogRevision <= next.catalogRevision
          && (s.catalogRevision == next.catalogRevision ==> s.catalogDigest == next.catalogDigest)
          && s.lastIssuedAt <= next.lastIssuedAt)
  }

  /** The envelope authenticates as this version of this catalog, issued at `now` for `ttl`. */
  predicate Carries(e: Envelope, root: RootBytes, version: U64, now: Time, ttl: int, catalog: Catalog) {
    && Authenticate(e, root).Ok?
    && var d := Authenticate(e, root).value.0;
    && d.version == version
    && d.issuedAt == TruncateToSecond(now) && d.expiresAt == d.issuedAt + ttl
    && SameContents(catalog, Catalog(d.catalogRevision, d.discovery, d.nodes))
  }

  lemma {:induction false} IssuedCarries(catalog: Catalog, version: U64, policy: KeyPolicy, root: RootBytes,
                                         now: Time, ttl: int, key: PrivateKey, size: Pos)
    requires Issue(catalog, version, policy, root, now, ttl, key, size).Ok?
    ensures Carries(Issue(catalog, version, policy, root, now, ttl, key, size).value, root, version, now, ttl, catalog)
  {
    hide Issue, Authenticate, SameContents, ValidateKeyPolicy;
    IssuedEnvelopeAuthenticates(catalog, version, policy, root, now, ttl, key, size);
    CanonicalKeepsContents(catalog);
  }

  // ----- the same operations in place

  class Issuer {
    const options: Options
    const keyId: string
    const policyDigest: Digest<KeyPolicy>
    const keyEpoch: U64
    const store: FileStore
    const processLock: ProcessLock
    var state: State
    var cached: Option<Envelope>
    var cacheUntil: Time
    var validUntil: Time
    var retryAt: Time
    var lastError: Option<string>
    var closed: bool

    ghost function View(): Memory
      reads this
    {
      Memory(options, keyId, keyEpoch, policyDigest, state, cached, cacheUntil, validUntil, retryAt, lastError, closed)
    }

    /** An issuer that is not closed has its lock. */
    ghost predicate Valid()
      reads this, processLock, processLock.file
    {
      processLock.Valid() && (!closed ==> processLock.file != null)
    }

    constructor (o: Options, epoch: U64, stored: Option<State>, store: FileStore, lock: ProcessLock)
      requires lock.Valid() && lock.file != null
      ensures Valid() && View() == NewMemory(o, epoch, stored)
      ensures this.store == store && this.processLock == lock
    {
      options, this.store, processLock := o, store, lock;
      keyId, keyEpoch := KeyID(o.privateKey.public), epoch;
      var digest := ValidateKeyPolicy(o.policy, o.root);
      policyDigest := if digest.Ok? then digest.value else NoDigest;
      state := if stored.Some? then stored.value else NO_STATE;
      cached, cacheUntil, validUntil, retryAt, lastError, closed := None, 0, 0, 0, None, false;
    }

    /** The checks and the signature of `refresh`; nothing is written yet. What is signed
        authenticates under the pinned root as the next version of the catalog just loaded,
        and neither revision nor time has gone back. */
    method SignNext(now: Time, input: Input) returns (r: Result<(Envelope, State)>)
      ensures r == Prepare(View(), now, input)
      ensures r.Ok? ==>
                && input.catalog.Ok?
                && var (e, next) := r.value;
                && Successor(state, next) && next.lastIssuedAt == now
                && Carries(e, options.root, next.lastVersion, now, options.ttl, input.catalog.value)
                && next.catalogRevision == input.catalog.value.revision
                && CatalogDigest(input.catalog.value) == Ok(next.catalogDigest)
    {
      hide Issue, CatalogDigest, Verify, Carries;
      if input.catalog.Err? { return Err("load manifest catalog"); }
      var catalog := input.catalog.value;
      var digest := ComputeDigest(catalog);
      if digest.Err? { return Err("validate manifest catalog"); }
      if state.lastVersion > 0 {
        if catalog.revision < state.catalogRevision { return Err("catalog revision is older than durable revision"); }
        if catalog.revision == state.catalogRevision && digest.value != state.catalogDigest {
          return Err("catalog changed without increasing its revision");
        }
        if now < state.lastIssuedAt { return Err("system clock moved behind the last issuance time"); }
        if state.lastVersion == MAX_U64 { return Err("manifest version space exhausted"); }
      }
      var nextVersion := state.lastVersion + 1;
      var envelope := IssueManifest(catalog, nextVersion, options.policy, options.root, now,
                                    options.ttl, options.privateKey, input.size);
      if envelope.Err? { return Err("sign manifest"); }
      IssuedCarries(catalog, nextVersion, options.policy, options.root, now,
                    options.ttl, options.privateKey, input.size);
      return Ok((envelope.value, State(keyId, keyEpoch, options.policy.version, policyDigest,
                                       nextVersion, catalog.revision, digest.value, now)));
    }

    /** The new state is durable before the envelope is handed out. */
    method RefreshState(now: Time, input: Input) returns (r: Result<Envelope>)
      requires Valid()
      modifies this, store
      ensures Valid() && closed == old(closed)
      ensures Reply(r, View(), store.disk) == Refresh(old(View()), old(store.disk), now, input)
      ensures r.Ok? ==> store.disk.synced == Some(state)
    {
      var signed := SignNext(now, input);
      if signed.Err? { return Err(signed.reason); }
      var (envelope, nextState) := signed.value;
      var saved := store.Save(nextState, input.save);
      if !saved { return Err("persist monotonic state before publish"); }
      state := nextState;
      return Ok(envelope);
    }

    method IssueEnvelope(input: Input) returns (r: Result<Envelope>)
      requires Valid()
      modifies this, store
      ensures Valid() && closed == old(closed)
      ensures Reply(r, View(), store.disk) == Call(old(View()), old(store.disk), input)
      ensures old(closed) ==> r.Err? && View() == old(View()) && store.disk == old(store.disk)
    {
      hide Refresh;
      if closed { return Err("closed"); }
      var now := TruncateToSecond(input.clock);
      if state.lastVersion > 0 && now < state.lastIssuedAt {
        return Err("system clock moved behind the last issuance time");
      }
      if cached.Some? && now < cacheUntil { return Ok(cached.value); }
      if lastError.Some? && now < retryAt {
        if cached.Some? && now < validUntil { return Ok(cached.value); }
        return Err(lastError.value);
      }
      r := RefreshState(now, input);
      if r.Err? {
        lastError := Some(r.reason);
        retryAt := now + Min(RETRY_DELAY, options.cacheFor);
        if cached.Some? && now < validUntil {
          cacheUntil := Min(retryAt, validUntil);
          return Ok(cached.value);
        }
        return;
      }
      lastError := None;
      retryAt := 0;
      cached := Some(r.value);
      cacheUntil := now + options.cacheFor;
      validUntil := now + options.ttl;
    }

    /** Closing ends issuing for good and frees the lock, once. */
    method Close()
      requires Valid()
      modifies this`closed, processLock, processLock.file
      ensures Valid() && View() == old(View()).(closed := true)
      ensures !old(closed) ==> old(processLock.file).holder == null
      ensures old(closed) ==> unchanged(processLock) && (processLock.file != null ==> unchanged(processLock.file))
    {
      if closed { return; }
      closed := true;
      processLock.Close();
    }
  }

  /** `NewIssuer`. A second issuer on the same state path is refused and disturbs nothing;
      a start that fails later gives the lock back. */
  method NewIssuer(
    o: Options, store: FileStore, lockFile: LockFile, lockFails: bool, readFails: bool, save: SaveOutcome)
    returns (issuer: Issuer?)
    modifies store, lockFile
    ensures lockFails || old(lockFile.holder) != null ==>
              issuer == null && lockFile.holder == old(lockFile.holder) && store.disk == old(store.disk)
    ensures !lockFails && old(lockFile.holder) == null ==>
              var s := Start(o, old(store.disk), readFails, save);
              && store.disk == s.disk
              && (issuer != null <==> s.memory.Ok?)
              && (issuer == null ==> lockFile.holder == null)
              && (issuer != null ==>
                    && issuer.Valid() && !issuer.closed && issuer.store == store
                    && lockFile.holder == issuer.processLock && issuer.View() == s.memory.value)
    ensures issuer != null ==>
              && AcceptedOptions(o)
              && !readFails && (old(store.disk).visible.Some? ==> Readable(old(store.disk).visible.value))
  {
    hide ValidateKeyPolicy;
    if !o.privateKey.wellSized { return null; }
    var policyDigest := CheckKeyPolicy(o.policy, o.root);
    if policyDigest.Err? { return null; }
    if o.ttl < MINUTE || o.ttl > HOUR { return null; }
    if o.cacheFor < SECOND || o.cacheFor > o.ttl / 2 { return null; }
    var lock := AcquireProcessLock(lockFile, lockFails);
    if lock == null { return null; }
    var loaded := store.Load(readFails);
    if loaded.Err? { lock.Close(); return null; }
    var stored := loaded.value;
    if stored.Some? && stored.value.policyVersion == 0 {
      var migrated := Migrated(o, stored.value);
      if migrated.Err? { lock.Close(); return null; }
      stored := Some(migrated.value);
      var saved := store.Save(stored.value, save);
      if !saved { lock.Close(); return null; }
    }
    var epoch := CheckState(o, stored);
    if epoch.Err? { lock.Close(); return null; }
    issuer := new Issuer(o, epoch.value, stored, store, lock);
  }
}
