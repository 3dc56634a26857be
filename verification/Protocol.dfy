/** The whole signed-manifest protocol as a state machine: any number of issuer processes
    on one state path, the disk, the envelopes published, and the clients that receive
    them. Steps are the operations of the other modules; between any two of them a process
    may crash and the machine may lose power. */
module Protocol {
  import opened Basics
  import opened KeyPolicies
  import opened Catalogs
  import opened Manifests
  import opened Issuance
  import opened Issuers

  /** A published envelope with the state that was made durable for it. */
  datatype Publication = Publication(envelope: Envelope, state: State)

  datatype World = World(
    disk: Disk,
    holder: Option<nat>,
    procs: map<nat, Memory>,
    log: seq<Publication>,
    clients: map<nat, TrustedState>)

  datatype Event =
    | StartUp(proc: nat, options: Options, readFails: bool, save: SaveOutcome)
    | CallIssuer(proc: nat, input: Input)
    | CrashInCall(proc: nat, input: Input)
    | CloseIssuer(proc: nat)
    | Crash(proc: nat)
    | PowerLoss(keepsRename: bool)
    | Deliver(client: nat, envelope: Envelope, clock: Time)

  function ClientState(w: World, client: nat): TrustedState {
    if client in w.clients then w.clients[client] else EMPTY_STATE
  }

  function Release(w: World, proc: nat): Option<nat> {
    if w.holder == Some(proc) then None else w.holder
  }

  /** Before the first start: a disk without state, or with any valid one. */
  predicate Initial(w: World) {
    && w.disk.visible == w.disk.synced
    && (w.disk.visible.Some? ==> ValidState(w.disk.visible.value, true))
    && w.holder.None? && w.procs == map[] && w.log == [] && w.clients == map[]
  }

  /** Signatures under keys that a root-signed policy lists come only from published
      envelopes; whatever else is in an envelope is up to the network. */
  predicate Unforged(root: RootBytes, log: seq<Publication>, e: Envelope) {
    (&& e.payload.PayloadText? && e.payload.bytes.JsonOf?
     && e.signature.OnlineSignature? && e.signature.payload == e.payload.bytes
     && ValidateKeyPolicy(e.payload.bytes.document.keyPolicy, root).Ok?
     && (exists g | g in e.payload.bytes.document.keyPolicy.keys ::
           g.publicKey.EncodedKey? && g.publicKey.key == e.signature.signer))
    ==> exists p | p in log :: p.envelope.payload.PayloadText? && p.envelope.payload.bytes == e.payload.bytes
  }

  predicate Allowed(root: RootBytes, w: World, ev: Event) {
    match ev
    case StartUp(p, o, _, _) => p !in w.procs && o.root == root
    case CallIssuer(p, _) => p in w.procs
    case CrashInCall(p, _) => p in w.procs
    case CloseIssuer(p) => p in w.procs
    case Crash(p) => p in w.procs
    case PowerLoss(_) => true
    case Deliver(_, e, _) => Unforged(root, w.log, e)
  }

  function Published(m: Memory, disk: Disk, input: Input): seq<Publication> {
    if Publishes(m, disk, input)
    then [Publication(Call(m, disk, input).result.value, Call(m, disk, input).memory.state)]
    else []
  }

  function Apply(root: RootBytes, w: World, ev: Event): World
    requires Allowed(root, w, ev)
  {
    match ev
    case StartUp(p, o, readFails, save) =>
      if w.holder.Some? then w
      else
        var s := Start(o, w.disk, readFails, save);
        if s.memory.Ok? then w.(disk := s.disk, holder := Some(p), procs := w.procs[p := s.memory.value])
        else w.(disk := s.disk)
    case CallIssuer(p, input) =>
      var r := Call(w.procs[p], w.disk, input);
      w.(disk := r.disk, procs := w.procs[p := r.memory], log := w.log + Published(w.procs[p], w.disk, input))
    case CrashInCall(p, input) =>
      w.(disk := Call(w.procs[p], w.disk, input).disk, procs := w.procs - {p}, holder := Release(w, p))
    case CloseIssuer(p) =>
      w.(procs := w.procs[p := w.procs[p].(closed := true)], holder := Release(w, p))
    case Crash(p) => w.(procs := w.procs - {p}, holder := Release(w, p))
    case PowerLoss(keeps) =>
      var left := if keeps then w.disk.visible else w.disk.synced;
      w.(disk := Disk(left, left), procs := map[], holder := None)
    case Deliver(c, e, clock) =>
      w.(clients := w.clients[c := Verify(e, root, clock, ClientState(w, c)).trusted])
  }

  /** Event `i` leads from world `i` to the next. */
  predicate StepAt(root: RootBytes, worlds: seq<World>, events: seq<Event>, i: nat)
    requires i < |events| < |worlds|
  {
    Allowed(root, worlds[i], events[i]) && worlds[i+1] == Apply(root, worlds[i], events[i])
  }

  /** `worlds` is a run: it starts initially and every next world is one event away. */
  predicate IsRun(root: RootBytes, worlds: seq<World>, events: seq<Event>) {
    && |worlds| == |events| + 1
    && Initial(worlds[0])
    && forall i | 0 <= i < |events| :: StepAt(root, worlds, events, i)
  }

  // ----- what every step keeps

  /** `t` may be signed after `s` was: nothing goes back, equal revisions and policy versions
      mean equal contents, and the key changes only together with a higher epoch. */
  predicate Follows(s: State, t: State) {
    && s.lastVersion <= t.lastVersion
    && s.lastIssuedAt <= t.lastIssuedAt
    && s.catalogRevision <= t.catalogRevision
    && (s.catalogRevision == t.catalogRevision ==> s.catalogDigest == t.catalogDigest)
    && s.policyVersion <= t.policyVersion
    && (s.policyVersion == t.policyVersion ==> s.policyDigest == t.policyDigest)
    && ((s.keyId == t.keyId && s.keyEpoch == t.keyEpoch) || s.keyEpoch < t.keyEpoch)
  }

  /** The envelope authenticates as exactly what the state records. */
  predicate Describes(root: RootBytes, e: Envelope, s: State) {
    && Authenticate(e, root).Ok?
    && var (d, c) := Authenticate(e, root).value;
    && c.version == s.lastVersion && c.issuedAt == s.lastIssuedAt
    && c.policyVersion == s.policyVersion && c.policyDigest == s.policyDigest
    && c.signingKeyId == s.keyId && c.signingKeyEpoch == s.keyEpoch
    && d.catalogRevision == s.catalogRevision
    && s.catalogDigest == DigestOf(Catalog(d.catalogRevision, d.discovery, d.nodes))
  }

  predicate EntryOk(root: RootBytes, log: seq<Publication>, i: nat)
    requires i < |log|
  {
    Describes(root, log[i].envelope, log[i].state)
  }

  predicate InOrder(log: seq<Publication>, i: nat, j: nat)
    requires i < |log| && j < |log|
  {
    Follows(log[i].state, log[j].state) && log[i].state.lastVersion < log[j].state.lastVersion
  }

  predicate LogOk(root: RootBytes, log: seq<Publication>) {
    && (forall i | 0 <= i < |log| :: EntryOk(root, log, i))
    && (forall i, j | 0 <= i < j < |log| :: InOrder(log, i, j))
  }

  /** A stored state that everything published so far leads to. */
  predicate StoredOk(log: seq<Publication>, s: Option<State>) {
    && (s.Some? ==> ValidState(s.value, true))
    && (log != [] ==> s.Some? && Follows(log[|log|-1].state, s.value))
  }

  predicate DiskOk(log: seq<Publication>, disk: Disk) {
    && StoredOk(log, disk.visible) && StoredOk(log, disk.synced)
    && VersionOf(disk.synced) <= VersionOf(disk.visible)
  }

  predicate HoldsGrant(m: Memory) {
    exists g | g in m.options.policy.keys :: g.keyId == m.keyId && g.epoch == m.keyEpoch
  }

  /** The configuration of a running issuer fits the state in its memory. */
  predicate ConfigOk(root: RootBytes, m: Memory) {
    && m.options.root == root
    && ValidateKeyPolicy(m.options.policy, root) == Ok(m.policyDigest)
    && m.keyId == KeyID(m.options.privateKey.public)
    && HoldsGrant(m)
    && (m.state.lastVersion > 0 ==>
          && ValidState(m.state, false)
          && m.state.policyVersion <= m.options.policy.version
          && (m.state.policyVersion == m.options.policy.version ==> m.state.policyDigest == m.policyDigest)
          && ((m.state.keyId == m.keyId && m.state.keyEpoch == m.keyEpoch) || m.state.keyEpoch < m.keyEpoch))
  }

  /** The one running issuer. A save that failed after the rename leaves the disk one
      version ahead of its memory. */
  predicate ActiveOk(root: RootBytes, w: World, m: Memory) {
    && !m.closed
    && ConfigOk(root, m)
    && (w.log != [] ==> m.state.lastVersion > 0 && Follows(w.log[|w.log|-1].state, m.state))
    && m.state.lastVersion <= VersionOf(w.disk.visible) <= m.state.lastVersion + 1
  }

  predicate ProcsOk(root: RootBytes, w: World) {
    && (w.holder.Some? ==> w.holder.value in w.procs && ActiveOk(root, w, w.procs[w.holder.value]))
    && (forall p | p in w.procs :: w.procs[p].closed || w.holder == Some(p))
  }

  /** A client's state is empty or read off a published envelope. */
  predicate FromLog(root: RootBytes, log: seq<Publication>, s: TrustedState) {
    s == EMPTY_STATE
    || exists p | p in log :: Authenticate(p.envelope, root).Ok? && s == Authenticate(p.envelope, root).value.1
  }

  predicate ClientsOk(root: RootBytes, w: World) {
    forall c | c in w.clients :: FromLog(root, w.log, w.clients[c])
  }

  predicate Inv(root: RootBytes, w: World) {
    LogOk(root, w.log) && DiskOk(w.log, w.disk) && ProcsOk(root, w) && ClientsOk(root, w)
  }

  lemma {:induction false} FollowsTransitive(s: State, t: State, u: State)
    requires Follows(s, t) && Follows(t, u)
    ensures Follows(s, u)
  {
  }

  // ----- refreshing

  lemma {:induction false} SigningEpoch(m: Memory, root: RootBytes, version: U64)
    requires ConfigOk(root, m) && KeyPolicyGrant(m.options.policy, m.keyId, version).Ok?
    ensures KeyPolicyGrant(m.options.policy, m.keyId, version).value.epoch == m.keyEpoch > 0
  {
    var g :| g in m.options.policy.keys && g.keyId == m.keyId && g.epoch == m.keyEpoch;
    GrantInFinds(m.options.policy.keys, m.keyId, version);
    KeyIdsAreUnique(m.options.policy, g, KeyPolicyGrant(m.options.policy, m.keyId, version).value);
  }

  /** Every state built after a successful signature is valid, follows the one in memory,
      and is described by the envelope it is saved for. */
  lemma {:induction false} PreparedStateIsSound(root: RootBytes, m: Memory, now: Time, input: Input)
    requires ConfigOk(root, m) && Prepare(m, now, input).Ok? && now % SECOND == 0
    ensures var (e, next) := Prepare(m, now, input).value;
            && ValidState(next, false)
            && next.lastVersion == m.state.lastVersion + 1
            && (m.state.lastVersion > 0 ==> Follows(m.state, next))
            && Describes(root, e, next)
            && ConfigOk(root, m.(state := next))
  {
    hide Prepare, Issue, Authenticate, ValidateKeyPolicy;
    PreparedFields(root, m, now, input);
    var catalog, version := input.catalog.value, m.state.lastVersion + 1;
    var (e, next) := Prepare(m, now, input).value;
    assert TruncateToSecond(now) == now;
    IssuedEnvelopeAuthenticates(catalog, version, m.options.policy, root, now, m.options.ttl,
                                m.options.privateKey, input.size);
    SigningEpoch(m, root, version);
    assert HoldsGrant(m.(state := next)) by {
      var g :| g in m.options.policy.keys && g.keyId == m.keyId && g.epoch == m.keyEpoch;
      assert g.keyId == m.(state := next).keyId;
    }
  }

  lemma {:induction false} PreparedFields(root: RootBytes, m: Memory, now: Time, input: Input)
    requires ConfigOk(root, m) && Prepare(m, now, input).Ok? && now % SECOND == 0
    ensures input.catalog.Ok?
    ensures var catalog := input.catalog.value;
            var (e, next) := Prepare(m, now, input).value;
            && m.state.lastVersion < MAX_U64
            && Ok(e) == Issue(catalog, m.state.lastVersion + 1, m.options.policy, root, now, m.options.ttl,
                              m.options.privateKey, input.size)
            && next == NextState(m, catalog, DigestOf(CanonicalCatalog(catalog)), now)
            && catalog.revision != 0 && now != 0 && m.options.policy.version != 0
            && m.policyDigest == DigestOf(CanonicalKeyPolicy(m.options.policy))
            && (m.state.lastVersion > 0 ==>
                  && m.state.catalogRevision <= catalog.revision
                  && (m.state.catalogRevision == catalog.revision ==>
                        m.state.catalogDigest == DigestOf(CanonicalCatalog(catalog)))
                  && m.state.lastIssuedAt <= now)
  {
    hide ValidContents, GrantIn, GrantChain;
    assert TruncateToSecond(now) == now;
  }

  predicate SameConfig(m: Memory, m': Memory) {
    m'.options == m.options && m'.keyId == m.keyId && m'.keyEpoch == m.keyEpoch
    && m'.policyDigest == m.policyDigest && m'.closed == m.closed
  }

  lemma {:induction false} ConfigCarriesOver(root: RootBytes, m: Memory, m': Memory)
    requires ConfigOk(root, m) && SameConfig(m, m') && m'.state == m.state
    ensures ConfigOk(root, m')
  {
    var g :| g in m.options.policy.keys && g.keyId == m.keyId && g.epoch == m.keyEpoch;
    assert g in m'.options.policy.keys && g.keyId == m'.keyId && g.epoch == m'.keyEpoch;
  }

  /** The three things a call can do to the disk and the log: nothing, leave a newer state
      behind without publishing, or publish the state it made durable. */
  ghost predicate CallEffect(root: RootBytes, m: Memory, disk: Disk, r: Reply, published: seq<Publication>) {
    && SameConfig(m, r.memory)
    && ConfigOk(root, r.memory)
    && (|| (r.memory.state == m.state && r.disk == disk && published == [])
        || (exists next: State, save: SaveOutcome ::
              && NextOk(m, next)
              && r.disk == SavedDisk(disk, next, save)
              && if save.Saved? then r.memory.state == next && |published| == 1 && published[0].state == next
                                     && Describes(root, published[0].envelope, next)
                 else r.memory.state == m.state && published == []))
  }

  predicate NextOk(m: Memory, next: State) {
    && ValidState(next, false)
    && next.lastVersion == m.state.lastVersion + 1
    && (m.state.lastVersion > 0 ==> Follows(m.state, next))
  }

  lemma {:induction false} CallUnfolds(m: Memory, disk: Disk, input: Input)
    requires !m.closed
    ensures var now := TruncateToSecond(input.clock);
            var r := Call(m, disk, input);
            && SameConfig(m, r.memory)
            && (if Refreshes(m, now) && Prepare(m, now, input).Ok? then
                  var (e, next) := Prepare(m, now, input).value;
                  && r.disk == SavedDisk(disk, next, input.save)
                  && if SaveSucceeds(next, input.save)
                     then r.memory.state == next && Published(m, disk, input) == [Publication(e, next)]
                     else r.memory.state == m.state && Published(m, disk, input) == []
                else r.disk == disk && r.memory.state == m.state && Published(m, disk, input) == [])
  {
    hide Prepare;
  }

  lemma {:induction false} CallHasEffect(root: RootBytes, m: Memory, disk: Disk, input: Input)
    requires ConfigOk(root, m) && !m.closed
    ensures CallEffect(root, m, disk, Call(m, disk, input), Published(m, disk, input))
  {
    var now, r := TruncateToSecond(input.clock), Call(m, disk, input);
    CallUnfolds(m, disk, input);
    if Refreshes(m, now) && Prepare(m, now, input).Ok? {
      PreparedStateIsSound(root, m, now, input);
      var (e, next) := Prepare(m, now, input).value;
      assert NextOk(m, next);
      if r.memory.state == next {
        ConfigCarriesOver(root, m.(state := next), r.memory);
      } else {
        ConfigCarriesOver(root, m, r.memory);
      }
    } else {
      ConfigCarriesOver(root, m, r.memory);
    }
  }

  /** A new state keeps the disk in order whichever way saving it ends. */
  lemma {:induction false} SaveKeepsDisk(root: RootBytes, w: World, m: Memory, next: State, save: SaveOutcome)
    requires DiskOk(w.log, w.disk) && ActiveOk(root, w, m) && NextOk(m, next)
    ensures DiskOk(w.log, SavedDisk(w.disk, next, save))
    ensures VersionOf(w.disk.synced) <= VersionOf(SavedDisk(w.disk, next, save).synced)
    ensures VersionOf(w.disk.visible) <= VersionOf(SavedDisk(w.disk, next, save).visible)
    ensures m.state.lastVersion <= VersionOf(SavedDisk(w.disk, next, save).visible) <= m.state.lastVersion + 1
    ensures w.log != [] ==> Follows(w.log[|w.log|-1].state, next)
                            && w.log[|w.log|-1].state.lastVersion < next.lastVersion
  {
    if w.log != [] { FollowsTransitive(w.log[|w.log|-1].state, m.state, next); }
  }

  lemma {:induction false} LogGrows(root: RootBytes, log: seq<Publication>, p: Publication)
    requires LogOk(root, log) && Describes(root, p.envelope, p.state)
    requires log != [] ==> Follows(log[|log|-1].state, p.state) && log[|log|-1].state.lastVersion < p.state.lastVersion
    ensures LogOk(root, log + [p])
  {
    hide Describes, Follows;
    var more := log + [p];
    forall i | 0 <= i < |more| ensures EntryOk(root, more, i) {
      if i < |log| { assert EntryOk(root, log, i); }
    }
    forall i, j | 0 <= i < j < |more| ensures InOrder(more, i, j) {
      if j < |log| {
        assert InOrder(log, i, j);
      } else if i < |log| - 1 {
        assert InOrder(log, i, |log| - 1);
        FollowsTransitive(log[i].state, log[|log|-1].state, p.state);
      }
    }
  }

  lemma {:induction false} ClientsOutliveLog(root: RootBytes, w: World, w': World)
    requires ClientsOk(root, w) && w'.clients == w.clients && w.log <= w'.log
    ensures ClientsOk(root, w')
  {
    forall c | c in w'.clients ensures FromLog(root, w'.log, w'.clients[c]) {
      if w.clients[c] != EMPTY_STATE {
        var p :| p in w.log && Authenticate(p.envelope, root).Ok?
                 && w.clients[c] == Authenticate(p.envelope, root).value.1;
        assert p in w'.log;
      }
    }
  }

  /** What holds between consecutive worlds. */
  predicate Progress(w: World, w': World) {
    w.log <= w'.log && VersionOf(w.disk.synced) <= VersionOf(w'.disk.synced)
  }

  lemma {:induction false} ClosedCallDoesNothing(m: Memory, disk: Disk, input: Input)
    requires m.closed
    ensures Call(m, disk, input).memory == m && Call(m, disk, input).disk == disk && Published(m, disk, input) == []
  {
  }

  /** A call's effect, whichever it was, keeps the invariant. */
  lemma {:induction false} EffectKeepsInv(
    root: RootBytes, w: World, p: nat, r: Reply, published: seq<Publication>, w': World)
    requires Inv(root, w) && p in w.procs && !w.procs[p].closed
    requires CallEffect(root, w.procs[p], w.disk, r, published)
    requires w' == w.(disk := r.disk, procs := w.procs[p := r.memory], log := w.log + published)
    ensures Inv(root, w') && Progress(w, w') && VersionOf(w.disk.visible) <= VersionOf(w'.disk.visible)
    ensures DiskOk(w.log, r.disk)
  {
    hide Describes, ValidateKeyPolicy, FromLog, HoldsGrant;
    var m := w.procs[p];
    ClientsOutliveLog(root, w, w');
    if r.memory.state == m.state && r.disk == w.disk && published == [] {
      assert w'.log == w.log;
    } else {
      var next: State, save: SaveOutcome :|
        && NextOk(m, next)
        && r.disk == SavedDisk(w.disk, next, save)
        && if save.Saved? then r.memory.state == next && |published| == 1 && published[0].state == next
                               && Describes(root, published[0].envelope, next)
           else r.memory.state == m.state && published == [];
      SaveKeepsDisk(root, w, m, next, save);
      if save.Saved? {
        assert w'.log == w.log + [published[0]];
        LogGrows(root, w.log, published[0]);
        assert Follows(next, next);
      } else {
        assert w'.log == w.log;
      }
    }
  }

  lemma {:induction false} CallStep(root: RootBytes, w: World, p: nat, input: Input)
    requires Inv(root, w) && p in w.procs
    ensures var w' := Apply(root, w, CallIssuer(p, input));
            Inv(root, w') && Progress(w, w') && VersionOf(w.disk.visible) <= VersionOf(w'.disk.visible)
  {
    var w' := Apply(root, w, CallIssuer(p, input));
    var m := w.procs[p];
    if m.closed {
      ClosedCallDoesNothing(m, w.disk, input);
      assert w'.procs == w.procs && w'.log == w.log;
      assert w' == w;
    } else {
      CallHasEffect(root, m, w.disk, input);
      EffectKeepsInv(root, w, p, Call(m, w.disk, input), Published(m, w.disk, input), w');
    }
  }

  lemma {:induction false} GoneProcess(root: RootBytes, w: World, p: nat, disk: Disk)
    requires Inv(root, w) && p in w.procs && DiskOk(w.log, disk)
    requires w.procs[p].closed ==> disk == w.disk
    ensures Inv(root, w.(disk := disk, procs := w.procs - {p}, holder := Release(w, p)))
  {
    ClientsOutliveLog(root, w, w.(disk := disk, procs := w.procs - {p}, holder := Release(w, p)));
  }

  lemma {:induction false} CrashInCallStep(root: RootBytes, w: World, p: nat, input: Input)
    requires Inv(root, w) && p in w.procs
    ensures var w' := Apply(root, w, CrashInCall(p, input));
            Inv(root, w') && Progress(w, w') && VersionOf(w.disk.visible) <= VersionOf(w'.disk.visible)
  {
    var m, r, published := w.procs[p], Call(w.procs[p], w.disk, input), Published(w.procs[p], w.disk, input);
    if m.closed {
      ClosedCallDoesNothing(m, w.disk, input);
    } else {
      CallHasEffect(root, m, w.disk, input);
      EffectKeepsInv(root, w, p, r, published,
                     w.(disk := r.disk, procs := w.procs[p := r.memory], log := w.log + published));
    }
    GoneProcess(root, w, p, r.disk);
  }

  // ----- starting

  lemma {:induction false} PublishedStatesHavePolicies(root: RootBytes, e: Envelope, s: State)
    requires Describes(root, e, s)
    ensures s.policyVersion > 0 && s.lastVersion > 0 && s.keyEpoch > 0 && s.lastIssuedAt != 0
  {
    CandidateIsSelfConsistent(e, root);
  }

  lemma {:induction false} LaunchIsOk(root: RootBytes, o: Options, stored: Option<State>)
    requires GoodOptions(o) && o.root == root && Launch(o, stored).Ok?
    requires stored.Some? ==> ValidState(stored.value, false)
    ensures var m := Launch(o, stored).value;
            && ConfigOk(root, m) && !m.closed
            && m.state == if stored.Some? then stored.value else NO_STATE
  {
    hide ValidateKeyPolicy;
    var m, keyId := Launch(o, stored).value, KeyID(o.privateKey.public);
    var version := if stored.Some? then stored.value.lastVersion + 1 else 1;
    GrantInFinds(o.policy.keys, keyId, version);
    var g := KeyPolicyGrant(o.policy, keyId, version).value;
    assert g in m.options.policy.keys && g.keyId == m.keyId && g.epoch == m.keyEpoch;
  }

  /** What a start may do, given that the lock was free. */
  predicate StartEffect(root: RootBytes, w: World, s: StartResult) {
    && DiskOk(w.log, s.disk)
    && VersionOf(w.disk.synced) <= VersionOf(s.disk.synced)
    && VersionOf(w.disk.visible) <= VersionOf(s.disk.visible)
    && (s.memory.Ok? ==> ActiveOk(root, w.(disk := s.disk), s.memory.value))
  }

  lemma {:induction false} LegacyStartUnfolds(o: Options, disk: Disk, readFails: bool, save: SaveOutcome)
    requires disk.visible.Some? && ValidState(disk.visible.value, true) && disk.visible.value.policyVersion == 0
    ensures var s, migrated := Start(o, disk, readFails, save), Migrated(o, disk.visible.value);
            && (s.disk == disk || (migrated.Ok? && s.disk == SavedDisk(disk, migrated.value, save)))
            && (s.memory.Ok? ==>
                  && GoodOptions(o) && migrated.Ok? && SaveSucceeds(migrated.value, save)
                  && s.disk == SavedDisk(disk, migrated.value, save) && s.memory == Launch(o, Some(migrated.value)))
            && (migrated.Ok? ==> migrated.value.lastVersion == disk.visible.value.lastVersion)
  {
    hide ValidateKeyPolicy, Launch, KeyPolicyGrant;
  }

  /** Migration rewrites a state that nothing was published from, and keeps its version. */
  lemma {:induction false} MigrationStart(root: RootBytes, w: World, o: Options, readFails: bool, save: SaveOutcome)
    requires DiskOk(w.log, w.disk) && o.root == root && w.log == []
    requires w.disk.visible.Some? && w.disk.visible.value.policyVersion == 0
    ensures StartEffect(root, w, Start(o, w.disk, readFails, save))
  {
    hide Start, Migrated, Launch, ConfigOk;
    LegacyStartUnfolds(o, w.disk, readFails, save);
    var s, migrated := Start(o, w.disk, readFails, save), Migrated(o, w.disk.visible.value);
    if s.memory.Ok? { LaunchIsOk(root, o, Some(migrated.value)); }
  }

  lemma {:induction false} OrdinaryStart(root: RootBytes, w: World, o: Options, readFails: bool, save: SaveOutcome)
    requires DiskOk(w.log, w.disk) && o.root == root
    requires w.disk.visible.Some? ==> w.disk.visible.value.policyVersion > 0
    ensures StartEffect(root, w, Start(o, w.disk, readFails, save))
  {
    if GoodOptions(o) && !readFails && Launch(o, w.disk.visible).Ok? {
      LaunchIsOk(root, o, w.disk.visible);
    }
  }

  lemma {:induction false} StartKeepsInv(root: RootBytes, w: World, p: nat, s: StartResult, w': World)
    requires Inv(root, w) && w.holder.None? && p !in w.procs && StartEffect(root, w, s)
    requires w' == if s.memory.Ok? then w.(disk := s.disk, holder := Some(p), procs := w.procs[p := s.memory.value])
                   else w.(disk := s.disk)
    ensures Inv(root, w') && Progress(w, w') && VersionOf(w.disk.visible) <= VersionOf(w'.disk.visible)
  {
    ClientsOutliveLog(root, w, w');
  }

  lemma {:induction false} StartUpStep(
    root: RootBytes, w: World, p: nat, o: Options, readFails: bool, save: SaveOutcome)
    requires Inv(root, w) && Allowed(root, w, StartUp(p, o, readFails, save))
    ensures var w' := Apply(root, w, StartUp(p, o, readFails, save));
            Inv(root, w') && Progress(w, w') && VersionOf(w.disk.visible) <= VersionOf(w'.disk.visible)
  {
    if w.holder.None? {
      var s := Start(o, w.disk, readFails, save);
      if w.log != [] {
        var last := |w.log| - 1;
        assert EntryOk(root, w.log, last);
        PublishedStatesHavePolicies(root, w.log[last].envelope, w.log[last].state);
      }
      if w.disk.visible.Some? && w.disk.visible.value.policyVersion == 0 {
        MigrationStart(root, w, o, readFails, save);
      } else {
        OrdinaryStart(root, w, o, readFails, save);
      }
      StartKeepsInv(root, w, p, s, Apply(root, w, StartUp(p, o, readFails, save)));
    }
  }

  // ----- the network

  lemma {:induction false} AuthenticIsPublished(root: RootBytes, log: seq<Publication>, e: Envelope)
    requires LogOk(root, log) && Unforged(root, log, e) && Authenticate(e, root).Ok?
    ensures FromLog(root, log, Authenticate(e, root).value.1)
  {
    var d := e.payload.bytes.document;
    GrantInFinds(d.keyPolicy.keys, e.keyId, d.version);
    var g := KeyPolicyGrant(d.keyPolicy, e.keyId, d.version).value;
    assert g in d.keyPolicy.keys && g.publicKey.EncodedKey? && g.publicKey.key == e.signature.signer;
    var p :| p in log && p.envelope.payload.PayloadText? && p.envelope.payload.bytes == e.payload.bytes;
    var i :| 0 <= i < |log| && log[i] == p;
    assert EntryOk(root, log, i);
    PayloadDeterminesCandidate(p.envelope, e, root);
  }

  lemma {:induction false} VerifyMovesTo(e: Envelope, root: RootBytes, clock: Time, s: TrustedState)
    ensures var s' := Verify(e, root, clock, s).trusted;
            s' == s || (Authenticate(e, root).Ok? && s' == Authenticate(e, root).value.1)
  {
  }

  lemma {:induction false} DeliverStep(root: RootBytes, w: World, c: nat, e: Envelope, clock: Time)
    requires Inv(root, w) && Allowed(root, w, Deliver(c, e, clock))
    ensures var w' := Apply(root, w, Deliver(c, e, clock));
            Inv(root, w') && Progress(w, w') && w'.disk == w.disk
  {
    hide Verify, Authenticate, EntryOk, InOrder, ConfigOk;
    VerifyMovesTo(e, root, clock, ClientState(w, c));
    if Authenticate(e, root).Ok? { AuthenticIsPublished(root, w.log, e); }
  }

  lemma {:induction false} QuietStep(root: RootBytes, w: World, ev: Event)
    requires Inv(root, w) && Allowed(root, w, ev) && (ev.CloseIssuer? || ev.Crash? || ev.PowerLoss?)
    ensures var w' := Apply(root, w, ev);
            Inv(root, w') && Progress(w, w') && (!ev.PowerLoss? ==> w'.disk == w.disk)
  {
    hide EntryOk, InOrder, ConfigOk, FromLog;
    ClientsOutliveLog(root, w, Apply(root, w, ev));
  }

  /** Every step keeps the invariant, extends the log and never loses a durable version;
      only a power loss can take back what is visible. */
  lemma {:induction false} EveryStep(root: RootBytes, w: World, ev: Event)
    requires Inv(root, w) && Allowed(root, w, ev)
    ensures var w' := Apply(root, w, ev);
            && Inv(root, w') && Progress(w, w')
            && (!ev.PowerLoss? ==> VersionOf(w.disk.visible) <= VersionOf(w'.disk.visible))
  {
    match ev
    case StartUp(p, o, readFails, save) => StartUpStep(root, w, p, o, readFails, save);
    case CallIssuer(p, input) => CallStep(root, w, p, input);
    case CrashInCall(p, input) => CrashInCallStep(root, w, p, input);
    case Deliver(c, e, clock) => DeliverStep(root, w, c, e, clock);
    case _ => QuietStep(root, w, ev);
  }

  // ----- whole runs

  lemma {:induction false} RunKeepsInv(root: RootBytes, worlds: seq<World>, events: seq<Event>, i: nat)
    requires IsRun(root, worlds, events) && i < |worlds|
    ensures Inv(root, worlds[i])
  {
    if i > 0 {
      RunKeepsInv(root, worlds, events, i - 1);
      assert StepAt(root, worlds, events, i - 1);
      EveryStep(root, worlds[i-1], events[i-1]);
    }
  }

  lemma {:induction false} RunStep(root: RootBytes, worlds: seq<World>, events: seq<Event>, i: nat)
    requires IsRun(root, worlds, events) && i < |events|
    ensures Progress(worlds[i], worlds[i+1])
    ensures !events[i].PowerLoss? ==> VersionOf(worlds[i].disk.visible) <= VersionOf(worlds[i+1].disk.visible)
  {
    RunKeepsInv(root, worlds, events, i);
    assert StepAt(root, worlds, events, i);
    EveryStep(root, worlds[i], events[i]);
  }

  lemma {:induction false} RunProgress(root: RootBytes, worlds: seq<World>, events: seq<Event>, i: nat, j: nat)
    requires IsRun(root, worlds, events) && i <= j < |worlds|
    ensures Progress(worlds[i], worlds[j])
    decreases j
  {
    if i < j {
      RunProgress(root, worlds, events, i, j - 1);
      RunStep(root, worlds, events, j - 1);
    }
  }

  /** Without a power loss not even the visible version goes back. */
  lemma {:induction false} VisibleVersionsNeverDecrease(
    root: RootBytes, worlds: seq<World>, events: seq<Event>, i: nat, j: nat)
    requires IsRun(root, worlds, events) && i <= j < |worlds|
    requires forall k | i <= k < j :: !events[k].PowerLoss?
    ensures VersionOf(worlds[i].disk.visible) <= VersionOf(worlds[j].disk.visible)
    decreases j
  {
    if i < j {
      VisibleVersionsNeverDecrease(root, worlds, events, i, j - 1);
      RunStep(root, worlds, events, j - 1);
    }
  }

  function CatalogOf(d: Document): Catalog {
    Catalog(d.catalogRevision, d.discovery, d.nodes)
  }

  /** What a reader of the published documents can rely on. */
  predicate Advances(root: RootBytes, p: Publication, q: Publication) {
    && Authenticate(p.envelope, root).Ok? && Authenticate(q.envelope, root).Ok?
    && var (d, c) := Authenticate(p.envelope, root).value;
    && var (d', c') := Authenticate(q.envelope, root).value;
    && d.version < d'.version
    && d.issuedAt <= d'.issuedAt
    && d.catalogRevision <= d'.catalogRevision
    && (d.catalogRevision == d'.catalogRevision ==> CatalogOf(d) == CatalogOf(d'))
    && d.keyPolicy.version <= d'.keyPolicy.version
    && (d.keyPolicy.version == d'.keyPolicy.version ==> SamePolicyContents(d.keyPolicy, d'.keyPolicy))
    && c.signingKeyEpoch <= c'.signingKeyEpoch
    && (c.signingKeyEpoch == c'.signingKeyEpoch ==> c.signingKeyId == c'.signingKeyId)
  }

  lemma {:induction false} LogAdvances(root: RootBytes, log: seq<Publication>, i: nat, j: nat)
    requires LogOk(root, log) && i < j < |log|
    ensures Advances(root, log[i], log[j])
  {
    hide Authenticate, ValidateKeyPolicy, SamePolicyContents;
    var p, q := log[i], log[j];
    assert EntryOk(root, log, i) && EntryOk(root, log, j) && InOrder(log, i, j);
    CandidateRecordsPayload(p.envelope, root);
    CandidateRecordsPayload(q.envelope, root);
    var d, d' := Authenticate(p.envelope, root).value.0, Authenticate(q.envelope, root).value.0;
    if d.keyPolicy.version == d'.keyPolicy.version {
      PolicyDigestIdentifiesContents(d.keyPolicy, d'.keyPolicy, root);
    }
  }

  /** Over every run of any number of issuers: what is published only advances, and it never
      outruns what is durable. */
  lemma {:induction false} PublishedEnvelopesAdvance(
    root: RootBytes, worlds: seq<World>, events: seq<Event>, n: nat, i: nat, j: nat)
    requires IsRun(root, worlds, events) && n < |worlds| && i < j < |worlds[n].log|
    ensures Advances(root, worlds[n].log[i], worlds[n].log[j])
  {
    RunKeepsInv(root, worlds, events, n);
    LogAdvances(root, worlds[n].log, i, j);
  }

  lemma {:induction false} PublishedIsDurable(root: RootBytes, w: World, k: nat)
    requires Inv(root, w) && k < |w.log|
    ensures Authenticate(w.log[k].envelope, root).Ok?
    ensures Authenticate(w.log[k].envelope, root).value.0.version == w.log[k].state.lastVersion
    ensures Authenticate(w.log[k].envelope, root).value.1.version == w.log[k].state.lastVersion
    ensures 0 < w.log[k].state.lastVersion <= VersionOf(w.disk.synced)
  {
    hide Authenticate, ConfigOk;
    assert EntryOk(root, w.log, k);
    CandidateRecordsPayload(w.log[k].envelope, root);
    PublishedStatesHavePolicies(root, w.log[k].envelope, w.log[k].state);
    if k < |w.log| - 1 { assert InOrder(w.log, k, |w.log| - 1); }
  }

  /** The durable version never decreases, not even across power losses, and is at least
      every version ever published; nothing published is ever withdrawn. */
  lemma {:induction false} DurableVersionsNeverDecrease(
    root: RootBytes, worlds: seq<World>, events: seq<Event>, i: nat, j: nat, k: nat)
    requires IsRun(root, worlds, events) && i <= j < |worlds|
    ensures VersionOf(worlds[i].disk.synced) <= VersionOf(worlds[j].disk.synced) <= VersionOf(worlds[j].disk.visible)
    ensures worlds[i].log <= worlds[j].log
    ensures k < |worlds[i].log| ==>
              && Authenticate(worlds[i].log[k].envelope, root).Ok?
              && Authenticate(worlds[i].log[k].envelope, root).value.0.version <= VersionOf(worlds[i].disk.synced)
  {
    RunProgress(root, worlds, events, i, j);
    RunKeepsInv(root, worlds, events, j);
    if k < |worlds[i].log| {
      RunKeepsInv(root, worlds, events, i);
      PublishedIsDurable(root, worlds[i], k);
    }
  }

  /** At most one issuer on the path is ever open. */
  lemma {:induction false} SingleActiveIssuer(
    root: RootBytes, worlds: seq<World>, events: seq<Event>, n: nat, p: nat, q: nat)
    requires IsRun(root, worlds, events) && n < |worlds|
    requires p in worlds[n].procs && q in worlds[n].procs && !worlds[n].procs[p].closed && !worlds[n].procs[q].closed
    ensures p == q
  {
    RunKeepsInv(root, worlds, events, n);
  }

  // ----- clients of the protocol

  lemma {:induction false} ClientPosition(root: RootBytes, w: World, c: nat) returns (i: nat)
    requires Inv(root, w)
    ensures ClientState(w, c) != EMPTY_STATE ==>
              && i < |w.log| && Authenticate(w.log[i].envelope, root).Ok?
              && ClientState(w, c) == Authenticate(w.log[i].envelope, root).value.1
              && 0 < ClientState(w, c).version == w.log[i].state.lastVersion <= VersionOf(w.disk.synced)
  {
    i := 0;
    if ClientState(w, c) != EMPTY_STATE {
      var p :| p in w.log && Authenticate(p.envelope, root).Ok?
               && ClientState(w, c) == Authenticate(p.envelope, root).value.1;
      i :| 0 <= i < |w.log| && w.log[i] == p;
      PublishedIsDurable(root, w, i);
    }
  }

  lemma {:induction false} VersionOrder(root: RootBytes, log: seq<Publication>, i: nat, j: nat)
    requires LogOk(root, log) && i < |log| && j < |log|
    ensures i < j <==> log[i].state.lastVersion < log[j].state.lastVersion
    ensures i == j <==> log[i].state.lastVersion == log[j].state.lastVersion
  {
    assert i < j ==> InOrder(log, i, j);
    assert j < i ==> InOrder(log, j, i);
  }

  /** Two clients at one version hold the same state, down to the payload bytes, and no
      client is ahead of what the issuer made durable. */
  lemma {:induction false} ClientsAgree(root: RootBytes, worlds: seq<World>, events: seq<Event>, n: nat, a: nat, b: nat)
    requires IsRun(root, worlds, events) && n < |worlds|
    ensures ClientState(worlds[n], a).version == ClientState(worlds[n], b).version ==>
              ClientState(worlds[n], a) == ClientState(worlds[n], b)
    ensures ClientState(worlds[n], a).version <= VersionOf(worlds[n].disk.synced)
  {
    var w := worlds[n];
    RunKeepsInv(root, worlds, events, n);
    var i := ClientPosition(root, w, a);
    var j := ClientPosition(root, w, b);
    if ClientState(w, a) != EMPTY_STATE && ClientState(w, a).version == ClientState(w, b).version {
      VersionOrder(root, w.log, i, j);
    }
  }

  /** One key, two epochs. */
  predicate EpochClash(s: TrustedState, t: TrustedState) {
    s.signingKeyId == t.signingKeyId && s.signingKeyEpoch != t.signingKeyEpoch
  }

  /** What a client trusts after published envelope `i`. */
  function TrustedAt(root: RootBytes, log: seq<Publication>, i: nat): TrustedState
    requires i < |log| && Authenticate(log[i].envelope, root).Ok?
  {
    Authenticate(log[i].envelope, root).value.1
  }

  lemma {:induction false} HolderAccepts(root: RootBytes, log: seq<Publication>, i: nat, j: nat, clock: Time)
    requires LogOk(root, log) && i <= j < |log|
    requires Authenticate(log[i].envelope, root).Ok? && Authenticate(log[j].envelope, root).Ok?
    requires InWindow(Authenticate(log[j].envelope, root).value.0, clock)
    ensures Verify(log[j].envelope, root, clock, TrustedAt(root, log, i)).document.Ok?
            <==> !EpochClash(TrustedAt(root, log, i), TrustedAt(root, log, j))
  {
    assert EntryOk(root, log, i) && EntryOk(root, log, j);
    CandidateIsSelfConsistent(log[i].envelope, root);
    CandidateIsSelfConsistent(log[j].envelope, root);
    if i < j { assert InOrder(log, i, j); }
    VerifyDecision(log[j].envelope, root, clock, TrustedAt(root, log, i));
  }

  lemma {:induction false} VerifiedIsCurrent(e: Envelope, root: RootBytes, clock: Time, s: TrustedState)
    requires Verify(e, root, clock, s).document.Ok?
    ensures Authenticate(e, root).Ok? && InWindow(Authenticate(e, root).value.0, clock)
    ensures s.version <= Authenticate(e, root).value.1.version
    ensures Verify(e, root, clock, s).trusted
            == if s.version == Authenticate(e, root).value.1.version then s else Authenticate(e, root).value.1
  {
  }

  lemma {:induction false} ClientDecision(root: RootBytes, w: World, c: nat, j: nat, clock: Time)
    requires Inv(root, w) && j < |w.log| && Authenticate(w.log[j].envelope, root).Ok?
    requires InWindow(Authenticate(w.log[j].envelope, root).value.0, clock)
    requires ClientState(w, c).version <= TrustedAt(root, w.log, j).version
    ensures Verify(w.log[j].envelope, root, clock, ClientState(w, c)).document.Ok?
            <==> !EpochClash(ClientState(w, c), TrustedAt(root, w.log, j))
    ensures ClientState(w, c).version == TrustedAt(root, w.log, j).version ==>
              ClientState(w, c) == TrustedAt(root, w.log, j)
  {
    hide Verify, Authenticate, ProcsOk, DiskOk, ClientsOk;
    var s := ClientState(w, c);
    var i := ClientPosition(root, w, c);
    PublishedIsDurable(root, w, j);
    CandidateIsSelfConsistent(w.log[j].envelope, root);
    if s == EMPTY_STATE {
      VerifyDecision(w.log[j].envelope, root, clock, s);
    } else {
      VersionOrder(root, w.log, i, j);
      HolderAccepts(root, w.log, i, j, clock);
    }
  }

  /** In every reachable world, a client, whether new or holding any published envelope,
      accepts a published one if and only if its clock is in the window, the envelope is not
      older than what it holds, and the policies did not give the key that signed both two
      different epochs. It then holds exactly that envelope's state. */
  lemma {:induction false} SkippingClientAccepts(
    root: RootBytes, worlds: seq<World>, events: seq<Event>, n: nat, c: nat, j: nat, clock: Time)
    requires IsRun(root, worlds, events) && n < |worlds| && j < |worlds[n].log|
    ensures Authenticate(worlds[n].log[j].envelope, root).Ok?
    ensures var e, s, t := worlds[n].log[j].envelope, ClientState(worlds[n], c), TrustedAt(root, worlds[n].log, j);
            var d := Authenticate(e, root).value.0;
            && (Verify(e, root, clock, s).document.Ok? <==>
                  && d.issuedAt - 120_000_000_000 <= clock < d.expiresAt
                  && s.version <= t.version
                  && !(s.signingKeyId == t.signingKeyId && s.signingKeyEpoch != t.signingKeyEpoch))
            && (Verify(e, root, clock, s).document.Ok? ==> Verify(e, root, clock, s).trusted == t)
  {
    hide Verify, Authenticate, Inv;
    RunKeepsInv(root, worlds, events, n);
    PublishedIsDurable(root, worlds[n], j);
    var e, s, t := worlds[n].log[j].envelope, ClientState(worlds[n], c), TrustedAt(root, worlds[n].log, j);
    if Verify(e, root, clock, s).document.Ok? { VerifiedIsCurrent(e, root, clock, s); }
    if InWindow(Authenticate(e, root).value.0, clock) && s.version <= t.version {
      ClientDecision(root, worlds[n], c, j, clock);
    }
  }

  lemma {:induction false} ClashLasts(root: RootBytes, w: World, c: nat, j: nat, k: nat)
    requires Inv(root, w) && j <= k < |w.log|
    requires Authenticate(w.log[j].envelope, root).Ok? && Authenticate(w.log[k].envelope, root).Ok?
    requires ClientState(w, c).version <= TrustedAt(root, w.log, j).version
    requires EpochClash(ClientState(w, c), TrustedAt(root, w.log, j))
    ensures ClientState(w, c).version <= TrustedAt(root, w.log, k).version
    ensures EpochClash(ClientState(w, c), TrustedAt(root, w.log, k))
            <==> ClientState(w, c).signingKeyId == TrustedAt(root, w.log, k).signingKeyId
  {
    hide Authenticate, ProcsOk, DiskOk, ClientsOk;
    var i := ClientPosition(root, w, c);
    PublishedIsDurable(root, w, j);
    PublishedIsDurable(root, w, k);
    CandidateIsSelfConsistent(w.log[j].envelope, root);
    assert EntryOk(root, w.log, i) && EntryOk(root, w.log, j) && EntryOk(root, w.log, k);
    VersionOrder(root, w.log, i, j);
    assert InOrder(w.log, i, j);
    if j < k { assert InOrder(w.log, j, k); }
  }

  /** A client that refuses an envelope because of its key's epoch is stuck exactly as long as
      that key goes on signing: of everything published from there on, it accepts, in their
      windows, the envelopes that another key signed, and no others. */
  lemma {:induction false} StuckUntilAnotherKeySigns(
    root: RootBytes, worlds: seq<World>, events: seq<Event>, n: nat, c: nat, j: nat, k: nat, clock: Time)
    requires IsRun(root, worlds, events) && n < |worlds| && j <= k < |worlds[n].log|
    requires Authenticate(worlds[n].log[j].envelope, root).Ok?
    requires ClientState(worlds[n], c).version <= TrustedAt(root, worlds[n].log, j).version
    requires EpochClash(ClientState(worlds[n], c), TrustedAt(root, worlds[n].log, j))
    ensures Authenticate(worlds[n].log[k].envelope, root).Ok?
    ensures var e, s := worlds[n].log[k].envelope, ClientState(worlds[n], c);
            var d := Authenticate(e, root).value.0;
            Verify(e, root, clock, s).document.Ok? <==>
              && d.issuedAt - 120_000_000_000 <= clock < d.expiresAt
              && TrustedAt(root, worlds[n].log, k).signingKeyId != s.signingKeyId
  {
    hide Verify, Authenticate, Inv;
    RunKeepsInv(root, worlds, events, n);
    SkippingClientAccepts(root, worlds, events, n, c, k, clock);
    ClashLasts(root, worlds[n], c, j, k);
  }

  /** Two policies give no key two different epochs. */
  predicate EpochsAgree(p: KeyPolicy, q: KeyPolicy) {
    forall g, h | g in p.keys && h in q.keys :: g.keyId == h.keyId ==> g.epoch == h.epoch
  }

  predicate EntriesAgree(root: RootBytes, log: seq<Publication>, i: nat, j: nat)
    requires i < |log| && j < |log|
  {
    var a, b := Authenticate(log[i].envelope, root), Authenticate(log[j].envelope, root);
    a.Ok? && b.Ok? ==> EpochsAgree(a.value.0.keyPolicy, b.value.0.keyPolicy)
  }

  /** The root never gave one key two epochs, in any policy that was published. */
  predicate OneEpochPerKey(root: RootBytes, log: seq<Publication>) {
    forall i, j | 0 <= i < |log| && 0 <= j < |log| :: EntriesAgree(root, log, i, j)
  }

  lemma {:induction false} SignerIsListed(e: Envelope, root: RootBytes) returns (g: KeyGrant)
    requires Authenticate(e, root).Ok?
    ensures g in Authenticate(e, root).value.0.keyPolicy.keys
    ensures g.keyId == Authenticate(e, root).value.1.signingKeyId
            && g.epoch == Authenticate(e, root).value.1.signingKeyEpoch
  {
    var d := e.payload.bytes.document;
    GrantInFinds(d.keyPolicy.keys, e.keyId, d.version);
    g := KeyPolicyGrant(d.keyPolicy, e.keyId, d.version).value;
  }

  lemma {:induction false} AgreementExcludesClash(root: RootBytes, log: seq<Publication>, i: nat, j: nat)
    requires LogOk(root, log) && OneEpochPerKey(root, log) && i < |log| && j < |log|
    ensures Authenticate(log[i].envelope, root).Ok? && Authenticate(log[j].envelope, root).Ok?
    ensures !EpochClash(TrustedAt(root, log, i), TrustedAt(root, log, j))
  {
    assert EntryOk(root, log, i) && EntryOk(root, log, j) && EntriesAgree(root, log, i, j);
    var g := SignerIsListed(log[i].envelope, root);
    var h := SignerIsListed(log[j].envelope, root);
  }

  lemma {:induction false} InvKeepsLog(root: RootBytes, w: World)
    requires Inv(root, w)
    ensures LogOk(root, w.log)
  {
  }

  /** End to end: in every reachable world, a client that is new or holds any published
      envelope accepts every later published envelope while its clock is in the window,
      and then holds exactly that envelope's state. */
  lemma {:induction false} ClientsCatchUp(
    root: RootBytes, worlds: seq<World>, events: seq<Event>, n: nat, c: nat, j: nat, clock: Time)
    requires IsRun(root, worlds, events) && n < |worlds| && j < |worlds[n].log|
    requires OneEpochPerKey(root, worlds[n].log)
    requires Authenticate(worlds[n].log[j].envelope, root).Ok?
    requires var d := Authenticate(worlds[n].log[j].envelope, root).value.0;
             d.issuedAt - 120_000_000_000 <= clock < d.expiresAt
    requires ClientState(worlds[n], c).version <= Authenticate(worlds[n].log[j].envelope, root).value.0.version
    ensures Verify(worlds[n].log[j].envelope, root, clock, ClientState(worlds[n], c)).document.Ok?
    ensures Verify(worlds[n].log[j].envelope, root, clock, ClientState(worlds[n], c)).trusted
            == Authenticate(worlds[n].log[j].envelope, root).value.1
  {
    hide Verify, Authenticate, Inv;
    var w := worlds[n];
    RunKeepsInv(root, worlds, events, n);
    SkippingClientAccepts(root, worlds, events, n, c, j, clock);
    PublishedIsDurable(root, w, j);
    CandidateIsSelfConsistent(w.log[j].envelope, root);
    if ClientState(w, c) != EMPTY_STATE {
      var i := ClientPosition(root, w, c);
      InvKeepsLog(root, w);
      AgreementExcludesClash(root, w.log, i, j);
    }
  }
}
