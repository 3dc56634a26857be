/** Restarting the issuer, under the key policy it ran with or another: internal/service/issuer.go and
    internal/issuance/state.go. */
module Restarts {
  import opened Basics
  import opened Ordering
  import opened KeyPolicies
  import opened Catalogs
  import opened Manifests
  import opened Issuance
  import opened Issuers
  import opened Protocol

  /** A durable state that was written under `policy`. */
  predicate WrittenUnder(root: RootBytes, policy: KeyPolicy, s: State) {
    && ValidState(s, false)
    && s.policyVersion == policy.version
    && ValidateKeyPolicy(policy, root) == Ok(s.policyDigest)
    && var g := KeyPolicyGrant(policy, s.keyId, s.lastVersion);
    && g.Ok? && g.value.epoch == s.keyEpoch
  }

  /** A state from before key policies, whose key the policy authorises. */
  predicate Adoptable(policy: KeyPolicy, s: State) {
    s.policyVersion == 0 && ValidState(s, true) && KeyPolicyGrant(policy, s.keyId, s.lastVersion).Ok?
  }

  /** A state that was written under one of the policies in `used`, or is the initial one. */
  predicate Fits(root: RootBytes, used: set<KeyPolicy>, initial: Option<State>, s: Option<State>) {
    s == initial || (s.Some? && exists p | p in used :: WrittenUnder(root, p, s.value))
  }

  predicate FitsPolicies(root: RootBytes, used: set<KeyPolicy>, initial: Option<State>, w: World) {
    && Fits(root, used, initial, w.disk.visible) && Fits(root, used, initial, w.disk.synced)
    && forall p | p in w.procs :: !w.procs[p].closed ==> w.procs[p].options.policy in used
  }

  /** The policies that issuers are configured with. */
  function PoliciesIn(events: seq<Event>): set<KeyPolicy> {
    set ev | ev in events && ev.StartUp? :: ev.options.policy
  }

  /** Only `policy` is ever configured. */
  predicate UsesOnly(policy: KeyPolicy, events: seq<Event>) {
    PoliciesIn(events) <= {policy}
  }

  // ----- every state written fits the policy

  lemma {:induction false} NextStateFits(root: RootBytes, m: Memory, now: Time, input: Input)
    requires ConfigOk(root, m) && Prepare(m, now, input).Ok? && now % SECOND == 0
    ensures WrittenUnder(root, m.options.policy, Prepare(m, now, input).value.1)
  {
    hide Prepare, Authenticate, ValidateKeyPolicy;
    PreparedFields(root, m, now, input);
    PreparedStateIsSound(root, m, now, input);
    SigningIsAuthorised(root, m, now, input);
    SigningEpoch(m, root, m.state.lastVersion + 1);
  }

  lemma {:induction false} SigningIsAuthorised(root: RootBytes, m: Memory, now: Time, input: Input)
    requires ConfigOk(root, m) && Prepare(m, now, input).Ok? && now % SECOND == 0
    ensures m.state.lastVersion < MAX_U64 && KeyPolicyGrant(m.options.policy, m.keyId, m.state.lastVersion + 1).Ok?
  {
    hide ValidDocument, ValidateKeyPolicy, CatalogDigest;
  }

  lemma {:induction false} SavedFits(root: RootBytes, used: set<KeyPolicy>, initial: Option<State>,
                                     disk: Disk, policy: KeyPolicy, s: State, save: SaveOutcome)
    requires Fits(root, used, initial, disk.visible) && Fits(root, used, initial, disk.synced)
    requires policy in used && WrittenUnder(root, policy, s)
    ensures Fits(root, used, initial, SavedDisk(disk, s, save).visible)
    ensures Fits(root, used, initial, SavedDisk(disk, s, save).synced)
  {
    hide WrittenUnder;
  }

  lemma {:induction false} CallFits(root: RootBytes, used: set<KeyPolicy>, initial: Option<State>,
                                    m: Memory, disk: Disk, input: Input)
    requires !m.closed ==> m.options.policy in used && ConfigOk(root, m)
    requires Fits(root, used, initial, disk.visible) && Fits(root, used, initial, disk.synced)
    ensures var r := Call(m, disk, input);
            && (r.memory.closed <==> m.closed) && r.memory.options == m.options
            && Fits(root, used, initial, r.disk.visible) && Fits(root, used, initial, r.disk.synced)
  {
    hide Call, Prepare, WrittenUnder, ConfigOk, Published, SavedDisk, Fits;
    if m.closed {
      ClosedCallDoesNothing(m, disk, input);
    } else {
      var now := TruncateToSecond(input.clock);
      CallUnfolds(m, disk, input);
      if Refreshes(m, now) && Prepare(m, now, input).Ok? {
        NextStateFits(root, m, now, input);
        SavedFits(root, used, initial, disk, m.options.policy, Prepare(m, now, input).value.1, input.save);
      }
    }
  }

  lemma {:induction false} MigratedFits(root: RootBytes, o: Options, s: State)
    requires GoodOptions(o) && o.root == root && Adoptable(o.policy, s)
    ensures Migrated(o, s).Ok? && WrittenUnder(root, o.policy, Migrated(o, s).value)
  {
    hide GrantChain;
    PolicyPartitionsVersions(o.policy, s.keyId, s.lastVersion);
    GrantInFinds(o.policy.keys, s.keyId, s.lastVersion);
  }

  lemma {:induction false} StartFits(root: RootBytes, used: set<KeyPolicy>, initial: Option<State>,
                                     o: Options, disk: Disk, readFails: bool, save: SaveOutcome)
    requires o.root == root && o.policy in used
    requires Fits(root, used, initial, disk.visible) && Fits(root, used, initial, disk.synced)
    requires disk.visible.Some? ==> ValidState(disk.visible.value, true)
    ensures var s := Start(o, disk, readFails, save);
            && Fits(root, used, initial, s.disk.visible) && Fits(root, used, initial, s.disk.synced)
            && (s.memory.Ok? ==> s.memory.value.options == o)
  {
    hide ValidateKeyPolicy, GrantIn, CheckState, Fits, WrittenUnder;
    if GoodOptions(o) && disk.visible.Some? && disk.visible.value.policyVersion == 0 {
      var s := disk.visible.value;
      if Migrated(o, s).Ok? {
        MigratedFits(root, o, s);
        SavedFits(root, used, initial, disk, o.policy, Migrated(o, s).value, save);
      }
    }
  }

  lemma {:induction false} StepFits(root: RootBytes, used: set<KeyPolicy>, initial: Option<State>, w: World, ev: Event)
    requires Inv(root, w) && FitsPolicies(root, used, initial, w) && Allowed(root, w, ev)
    requires ev.StartUp? ==> ev.options.policy in used
    ensures FitsPolicies(root, used, initial, Apply(root, w, ev))
  {
    hide Call, Start, Verify, Fits, WrittenUnder, EntryOk, InOrder, ConfigOk, ClientsOk, Published, Unforged;
    match ev
    case StartUp(p, o, readFails, save) => StartFits(root, used, initial, o, w.disk, readFails, save);
    case CallIssuer(p, input) => CallFits(root, used, initial, w.procs[p], w.disk, input);
    case CrashInCall(p, input) => CallFits(root, used, initial, w.procs[p], w.disk, input);
    case _ =>
  }

  /** Whatever happened, what is on disk is the initial state or was written under a policy
      that some issuer was started with. */
  lemma {:induction false} RunFits(root: RootBytes, worlds: seq<World>, events: seq<Event>, n: nat)
    requires IsRun(root, worlds, events) && n < |worlds|
    ensures FitsPolicies(root, PoliciesIn(events), worlds[0].disk.visible, worlds[n])
  {
    hide Apply, Allowed, Inv, Fits;
    if n > 0 {
      RunFits(root, worlds, events, n - 1);
      RunKeepsInv(root, worlds, events, n - 1);
      assert StepAt(root, worlds, events, n - 1);
      assert events[n-1] in events;
      StepFits(root, PoliciesIn(events), worlds[0].disk.visible, worlds[n-1], events[n-1]);
    } else {
      InitialFits(root, PoliciesIn(events), worlds[0].disk.visible);
    }
  }

  lemma {:induction false} InitialFits(root: RootBytes, used: set<KeyPolicy>, initial: Option<State>)
    ensures Fits(root, used, initial, initial)
  {
  }

  // ----- restarting

  /** For a state written under the policy, the checks against that state never fire: only
      the authorisation of the next version decides. */
  lemma {:induction false} ChecksReduceToAuthorisation(o: Options, s: State)
    requires GoodOptions(o) && WrittenUnder(o.root, o.policy, s)
    ensures PolicyContinues(o, s).Ok?
    ensures CheckState(o, Some(s)).Ok?
            <==> s.lastVersion < MAX_U64 && KeyPolicyGrant(o.policy, KeyID(o.privateKey.public), s.lastVersion + 1).Ok?
  {
    hide ShapeOk, GrantIn;
    var keyId := KeyID(o.privateKey.public);
    if s.lastVersion < MAX_U64 && KeyPolicyGrant(o.policy, keyId, s.lastVersion + 1).Ok? {
      PolicyPartitionsVersions(o.policy, s.keyId, s.lastVersion);
      PolicyPartitionsVersions(o.policy, keyId, s.lastVersion + 1);
      EpochsFollowVersions(o.policy, s.lastVersion, s.lastVersion + 1);
    }
  }

  /** For a state written under the policy, or one from before policies that it can adopt. */
  lemma {:induction false} StartDecision(root: RootBytes, o: Options, disk: Disk)
    requires GoodOptions(o) && o.root == root
    requires disk.visible.Some? ==>
               WrittenUnder(root, o.policy, disk.visible.value) || Adoptable(o.policy, disk.visible.value)
    ensures Start(o, disk, false, Saved).memory.Ok?
            <==> VersionOf(disk.visible) < MAX_U64
                 && KeyPolicyGrant(o.policy, KeyID(o.privateKey.public), VersionOf(disk.visible) + 1).Ok?
  {
    hide ValidateKeyPolicy, GrantIn, PolicyContinues;
    if disk.visible.Some? {
      var s := disk.visible.value;
      if s.policyVersion == 0 {
        MigratedFits(root, o, s);
        ChecksReduceToAuthorisation(o, Migrated(o, s).value);
      } else {
        ChecksReduceToAuthorisation(o, s);
      }
    }
  }

  /** After any run under one policy, however it crashed, the issuer can be restarted under
      that policy with a key exactly when the policy grants the key the version after the
      one on disk and the versions are not used up. */
  lemma {:induction false} RestartCompleteness(
    root: RootBytes, worlds: seq<World>, events: seq<Event>, n: nat, o: Options)
    requires IsRun(root, worlds, events) && UsesOnly(o.policy, events) && n < |worlds|
    requires worlds[0].disk.visible.Some? ==>
               WrittenUnder(root, o.policy, worlds[0].disk.visible.value)
               || Adoptable(o.policy, worlds[0].disk.visible.value)
    requires GoodOptions(o) && o.root == root
    ensures Start(o, worlds[n].disk, false, Saved).memory.Ok?
            <==> VersionOf(worlds[n].disk.visible) < MAX_U64
                 && KeyPolicyGrant(o.policy, KeyID(o.privateKey.public), VersionOf(worlds[n].disk.visible) + 1).Ok?
  {
    hide Start, GoodOptions, KeyPolicyGrant, WrittenUnder, Adoptable;
    RunFits(root, worlds, events, n);
    StartDecision(root, o, worlds[n].disk);
  }

  // ----- restarting under another policy

  /** A state that says itself which policy it was written under: a policy digest stands for
      the policy. */
  predicate Bound(root: RootBytes, s: State) {
    s.policyDigest.DigestOf? && WrittenUnder(root, s.policyDigest.content, s)
  }

  lemma {:induction false} WrittenIsBound(root: RootBytes, policy: KeyPolicy, s: State)
    requires WrittenUnder(root, policy, s)
    ensures Bound(root, s) && SamePolicyContents(policy, s.policyDigest.content)
  {
    hide ShapeOk, GrantIn;
    SortBySorts(policy.keys, GrantKey);
    PolicyOrderIsIrrelevant(policy, CanonicalKeyPolicy(policy), root, s.keyId, s.lastVersion);
  }

  /** The same policy version and digest mean the same grants, so the durable state is
      consistent with the policy at hand. */
  lemma {:induction false} SameDigestSamePolicy(root: RootBytes, policy: KeyPolicy, s: State)
    requires Bound(root, s) && ValidateKeyPolicy(policy, root).Ok?
    ensures ValidateKeyPolicy(policy, root) == Ok(s.policyDigest)
            <==> SamePolicyContents(policy, s.policyDigest.content)
    ensures SamePolicyContents(policy, s.policyDigest.content) ==> WrittenUnder(root, policy, s)
  {
    hide ShapeOk, GrantIn;
    PolicyDigestIdentifiesContents(policy, s.policyDigest.content, root);
    if SamePolicyContents(policy, s.policyDigest.content) {
      PolicyOrderIsIrrelevant(s.policyDigest.content, policy, root, s.keyId, s.lastVersion);
    }
  }

  /** The initial disk, as some earlier issuer may have left it. */
  predicate OwnState(root: RootBytes, s: Option<State>) {
    s.Some? && s.value.policyVersion > 0 ==> Bound(root, s.value)
  }

  lemma {:induction false} DiskStaysOwn(root: RootBytes, worlds: seq<World>, events: seq<Event>, n: nat)
    requires IsRun(root, worlds, events) && n < |worlds| && OwnState(root, worlds[0].disk.visible)
    ensures OwnState(root, worlds[n].disk.visible)
    ensures worlds[n].disk.visible.Some? ==> ValidState(worlds[n].disk.visible.value, true)
  {
    hide Bound, WrittenUnder, LogOk, ProcsOk, ClientsOk;
    RunFits(root, worlds, events, n);
    RunKeepsInv(root, worlds, events, n);
    var s := worlds[n].disk.visible;
    if s != worlds[0].disk.visible {
      var p :| p in PoliciesIn(events) && WrittenUnder(root, p, s.value);
      WrittenIsBound(root, p, s.value);
    }
  }

  /** The epoch of the key for the next version fits the state: unchanged for the same key,
      higher for another. */
  predicate EpochContinues(o: Options, s: State) {
    && s.lastVersion < MAX_U64
    && var keyId := KeyID(o.privateKey.public);
    && var grant := KeyPolicyGrant(o.policy, keyId, s.lastVersion + 1);
    && grant.Ok?
    && if keyId == s.keyId then grant.value.epoch == s.keyEpoch else grant.value.epoch > s.keyEpoch
  }

  /** The key is granted the next version, and the policy may follow the state: it adopts a
      state from before policies, it is the policy of the state up to grant order, or it is
      newer and does not change the epoch of the key or set it back. */
  predicate CanStart(o: Options, visible: Option<State>) {
    && VersionOf(visible) < MAX_U64
    && KeyPolicyGrant(o.policy, KeyID(o.privateKey.public), VersionOf(visible) + 1).Ok?
    && (visible.Some? ==>
          var s := visible.value;
          if s.policyVersion == 0 then KeyPolicyGrant(o.policy, s.keyId, s.lastVersion).Ok?
          else
            || (s.policyDigest.DigestOf? && SamePolicyContents(o.policy, s.policyDigest.content))
            || (s.policyVersion < o.policy.version && EpochContinues(o, s)))
  }

  lemma {:induction false} CheckDecision(o: Options, s: State)
    requires GoodOptions(o) && Bound(o.root, s)
    ensures CheckState(o, Some(s)).Ok? <==> CanStart(o, Some(s))
    ensures o.policy.version == s.policyVersion && ValidateKeyPolicy(o.policy, o.root) == Ok(s.policyDigest) ==>
              PolicyContinues(o, s).Ok?
  {
    hide ShapeOk, GrantIn, ValidateKeyPolicy;
    SameDigestSamePolicy(o.root, o.policy, s);
    if SamePolicyContents(o.policy, s.policyDigest.content) { ChecksReduceToAuthorisation(o, s); }
  }

  /** After any run, with any rotation of policies and keys in it, an issuer starts if and only
      if `CanStart`; and if it is configured with the policy of the durable state, the check
      that this state is consistent with the policy never fires. */
  lemma {:induction false} StartCondition(root: RootBytes, worlds: seq<World>, events: seq<Event>, n: nat, o: Options)
    requires IsRun(root, worlds, events) && n < |worlds| && OwnState(root, worlds[0].disk.visible)
    requires o.root == root
    ensures Start(o, worlds[n].disk, false, Saved).memory.Ok? <==>
            AcceptedOptions(o) && CanStart(o, worlds[n].disk.visible)
    ensures var s := worlds[n].disk.visible;
            && s.Some? && o.policy.version == s.value.policyVersion
            && ValidateKeyPolicy(o.policy, root) == Ok(s.value.policyDigest)
            ==> var g := KeyPolicyGrant(o.policy, s.value.keyId, s.value.lastVersion);
                g.Ok? && g.value.epoch == s.value.keyEpoch
  {
    hide GrantIn, ValidateKeyPolicy, Bound, CheckState, CanStart;
    DiskStaysOwn(root, worlds, events, n);
    var s := worlds[n].disk.visible;
    if AcceptedOptions(o) { StartMatchesCondition(root, o, worlds[n].disk); }
    if s.Some? && s.value.policyVersion > 0 && ValidateKeyPolicy(o.policy, root) == Ok(s.value.policyDigest) {
      SameDigestSamePolicy(root, o.policy, s.value);
    }
  }

  lemma {:induction false} StartMatchesCondition(root: RootBytes, o: Options, disk: Disk)
    requires GoodOptions(o) && o.root == root && OwnState(root, disk.visible)
    requires disk.visible.Some? ==> ValidState(disk.visible.value, true)
    ensures Start(o, disk, false, Saved).memory.Ok? <==> CanStart(o, disk.visible)
  {
    hide ValidateKeyPolicy, GrantIn, PolicyContinues, Bound;
    if disk.visible.Some? {
      var s := disk.visible.value;
      if s.policyVersion > 0 {
        CheckDecision(o, s);
      } else if KeyPolicyGrant(o.policy, s.keyId, s.lastVersion).Ok? {
        StartDecision(root, o, disk);
      }
    }
  }
}
