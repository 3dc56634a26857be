/** How often a version can be signed. `refresh` signs before it saves, and learns whether the
    save succeeded only afterwards: internal/service/issuer.go and internal/issuance/state.go. */
module Reuse {
  import opened Basics
  import opened Ordering
  import opened KeyPolicies
  import opened Catalogs
  import opened Manifests
  import opened Issuance
  import opened Issuers
  import opened Protocol
  import opened Rotation
  import opened Samples

  /** The event gets as far as the signature, whatever becomes of the save after it. */
  predicate Signs(w: World, ev: Event) {
    && (ev.CallIssuer? || ev.CrashInCall?)
    && ev.proc in w.procs
    && Refreshes(w.procs[ev.proc], TruncateToSecond(ev.input.clock))
    && Prepare(w.procs[ev.proc], TruncateToSecond(ev.input.clock), ev.input).Ok?
  }

  /** The envelope that was signed and the state that goes with it. */
  function Signed(w: World, ev: Event): Publication
    requires Signs(w, ev)
  {
    var (e, s) := Prepare(w.procs[ev.proc], TruncateToSecond(ev.input.clock), ev.input).value;
    Publication(e, s)
  }

  function SignedVersion(w: World, ev: Event): U64
    requires Signs(w, ev)
  {
    Signed(w, ev).state.lastVersion
  }

  /** A start that leaves a running issuer. */
  predicate Boots(w: World, ev: Event) {
    ev.StartUp? && w.holder.None? && Start(ev.options, w.disk, ev.readFails, ev.save).memory.Ok?
  }

  // ----- single steps

  /** What a signature is, and what is left of it once the save has ended one way or another. */
  predicate SignEffect(root: RootBytes, w: World, ev: Event, w': World)
    requires Signs(w, ev)
  {
    var v, p := SignedVersion(w, ev), ev.proc;
    && w.holder == Some(p) && v == w.procs[p].state.lastVersion + 1
    && Describes(root, Signed(w, ev).envelope, Signed(w, ev).state)
    && ValidState(Signed(w, ev).state, false)
    && w'.disk == SavedDisk(w.disk, Signed(w, ev).state, ev.input.save)
    && VersionOf(w'.disk.visible) <= v
    && (if ev.CrashInCall? then w'.holder.None? && w'.log == w.log
        else
          && w'.holder == Some(p) && p in w'.procs
          && w'.procs[p].state.lastVersion == (if ev.input.save.Saved? then v else v - 1)
          && w'.log == (if ev.input.save.Saved? then w.log + [Signed(w, ev)] else w.log))
  }

  lemma {:induction false} SignStep(root: RootBytes, w: World, ev: Event)
    requires Inv(root, w) && Allowed(root, w, ev) && Signs(w, ev)
    ensures SignEffect(root, w, ev, Apply(root, w, ev))
  {
    hide Prepare, Call, Published, Describes, LogOk, ClientsOk, ConfigOk, Follows;
    var m, now := w.procs[ev.proc], TruncateToSecond(ev.input.clock);
    PreparedStateIsSound(root, m, now, ev.input);
    CallUnfolds(m, w.disk, ev.input);
  }

  /** A step without a signature: the disk holds what it held, at most without the rename that
      a power loss undid; an issuer that runs afterwards ran before with the same state, or
      has just been started from what was visible. */
  predicate PlainEffect(w: World, ev: Event, w': World) {
    && VersionOf(w'.disk.visible) in {VersionOf(w.disk.visible), VersionOf(w.disk.synced)}
    && VersionOf(w'.disk.synced) in {VersionOf(w.disk.visible), VersionOf(w.disk.synced)}
    && (w'.holder.Some? ==>
          && VersionOf(w'.disk.visible) == VersionOf(w.disk.visible)
          && w'.holder.value in w'.procs
          && if Boots(w, ev)
             then w'.holder == Some(ev.proc) && w'.procs[ev.proc].state.lastVersion == VersionOf(w.disk.visible)
             else w'.holder == w.holder && w'.holder.value in w.procs
                  && w'.procs[w'.holder.value].state == w.procs[w'.holder.value].state)
  }

  lemma {:induction false} StartEffectOnDisk(root: RootBytes, w: World, o: Options, readFails: bool, save: SaveOutcome)
    requires Inv(root, w) && o.root == root
    ensures var s := Start(o, w.disk, readFails, save);
            && VersionOf(s.disk.visible) == VersionOf(w.disk.visible)
            && VersionOf(s.disk.synced) in {VersionOf(w.disk.visible), VersionOf(w.disk.synced)}
            && (s.memory.Ok? ==> s.memory.value.state.lastVersion == VersionOf(w.disk.visible))
  {
    hide LogOk, ClientsOk, ProcsOk, Migrated, CheckState, ValidateKeyPolicy;
    if w.disk.visible.Some? && w.disk.visible.value.policyVersion == 0 {
      LegacyStartUnfolds(o, w.disk, readFails, save);
    }
  }

  lemma {:induction false} PlainStep(root: RootBytes, w: World, ev: Event)
    requires Inv(root, w) && Allowed(root, w, ev) && !Signs(w, ev)
    ensures PlainEffect(w, ev, Apply(root, w, ev))
  {
    hide Prepare, Call, Published, Start, Verify, LogOk, ClientsOk, ConfigOk, Follows, Unforged, Refreshes;
    match ev
    case StartUp(p, o, readFails, save) => StartEffectOnDisk(root, w, o, readFails, save);
    case CallIssuer(p, input) => PlainCall(w.procs[p], w.disk, input);
    case CrashInCall(p, input) => PlainCall(w.procs[p], w.disk, input);
    case _ =>
  }

  lemma {:induction false} PlainCall(m: Memory, disk: Disk, input: Input)
    requires !(Refreshes(m, TruncateToSecond(input.clock)) && Prepare(m, TruncateToSecond(input.clock), input).Ok?)
    ensures Call(m, disk, input).disk == disk && Call(m, disk, input).memory.state == m.state
  {
    hide Prepare;
    if m.closed { ClosedCallDoesNothing(m, disk, input); } else { CallUnfolds(m, disk, input); }
  }

  // ----- stretches of a run without a signature

  predicate Silent(worlds: seq<World>, events: seq<Event>, i: nat, j: nat)
    requires j <= |events| < |worlds|
  {
    forall k | i <= k < j :: !Signs(worlds[k], events[k])
  }

  lemma {:induction false} PlainRunStep(root: RootBytes, worlds: seq<World>, events: seq<Event>, k: nat)
    requires IsRun(root, worlds, events) && k < |events| && !Signs(worlds[k], events[k])
    ensures PlainEffect(worlds[k], events[k], worlds[k+1])
  {
    hide Inv, Signs, PlainEffect, Apply, Allowed;
    RunKeepsInv(root, worlds, events, k);
    assert StepAt(root, worlds, events, k);
    PlainStep(root, worlds[k], events[k]);
  }

  lemma {:induction false} SilentDisk(root: RootBytes, worlds: seq<World>, events: seq<Event>, i: nat, j: nat)
    requires IsRun(root, worlds, events) && i <= j <= |events| && Silent(worlds, events, i, j)
    ensures VersionOf(worlds[j].disk.visible) in {VersionOf(worlds[i].disk.visible), VersionOf(worlds[i].disk.synced)}
    ensures VersionOf(worlds[j].disk.synced) in {VersionOf(worlds[i].disk.visible), VersionOf(worlds[i].disk.synced)}
    decreases j
  {
    hide Signs, Boots;
    if i < j {
      SilentDisk(root, worlds, events, i, j - 1);
      PlainRunStep(root, worlds, events, j - 1);
    }
  }

  /** The last start after event `i` and before event `j` that left a running issuer. */
  function LastBoot(worlds: seq<World>, events: seq<Event>, i: nat, j: nat): (r: Option<nat>)
    requires i < j <= |events| < |worlds|
    ensures r.Some? ==> i < r.value < j
  {
    if j == i + 1 then None
    else if Boots(worlds[j-1], events[j-1]) then Some(j - 1)
    else LastBoot(worlds, events, i, j - 1)
  }

  lemma {:induction false} LastBootIsLast(worlds: seq<World>, events: seq<Event>, i: nat, j: nat)
    requires i < j <= |events| < |worlds|
    ensures var r := LastBoot(worlds, events, i, j);
            && (r.Some? ==> Boots(worlds[r.value], events[r.value]))
            && forall l | i < l < j && (r.Some? ==> r.value < l) :: !Boots(worlds[l], events[l])
  {
    hide Boots;
    if j > i + 1 && !Boots(worlds[j-1], events[j-1]) { LastBootIsLast(worlds, events, i, j - 1); }
  }

  /** An issuer still running has the state it had, and sees the version it saw. */
  lemma {:induction false} SilentIssuer(root: RootBytes, worlds: seq<World>, events: seq<Event>, i: nat, j: nat)
    requires IsRun(root, worlds, events) && i <= j <= |events| && Silent(worlds, events, i, j)
    requires forall l | i <= l < j :: !Boots(worlds[l], events[l])
    requires worlds[j].holder.Some? && worlds[j].holder.value in worlds[j].procs
    ensures worlds[i].holder == worlds[j].holder && worlds[i].holder.value in worlds[i].procs
    ensures worlds[i].procs[worlds[i].holder.value].state == worlds[j].procs[worlds[j].holder.value].state
    ensures VersionOf(worlds[i].disk.visible) == VersionOf(worlds[j].disk.visible)
    decreases j
  {
    hide Signs, Boots;
    if i < j {
      PlainRunStep(root, worlds, events, j - 1);
      SilentIssuer(root, worlds, events, i, j - 1);
    }
  }

  lemma {:induction false} SignRunStep(root: RootBytes, worlds: seq<World>, events: seq<Event>, k: nat)
    requires IsRun(root, worlds, events) && k < |events| && Signs(worlds[k], events[k])
    ensures SignEffect(root, worlds[k], events[k], worlds[k+1])
  {
    hide Inv, Signs, SignEffect, Apply, Allowed;
    RunKeepsInv(root, worlds, events, k);
    assert StepAt(root, worlds, events, k);
    SignStep(root, worlds[k], events[k]);
  }

  // ----- one signature after another

  /** The version that the signature at `j` gets, given that the one before it was at `i`. */
  function VersionAfter(worlds: seq<World>, events: seq<Event>, i: nat, j: nat): nat
    requires i < j <= |events| < |worlds| && Signs(worlds[i], events[i])
  {
    match LastBoot(worlds, events, i, j)
    case Some(k) => VersionOf(worlds[k].disk.visible) + 1
    case None => SignedVersion(worlds[i], events[i]) + if events[i].input.save.Saved? then 1 else 0
  }

  lemma {:induction false} NextVersion(root: RootBytes, worlds: seq<World>, events: seq<Event>, i: nat, j: nat)
    requires IsRun(root, worlds, events) && i < j < |events|
    requires Signs(worlds[i], events[i]) && Signs(worlds[j], events[j]) && Silent(worlds, events, i + 1, j)
    ensures SignedVersion(worlds[j], events[j]) == VersionAfter(worlds, events, i, j)
    ensures LastBoot(worlds, events, i, j).None? ==> events[i].CallIssuer? && events[j].proc == events[i].proc
  {
    hide Prepare, Refreshes, Boots, Describes, LastBoot, StepAt, Initial, SavedDisk;
    LastBootIsLast(worlds, events, i, j);
    SignRunStep(root, worlds, events, i);
    SignRunStep(root, worlds, events, j);
    match LastBoot(worlds, events, i, j)
    case Some(k) =>
      SilentIssuer(root, worlds, events, k + 1, j);
      PlainRunStep(root, worlds, events, k);
    case None =>
      SilentIssuer(root, worlds, events, i + 1, j);
  }

  /** Over every run, for two signatures with none in between. The second does not advance if
      and only if the save after the first was not reported done and either the same process
      goes on or the version visible at the last restart is below the first's. It repeats the
      first's version if and only if, in the case of a restart, that version is the one just
      below. Otherwise it is the next version. */
  lemma {:induction false} NextSignature(root: RootBytes, worlds: seq<World>, events: seq<Event>, i: nat, j: nat)
    requires IsRun(root, worlds, events) && i < j < |events|
    requires Signs(worlds[i], events[i]) && Signs(worlds[j], events[j]) && Silent(worlds, events, i + 1, j)
    ensures var v, v' := SignedVersion(worlds[i], events[i]), SignedVersion(worlds[j], events[j]);
            var boot, reported := LastBoot(worlds, events, i, j), events[i].input.save.Saved?;
            && v' <= v + 1
            && (v' <= v <==> !reported && (boot.None? || VersionOf(worlds[boot.value].disk.visible) < v))
            && (v' == v <==> !reported && (boot.None? || VersionOf(worlds[boot.value].disk.visible) == v - 1))
            && (boot.None? ==> events[i].CallIssuer? && events[j].proc == events[i].proc)
  {
    hide Prepare, Refreshes, Boots, Describes, LastBoot, StepAt, Initial, PlainEffect;
    NextVersion(root, worlds, events, i, j);
    SignRunStep(root, worlds, events, i);
    match LastBoot(worlds, events, i, j)
    case Some(k) =>
      RunKeepsOrder(root, worlds, events, i + 1);
      SilentDisk(root, worlds, events, i + 1, k);
    case None =>
  }

  lemma {:induction false} RunKeepsOrder(root: RootBytes, worlds: seq<World>, events: seq<Event>, i: nat)
    requires IsRun(root, worlds, events) && i < |worlds|
    ensures VersionOf(worlds[i].disk.synced) <= VersionOf(worlds[i].disk.visible)
  {
    hide LogOk, ProcsOk, ClientsOk, StoredOk;
    RunKeepsInv(root, worlds, events, i);
  }

  // ----- what is never signed again

  /** Nothing that an issuer could start from, or has in memory, is below `f`. */
  predicate AtLeast(w: World, f: nat) {
    && f <= VersionOf(w.disk.visible) && f <= VersionOf(w.disk.synced)
    && (w.holder.Some? ==> w.holder.value in w.procs && f <= w.procs[w.holder.value].state.lastVersion)
  }

  lemma {:induction false} StaysAtLeast(root: RootBytes, worlds: seq<World>, events: seq<Event>, i: nat, j: nat, f: nat)
    requires IsRun(root, worlds, events) && i <= j <= |events| && AtLeast(worlds[i], f)
    ensures AtLeast(worlds[j], f)
    decreases j
  {
    hide Prepare, Refreshes, Boots, Describes, StepAt, Initial;
    if i < j {
      StaysAtLeast(root, worlds, events, i, j - 1, f);
      if Signs(worlds[j-1], events[j-1]) {
        SignRunStep(root, worlds, events, j - 1);
      } else {
        PlainRunStep(root, worlds, events, j - 1);
      }
    }
  }

  /** A version whose save was reported done is never signed again, by any process, after any
      crashes and power losses: every later signature has a higher version. In particular no
      published version is ever signed again. Every signature says the version it stands for. */
  lemma {:induction false} ReportedVersionsAreNeverSignedAgain(
    root: RootBytes, worlds: seq<World>, events: seq<Event>, i: nat, j: nat, k: nat)
    requires IsRun(root, worlds, events) && j < |events| && Signs(worlds[j], events[j])
    ensures i < j && Signs(worlds[i], events[i]) && events[i].input.save.Saved? ==>
              SignedVersion(worlds[i], events[i]) < SignedVersion(worlds[j], events[j])
    ensures k < |worlds[j].log| ==>
              && Authenticate(worlds[j].log[k].envelope, root).Ok?
              && Authenticate(worlds[j].log[k].envelope, root).value.0.version < SignedVersion(worlds[j], events[j])
    ensures Authenticate(Signed(worlds[j], events[j]).envelope, root).Ok?
    ensures Authenticate(Signed(worlds[j], events[j]).envelope, root).value.0.version
            == SignedVersion(worlds[j], events[j])
  {
    hide Prepare, Refreshes, StepAt, Initial, Authenticate, ConfigOk, Inv;
    SignRunStep(root, worlds, events, j);
    CandidateRecordsPayload(Signed(worlds[j], events[j]).envelope, root);
    RunKeepsInv(root, worlds, events, j);
    if k < |worlds[j].log| {
      PublishedIsDurable(root, worlds[j], k);
      PublishedIsInMemory(root, worlds[j], k);
    }
    if i < j && Signs(worlds[i], events[i]) && events[i].input.save.Saved? {
      SignRunStep(root, worlds, events, i);
      StaysAtLeast(root, worlds, events, i + 1, j, SignedVersion(worlds[i], events[i]));
    }
  }

  lemma {:induction false} PublishedIsInMemory(root: RootBytes, w: World, k: nat)
    requires Inv(root, w) && k < |w.log| && w.holder.Some?
    ensures w.holder.value in w.procs && w.log[k].state.lastVersion <= w.procs[w.holder.value].state.lastVersion
  {
    hide EntryOk, ConfigOk, ClientsOk, DiskOk;
    if k < |w.log| - 1 { assert InOrder(w.log, k, |w.log| - 1); }
  }

  /** Only signatures are published: exactly those of calls that end and whose save is reported
      done. */
  lemma {:induction false} PublishingIsSigning(root: RootBytes, worlds: seq<World>, events: seq<Event>, i: nat)
    requires IsRun(root, worlds, events) && i < |events|
    ensures worlds[i+1].log == worlds[i].log
                               + if events[i].CallIssuer? && Signs(worlds[i], events[i]) && events[i].input.save.Saved?
                                 then [Signed(worlds[i], events[i])] else []
  {
    hide Signs, Signed, Describes, Prepare, Call, Published, Verify, Start;
    assert StepAt(root, worlds, events, i);
    if Signs(worlds[i], events[i]) {
      SignRunStep(root, worlds, events, i);
    } else if events[i].CallIssuer? {
      NotSigningPublishesNothing(worlds[i], events[i]);
    }
  }

  lemma {:induction false} NotSigningPublishesNothing(w: World, ev: Event)
    requires ev.CallIssuer? && ev.proc in w.procs && !Signs(w, ev)
    ensures Published(w.procs[ev.proc], w.disk, ev.input) == []
  {
    hide Prepare;
    var m := w.procs[ev.proc];
    if m.closed { ClosedCallDoesNothing(m, w.disk, ev.input); } else { CallUnfolds(m, w.disk, ev.input); }
  }

  // ----- whole runs

  /** The last signature before event `j`. */
  function LastSign(worlds: seq<World>, events: seq<Event>, j: nat): (r: Option<nat>)
    requires j <= |events| < |worlds|
    ensures r.Some? ==> r.value < j
  {
    if j == 0 then None
    else if Signs(worlds[j-1], events[j-1]) then Some(j - 1)
    else LastSign(worlds, events, j - 1)
  }

  lemma {:induction false} LastSignIsLast(worlds: seq<World>, events: seq<Event>, j: nat)
    requires j <= |events| < |worlds|
    ensures var r := LastSign(worlds, events, j);
            && (r.Some? ==> Signs(worlds[r.value], events[r.value]) && Silent(worlds, events, r.value + 1, j))
            && (r.None? ==> Silent(worlds, events, 0, j))
  {
    hide Signs;
    if j > 0 && !Signs(worlds[j-1], events[j-1]) { LastSignIsLast(worlds, events, j - 1); }
  }

  /** The first signature of a run gets the version after the initial one; none gets less. */
  lemma {:induction false} VersionsStartAbove(root: RootBytes, worlds: seq<World>, events: seq<Event>, i: nat)
    requires IsRun(root, worlds, events) && i < |events| && Signs(worlds[i], events[i])
    ensures SignedVersion(worlds[i], events[i]) > VersionOf(worlds[0].disk.visible)
    ensures Silent(worlds, events, 0, i) ==>
              SignedVersion(worlds[i], events[i]) == VersionOf(worlds[0].disk.visible) + 1
  {
    hide Prepare, Refreshes, Describes, StepAt, LogOk, ClientsOk, ConfigOk, Follows;
    SignRunStep(root, worlds, events, i);
    StaysAtLeast(root, worlds, events, 0, i, VersionOf(worlds[0].disk.visible));
    RunKeepsInv(root, worlds, events, i);
    if Silent(worlds, events, 0, i) { SilentDisk(root, worlds, events, 0, i); }
  }

  /** Signed versions rise by at most one at a time, so none is left out on the way up. */
  lemma {:induction false} EveryVersionBelowWasSigned(
    root: RootBytes, worlds: seq<World>, events: seq<Event>, i: nat, v: nat) returns (k: nat)
    requires IsRun(root, worlds, events) && i < |events| && Signs(worlds[i], events[i])
    requires VersionOf(worlds[0].disk.visible) < v <= SignedVersion(worlds[i], events[i])
    ensures k <= i && Signs(worlds[k], events[k]) && SignedVersion(worlds[k], events[k]) == v
    decreases i
  {
    hide Signs, StepAt, Initial, LastSign, LastBoot;
    k := i;
    if v < SignedVersion(worlds[i], events[i]) {
      LastSignIsLast(worlds, events, i);
      match LastSign(worlds, events, i)
      case None => VersionsStartAbove(root, worlds, events, i);
      case Some(h) =>
        NextSignature(root, worlds, events, h, i);
        k := EveryVersionBelowWasSigned(root, worlds, events, h, v);
    }
  }

  /** The signature at `j` is the next after the one at `i`, whose save was not reported done;
      and the same process goes on, or the version visible at the last restart is lower. */
  predicate StallsAt(worlds: seq<World>, events: seq<Event>, i: nat, j: nat)
    requires j < |events| < |worlds|
  {
    && i < j && Signs(worlds[i], events[i]) && Signs(worlds[j], events[j]) && Silent(worlds, events, i + 1, j)
    && !events[i].input.save.Saved?
    && var boot := LastBoot(worlds, events, i, j);
    (boot.None? || VersionOf(worlds[boot.value].disk.visible) < SignedVersion(worlds[i], events[i]))
  }

  predicate SameVersionAt(worlds: seq<World>, events: seq<Event>, i: nat, j: nat)
    requires j < |events| < |worlds|
  {
    && i < j && Signs(worlds[i], events[i]) && Signs(worlds[j], events[j])
    && SignedVersion(worlds[i], events[i]) == SignedVersion(worlds[j], events[j])
  }

  lemma {:induction false} WithoutStallsVersionsRise(
    root: RootBytes, worlds: seq<World>, events: seq<Event>, i: nat, j: nat)
    requires IsRun(root, worlds, events) && i < j < |events|
    requires Signs(worlds[i], events[i]) && Signs(worlds[j], events[j])
    requires forall k, l | 0 <= k < l <= j :: !StallsAt(worlds, events, k, l)
    ensures SignedVersion(worlds[i], events[i]) < SignedVersion(worlds[j], events[j])
    decreases j
  {
    hide Prepare, Refreshes, StepAt, Initial, LastSign, LastBoot, Boots;
    LastSignIsLast(worlds, events, j);
    var h := LastSign(worlds, events, j).value;
    assert !StallsAt(worlds, events, h, j);
    NextSignature(root, worlds, events, h, j);
    if i < h { WithoutStallsVersionsRise(root, worlds, events, i, h); }
  }

  /** Over every run: some version is signed twice if and only if some signature stalls. */
  lemma {:induction false} SignedTwiceIffStalled(root: RootBytes, worlds: seq<World>, events: seq<Event>)
    requires IsRun(root, worlds, events)
    ensures (exists i, j | 0 <= i < j < |events| :: SameVersionAt(worlds, events, i, j))
            <==> (exists i, j | 0 <= i < j < |events| :: StallsAt(worlds, events, i, j))
  {
    hide Prepare, Refreshes, StepAt, Initial, LastBoot, Boots;
    if i, j :| 0 <= i < j < |events| && StallsAt(worlds, events, i, j) {
      NextSignature(root, worlds, events, i, j);
      VersionsStartAbove(root, worlds, events, j);
      var k := EveryVersionBelowWasSigned(root, worlds, events, i, SignedVersion(worlds[j], events[j]));
      assert SameVersionAt(worlds, events, k, j);
    } else if i, j :| 0 <= i < j < |events| && SameVersionAt(worlds, events, i, j) {
      WithoutStallsVersionsRise(root, worlds, events, i, j);
    }
  }

  // ----- runs in which a version is signed twice

  /** The sample catalog under the same revision with another mirror priority. */
  const OTHER := SAMPLE.(discovery := [SAMPLE.discovery[0].(priority := 20)])

  lemma {:induction false} OtherDiffers()
    ensures ValidContents(OTHER.discovery, OTHER.nodes) && OTHER.revision == SAMPLE.revision
    ensures CanonicalCatalog(OTHER) != CanonicalCatalog(SAMPLE)
  {
    hide ValidNodes;
    SampleIsValid();
    assert CanonicalDiscovery(SAMPLE.discovery) == SAMPLE.discovery by { OneIsSorted(SAMPLE.discovery[0]); }
    assert CanonicalDiscovery(OTHER.discovery) == OTHER.discovery by { OneIsSorted(OTHER.discovery[0]); }
  }

  lemma {:induction false} OneIsSorted(d: DiscoveryEndpoint)
    ensures CanonicalDiscovery([d]) == [d]
  {
    SortBySorts([d], SourceKey);
    SortedUnique([d], CanonicalDiscovery([d]), SourceKey);
  }

  function OtherInputAt(clock: Time): Input {
    Input(clock, Ok(OTHER), 1000, Saved)
  }

  lemma {:induction false} OtherSigns(m: Memory, clock: Time)
    requires m.options.privateKey.wellSized && m.options.privateKey.derived == m.options.privateKey.public
    requires m.options.ttl == 15 * MINUTE && m.state.lastVersion == 0
    requires KeyPolicyGrant(m.options.policy, m.keyId, 1).Ok?
    requires 0 < clock < 100 * HOUR
    ensures CanSign(m, clock, OtherInputAt(clock))
  {
    hide ValidContents, KeyPolicyGrant, CanonicalCatalog;
    OtherDiffers();
  }

  /** A call whose save fails: signed, not published, and retried after the delay. */
  lemma {:induction false} CallFails(root: RootBytes, m: Memory, disk: Disk, input: Input)
    requires ConfigOk(root, m) && Refreshes(m, input.clock) && MINUTE <= m.options.ttl <= HOUR && m.cached.None?
    requires input.clock % SECOND == 0 && !input.save.Saved? && CanSign(m, input.clock, input)
    ensures Prepare(m, input.clock, input).Ok?
    ensures var (e, next) := Prepare(m, input.clock, input).value;
            && Published(m, disk, input) == []
            && Call(m, disk, input).disk == SavedDisk(disk, next, input.save)
            && next == NextState(m, input.catalog.value, DigestOf(CanonicalCatalog(input.catalog.value)), input.clock)
            && Describes(root, e, next) && ValidState(next, false)
    ensures exists reason ::
              Call(m, disk, input).memory
              == m.(lastError := Some(reason), retryAt := input.clock + Min(RETRY_DELAY, m.options.cacheFor))
  {
    hide Prepare, ConfigOk, CanSign, Describes;
    assert TruncateToSecond(input.clock) == input.clock;
    SigningCondition(root, m, input.clock, input);
    CallUnfolds(m, disk, input);
    PreparedFields(root, m, input.clock, input);
    PreparedStateIsSound(root, m, input.clock, input);
    var r := Refresh(m, disk, input.clock, input);
    assert r.result.Err? && r.memory == m;
    assert Call(m, disk, input) == AfterRefresh(r, input.clock);
  }

  lemma {:induction false} SaveDoesNotMatter(m: Memory, now: Time, input: Input, save: SaveOutcome)
    requires CanSign(m, now, input)
    ensures CanSign(m, now, input.(save := save))
  {
    hide ValidContents, KeyPolicyGrant, CatalogContinues;
  }

  /** Two authentic envelopes of one version and one catalog revision with different
      catalogs, and so with different bytes. */
  predicate Equivocate(root: RootBytes, a: Publication, b: Publication) {
    && Authenticate(a.envelope, root).Ok? && Authenticate(b.envelope, root).Ok?
    && var d, d' := Authenticate(a.envelope, root).value.0, Authenticate(b.envelope, root).value.0;
    && d.version == d'.version == a.state.lastVersion == b.state.lastVersion
    && d.catalogRevision == d'.catalogRevision && CatalogOf(d) != CatalogOf(d')
    && a.envelope.payload != b.envelope.payload
  }

  lemma {:induction false} DifferentDigestsEquivocate(root: RootBytes, a: Publication, b: Publication)
    requires Describes(root, a.envelope, a.state) && Describes(root, b.envelope, b.state)
    requires a.state.lastVersion == b.state.lastVersion && a.state.catalogRevision == b.state.catalogRevision
    requires a.state.catalogDigest != b.state.catalogDigest
    ensures Equivocate(root, a, b)
  {
    hide Authenticate;
    CandidateRecordsPayload(a.envelope, root);
    CandidateRecordsPayload(b.envelope, root);
  }

  const EMPTY_WORLD := World(Disk(None, None), None, map[], [], map[])
  const SETUP := OptionsWith(K, 1, FIRST)

  lemma {:induction false} FirstIssuerCanSign(p: nat, clock: Time)
    requires 0 < clock < 100 * HOUR && clock % SECOND == 0
    ensures IsRun(RootKey(ROOT), [EMPTY_WORLD], []) && AllGoesWell([EMPTY_WORLD], [])
    ensures CheckState(SETUP, None) == Ok(1)
    ensures RoundPossible(RootKey(ROOT), EMPTY_WORLD, p, SETUP, InputAt(clock))
    ensures RoundPossible(RootKey(ROOT), EMPTY_WORLD, p, SETUP, OtherInputAt(clock))
  {
    hide GoodOptions, CanSign, KeyPolicyGrant, GrantChain, Apply, ValidateKeyPolicy;
    GrantsChain();
    SetUp(K, 1, FIRST);
    GrantsFound();
    SampleSigns(NewMemory(SETUP, 1, None), clock);
    OtherSigns(NewMemory(SETUP, 1, None), clock);
  }

  /** Signing again in the same process. */
  lemma {:induction false} SecondCall(root: RootBytes, m: Memory, m': Memory, disk: Disk, save: SaveOutcome)
    requires ConfigOk(root, m) && Refreshes(m, T1) && m.options == SETUP && m.cached.None? && m.state.lastVersion == 0
    requires m.keyId == KeyID(K) && CanSign(m, T1, InputAt(T1)) && !save.Saved?
    requires m' == Call(m, disk, InputAt(T1).(save := save)).memory
    ensures ConfigOk(root, m') && Refreshes(m', T2) && m'.state == m.state && CanSign(m', T2, OtherInputAt(T2))
    ensures MINUTE <= m'.options.ttl <= HOUR
  {
    hide ConfigOk, CanSign, Call, KeyPolicyGrant, Describes, Prepare, Published, ValidateKeyPolicy;
    SaveDoesNotMatter(m, T1, InputAt(T1), save);
    CallFails(root, m, disk, InputAt(T1).(save := save));
    ConfigCarriesOver(root, m, m');
    GrantsFound();
    OtherSigns(m', T2);
  }

  /** The two calls of the run below. */
  lemma {:induction false} TwoCalls(root: RootBytes, w: World, m: Memory, save: SaveOutcome)
    requires w == World(Disk(None, None), Some(0), map[0 := m], [], map[]) && !save.Saved?
    requires ConfigOk(root, m) && Refreshes(m, T1) && m.options == SETUP && m.cached.None? && m.state.lastVersion == 0
    requires m.keyId == KeyID(K) && CanSign(m, T1, InputAt(T1))
    ensures var first, second := CallIssuer(0, InputAt(T1).(save := save)), CallIssuer(0, OtherInputAt(T2));
            && Signs(w, first)
            && var w' := Apply(root, w, first);
            && 0 in w'.procs && Signs(w', second)
            && Equivocate(root, Signed(w, first), Signed(w', second))
            && w'.disk == SavedDisk(w.disk, Signed(w, first).state, save)
            && Apply(root, w', second).log == [Signed(w', second)]
  {
    hide ConfigOk, CanSign, Call, KeyPolicyGrant, Describes, Prepare, Published, Refreshes, Equivocate;
    var failing := InputAt(T1).(save := save);
    var m' := Call(m, w.disk, failing).memory;
    assert TruncateToSecond(T1) == T1 && TruncateToSecond(T2) == T2;
    SecondCall(root, m, m', w.disk, save);
    SaveDoesNotMatter(m, T1, InputAt(T1), save);
    CallFails(root, m, w.disk, failing);
    var w' := Apply(root, w, CallIssuer(0, failing));
    CallPublishes(root, m', w'.disk, OtherInputAt(T2));
    OtherDiffers();
    DifferentDigestsEquivocate(root, Signed(w, CallIssuer(0, failing)), Signed(w', CallIssuer(0, OtherInputAt(T2))));
  }

  /** Whichever way a save fails, and even if the state of the first signature is already
      durable, the same process may sign its version again, for another catalog under the
      same revision, and publish that. */
  lemma {:induction false} SameProcessSignsAgain(save: SaveOutcome) returns (worlds: seq<World>, events: seq<Event>)
    requires !save.Saved?
    ensures IsRun(RootKey(ROOT), worlds, events) && |events| == 3
    ensures Signs(worlds[1], events[1]) && Signs(worlds[2], events[2]) && events[1].proc == events[2].proc
    ensures var a, b := Signed(worlds[1], events[1]), Signed(worlds[2], events[2]);
            && Equivocate(RootKey(ROOT), a, b)
            && worlds[2].disk == SavedDisk(Disk(None, None), a.state, save)
            && worlds[3].log == [b]
  {
    hide GoodOptions, CanSign, CheckState, Prepare, ConfigOk, Refreshes, Inv, Signed, Equivocate, Apply;
    var root, m := RootKey(ROOT), NewMemory(SETUP, 1, None);
    FirstIssuerCanSign(0, T1);
    RunKeepsInv(root, [EMPTY_WORLD], [], 0);
    StartSucceeds(root, EMPTY_WORLD, 0, SETUP, InputAt(T1));
    StartedMemoryIsOk(root, EMPTY_WORLD, 0, SETUP, InputAt(T1));
    FreshMemoryRefreshes(m, T1, InputAt(T1));
    var start, first, second :=
      StartUp(0, SETUP, false, Saved), CallIssuer(0, InputAt(T1).(save := save)), CallIssuer(0, OtherInputAt(T2));
    var w1 := Apply(root, EMPTY_WORLD, start);
    assert w1 == World(Disk(None, None), Some(0), map[0 := m], [], map[]);
    TwoCalls(root, w1, m, save);
    var w2 := Apply(root, w1, first);
    Extend(root, [EMPTY_WORLD], [], start);
    Extend(root, [EMPTY_WORLD] + [w1], [] + [start], first);
    Extend(root, ([EMPTY_WORLD] + [w1]) + [w2], ([] + [start]) + [first], second);
    worlds := (([EMPTY_WORLD] + [w1]) + [w2]) + [Apply(root, w2, second)];
    events := (([] + [start]) + [first]) + [second];
  }

  /** A start and a call that signs, but crashes around a save that is not done. */
  lemma {:induction false} CrashedRound(root: RootBytes, worlds: seq<World>, events: seq<Event>,
                                        p: nat, o: Options, input: Input, save: SaveOutcome)
    returns (worlds': seq<World>, events': seq<Event>)
    requires IsRun(root, worlds, events) && RoundPossible(root, worlds[|events|], p, o, input) && !save.Saved?
    ensures IsRun(root, worlds', events')
    ensures events' == events + [StartUp(p, o, false, Saved), CrashInCall(p, input.(save := save))]
    ensures worlds <= worlds' && |worlds'| == |worlds| + 2
    ensures var w, k := worlds[|events|], |events| + 1;
            CrashedRoundDone(root, w, o, input, save, worlds'[k], events'[k], worlds'[k+1])
  {
    hide Inv, Apply, CheckState, CanSign, CrashedRoundDone, GoodOptions, AllGoesWell, GoesWell, StepAt, Initial;
    var w := worlds[|events|];
    RunKeepsInv(root, worlds, events, |events|);
    CrashedRoundWorlds(root, w, p, o, input, save);
    var start, call := StartUp(p, o, false, Saved), CrashInCall(p, input.(save := save));
    var w1 := Apply(root, w, start);
    Extend(root, worlds, events, start);
    Extend(root, worlds + [w1], events + [start], call);
    worlds' := (worlds + [w1]) + [Apply(root, w1, call)];
    events' := (events + [start]) + [call];
  }

  predicate CrashedRoundDone(root: RootBytes, w: World, o: Options, input: Input, save: SaveOutcome,
                             w1: World, ev: Event, w2: World)
    requires CheckState(o, w.disk.visible).Ok? && input.catalog.Ok?
  {
    var m := NewMemory(o, CheckState(o, w.disk.visible).value, w.disk.visible);
    && Signs(w1, ev)
    && m.state.lastVersion < MAX_U64
    && Signed(w1, ev).state
       == NextState(m, input.catalog.value, DigestOf(CanonicalCatalog(input.catalog.value)), input.clock)
    && Describes(root, Signed(w1, ev).envelope, Signed(w1, ev).state) && ValidState(Signed(w1, ev).state, false)
    && w2 == w.(disk := SavedDisk(w.disk, Signed(w1, ev).state, save))
  }

  lemma {:induction false} CrashedRoundWorlds(
    root: RootBytes, w: World, p: nat, o: Options, input: Input, save: SaveOutcome)
    requires Inv(root, w) && RoundPossible(root, w, p, o, input) && !save.Saved?
    ensures var w1 := Apply(root, w, StartUp(p, o, false, Saved));
            && p in w1.procs
            && var call := CrashInCall(p, input.(save := save));
            CrashedRoundDone(root, w, o, input, save, w1, call, Apply(root, w1, call))
  {
    hide CheckState, Inv, CanSign, Describes, Published, Call, ConfigOk, Prepare, Refreshes;
    StartSucceeds(root, w, p, o, input);
    StartedMemoryIsOk(root, w, p, o, input);
    var m := NewMemory(o, CheckState(o, w.disk.visible).value, w.disk.visible);
    assert TruncateToSecond(input.clock) == input.clock;
    FreshMemoryRefreshes(m, input.clock, input);
    SaveDoesNotMatter(m, input.clock, input, save);
    CallFails(root, m, w.disk, input.(save := save));
    assert w.procs[p := m] - {p} == w.procs;
  }

  /** The state that a first issuer under `SETUP` writes for the sample catalog. */
  predicate FirstState(s: State) {
    && s == NextState(NewMemory(SETUP, 1, None), SAMPLE, DigestOf(CanonicalCatalog(SAMPLE)), T1)
    && ValidState(s, false)
  }

  lemma {:induction false} SecondIssuerCanSign(w: World, s: State)
    requires FirstState(s) && w == EMPTY_WORLD.(disk := Disk(Some(s), None))
    ensures CheckState(SETUP, Some(s)) == Ok(1)
    ensures RoundPossible(RootKey(ROOT), w, 1, SETUP, InputAt(T2))
  {
    hide GoodOptions, CanSign, GrantChain, ValidateKeyPolicy, CanonicalCatalog;
    GrantsChain();
    SetUp(K, 1, FIRST);
    PolicyIsValid(1, FIRST);
    SampleSigns(NewMemory(SETUP, 1, Some(s)), T2);
  }

  /** Two crashes and a power loss that leaves no trace of either. */
  lemma {:induction false} TwoCrashes() returns (worlds: seq<World>, events: seq<Event>)
    ensures IsRun(RootKey(ROOT), worlds, events) && |events| == 5
    ensures Signs(worlds[1], events[1]) && Signs(worlds[3], events[3])
    ensures var a := Signed(worlds[1], events[1]);
            FirstState(a.state) && Describes(RootKey(ROOT), a.envelope, a.state)
    ensures SignedVersion(worlds[3], events[3]) == 2
    ensures worlds[5] == EMPTY_WORLD
  {
    hide GoodOptions, CanSign, Prepare, Refreshes, Signed, Describes, RoundPossible, ValidState, CheckState;
    var root, loss := RootKey(ROOT), PowerLoss(false);
    FirstIssuerCanSign(0, T1);
    var ws, es := CrashedRound(root, [EMPTY_WORLD], [], 0, SETUP, InputAt(T1), FailedAfter(false));
    var a := Signed(ws[1], es[1]);
    SecondIssuerCanSign(ws[2], a.state);
    ws, es := CrashedRound(root, ws, es, 1, SETUP, InputAt(T2), FailedBefore);
    Extend(root, ws, es, loss);
    worlds, events := ws + [Apply(root, ws[4], loss)], es + [loss];
  }

  /** After restarts too. The first process signs version 1 and crashes behind the rename; the
      second finds version 1, signs version 2 and crashes before the rename; the power fails
      and the first rename is lost; the third signs version 1 again, for another catalog
      under the same revision, and publishes that. Signed versions go 1, 2, 1. */
  lemma {:induction false} SignedVersionsCanGoBack() returns (worlds: seq<World>, events: seq<Event>)
    ensures IsRun(RootKey(ROOT), worlds, events) && |events| == 8
    ensures Signs(worlds[1], events[1]) && Signs(worlds[3], events[3]) && Signs(worlds[6], events[6])
    ensures SignedVersion(worlds[1], events[1]) == 1 && SignedVersion(worlds[3], events[3]) == 2
    ensures Equivocate(RootKey(ROOT), Signed(worlds[1], events[1]), Signed(worlds[6], events[6]))
    ensures worlds[8].log == [Signed(worlds[6], events[6])]
  {
    hide GoodOptions, CanSign, Prepare, Refreshes, Signed, Describes, RoundPossible, CheckState, Equivocate, StepAt,
         AllGoesWell, CanonicalCatalog;
    var root := RootKey(ROOT);
    var ws, es := TwoCrashes();
    FirstIssuerCanSign(2, T3);
    worlds, events := Round(root, ws, es, 2, SETUP, OtherInputAt(T3));
    PublishingIsSigning(root, worlds, events, 5);
    PublishingIsSigning(root, worlds, events, 6);
    PublishingIsSigning(root, worlds, events, 7);
    OtherDiffers();
    DifferentDigestsEquivocate(root, Signed(worlds[1], events[1]), Signed(worlds[6], events[6]));
  }
}
