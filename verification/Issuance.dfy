/** The issuer's durable state, its atomic replacement and the process lock:
    internal/issuance/state.go and internal/issuance/lock_linux.go. */
module Issuance {
  import opened Basics
  import opened KeyPolicies
  import opened Catalogs

  datatype State = State(
    keyId: string,
    keyEpoch: U64,
    policyVersion: U64,
    policyDigest: Digest<KeyPolicy>,
    lastVersion: U64,
    catalogRevision: U64,
    catalogDigest: Digest<Catalog>,
    lastIssuedAt: Time)

  /** Go's zero `State`, held in memory before anything was issued. */
  const NO_STATE := State("", 0, 0, NoDigest, 0, 0, NoDigest, 0)

  predicate Legacy(s: State) {
    s.keyEpoch == 0 && s.policyVersion == 0 && s.policyDigest.NoDigest?
  }

  predicate ValidState(s: State, allowLegacy: bool) {
    && s.keyId != "" && s.lastVersion != 0 && s.catalogRevision != 0 && s.lastIssuedAt != 0
    && ValidDigest(s.catalogDigest)
    && ((allowLegacy && Legacy(s)) || (s.keyEpoch != 0 && s.policyVersion != 0 && ValidDigest(s.policyDigest)))
  }

  predicate DigestText<T>(d: Digest<T>) {
    d.DigestOf? || (d.OtherText? && d.decodes)
  }

  /** A state with nothing missing: what may be saved. */
  predicate Storable(s: State) {
    && s.keyId != "" && s.lastVersion > 0 && s.catalogRevision > 0 && s.lastIssuedAt != 0 && DigestText(s.catalogDigest)
    && s.keyEpoch > 0 && s.policyVersion > 0 && DigestText(s.policyDigest)
  }

  /** What may be read back: a complete state, or one from before key policies, which has none
      of the three policy fields. */
  predicate Readable(s: State) {
    || Storable(s)
    || (&& s.keyId != "" && s.lastVersion > 0 && s.catalogRevision > 0 && s.lastIssuedAt != 0
        && DigestText(s.catalogDigest)
        && s.keyEpoch == 0 && s.policyVersion == 0 && s.policyDigest == NoDigest)
  }

  lemma {:induction false} StateMeaning(s: State)
    ensures ValidState(s, false) <==> Storable(s)
    ensures ValidState(s, true) <==> Readable(s)
  {
  }

  /** `visible` is what reading the state file returns now; `synced` is the newest contents
      known to survive a power loss. */
  datatype Disk = Disk(visible: Option<State>, synced: Option<State>)

  /** How one `Save` ends: the new file is in place and its directory synced; an error
      before the rename; or an error after it, when the new file is visible but the caller
      is told it failed and the rename may or may not have reached the platter. */
  datatype SaveOutcome = Saved | FailedBefore | FailedAfter(reachedPlatter: bool)

  function SavedDisk(disk: Disk, s: State, outcome: SaveOutcome): Disk {
    if !ValidState(s, false) then disk
    else match outcome
      case Saved => Disk(Some(s), Some(s))
      case FailedBefore => disk
      case FailedAfter(reached) => Disk(Some(s), if reached then Some(s) else disk.synced)
  }

  predicate SaveSucceeds(s: State, outcome: SaveOutcome) {
    ValidState(s, false) && outcome.Saved?
  }

  function Loaded(disk: Disk, readFails: bool): Result<Option<State>> {
    if readFails then Err("read issuer state")
    else match disk.visible
      case None => Ok(None)
      case Some(s) => if ValidState(s, true) then Ok(Some(s)) else Err("issuer state is invalid")
  }

  /** The version a possibly absent state stands for. */
  function VersionOf(s: Option<State>): U64 {
    if s.None? then 0 else s.value.lastVersion
  }

  /** `FileStore`, over the file it names. */
  class FileStore {
    var disk: Disk

    constructor (initial: Disk)
      ensures disk == initial
    {
      disk := initial;
    }

    /** An unreadable or invalid file is an error, never the same as no file. */
    method Load(readFails: bool) returns (r: Result<Option<State>>)
      ensures r == Loaded(disk, readFails)
      ensures r.Ok? <==> !readFails && (disk.visible.Some? ==> Readable(disk.visible.value))
      ensures r.Ok? ==> r.value == disk.visible
    {
      if readFails { return Err("read issuer state"); }
      if disk.visible.None? { return Ok(None); }
      StateMeaning(disk.visible.value);
      if !ValidState(disk.visible.value, true) { return Err("issuer state is invalid"); }
      return Ok(disk.visible);
    }

    /** The temporary file is written and synced first, so a failure there leaves the named
        file alone; the rename makes the new contents visible; syncing the directory makes
        them durable. */
    method Save(state: State, outcome: SaveOutcome) returns (ok: bool)
      modifies this
      ensures disk == SavedDisk(old(disk), state, outcome)
      ensures ok <==> SaveSucceeds(state, outcome)
      ensures ok ==> disk.visible == disk.synced == Some(state)
      ensures outcome.FailedBefore? ==> disk == old(disk)
      ensures outcome.FailedAfter? && ValidState(state, false) ==>
                && disk.visible == Some(state)
                && disk.synced == if outcome.reachedPlatter then Some(state) else old(disk.synced)
      ensures ok <==> outcome.Saved? && Storable(state)
      ensures !Storable(state) ==> disk == old(disk)
    {
      StateMeaning(state);
      if !ValidState(state, false) { return false; }
      if outcome.FailedBefore? { return false; }
      disk := disk.(visible := Some(state));
      if outcome.Saved? || outcome.reachedPlatter { disk := disk.(synced := Some(state)); }
      return outcome.Saved?;
    }
  }

  /** The lock file beside the state file; `holder` is who has the exclusive flock. */
  class LockFile {
    var holder: ProcessLock?

    constructor ()
      ensures holder == null
    {
      holder := null;
    }
  }

  class ProcessLock {
    var file: LockFile?

    /** An open lock is the one its file is locked by. */
    ghost predicate Valid()
      reads this, file
    {
      file != null ==> file.holder == this
    }

    constructor (file: LockFile)
      requires file.holder == null
      modifies file
      ensures Valid() && this.file == file && file.holder == this
    {
      this.file := file;
      new;
      file.holder := this;
    }

    /** Releases the lock once; closing again never releases somebody else's hold. */
    method Close()
      requires Valid()
      modifies this, file
      ensures Valid() && file == null
      ensures old(file) != null ==> old(file).holder == null
    {
      if file == null { return; }
      var f := file;
      file := null;
      f.holder := null;
    }
  }

  /** `AcquireProcessLock`. `fails` stands for everything that can go wrong before the lock is
      tried: the directory, opening the lock file, its type and permissions. */
  method AcquireProcessLock(file: LockFile, fails: bool) returns (lock: ProcessLock?)
    modifies file
    ensures lock == null <==> fails || old(file.holder) != null
    ensures lock == null ==> file.holder == old(file.holder)
    ensures lock != null ==> fresh(lock) && lock.Valid() && lock.file == file && file.holder == lock
  {
    if fails { return null; }
    if file.holder != null { return null; }
    lock := new ProcessLock(file);
  }
}
