/** Registering and revoking pilot accesses: internal/pilotaccess/postgres/store.go over the
    tables of migrations/000001_initial.sql and migrations/000002_pilot_vpn_access.sql. */
module AccessStore {
  import opened Basics

  datatype Status = Active | Revoked

  datatype Access = Access(
    id: string,
    deviceId: string,
    nodeId: string,
    transport: string,
    externalReference: string,
    createdAt: Time,
    expiresAt: Time,
    revokedAt: Option<Time>,
    status: Status)

  datatype Action = Registered | RevokedAccess

  datatype AuditEvent = AuditEvent(action: Action, objectId: string)

  /** The committed tables. Audit events are keyed by their primary key. */
  datatype Tables = Tables(rows: map<string, Access>, audit: map<string, AuditEvent>)

  const NINETY_DAYS: int := 90 * 24 * HOUR

  /** The CHECK constraints of one row. */
  predicate RowOk(a: Access) {
    && a.transport in {"amneziawg", "xray_reality"}
    && 1 <= |a.externalReference| <= 256
    && a.createdAt < a.expiresAt <= a.createdAt + NINETY_DAYS
    && (a.revokedAt.Some? ==> a.createdAt <= a.revokedAt.value)
    && (a.status.Revoked? <==> a.revokedAt.Some?)
  }

  predicate SameReference(a: Access, b: Access) {
    a.nodeId == b.nodeId && a.transport == b.transport && a.externalReference == b.externalReference
  }

  /** Whether inserting `a` would break the primary key or the unique reference. */
  predicate Collides(rows: map<string, Access>, a: Access) {
    a.id in rows || exists k | k in rows :: SameReference(rows[k], a)
  }

  /** The row an UPDATE of an active access leaves: `COALESCE(revoked_at, $2)`. */
  function RevokedRow(a: Access, at: Time): Access {
    a.(status := Revoked, revokedAt := if a.revokedAt.Some? then a.revokedAt else Some(at))
  }

  /** The constraints of one row: a known transport, a reference of 1 to 256 characters, at most
      ninety days, and a revocation time, not before the creation, exactly if revoked. */
  lemma {:induction false} RowMeaning(a: Access)
    ensures RowOk(a) <==>
            && (a.transport == "amneziawg" || a.transport == "xray_reality")
            && 1 <= |a.externalReference| <= 256
            && a.createdAt < a.expiresAt <= a.createdAt + 7_776_000_000_000_000
            && (if a.status.Active? then a.revokedAt.None?
                else a.revokedAt.Some? && a.createdAt <= a.revokedAt.value)
  {
  }

  // ----- transactions under READ COMMITTED

  datatype Operation = Create(access: Access) | Revoke(id: string, at: Time)

  /** How far a transaction got. From the row write to the end it holds the locks of its
      pending row and, later, of its pending audit key. */
  datatype Phase =
    | Begun
    | RowWritten(row: Access)
    | EventWritten(row: Access, event: AuditEvent)
    | NothingToRevoke
    | AlreadyRevoked(row: Access)

  datatype Transaction = Transaction(op: Operation, auditId: string, phase: Phase)

  /** `bornRevoked` remembers accesses that were inserted with status revoked. */
  datatype World = World(tables: Tables, open: map<nat, Transaction>, bornRevoked: set<string>)

  predicate HoldsRow(t: Transaction) {
    t.phase.RowWritten? || t.phase.EventWritten?
  }

  /** Nobody else holds a row whose keys collide with `a`. */
  predicate RowFree(w: World, n: nat, a: Access) {
    forall m | m in w.open && m != n && HoldsRow(w.open[m]) ::
      w.open[m].phase.row.id != a.id && !SameReference(w.open[m].phase.row, a)
  }

  /** Nobody else is updating the row `id`. An UPDATE does not see, and so does not wait for, a
      row that another transaction has inserted and not committed. */
  predicate IdFree(w: World, n: nat, id: string) {
    forall m | m in w.open && m != n && HoldsRow(w.open[m]) && w.open[m].op.Revoke? :: w.open[m].phase.row.id != id
  }

  predicate AuditKeyFree(w: World, n: nat, key: string) {
    forall m | m in w.open && m != n && w.open[m].phase.EventWritten? :: w.open[m].auditId != key
  }

  datatype Step =
    | Begin(n: nat, op: Operation, auditId: string)
    | WriteRow(n: nat)
    | ReadRevoked(n: nat)
    | WriteEvent(n: nat)
    | Commit(n: nat)
    | Rollback(n: nat)

  /** A statement waits for locks, so it is possible only when they are free. */
  predicate Possible(w: World, s: Step) {
    match s
    case Begin(n, _, _) => n !in w.open
    case WriteRow(n) =>
      && n in w.open && w.open[n].phase.Begun?
      && (match w.open[n].op
          case Create(a) => RowFree(w, n, a)
          case Revoke(id, _) => IdFree(w, n, id))
    case ReadRevoked(n) => n in w.open && w.open[n].phase.NothingToRevoke?
    case WriteEvent(n) => n in w.open && w.open[n].phase.RowWritten? && AuditKeyFree(w, n, w.open[n].auditId)
    case Commit(n) => n in w.open && (w.open[n].phase.EventWritten? || w.open[n].phase.AlreadyRevoked?)
    case Rollback(n) => n in w.open
  }

  function Abort(w: World, n: nat): World {
    w.(open := w.open - {n})
  }

  function Advance(w: World, n: nat, phase: Phase): World
    requires n in w.open
  {
    w.(open := w.open[n := w.open[n].(phase := phase)])
  }

  /** The INSERT or UPDATE; a violated constraint ends the transaction. */
  function WrittenRow(w: World, n: nat): World
    requires n in w.open
  {
    match w.open[n].op
    case Create(a) => if Collides(w.tables.rows, a) || !RowOk(a) then Abort(w, n) else Advance(w, n, RowWritten(a))
    case Revoke(id, at) =>
      if id in w.tables.rows && w.tables.rows[id].status.Active? then
        var row := RevokedRow(w.tables.rows[id], at);
        if !RowOk(row) then Abort(w, n) else Advance(w, n, RowWritten(row))
      else Advance(w, n, NothingToRevoke)
  }

  function EventFor(t: Transaction, row: Access): AuditEvent {
    AuditEvent(if t.op.Create? then Registered else RevokedAccess, row.id)
  }

  function Committed(w: World, n: nat): World
    requires n in w.open
  {
    var t := w.open[n];
    if t.phase.EventWritten? then
      var born := if t.op.Create? && t.phase.row.status.Revoked? then {t.phase.row.id} else {};
      World(Tables(w.tables.rows[t.phase.row.id := t.phase.row], w.tables.audit[t.auditId := t.phase.event]),
            w.open - {n}, w.bornRevoked + born)
    else Abort(w, n)
  }

  function Take(w: World, s: Step): World
    requires Possible(w, s)
  {
    match s
    case Begin(n, op, auditId) => w.(open := w.open[n := Transaction(op, auditId, Begun)])
    case WriteRow(n) => WrittenRow(w, n)
    case ReadRevoked(n) =>
      var id := w.open[n].op;
      if id.Revoke? && id.id in w.tables.rows && w.tables.rows[id.id].status.Revoked?
      then Advance(w, n, AlreadyRevoked(w.tables.rows[id.id]))
      else Abort(w, n)
    case WriteEvent(n) =>
      if w.open[n].auditId in w.tables.audit then Abort(w, n)
      else Advance(w, n, EventWritten(w.open[n].phase.row, EventFor(w.open[n], w.open[n].phase.row)))
    case Commit(n) => Committed(w, n)
    case Rollback(n) => Abort(w, n)
  }

  predicate StepAt(worlds: seq<World>, steps: seq<Step>, i: nat)
    requires i < |steps| < |worlds|
  {
    Possible(worlds[i], steps[i]) && worlds[i+1] == Take(worlds[i], steps[i])
  }

  predicate IsRun(worlds: seq<World>, steps: seq<Step>) {
    && |worlds| == |steps| + 1
    && worlds[0] == World(Tables(map[], map[]), map[], {})
    && forall i | 0 <= i < |steps| :: StepAt(worlds, steps, i)
  }

  // ----- the audit log matches the rows

  function Keys(audit: map<string, AuditEvent>, e: AuditEvent): set<string> {
    set k | k in audit && audit[k] == e
  }

  function Expected(present: bool): nat {
    if present then 1 else 0
  }

  /** One registration per row; one revocation per row that a `Revoke` revoked. */
  predicate AuditedId(tables: Tables, born: set<string>, id: string) {
    && |Keys(tables.audit, AuditEvent(Registered, id))| == Expected(id in tables.rows)
    && |Keys(tables.audit, AuditEvent(RevokedAccess, id))|
       == Expected(id in tables.rows && tables.rows[id].status.Revoked? && id !in born)
  }

  ghost predicate Audited(tables: Tables, born: set<string>) {
    forall id :: AuditedId(tables, born, id)
  }

  /** UNIQUE (node_id, transport, external_reference). */
  predicate UniqueReferences(rows: map<string, Access>) {
    forall k, l | k in rows && l in rows && k != l :: !SameReference(rows[k], rows[l])
  }

  predicate RowsOk(tables: Tables, born: set<string>) {
    && (forall id | id in tables.rows :: tables.rows[id].id == id && RowOk(tables.rows[id]))
    && UniqueReferences(tables.rows)
    && (forall id | id in born :: id in tables.rows && tables.rows[id].status.Revoked?)
  }

  /** A pending row is still justified by the committed tables. */
  predicate PendingOk(w: World, t: Transaction) {
    HoldsRow(t) ==>
      && RowOk(t.phase.row)
      && (match t.op
          case Create(a) => t.phase.row == a && !Collides(w.tables.rows, a)
          case Revoke(id, at) =>
            && id in w.tables.rows && w.tables.rows[id].status.Active?
            && t.phase.row == RevokedRow(w.tables.rows[id], at))
      && (t.phase.EventWritten? ==> t.phase.event == EventFor(t, t.phase.row) && t.auditId !in w.tables.audit)
  }

  /** What a retried revocation is about to return is the committed record. */
  predicate RetryOk(w: World, t: Transaction) {
    && (t.phase.NothingToRevoke? ==> t.op.Revoke?)
    && (t.phase.AlreadyRevoked? ==>
          && t.op.Revoke? && t.op.id in w.tables.rows
          && w.tables.rows[t.op.id] == t.phase.row && t.phase.row.status.Revoked?)
  }

  predicate Separate(s: Transaction, t: Transaction) {
    && (HoldsRow(s) && HoldsRow(t) ==>
          s.phase.row.id != t.phase.row.id && !SameReference(s.phase.row, t.phase.row))
    && (s.phase.EventWritten? && t.phase.EventWritten? ==> s.auditId != t.auditId)
  }

  ghost predicate Inv(w: World) {
    && RowsOk(w.tables, w.bornRevoked)
    && Audited(w.tables, w.bornRevoked)
    && (forall n | n in w.open :: PendingOk(w, w.open[n]) && RetryOk(w, w.open[n]))
    && (forall m, n | m in w.open && n in w.open && m != n :: Separate(w.open[m], w.open[n]))
  }

  lemma {:induction false} KeysAfterInsert(audit: map<string, AuditEvent>, key: string, e: AuditEvent, x: AuditEvent)
    requires key !in audit
    ensures |Keys(audit[key := e], x)| == |Keys(audit, x)| + Expected(x == e)
  {
    if x == e {
      assert Keys(audit[key := e], x) == Keys(audit, x) + {key};
    } else {
      assert Keys(audit[key := e], x) == Keys(audit, x);
    }
  }

  /** Committing adds the one event that its row change calls for. */
  lemma {:induction false} CommitKeepsAudit(w: World, n: nat)
    requires Inv(w) && n in w.open && w.open[n].phase.EventWritten?
    ensures Audited(Committed(w, n).tables, Committed(w, n).bornRevoked)
  {
    var t := w.open[n];
    assert PendingOk(w, t);
    forall id ensures AuditedId(Committed(w, n).tables, Committed(w, n).bornRevoked, id) {
      assert AuditedId(w.tables, w.bornRevoked, id);
      KeysAfterInsert(w.tables.audit, t.auditId, t.phase.event, AuditEvent(Registered, id));
      KeysAfterInsert(w.tables.audit, t.auditId, t.phase.event, AuditEvent(RevokedAccess, id));
    }
  }

  lemma {:induction false} CommitKeepsPending(w: World, n: nat, m: nat)
    requires Inv(w) && n in w.open && w.open[n].phase.EventWritten? && m in w.open && m != n
    ensures PendingOk(Committed(w, n), w.open[m]) && RetryOk(Committed(w, n), w.open[m])
  {
    hide Audited;
    assert RetryOk(w, w.open[m]) && PendingOk(w, w.open[m])
           && PendingOk(w, w.open[n]) && Separate(w.open[m], w.open[n]);
  }

  lemma {:induction false} CommitKeepsRows(w: World, n: nat)
    requires Inv(w) && n in w.open && w.open[n].phase.EventWritten?
    ensures RowsOk(Committed(w, n).tables, Committed(w, n).bornRevoked)
  {
    hide Audited, Separate, RowOk;
    assert PendingOk(w, w.open[n]);
  }

  lemma {:induction false} CommitStep(w: World, n: nat)
    requires Inv(w) && Possible(w, Commit(n))
    ensures Inv(Committed(w, n))
  {
    var w' := Committed(w, n);
    if w.open[n].phase.EventWritten? {
      CommitKeepsAudit(w, n);
      CommitKeepsRows(w, n);
      hide Audited, RowsOk, Separate, PendingOk, RetryOk;
      forall m | m in w'.open ensures PendingOk(w', w'.open[m]) && RetryOk(w', w'.open[m]) {
        CommitKeepsPending(w, n, m);
      }
    } else {
      AbortStep(w, n);
    }
  }

  lemma {:induction false} AbortStep(w: World, n: nat)
    requires Inv(w)
    ensures Inv(Abort(w, n))
  {
    hide Audited;
    forall m | m in Abort(w, n).open
      ensures PendingOk(Abort(w, n), Abort(w, n).open[m]) && RetryOk(Abort(w, n), Abort(w, n).open[m])
    {
      assert PendingOk(w, w.open[m]) && RetryOk(w, w.open[m]);
    }
  }

  /** A transaction may move to a phase that is justified and clashes with no other. */
  lemma {:induction false} AdvanceStep(w: World, n: nat, phase: Phase)
    requires Inv(w) && n in w.open
    requires PendingOk(w, w.open[n].(phase := phase)) && RetryOk(w, w.open[n].(phase := phase))
    requires forall m | m in w.open && m != n ::
               Separate(w.open[m], w.open[n].(phase := phase)) && Separate(w.open[n].(phase := phase), w.open[m])
    ensures Inv(Advance(w, n, phase))
  {
    hide Audited, Separate;
    var w' := Advance(w, n, phase);
    forall m | m in w'.open ensures PendingOk(w', w'.open[m]) && RetryOk(w', w'.open[m]) {
      if m != n { assert PendingOk(w, w.open[m]) && RetryOk(w, w.open[m]); }
    }
  }

  lemma {:induction false} WriteRowStep(w: World, n: nat)
    requires Inv(w) && Possible(w, WriteRow(n))
    ensures Inv(WrittenRow(w, n))
  {
    var t := w.open[n];
    match t.op
    case Create(a) =>
      if Collides(w.tables.rows, a) || !RowOk(a) { AbortStep(w, n); } else { AdvanceStep(w, n, RowWritten(a)); }
    case Revoke(id, at) =>
      if id in w.tables.rows && w.tables.rows[id].status.Active? {
        var row := RevokedRow(w.tables.rows[id], at);
        if !RowOk(row) { AbortStep(w, n); } else { AdvanceStep(w, n, RowWritten(row)); }
      } else {
        AdvanceStep(w, n, NothingToRevoke);
      }
  }

  lemma {:induction false} BeginStep(w: World, n: nat, op: Operation, auditId: string)
    requires Inv(w) && n !in w.open
    ensures Inv(w.(open := w.open[n := Transaction(op, auditId, Begun)]))
  {
    hide Audited;
    var w' := w.(open := w.open[n := Transaction(op, auditId, Begun)]);
    forall m | m in w'.open ensures PendingOk(w', w'.open[m]) && RetryOk(w', w'.open[m]) {
      if m != n { assert PendingOk(w, w.open[m]) && RetryOk(w, w.open[m]); }
    }
  }

  lemma {:induction false} EveryStep(w: World, s: Step)
    requires Inv(w) && Possible(w, s)
    ensures Inv(Take(w, s))
  {
    match s
    case Begin(n, op, auditId) => BeginStep(w, n, op, auditId);
    case WriteRow(n) => WriteRowStep(w, n);
    case ReadRevoked(n) => ReadRevokedStep(w, n);
    case WriteEvent(n) => WriteEventStep(w, n);
    case Commit(n) => CommitStep(w, n);
    case Rollback(n) => AbortStep(w, n);
  }

  lemma {:induction false} ReadRevokedStep(w: World, n: nat)
    requires Inv(w) && Possible(w, ReadRevoked(n))
    ensures Inv(Take(w, ReadRevoked(n)))
  {
    hide Inv;
    var op := w.open[n].op;
    if op.Revoke? && op.id in w.tables.rows && w.tables.rows[op.id].status.Revoked? {
      AdvanceStep(w, n, AlreadyRevoked(w.tables.rows[op.id]));
    } else {
      AbortStep(w, n);
    }
  }

  lemma {:induction false} WriteEventStep(w: World, n: nat)
    requires Inv(w) && Possible(w, WriteEvent(n))
    ensures Inv(Take(w, WriteEvent(n)))
  {
    if w.open[n].auditId in w.tables.audit {
      AbortStep(w, n);
    } else {
      assert PendingOk(w, w.open[n]);
      forall m | m in w.open && m != n ensures Separate(w.open[m], w.open[n]) && Separate(w.open[n], w.open[m]) {}
      AdvanceStep(w, n, EventWritten(w.open[n].phase.row, EventFor(w.open[n], w.open[n].phase.row)));
    }
  }

  lemma {:induction false} RunKeepsInv(worlds: seq<World>, steps: seq<Step>, i: nat)
    requires IsRun(worlds, steps) && i < |worlds|
    ensures Inv(worlds[i])
  {
    if i > 0 {
      RunKeepsInv(worlds, steps, i - 1);
      assert StepAt(worlds, steps, i - 1);
      hide Inv, Take, Possible;
      EveryStep(worlds[i-1], steps[i-1]);
    }
  }

  // ----- whole runs

  /** In every committed state, under any interleaving: each access has exactly one
      registration event, and exactly one revocation event if and only if it is revoked and
      was not inserted that way. */
  lemma {:induction false} AuditMatchesRows(worlds: seq<World>, steps: seq<Step>, i: nat, id: string)
    requires IsRun(worlds, steps) && i < |worlds|
    ensures UniqueReferences(worlds[i].tables.rows)
    ensures var tables, born := worlds[i].tables, worlds[i].bornRevoked;
            && |Keys(tables.audit, AuditEvent(Registered, id))| == Expected(id in tables.rows)
            && |Keys(tables.audit, AuditEvent(RevokedAccess, id))|
               == Expected(id in tables.rows && tables.rows[id].status.Revoked? && id !in born)
            && (id in tables.rows ==> RowOk(tables.rows[id]))
  {
    RunKeepsInv(worlds, steps, i);
    assert AuditedId(worlds[i].tables, worlds[i].bornRevoked, id);
  }

  /** Only active accesses are ever created, as the service does. */
  predicate CreatesActive(steps: seq<Step>) {
    forall i | 0 <= i < |steps| :: steps[i].Begin? && steps[i].op.Create? ==> steps[i].op.access.status.Active?
  }

  predicate OpenCreatesActive(w: World) {
    w.bornRevoked == {} && forall n | n in w.open :: w.open[n].op.Create? ==> w.open[n].op.access.status.Active?
  }

  lemma {:induction false} NoneBornRevoked(worlds: seq<World>, steps: seq<Step>, i: nat)
    requires IsRun(worlds, steps) && CreatesActive(steps) && i < |worlds|
    ensures OpenCreatesActive(worlds[i])
  {
    if i > 0 {
      NoneBornRevoked(worlds, steps, i - 1);
      RunKeepsInv(worlds, steps, i - 1);
      assert StepAt(worlds, steps, i - 1);
      StaysActive(worlds[i-1], steps[i-1]);
    }
  }

  lemma {:induction false} StaysActive(w: World, s: Step)
    requires Inv(w) && Possible(w, s) && OpenCreatesActive(w)
    requires s.Begin? && s.op.Create? ==> s.op.access.status.Active?
    ensures OpenCreatesActive(Take(w, s))
  {
    hide Audited, Separate;
    if s.Commit? { assert PendingOk(w, w.open[s.n]); }
  }

  /** With the accesses the service creates: one revocation event exactly for revoked rows. */
  lemma {:induction false} RevocationEventIffRevoked(worlds: seq<World>, steps: seq<Step>, i: nat, id: string)
    requires IsRun(worlds, steps) && CreatesActive(steps) && i < |worlds|
    ensures |Keys(worlds[i].tables.audit, AuditEvent(RevokedAccess, id))|
            == Expected(id in worlds[i].tables.rows && worlds[i].tables.rows[id].status.Revoked?)
  {
    NoneBornRevoked(worlds, steps, i);
    AuditMatchesRows(worlds, steps, i, id);
  }

  /** Rows stay, keep everything but their status, and a revoked row never changes again. */
  predicate RowsPersist(t: Tables, t': Tables) {
    forall id | id in t.rows ::
      && id in t'.rows
      && t'.rows[id].(status := t.rows[id].status, revokedAt := t.rows[id].revokedAt) == t.rows[id]
      && (t.rows[id].status.Revoked? ==> t'.rows[id] == t.rows[id])
  }

  lemma {:induction false} StepPersists(w: World, s: Step)
    requires Inv(w) && Possible(w, s)
    ensures RowsPersist(w.tables, Take(w, s).tables)
  {
    hide Audited, Separate, RowOk, UniqueReferences, SameReference;
    if s.Commit? { assert PendingOk(w, w.open[s.n]); }
  }

  /** The revocation time of an access never changes once it is set. */
  lemma {:induction false} RevocationIsFinal(worlds: seq<World>, steps: seq<Step>, i: nat, j: nat, id: string)
    requires IsRun(worlds, steps) && i <= j < |worlds| && id in worlds[i].tables.rows
    ensures id in worlds[j].tables.rows
    ensures worlds[i].tables.rows[id].revokedAt.Some? ==> worlds[j].tables.rows[id] == worlds[i].tables.rows[id]
    ensures worlds[j].tables.rows[id].createdAt == worlds[i].tables.rows[id].createdAt
    decreases j
  {
    if i < j {
      RevocationIsFinal(worlds, steps, i, j - 1, id);
      RunKeepsInv(worlds, steps, i);
      RunKeepsInv(worlds, steps, j - 1);
      assert StepAt(worlds, steps, j - 1);
      StepPersists(worlds[j-1], steps[j-1]);
      hide Audited, Take, Possible;
      assert RowOk(worlds[i].tables.rows[id]) && RowOk(worlds[j-1].tables.rows[id]);
    }
  }

  /** A retry after a committed revoke changes nothing and returns the original record. */
  lemma {:induction false} RetryReturnsOriginal(worlds: seq<World>, steps: seq<Step>, i: nat, n: nat)
    requires IsRun(worlds, steps) && i < |worlds|
    requires n in worlds[i].open && worlds[i].open[n].phase.AlreadyRevoked?
    ensures worlds[i].open[n].op.Revoke? && worlds[i].open[n].op.id in worlds[i].tables.rows
    ensures worlds[i].tables.rows[worlds[i].open[n].op.id] == worlds[i].open[n].phase.row
    ensures worlds[i].open[n].phase.row.revokedAt.Some?
    ensures Take(worlds[i], Commit(n)).tables == worlds[i].tables
  {
    hide Audited, Separate;
    RunKeepsInv(worlds, steps, i);
    assert RetryOk(worlds[i], worlds[i].open[n]);
  }

  /** A revocation that found nothing active to revoke and then reads a committed revoked row
      goes on to return exactly that row; if there is none, it is given up. */
  lemma {:induction false} RetryFindsRevokedRow(worlds: seq<World>, steps: seq<Step>, i: nat, n: nat)
    requires IsRun(worlds, steps) && i < |steps| && steps[i] == ReadRevoked(n)
    ensures n in worlds[i].open && worlds[i].open[n].op.Revoke?
    ensures var rows, id := worlds[i].tables.rows, worlds[i].open[n].op.id;
            if id in rows && rows[id].status.Revoked? then
              n in worlds[i+1].open && worlds[i+1].open[n].phase == AlreadyRevoked(rows[id])
            else n !in worlds[i+1].open
    ensures worlds[i+1].tables == worlds[i].tables
  {
    hide Audited, Separate, RowOk, UniqueReferences;
    RunKeepsInv(worlds, steps, i);
    assert StepAt(worlds, steps, i);
    assert RetryOk(worlds[i], worlds[i].open[n]);
  }

  // ----- an access inserted as revoked

  const ACCESS_ID := "00000000-0000-4000-8000-00000000000a"
  const DEVICE_ID := "00000000-0000-4000-8000-00000000000d"
  const AUDIT_ID := "00000000-0000-4000-8000-00000000000e"

  const BORN_REVOKED := Access(ACCESS_ID, DEVICE_ID, "de-1", "amneziawg", "peer-1",
                               HOUR, 2 * HOUR, Some(HOUR), Revoked)

  /** The condition on created accesses is needed: inserting an already revoked one commits,
      and leaves a revoked row without a revocation event. */
  lemma {:induction false} InsertedRevokedHasNoRevocationEvent() returns (worlds: seq<World>, steps: seq<Step>)
    ensures IsRun(worlds, steps)
    ensures var t := worlds[|steps|].tables;
            && ACCESS_ID in t.rows && t.rows[ACCESS_ID].status.Revoked?
            && Keys(t.audit, AuditEvent(RevokedAccess, ACCESS_ID)) == {}
  {
    var op := Create(BORN_REVOKED);
    var event := AuditEvent(Registered, ACCESS_ID);
    var w0 := World(Tables(map[], map[]), map[], {});
    var w1 := w0.(open := map[0 := Transaction(op, AUDIT_ID, Begun)]);
    var w2 := w0.(open := map[0 := Transaction(op, AUDIT_ID, RowWritten(BORN_REVOKED))]);
    var w3 := w0.(open := map[0 := Transaction(op, AUDIT_ID, EventWritten(BORN_REVOKED, event))]);
    var w4 := World(Tables(map[ACCESS_ID := BORN_REVOKED], map[AUDIT_ID := event]), map[], {ACCESS_ID});
    worlds := [w0, w1, w2, w3, w4];
    steps := [Begin(0, op, AUDIT_ID), WriteRow(0), WriteEvent(0), Commit(0)];
    assert w0.open[0 := Transaction(op, AUDIT_ID, Begun)] == w1.open;
    assert w1.open[0 := w1.open[0].(phase := RowWritten(BORN_REVOKED))] == w2.open;
    assert w2.open[0 := w2.open[0].(phase := EventWritten(BORN_REVOKED, event))] == w3.open;
    assert w3.open - {0} == map[];
    assert w0.tables.rows[ACCESS_ID := BORN_REVOKED] == map[ACCESS_ID := BORN_REVOKED];
    assert StepAt(worlds, steps, 0) && StepAt(worlds, steps, 1) && StepAt(worlds, steps, 2) && StepAt(worlds, steps, 3);
  }

  // ----- the store, one transaction at a time

  /** Where a transaction can break off. After a lost acknowledgement the commit happened,
      but the caller sees an error. */
  datatype Fault = NoFault | BeforeEvent | BeforeCommit | AcknowledgementLost

  /** The tables after a transaction that wrote `row` and `event`. */
  function After(t: Tables, row: Access, key: string, event: AuditEvent): Tables {
    Tables(t.rows[row.id := row], t.audit[key := event])
  }

  /** Accesses that a write adds to those inserted as revoked. */
  function BornWith(row: Access, event: AuditEvent): set<string> {
    if event.action.Registered? && row.status.Revoked? then {row.id} else {}
  }

  lemma {:induction false} AfterIsAudited(
    t: Tables, born: set<string>, row: Access, key: string, event: AuditEvent, id: string)
    requires AuditedId(t, born, id) && key !in t.audit
    requires forall x | x in born :: x in t.rows && t.rows[x].status.Revoked?
    requires || (event == AuditEvent(Registered, row.id) && row.id !in t.rows)
             || (event == AuditEvent(RevokedAccess, row.id) && row.id in t.rows
                 && t.rows[row.id].status.Active? && row.status.Revoked?)
    ensures AuditedId(After(t, row, key, event), born + BornWith(row, event), id)
  {
    KeysAfterInsert(t.audit, key, event, AuditEvent(Registered, id));
    KeysAfterInsert(t.audit, key, event, AuditEvent(RevokedAccess, id));
  }

  /** What is left of a transaction that is given up, or ends, with no other one open. */
  function Finished(w: World, fault: Fault, s: Step): World
    requires Possible(w, s) && s.Commit?
  {
    Take(w, if fault.BeforeCommit? then Rollback(s.n) else s)
  }

  /** One transaction from begin to end with no other one open: the same steps as in `Take`,
      up to where `fault` breaks it off. */
  function Serial(t: Tables, born: set<string>, op: Operation, auditId: string, fault: Fault): World {
    var begun := Take(World(t, map[], born), Begin(0, op, auditId));
    var written := Take(begun, WriteRow(0));
    if 0 !in written.open then written
    else if written.open[0].phase.RowWritten? then
      if fault.BeforeEvent? then Take(written, Rollback(0))
      else
        var audited := Take(written, WriteEvent(0));
        if 0 !in audited.open then audited else Finished(audited, fault, Commit(0))
    else
      var read := Take(written, ReadRevoked(0));
      if 0 !in read.open then read else Finished(read, fault, Commit(0))
  }

  lemma {:induction false} SerialCreate(t: Tables, born: set<string>, a: Access, key: string, fault: Fault)
    ensures var event := AuditEvent(Registered, a.id);
            Serial(t, born, Create(a), key, fault)
            == if Collides(t.rows, a) || !RowOk(a) || fault.BeforeEvent? || key in t.audit || fault.BeforeCommit?
               then World(t, map[], born)
               else World(After(t, a, key, event), map[], born + BornWith(a, event))
  {
    hide Collides, RowOk;
    var w := World(t, map[], born);
    var begun := Take(w, Begin(0, Create(a), key));
    assert begun.open - {0} == map[];
    if !Collides(t.rows, a) && RowOk(a) {
      var written := Take(begun, WriteRow(0));
      assert written.open - {0} == map[];
      if key !in t.audit { assert Take(written, WriteEvent(0)).open - {0} == map[]; }
    }
  }

  lemma {:induction false} SerialRevoke(t: Tables, born: set<string>, id: string, at: Time, key: string, fault: Fault)
    requires forall k | k in t.rows :: t.rows[k].id == k
    ensures Serial(t, born, Revoke(id, at), key, fault)
            == if && id in t.rows && t.rows[id].status.Active? && RowOk(RevokedRow(t.rows[id], at))
                  && !fault.BeforeEvent? && key !in t.audit && !fault.BeforeCommit?
               then World(After(t, RevokedRow(t.rows[id], at), key, AuditEvent(RevokedAccess, id)), map[], born)
               else World(t, map[], born)
  {
    hide RowOk;
    var w := World(t, map[], born);
    var begun := Take(w, Begin(0, Revoke(id, at), key));
    assert begun.open - {0} == map[];
    var written := Take(begun, WriteRow(0));
    assert written.open - {0} == map[];
    if 0 in written.open && written.open[0].phase.RowWritten? {
      if key !in t.audit { assert Take(written, WriteEvent(0)).open - {0} == map[]; }
      assert born + {} == born;
    } else if 0 in written.open {
      assert Take(written, ReadRevoked(0)).open - {0} == map[];
    }
  }

  class Store {
    var tables: Tables
    ghost var bornRevoked: set<string>

    ghost predicate Valid()
      reads this
    {
      RowsOk(tables, bornRevoked) && Audited(tables, bornRevoked)
    }

    constructor ()
      ensures Valid() && tables == Tables(map[], map[])
    {
      tables, bornRevoked := Tables(map[], map[]), {};
    }

    /** `Create`: both rows or neither; the caller is told of success only after the commit. */
    method CreateAccess(access: Access, auditId: Option<string>, fault: Fault) returns (r: Result<Access>)
      requires Valid()
      modifies this
      ensures Valid()
      ensures r.Ok? ==> r.value == access && auditId.Some? && fault.NoFault? && tables != old(tables)
      ensures tables == old(tables)
              || (auditId.Some?
                  && tables == After(old(tables), access, auditId.value, AuditEvent(Registered, access.id)))
      ensures r.Err? && tables != old(tables) ==> fault.AcknowledgementLost?
      ensures r.Ok? <==>
              && fault.NoFault? && auditId.Some? && auditId.value !in old(tables.audit) && RowOk(access)
              && access.id !in old(tables.rows)
              && forall k | k in old(tables.rows) ::
                   var row := old(tables.rows)[k];
                   !(&& row.nodeId == access.nodeId && row.transport == access.transport
                     && row.externalReference == access.externalReference)
      ensures r.Ok? || (fault.AcknowledgementLost? && tables != old(tables)) ==>
                && tables.rows == old(tables.rows)[access.id := access]
                && tables.audit == old(tables.audit)[auditId.value := AuditEvent(Registered, access.id)]
      ensures access.status.Active? ==> bornRevoked == old(bornRevoked)
      ensures auditId.Some? ==>
                World(tables, map[], bornRevoked)
                == Serial(old(tables), old(bornRevoked), Create(access), auditId.value, fault)
    {
      hide Serial;
      if auditId.None? { return Err("generate audit ID"); }
      SerialCreate(tables, bornRevoked, access, auditId.value, fault);
      var transaction := tables;
      if Collides(transaction.rows, access) || !RowOk(access) { return Err("create"); }
      transaction := transaction.(rows := transaction.rows[access.id := access]);
      if fault.BeforeEvent? || auditId.value in transaction.audit { return Err("audit create"); }
      transaction := transaction.(audit := transaction.audit[auditId.value := AuditEvent(Registered, access.id)]);
      if fault.BeforeCommit? { return Err("commit create"); }
      ghost var born := bornRevoked + BornWith(access, AuditEvent(Registered, access.id));
      forall id ensures AuditedId(transaction, born, id) {
        assert AuditedId(tables, bornRevoked, id);
        AfterIsAudited(tables, bornRevoked, access, auditId.value, AuditEvent(Registered, access.id), id);
      }
      assert access.id !in tables.rows;
      tables, bornRevoked := transaction, born;
      if fault.AcknowledgementLost? { return Err("commit create"); }
      return Ok(access);
    }

    /** `Revoke`: revokes once; asking again returns the record of the first time. */
    method RevokeAccess(id: string, at: Time, auditId: Option<string>, fault: Fault) returns (r: Result<Access>)
      requires Valid()
      modifies this
      ensures Valid() && bornRevoked == old(bornRevoked)
      ensures r.Ok? ==> id in tables.rows && r.value == tables.rows[id] && r.value.status.Revoked?
      ensures r.Err? && tables != old(tables) ==> fault.AcknowledgementLost?
      ensures id in old(tables.rows) && old(tables.rows[id]).status.Revoked? ==>
                (r.Ok? <==> auditId.Some? && (fault.NoFault? || fault.BeforeEvent?))
      ensures id in old(tables.rows) && old(tables.rows[id]).status.Revoked? && r.Ok? ==>
                r.value == old(tables.rows[id])
      ensures id in old(tables.rows) && old(tables.rows[id]).status.Active? ==>
                (r.Ok? <==> && fault.NoFault? && auditId.Some? && auditId.value !in old(tables.audit)
                            && old(tables.rows[id]).createdAt <= at)
      ensures id in old(tables.rows) && old(tables.rows[id]).status.Active? && r.Ok? ==>
                && r.value == old(tables.rows[id]).(status := Revoked, revokedAt := Some(at))
                && tables.rows == old(tables.rows)[id := r.value]
                && tables.audit == old(tables.audit)[auditId.value := AuditEvent(RevokedAccess, id)]
      ensures id in old(tables.rows) && old(tables.rows[id]).status.Revoked? ==> tables == old(tables)
      ensures id !in old(tables.rows) ==> r.Err? && tables == old(tables)
      ensures tables != old(tables) ==>
                && id in old(tables.rows) && old(tables.rows[id]).status.Active? && auditId.Some?
                && tables == After(old(tables), RevokedRow(old(tables.rows[id]), at),
                                   auditId.value, AuditEvent(RevokedAccess, id))
                && tables.rows[id].revokedAt == Some(at)
      ensures auditId.Some? ==>
                World(tables, map[], bornRevoked)
                == Serial(old(tables), old(bornRevoked), Revoke(id, at), auditId.value, fault)
    {
      hide Serial;
      if auditId.None? { return Err("generate audit ID"); }
      SerialRevoke(tables, bornRevoked, id, at, auditId.value, fault);
      var transaction := tables;
      if id !in transaction.rows { return Err("not found"); }
      if transaction.rows[id].status.Revoked? {
        if fault.BeforeCommit? || fault.AcknowledgementLost? { return Err("commit revoke retry"); }
        return Ok(transaction.rows[id]);
      }
      var result := RevokedRow(transaction.rows[id], at);
      if !RowOk(result) { return Err("revoke"); }
      transaction := transaction.(rows := transaction.rows[id := result]);
      if fault.BeforeEvent? || auditId.value in transaction.audit { return Err("audit revoke"); }
      transaction := transaction.(audit := transaction.audit[auditId.value := AuditEvent(RevokedAccess, id)]);
      if fault.BeforeCommit? { return Err("commit revoke"); }
      forall x ensures AuditedId(transaction, bornRevoked, x) {
        assert AuditedId(tables, bornRevoked, x);
        AfterIsAudited(tables, bornRevoked, result, auditId.value, AuditEvent(RevokedAccess, id), x);
      }
      tables := transaction;
      if fault.AcknowledgementLost? { return Err("commit revoke"); }
      return Ok(result);
    }
  }
}
