/** What one issuer guarantees over any sequence of calls: internal/service/issuer.go.
    Nothing is assumed of the clock, the catalog file or the disk between calls. */
module IssuerRuns {
  import opened Basics
  import opened KeyPolicies
  import opened Catalogs
  import opened Manifests
  import opened Issuance
  import opened Issuers

  /** An issuer just started, together with its disk. */
  predicate FreshStart(m: Memory) {
    && MINUTE <= m.options.ttl && SECOND <= m.options.cacheFor <= m.options.ttl / 2
    && m.cached.None? && m.lastError.None? && !m.closed
  }

  lemma {:induction false} StartIsFresh(o: Options, disk: Disk, readFails: bool, save: SaveOutcome)
    requires Start(o, disk, readFails, save).memory.Ok?
    ensures FreshStart(Start(o, disk, readFails, save).memory.value)
  {
    hide ValidateKeyPolicy, PolicyContinues, KeyPolicyGrant, Migrated;
  }

  /** Memory and disk after the calls. */
  function Run(m: Memory, disk: Disk, calls: seq<Input>): (Memory, Disk) {
    if calls == [] then (m, disk)
    else
      var (m', disk') := Run(m, disk, calls[..|calls|-1]);
      var r := Call(m', disk', calls[|calls|-1]);
      (r.memory, r.disk)
  }

  /** The reply to call `i`. */
  function ReplyTo(m: Memory, disk: Disk, calls: seq<Input>, i: nat): Reply
    requires i < |calls|
  {
    var (m', disk') := Run(m, disk, calls[..i]);
    Call(m', disk', calls[i])
  }

  // ----- freshness of what is handed out

  /** The cached envelope is the last one issued, and the cache deadlines stay inside its
      lifetime. */
  predicate CacheInvariant(m: Memory) {
    && MINUTE <= m.options.ttl && SECOND <= m.options.cacheFor <= m.options.ttl / 2
    && (m.cached.Some? ==>
          && m.cached.value.payload.PayloadText? && m.cached.value.payload.bytes.JsonOf?
          && var d := m.cached.value.payload.bytes.document;
          && 0 < m.state.lastVersion == d.version
          && d.issuedAt == m.state.lastIssuedAt
          && d.expiresAt == m.validUntil == d.issuedAt + m.options.ttl
          && m.cacheUntil <= m.validUntil
          && (m.lastError.None? ==> m.cacheUntil == d.issuedAt + m.options.cacheFor))
  }

  lemma {:induction false} PreparedEnvelope(m: Memory, now: Time, input: Input)
    requires Prepare(m, now, input).Ok? && now % SECOND == 0
    ensures var (e, next) := Prepare(m, now, input).value;
            && e.payload.PayloadText? && e.payload.bytes.JsonOf?
            && var d := e.payload.bytes.document;
            && d.version == next.lastVersion == m.state.lastVersion + 1
            && d.issuedAt == next.lastIssuedAt == now
            && d.expiresAt == now + m.options.ttl
  {
    hide ValidateKeyPolicy, KeyPolicyGrant, ValidDocument, CatalogDigest;
    assert TruncateToSecond(now) == now;
  }

  lemma {:induction false} CallKeepsCacheInvariant(m: Memory, disk: Disk, input: Input)
    requires CacheInvariant(m)
    ensures CacheInvariant(Call(m, disk, input).memory)
  {
    hide Prepare;
    var now := TruncateToSecond(input.clock);
    if Prepare(m, now, input).Ok? { PreparedEnvelope(m, now, input); }
  }

  lemma {:induction false} RunKeepsCacheInvariant(m: Memory, disk: Disk, calls: seq<Input>)
    requires FreshStart(m)
    ensures CacheInvariant(Run(m, disk, calls).0)
  {
    if calls != [] {
      RunKeepsCacheInvariant(m, disk, calls[..|calls|-1]);
      var (m', disk') := Run(m, disk, calls[..|calls|-1]);
      CallKeepsCacheInvariant(m', disk', calls[|calls|-1]);
    }
  }

  /** The document of a returned envelope is current at the instant used, carries the
      version in the issuer's state, and, unless a refresh error is pending, has at least
      half of its lifetime left. */
  predicate FreshAt(r: Reply, now: Time) {
    && r.result.Ok? && r.result.value.payload.PayloadText? && r.result.value.payload.bytes.JsonOf?
    && var d := r.result.value.payload.bytes.document;
    && d.issuedAt <= now < d.expiresAt
    && d.version == r.memory.state.lastVersion
    && (r.memory.lastError.None? ==>
          d.expiresAt - now > r.memory.options.ttl - r.memory.options.cacheFor
          && 2 * (r.memory.options.ttl - r.memory.options.cacheFor) >= r.memory.options.ttl)
  }

  lemma {:induction false} CallIsFresh(m: Memory, disk: Disk, input: Input)
    requires CacheInvariant(m) && Call(m, disk, input).result.Ok?
    ensures FreshAt(Call(m, disk, input), TruncateToSecond(input.clock))
  {
    hide Prepare;
    var now := TruncateToSecond(input.clock);
    if Prepare(m, now, input).Ok? { PreparedEnvelope(m, now, input); }
  }

  /** Every envelope ever handed out was fresh, through failing refreshes and clocks that
      jump either way. */
  lemma {:induction false} EveryReplyIsFresh(m: Memory, disk: Disk, calls: seq<Input>, i: nat)
    requires FreshStart(m) && i < |calls|
    requires ReplyTo(m, disk, calls, i).result.Ok?
    ensures FreshAt(ReplyTo(m, disk, calls, i), TruncateToSecond(calls[i].clock))
  {
    RunKeepsCacheInvariant(m, disk, calls[..i]);
    var (m', disk') := Run(m, disk, calls[..i]);
    CallIsFresh(m', disk', calls[i]);
  }

  // ----- spacing of refresh attempts

  function Gap(m: Memory): int {
    Min(RETRY_DELAY, m.options.cacheFor)
  }

  /** The instants at which calls reached `refresh`, and so loaded the catalog. */
  function Attempts(m: Memory, disk: Disk, calls: seq<Input>): seq<Time> {
    if calls == [] then []
    else
      var before := calls[..|calls|-1];
      var now := TruncateToSecond(calls[|calls|-1].clock);
      Attempts(m, disk, before) + if Refreshes(Run(m, disk, before).0, now) then [now] else []
  }

  /** After an attempt at `t`, the issuer itself refuses another before `t` plus the gap. */
  predicate QuietUntilGap(m: Memory, t: Time) {
    if m.lastError.Some? then m.retryAt >= t + Gap(m)
    else m.cached.Some? && m.state.lastVersion > 0 && m.state.lastIssuedAt >= t && m.cacheUntil >= t + Gap(m)
  }

  lemma {:induction false} CallOptions(m: Memory, disk: Disk, input: Input)
    ensures Call(m, disk, input).memory.options == m.options
    ensures Call(m, disk, input).memory.closed == m.closed
    ensures !Refreshes(m, TruncateToSecond(input.clock)) ==>
              Call(m, disk, input).memory == m && Call(m, disk, input).disk == disk
  {
    hide Prepare;
  }

  lemma {:induction false} AttemptIsFollowedByQuiet(m: Memory, disk: Disk, input: Input)
    requires CacheInvariant(m) && Refreshes(m, TruncateToSecond(input.clock))
    ensures QuietUntilGap(Call(m, disk, input).memory, TruncateToSecond(input.clock))
  {
    hide Prepare;
    var now := TruncateToSecond(input.clock);
    if Prepare(m, now, input).Ok? { PreparedEnvelope(m, now, input); }
  }

  lemma {:induction false} QuietMeansNoAttempt(m: Memory, t: Time, now: Time)
    requires QuietUntilGap(m, t) && Refreshes(m, now)
    ensures now >= t + Gap(m)
  {
  }

  /** The last attempt keeps the issuer quiet, and all attempts so far are spaced. */
  lemma {:induction false} AttemptsInvariant(m: Memory, disk: Disk, calls: seq<Input>)
    requires FreshStart(m)
    ensures var a := Attempts(m, disk, calls);
            var m' := Run(m, disk, calls).0;
            && m'.options == m.options
            && (forall k | 0 < k < |a| :: a[k] >= a[k-1] + Gap(m))
            && (a != [] ==> QuietUntilGap(m', a[|a|-1]))
  {
    hide Call, Refreshes, CacheInvariant, QuietUntilGap;
    if calls != [] {
      var before, input := calls[..|calls|-1], calls[|calls|-1];
      var (m', disk') := Run(m, disk, before);
      var now, a := TruncateToSecond(input.clock), Attempts(m, disk, before);
      AttemptsInvariant(m, disk, before);
      RunKeepsCacheInvariant(m, disk, before);
      CallOptions(m', disk', input);
      if Refreshes(m', now) {
        if a != [] { QuietMeansNoAttempt(m', a[|a|-1], now); }
        AttemptIsFollowedByQuiet(m', disk', input);
      }
    }
  }

  lemma {:induction false} SpacedApart(a: seq<Time>, gap: int, i: nat, j: nat)
    requires forall k | 0 < k < |a| :: a[k] >= a[k-1] + gap
    requires i <= j < |a|
    ensures a[j] - a[i] >= (j - i) * gap
    decreases j
  {
    if i < j {
      SpacedApart(a, gap, i, j - 1);
      assert (j - i) * gap == (j - 1 - i) * gap + gap;
    }
  }

  /** For every sequence of clock readings, forwards or backwards: attempts `i` and `j` are
      at least `j - i` gaps apart, so an interval of length `n` gaps sees at most `n + 1`
      catalog loads. */
  lemma {:induction false} RefreshesAreSpaced(m: Memory, disk: Disk, calls: seq<Input>, i: nat, j: nat)
    requires FreshStart(m)
    requires i <= j < |Attempts(m, disk, calls)|
    ensures Attempts(m, disk, calls)[j] - Attempts(m, disk, calls)[i]
            >= (j - i) * Min(5_000_000_000, m.options.cacheFor)
  {
    AttemptsInvariant(m, disk, calls);
    SpacedApart(Attempts(m, disk, calls), Gap(m), i, j);
  }

  /** When the next attempt is made, exactly: after a success once the cache time is over,
      after a failure once the gap is over, and at no earlier reading of the clock. */
  lemma {:induction false} NextAttemptExactly(m: Memory, disk: Disk, input: Input, later: Time)
    requires CacheInvariant(m) && Refreshes(m, TruncateToSecond(input.clock))
    ensures var m', now := Call(m, disk, input).memory, TruncateToSecond(input.clock);
            Refreshes(m', later) <==>
            later >= now + if m'.lastError.Some? then Min(5_000_000_000, m.options.cacheFor) else m.options.cacheFor
  {
    hide Prepare;
    var now := TruncateToSecond(input.clock);
    if Prepare(m, now, input).Ok? { PreparedEnvelope(m, now, input); }
  }

  // ----- what every call answers

  /** Call `i` published: it moved the issuer on to a new version. */
  predicate PublishedAt(m: Memory, disk: Disk, calls: seq<Input>, i: nat)
    requires i < |calls|
  {
    ReplyTo(m, disk, calls, i).memory.state.lastVersion > Run(m, disk, calls[..i]).0.state.lastVersion
  }

  /** The last publication before call `j`. */
  function LastPublished(m: Memory, disk: Disk, calls: seq<Input>, j: nat): (r: Option<nat>)
    requires j <= |calls|
    ensures r.Some? ==> r.value < j
  {
    if j == 0 then None
    else if PublishedAt(m, disk, calls, j - 1) then Some(j - 1)
    else LastPublished(m, disk, calls, j - 1)
  }

  /** One call, seen from outside. */
  lemma {:induction false} CallAnswers(m: Memory, disk: Disk, input: Input)
    requires CacheInvariant(m) && !m.closed
    ensures var r, now := Call(m, disk, input), TruncateToSecond(input.clock);
            if r.memory.state.lastVersion > m.state.lastVersion then
              r.result.Ok? && r.memory.cached == Some(r.result.value) && r.memory.state.lastIssuedAt == now
            else
              && r.memory.cached == m.cached && r.memory.state == m.state
              && (r.result.Ok? <==>
                    m.cached.Some? && m.state.lastIssuedAt <= now < m.state.lastIssuedAt + m.options.ttl)
              && (r.result.Ok? ==> m.cached == Some(r.result.value))
  {
    hide Prepare;
    var now := TruncateToSecond(input.clock);
    if Prepare(m, now, input).Ok? { PreparedEnvelope(m, now, input); }
  }

  lemma {:induction false} ReplyIsNextRun(m: Memory, disk: Disk, calls: seq<Input>, i: nat)
    requires i < |calls|
    ensures Run(m, disk, calls[..i+1]) == (ReplyTo(m, disk, calls, i).memory, ReplyTo(m, disk, calls, i).disk)
  {
    assert calls[..i+1][..i] == calls[..i];
  }

  lemma {:induction false} RunIsOpen(m: Memory, disk: Disk, calls: seq<Input>)
    requires FreshStart(m)
    ensures CacheInvariant(Run(m, disk, calls).0)
    ensures !Run(m, disk, calls).0.closed && Run(m, disk, calls).0.options == m.options
  {
    hide Call;
    RunKeepsCacheInvariant(m, disk, calls);
    if calls != [] {
      RunIsOpen(m, disk, calls[..|calls|-1]);
      var (m', disk') := Run(m, disk, calls[..|calls|-1]);
      CallOptions(m', disk', calls[|calls|-1]);
    }
  }

  /** The envelope kept for answering is the last one published. */
  lemma {:induction false} LastPublishedIsKept(m: Memory, disk: Disk, calls: seq<Input>, j: nat)
    requires FreshStart(m) && j <= |calls|
    ensures var p := LastPublished(m, disk, calls, j);
            if p.None? then Run(m, disk, calls[..j]).0.cached.None?
            else
              && ReplyTo(m, disk, calls, p.value).result.Ok?
              && Run(m, disk, calls[..j]).0.cached == Some(ReplyTo(m, disk, calls, p.value).result.value)
              && Run(m, disk, calls[..j]).0.state.lastIssuedAt == TruncateToSecond(calls[p.value].clock)
  {
    hide Call, CacheInvariant;
    if j == 0 {
      assert calls[..0] == [];
    } else {
      LastPublishedIsKept(m, disk, calls, j - 1);
      RunIsOpen(m, disk, calls[..j-1]);
      var (m', disk') := Run(m, disk, calls[..j-1]);
      CallAnswers(m', disk', calls[j-1]);
      ReplyIsNextRun(m, disk, calls, j - 1);
    }
  }

  /** For every sequence of calls of one issuer, whatever its clock, catalog and disk do: a call
      that publishes answers with its envelope, and any other call answers if and only if an
      envelope was published before it and the clock is between its issue and its expiry. The
      answer is then the last envelope published. */
  lemma {:induction false} RepliesExactly(m: Memory, disk: Disk, calls: seq<Input>, j: nat)
    requires FreshStart(m) && j < |calls|
    ensures PublishedAt(m, disk, calls, j) ==> ReplyTo(m, disk, calls, j).result.Ok?
    ensures !PublishedAt(m, disk, calls, j) ==>
              var p, now := LastPublished(m, disk, calls, j), TruncateToSecond(calls[j].clock);
              && (ReplyTo(m, disk, calls, j).result.Ok? <==>
                    && p.Some?
                    && var t := TruncateToSecond(calls[p.value].clock);
                    t <= now < t + m.options.ttl)
              && (ReplyTo(m, disk, calls, j).result.Ok? ==>
                    ReplyTo(m, disk, calls, j).result == ReplyTo(m, disk, calls, p.value).result)
  {
    hide Call, CacheInvariant;
    LastPublishedIsKept(m, disk, calls, j);
    RunIsOpen(m, disk, calls[..j]);
    var (m', disk') := Run(m, disk, calls[..j]);
    CallAnswers(m', disk', calls[j]);
  }

  lemma {:induction false} LastPublishedIsLast(m: Memory, disk: Disk, calls: seq<Input>, i: nat, j: nat)
    requires i < j <= |calls| && PublishedAt(m, disk, calls, i)
    requires forall k | i < k < j :: !PublishedAt(m, disk, calls, k)
    ensures LastPublished(m, disk, calls, j) == Some(i)
    decreases j
  {
    hide PublishedAt;
    if i < j - 1 { LastPublishedIsLast(m, disk, calls, i, j - 1); }
  }

  /** An envelope is answered with, unchanged, at every second of its lifetime until the next
      one is published, through every failure in between. */
  lemma {:induction false} AnswersUntilExpiry(m: Memory, disk: Disk, calls: seq<Input>, i: nat, j: nat)
    requires FreshStart(m) && i < j < |calls| && PublishedAt(m, disk, calls, i)
    requires forall k | i < k <= j :: !PublishedAt(m, disk, calls, k)
    requires var t := TruncateToSecond(calls[i].clock);
             t <= TruncateToSecond(calls[j].clock) < t + m.options.ttl
    ensures ReplyTo(m, disk, calls, i).result.Ok?
    ensures ReplyTo(m, disk, calls, j).result == ReplyTo(m, disk, calls, i).result
  {
    hide PublishedAt, Call;
    LastPublishedIsLast(m, disk, calls, i, j);
    RepliesExactly(m, disk, calls, i);
    RepliesExactly(m, disk, calls, j);
  }
}
