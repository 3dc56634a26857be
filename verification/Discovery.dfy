/** Sequential fallback over discovery mirrors: internal/discovery/client.go. */
module Discovery {
  import opened Basics
  import opened Ordering
  import opened KeyPolicies
  import opened Catalogs
  import opened Manifests

  const DEFAULT_ATTEMPT_TIMEOUT: int := 12 * SECOND
  const DEFAULT_OVERALL_TIMEOUT: int := 60 * SECOND

  datatype Client = Client(root: RootBytes, maxAttempts: int, attemptTimeout: int, overallTimeout: int)

  /** What happens around one attempt: the time the client spends before it, an overrun of the
      attempt before included; how long the mirror takes; what it serves if anything usable;
      and the client's clock, read when the attempt begins. */
  datatype Mirror = Mirror(pause: nat, latency: nat, served: Option<Envelope>, clock: Time)

  datatype Fetched = Fetched(document: Document, trusted: TrustedState, sourceId: string)

  type Mirrors = map<string, Mirror>

  function Behaviour(mirrors: Mirrors, source: DiscoveryEndpoint): Mirror {
    if source.id in mirrors then mirrors[source.id] else Mirror(0, 0, None, 0)
  }

  // ----- settings

  function MaxAttempts(c: Client, sources: seq<DiscoveryEndpoint>): int {
    if c.maxAttempts == 0 then |sources| else c.maxAttempts
  }

  function AttemptTimeout(c: Client): int {
    if c.attemptTimeout == 0 then DEFAULT_ATTEMPT_TIMEOUT else c.attemptTimeout
  }

  function OverallTimeout(c: Client): int {
    if c.overallTimeout == 0 then DEFAULT_OVERALL_TIMEOUT else c.overallTimeout
  }

  predicate GoodSettings(c: Client, sources: seq<DiscoveryEndpoint>) {
    && c.root.RootKey?
    && 1 <= |sources| <= 16
    && 1 <= MaxAttempts(c, sources) <= 16
    && SECOND <= AttemptTimeout(c) <= 30 * SECOND
    && 5 * SECOND <= OverallTimeout(c) <= 5 * MINUTE
  }

  /** `validateSource` looks at less than manifest validation does: not at host and port. */
  predicate UsableSource(s: DiscoveryEndpoint) {
    ValidId(s.id) && 1 <= s.priority <= 1000 && s.url.plainHttps
  }

  predicate GoodSources(sources: seq<DiscoveryEndpoint>) {
    (forall s | s in sources :: UsableSource(s)) && DistinctKeys(sources, SourceName)
  }

  /** How many attempts a client makes at most, and how long one may take. */
  function AttemptLimit(c: Client, sources: seq<DiscoveryEndpoint>): int {
    if c.maxAttempts == 0 then |sources| else c.maxAttempts
  }

  function TimeLimit(c: Client): int {
    if c.attemptTimeout == 0 then 12_000_000_000 else c.attemptTimeout
  }

  /** The settings that are accepted, with the defaults for those left at zero. */
  lemma {:induction false} SettingsMeaning(c: Client, sources: seq<DiscoveryEndpoint>)
    ensures GoodSettings(c, sources) <==>
            && c.root.RootKey? && 1 <= |sources| <= 16
            && 1 <= AttemptLimit(c, sources) <= 16
            && 1_000_000_000 <= TimeLimit(c) <= 30_000_000_000
            && (c.overallTimeout == 0 || 5_000_000_000 <= c.overallTimeout <= 300_000_000_000)
    ensures MaxAttempts(c, sources) == AttemptLimit(c, sources) && AttemptTimeout(c) == TimeLimit(c)
  {
  }

  /** The rules for sources: identifiers of 1 to 63 lower-case letters, digits and inner dashes,
      none twice, priorities from 1 to 1000, plain HTTPS URLs. */
  lemma {:induction false} SourcesMeaning(sources: seq<DiscoveryEndpoint>)
    ensures GoodSources(sources) <==>
            && (forall i | 0 <= i < |sources| ::
                  SlugRules(sources[i].id, 63) && 1 <= sources[i].priority <= 1000 && sources[i].url.plainHttps)
            && (forall i, j | 0 <= i < j < |sources| :: sources[i].id != sources[j].id)
  {
    hide Slug, SlugRules;
    forall i | 0 <= i < |sources| ensures ValidId(sources[i].id) <==> SlugRules(sources[i].id, 63) {
      SlugMeaning(sources[i].id, 63);
    }
    assert forall i | 0 <= i < |sources| :: sources[i] in sources;
    forall i, j | 0 <= i < j < |sources|
      ensures SourceName(sources[i]) != SourceName(sources[j]) <==> sources[i].id != sources[j].id {}
  }

  /** The mirrors that will be tried, in (priority, identifier) order. */
  function Selected(c: Client, sources: seq<DiscoveryEndpoint>): seq<DiscoveryEndpoint>
    requires MaxAttempts(c, sources) >= 0
  {
    var ordered := SortBy(sources, SourceKey);
    if |ordered| > MaxAttempts(c, sources) then ordered[..MaxAttempts(c, sources)] else ordered
  }

  /** The time for the whole fetch: the caller's deadline wins when it is shorter. */
  function TotalTime(c: Client, callerLeft: Option<int>): (t: int)
    ensures t <= OverallTimeout(c) && (callerLeft.Some? ==> t <= callerLeft.value)
    ensures var configured := if c.overallTimeout == 0 then 60_000_000_000 else c.overallTimeout;
            t == if callerLeft.Some? && callerLeft.value < configured then callerLeft.value else configured
  {
    if callerLeft.Some? then Min(OverallTimeout(c), callerLeft.value) else OverallTimeout(c)
  }

  // ----- attempts

  /** Go's `/` on durations truncates towards zero. */
  function TruncDiv(a: int, b: Pos): int {
    if a >= 0 then a / b else -((-a) / b)
  }

  function Budget(remaining: int, left: Pos, timeout: int): int {
    var fairShare := TruncDiv(remaining, left);
    if fairShare < timeout then fairShare else timeout
  }

  /** The time an attempt really has: its budget, or less if the caller cancels before. */
  function Allowance(budget: int, cancel: Option<int>): int {
    if cancel.Some? && cancel.value < budget then cancel.value else budget
  }

  /** `fetchOne` under a deadline: a mirror that has not answered when the allowance is spent
      is cut off there. */
  function FetchOne(root: RootBytes, m: Mirror, allowed: int, trusted: TrustedState): Result<(Document, TrustedState)> {
    if m.latency >= allowed then Err("deadline exceeded")
    else if m.served.None? then Err("no usable response")
    else
      var v := Verify(m.served.value, root, m.clock, trusted);
      if v.document.Err? then Err(v.document.reason) else Ok((v.document.value, v.trusted))
  }

  function Elapsed(m: Mirror, allowed: int): int {
    if allowed < 0 then 0 else Min(m.latency, allowed)
  }

  /** Time until the caller cancels, `t` later. */
  function Later(cancel: Option<int>, t: int): Option<int> {
    if cancel.None? then None else Some(cancel.value - t)
  }

  /** Whether the context of the whole fetch is over: its deadline passed or it was cancelled. */
  predicate Over(remaining: int, cancel: Option<int>) {
    remaining <= 0 || (cancel.Some? && cancel.value <= 0)
  }

  /** The budgets given out, the position that answered, and the time all of it took. */
  datatype Attempts = Attempts(budgets: seq<int>, answer: Option<nat>, elapsed: int)

  /** The attempts from position `i` on, with `remaining` time to the deadline and the caller
      cancelling after `cancel`, if at all. */
  function Try(root: RootBytes, selected: seq<DiscoveryEndpoint>, mirrors: Mirrors, timeout: int,
               trusted: TrustedState, i: nat, remaining: int, cancel: Option<int>): Attempts
    requires i <= |selected|
    decreases |selected| - i
  {
    if i == |selected| then Attempts([], None, 0)
    else
      var m := Behaviour(mirrors, selected[i]);
      var budget := Budget(remaining - m.pause, |selected| - i, timeout);
      if budget <= 0 then Attempts([], None, m.pause)
      else
        var allowed := Allowance(budget, Later(cancel, m.pause));
        var elapsed := m.pause + Elapsed(m, allowed);
        if FetchOne(root, m, allowed, trusted).Ok? then Attempts([budget], Some(i), elapsed)
        else if Over(remaining - elapsed, Later(cancel, elapsed)) then Attempts([budget], None, elapsed)
        else
          var rest := Try(root, selected, mirrors, timeout, trusted, i + 1,
                          remaining - elapsed, Later(cancel, elapsed));
          Attempts([budget] + rest.budgets, rest.answer, elapsed + rest.elapsed)
  }

  function AllAttempts(c: Client, sources: seq<DiscoveryEndpoint>, mirrors: Mirrors,
                       trusted: TrustedState, callerLeft: Option<int>, cancel: Option<int>): Attempts
    requires GoodSettings(c, sources)
  {
    Try(c.root, Selected(c, sources), mirrors, AttemptTimeout(c), trusted, 0, TotalTime(c, callerLeft), cancel)
  }

  /** The validation loop over the sources as given. */
  method CheckSources(sources: seq<DiscoveryEndpoint>) returns (ok: bool)
    ensures ok <==> GoodSources(sources)
    ensures ok <==>
            && (forall i | 0 <= i < |sources| ::
                  SlugRules(sources[i].id, 63) && 1 <= sources[i].priority <= 1000 && sources[i].url.plainHttps)
            && (forall i, j | 0 <= i < j < |sources| :: sources[i].id != sources[j].id)
  {
    SourcesMeaning(sources);
    var seenIds: set<string> := {};
    for index := 0 to |sources|
      invariant GoodSources(sources[..index])
      invariant seenIds == Names(sources[..index], SourceName)
    {
      var source := sources[index];
      assert source in sources && sources[..index+1] == sources[..index] + [source];
      NamesStep(sources[..index], source, SourceName);
      if !ValidId(source.id) { return false; }
      if source.priority == 0 || source.priority > 1000 { return false; }
      if source.id in seenIds {
        assert !DistinctKeys(sources[..index+1], SourceName);
        return false;
      }
      seenIds := seenIds + {source.id};
      if !source.url.plainHttps { return false; }
    }
    assert sources[..|sources|] == sources;
    return true;
  }

  /** The loop over the selected mirrors. */
  method TryInOrder(root: RootBytes, selected: seq<DiscoveryEndpoint>, mirrors: Mirrors, timeout: int,
                    trusted: TrustedState, total: int, cancelAfter: Option<int>)
    returns (r: Result<Fetched>)
    ensures var a := Try(root, selected, mirrors, timeout, trusted, 0, total, cancelAfter).answer;
            && (r.Ok? <==> a.Some?)
            && (a.Some? ==>
                  && a.value < |selected| && r.value.sourceId == selected[a.value].id
                  && Verified(root, Behaviour(mirrors, selected[a.value]), trusted, r.value))
  {
    hide FetchOne, Elapsed, Allowance, Behaviour, Verified, TruncDiv;
    var remaining, cancel, index := total, cancelAfter, 0;
    var failures: seq<string> := [];
    while index < |selected|
      invariant index <= |selected|
      invariant Try(root, selected, mirrors, timeout, trusted, 0, total, cancelAfter).answer
             == Try(root, selected, mirrors, timeout, trusted, index, remaining, cancel).answer
    {
      var mirror := Behaviour(mirrors, selected[index]);
      var attemptBudget := timeout;
      var fairShare := TruncDiv(remaining - mirror.pause, |selected| - index);
      if fairShare < attemptBudget { attemptBudget := fairShare; }
      if attemptBudget <= 0 { break; }
      var allowed := Allowance(attemptBudget, Later(cancel, mirror.pause));
      var fetched := FetchOne(root, mirror, allowed, trusted);
      if fetched.Ok? {
        r := Ok(Fetched(fetched.value.0, fetched.value.1, selected[index].id));
        FetchedIsVerified(root, mirror, allowed, trusted, r.value);
        return;
      }
      failures := failures + [fetched.reason];
      var elapsed := mirror.pause + Elapsed(mirror, allowed);
      remaining, cancel := remaining - elapsed, Later(cancel, elapsed);
      if Over(remaining, cancel) { break; }
      index := index + 1;
    }
    if failures == [] { return Err("no sources were provided"); }
    return Err("all attempted sources failed");
  }

  /** What was fetched is what the mirror's envelope verifies to. */
  predicate Verified(root: RootBytes, m: Mirror, trusted: TrustedState, f: Fetched) {
    m.served.Some? && Verify(m.served.value, root, m.clock, trusted) == Verdict(Ok(f.document), f.trusted)
  }

  lemma {:induction false} FetchedIsVerified(
    root: RootBytes, m: Mirror, allowed: int, trusted: TrustedState, f: Fetched)
    requires FetchOne(root, m, allowed, trusted) == Ok((f.document, f.trusted))
    ensures Verified(root, m, trusted, f)
  {
    hide Authenticate;
  }

  method Fetch(
    c: Client, sources: seq<DiscoveryEndpoint>, mirrors: Mirrors, trusted: TrustedState,
    callerLeft: Option<int>, cancel: Option<int>)
    returns (r: Result<Fetched>)
    ensures r.Ok? ==> GoodSettings(c, sources) && GoodSources(sources)
    ensures GoodSettings(c, sources) && GoodSources(sources) ==>
              var a := AllAttempts(c, sources, mirrors, trusted, callerLeft, cancel).answer;
              && (r.Ok? <==> a.Some?)
              && (a.Some? ==>
                    && a.value < |Selected(c, sources)| && r.value.sourceId == Selected(c, sources)[a.value].id
                    && Verified(c.root, Behaviour(mirrors, Selected(c, sources)[a.value]), trusted, r.value))
  {
    hide Verify;
    if !GoodSettings(c, sources) { return Err("invalid settings"); }
    var ok := CheckSources(sources);
    if !ok { return Err("invalid source"); }
    var ordered := SortSlice(sources, SourceKey);
    OrderIsDetermined(sources, ordered);
    if |ordered| > MaxAttempts(c, sources) { ordered := ordered[..MaxAttempts(c, sources)]; }
    r := TryInOrder(c.root, ordered, mirrors, AttemptTimeout(c), trusted, TotalTime(c, callerLeft), cancel);
  }

  /** A client can go on with the mirrors of any document it verified: they pass its checks. */
  lemma {:induction false} VerifiedMirrorsAreUsable(
    e: Envelope, root: RootBytes, clock: Time, trusted: TrustedState, c: Client)
    requires Verify(e, root, clock, trusted).document.Ok?
    ensures var sources := Verify(e, root, clock, trusted).document.value.discovery;
            && GoodSources(sources)
            && (c.root.RootKey? && c.maxAttempts == c.attemptTimeout == c.overallTimeout == 0 ==>
                  GoodSettings(c, sources))
  {
    hide GrantChain, GrantIn, ValidNodes;
    assert ValidDiscovery(Verify(e, root, clock, trusted).document.value.discovery);
  }

  lemma {:induction false} OrderIsDetermined(sources: seq<DiscoveryEndpoint>, ordered: seq<DiscoveryEndpoint>)
    requires DistinctKeys(sources, SourceName)
    requires multiset(ordered) == multiset(sources) && SortedBy(ordered, SourceKey)
    ensures ordered == SortBy(sources, SourceKey)
  {
    forall i, j | 0 <= i < j < |sources| ensures SourceKey(sources[i]) != SourceKey(sources[j]) {
      assert SourceName(sources[i]) != SourceName(sources[j]);
    }
    SortBySorts(sources, SourceKey);
    DistinctKeysReordered(sources, ordered, SourceKey);
    SortedUnique(ordered, SortBy(sources, SourceKey), SourceKey);
  }

  /** `a` is tried before `b`. */
  predicate Earlier(a: DiscoveryEndpoint, b: DiscoveryEndpoint) {
    a.priority < b.priority || (a.priority == b.priority && TextBefore(a.id, b.id))
  }

  /** The mirrors tried are the first ones by (priority, identifier), in that order, all of them
      unless the client sets a lower number: no source left out comes before one that is
      tried. */
  lemma {:induction false} SelectedInOrder(
    c: Client, sources: seq<DiscoveryEndpoint>, i: nat, j: nat, s: DiscoveryEndpoint)
    requires GoodSettings(c, sources) && GoodSources(sources)
    ensures var selected := Selected(c, sources);
            && |selected| == (if c.maxAttempts == 0 then |sources| else Min(c.maxAttempts, |sources|))
            && (i < j < |selected| ==> Earlier(selected[i], selected[j]))
            && (j < |selected| ==> selected[j] in sources)
            && (s in sources && s !in selected && j < |selected| ==> Earlier(selected[j], s))
            && (c.maxAttempts == 0 && s in sources ==> s in selected)
  {
    hide KeyLess, Earlier;
    SortBySorts(sources, SourceKey);
    var ordered, selected := SortBy(sources, SourceKey), Selected(c, sources);
    SameMembers(ordered, sources);
    assert selected == ordered[..|selected|];
    if s in sources && s !in selected && j < |selected| {
      var k :| 0 <= k < |ordered| && ordered[k] == s;
      StrictlyOrdered(sources, ordered, j, k);
    }
    if i < j < |selected| { StrictlyOrdered(sources, ordered, i, j); }
  }

  lemma {:induction false} StrictlyOrdered(
    sources: seq<DiscoveryEndpoint>, ordered: seq<DiscoveryEndpoint>, i: nat, j: nat)
    requires multiset(ordered) == multiset(sources) && SortedBy(ordered, SourceKey) && DistinctKeys(sources, SourceName)
    requires i < j < |ordered|
    ensures Earlier(ordered[i], ordered[j])
  {
    hide TextBefore;
    DistinctKeysReordered(sources, ordered, SourceName);
    forall p, q | 0 <= p < q < |ordered| ensures SourceKey(ordered[p]) != SourceKey(ordered[q]) {
      assert SourceName(ordered[p]) != SourceName(ordered[q]);
    }
    StrictlySorted(ordered, SourceKey, i, j);
  }

  // ----- fair shares

  lemma {:induction false} ScaledOrder(a: nat, b: nat, k: nat)
    requires a <= b
    ensures a * k <= b * k
  {
  }

  lemma {:induction false} QuotientAtLeast(a: nat, k: Pos, q: nat)
    requires a >= q * k
    ensures a / k >= q
  {
    var r := a / k;
    assert a < r * k + k == (r + 1) * k;
    if r < q { ScaledOrder(r + 1, q, k); }
  }

  /** Using no more than one's share leaves the others at least as much each. */
  lemma {:induction false} ShareNeverShrinks(remaining: nat, left: Pos, used: nat)
    requires left > 1 && used <= remaining / left
    ensures used <= remaining && (remaining - used) / (left - 1) >= remaining / left
  {
    var q := remaining / left;
    assert q * left <= remaining;
    assert q * left == q * (left - 1) + q;
    QuotientAtLeast(remaining - used, left - 1, q);
  }

  lemma {:induction false} ShareWithinRemaining(remaining: nat, left: Pos)
    ensures remaining / left <= remaining
  {
    assert remaining / left * left <= remaining;
    ScaledOrder(1, left, remaining / left);
  }

  /** One attempt with a positive share, after a pause that the share allows for: its budget,
      and what it leaves for the rest. */
  lemma {:induction false} OneAttempt(remaining: nat, left: Pos, timeout: int, share: Pos, pauses: nat, m: Mirror)
    requires timeout > 0 && remaining / left >= share + m.pause + pauses
    ensures var budget := Budget(remaining - m.pause, left, timeout);
            var used := m.pause + Elapsed(m, budget);
            && Min(timeout, share) <= budget <= timeout && 0 < budget
            && 0 <= used <= remaining
            && (left > 1 ==> remaining - used > 0 && (remaining - used) / (left - 1) >= share + pauses)
  {
    var q := share + pauses;
    ShareAfterPause(remaining, left, q, m.pause);
    var rest: nat := remaining - m.pause;
    var used := Elapsed(m, Budget(rest, left, timeout));
    ShareWithinRemaining(rest, left);
    if left > 1 {
      ShareNeverShrinks(rest, left, used);
      ShareWithinRemaining(rest - used, left - 1);
    }
  }

  lemma {:induction false} ShareAfterPause(remaining: nat, left: Pos, q: nat, pause: nat)
    requires remaining / left >= q + pause
    ensures pause <= remaining && (remaining - pause) / left >= q
  {
    assert remaining / left * left <= remaining;
    ScaledOrder(q + pause, remaining / left, left);
    assert (q + pause) * left == q * left + pause * left;
    ScaledOrder(1, left, pause);
    QuotientAtLeast(remaining - pause, left, q);
  }

  /** All the time spent between attempts from position `i` on. */
  function Pauses(selected: seq<DiscoveryEndpoint>, mirrors: Mirrors, i: nat): nat
    requires i <= |selected|
    decreases |selected| - i
  {
    if i == |selected| then 0
    else Behaviour(mirrors, selected[i]).pause + Pauses(selected, mirrors, i + 1)
  }

  /** The attempt at position `k` failed. */
  predicate FailedAt(root: RootBytes, selected: seq<DiscoveryEndpoint>, mirrors: Mirrors, trusted: TrustedState,
                     i: nat, r: Attempts, k: nat)
    requires i <= k < i + |r.budgets| && k < |selected|
  {
    FetchOne(root, Behaviour(mirrors, selected[k]), r.budgets[k - i], trusted).Err?
  }

  /** No attempt got less than `least`, the time never ran out, every mirror from `i` on was
      tried until one answered, and everyone before the answer failed. */
  predicate Fair(root: RootBytes, selected: seq<DiscoveryEndpoint>, mirrors: Mirrors, trusted: TrustedState,
                 i: nat, remaining: int, least: int, r: Attempts)
  {
    && i + |r.budgets| <= |selected|
    && (forall b | b in r.budgets :: b >= least)
    && 0 <= r.elapsed <= remaining
    && (r.answer.None? ==> |r.budgets| == |selected| - i)
    && (r.answer.Some? ==> r.answer.value == i + |r.budgets| - 1 >= i)
    && (forall k | i <= k < i + |r.budgets| && r.answer != Some(k) ::
          FailedAt(root, selected, mirrors, trusted, i, r, k))
  }

  /** A failed attempt in front of a fair rest. */
  lemma {:induction false} FairCons(root: RootBytes, selected: seq<DiscoveryEndpoint>, mirrors: Mirrors,
                                    trusted: TrustedState, i: nat, remaining: int, least: int,
                                    budget: int, elapsed: int, rest: Attempts)
    requires i < |selected| && budget >= least && 0 <= elapsed
    requires FetchOne(root, Behaviour(mirrors, selected[i]), budget, trusted).Err?
    requires Fair(root, selected, mirrors, trusted, i + 1, remaining - elapsed, least, rest)
    ensures Fair(root, selected, mirrors, trusted, i, remaining, least,
                 Attempts([budget] + rest.budgets, rest.answer, elapsed + rest.elapsed))
  {
    hide FetchOne;
    var r := Attempts([budget] + rest.budgets, rest.answer, elapsed + rest.elapsed);
    forall k | i <= k < i + |r.budgets| && r.answer != Some(k)
      ensures FailedAt(root, selected, mirrors, trusted, i, r, k)
    {
      if k > i { assert FailedAt(root, selected, mirrors, trusted, i + 1, rest, k); }
    }
  }

  lemma {:induction false} FairFrom(root: RootBytes, selected: seq<DiscoveryEndpoint>, mirrors: Mirrors, timeout: int,
                                    trusted: TrustedState, i: nat, remaining: nat, share: Pos)
    requires i <= |selected| && timeout > 0
    requires i < |selected| ==> remaining / (|selected| - i) >= share + Pauses(selected, mirrors, i)
    ensures Fair(root, selected, mirrors, trusted, i, remaining, Min(timeout, share),
                 Try(root, selected, mirrors, timeout, trusted, i, remaining, None))
    decreases |selected| - i
  {
    hide FetchOne, Budget, Elapsed;
    if i < |selected| {
      var left: Pos := |selected| - i;
      var m := Behaviour(mirrors, selected[i]);
      var budget := Budget(remaining - m.pause, left, timeout);
      var elapsed := m.pause + Elapsed(m, budget);
      OneAttempt(remaining, left, timeout, share, Pauses(selected, mirrors, i + 1), m);
      if left > 1 {
        FairFrom(root, selected, mirrors, timeout, trusted, i + 1, remaining - elapsed, share);
        hide Fair;
        if FetchOne(root, m, budget, trusted).Err? {
          FairCons(root, selected, mirrors, trusted, i, remaining, Min(timeout, share), budget, elapsed,
                   Try(root, selected, mirrors, timeout, trusted, i + 1, remaining - elapsed, None));
        } else {
          FairAnswer(root, selected, mirrors, trusted, i, remaining, Min(timeout, share), budget, elapsed);
        }
      } else {
        FairLast(root, selected, mirrors, trusted, i, remaining, Min(timeout, share), budget, elapsed);
      }
    }
  }

  lemma {:induction false} FairAnswer(root: RootBytes, selected: seq<DiscoveryEndpoint>, mirrors: Mirrors,
                                      trusted: TrustedState, i: nat, remaining: int, least: int,
                                      budget: int, elapsed: int)
    requires i < |selected| && budget >= least && 0 <= elapsed <= remaining
    ensures Fair(root, selected, mirrors, trusted, i, remaining, least, Attempts([budget], Some(i), elapsed))
  {
    hide FetchOne;
  }

  lemma {:induction false} FairLast(root: RootBytes, selected: seq<DiscoveryEndpoint>, mirrors: Mirrors,
                                    trusted: TrustedState, i: nat, remaining: int, least: int,
                                    budget: int, elapsed: int)
    requires i + 1 == |selected| && budget >= least && 0 <= elapsed <= remaining
    ensures Fair(root, selected, mirrors, trusted, i, remaining, least, Attempts([budget], Some(i), elapsed))
    ensures FetchOne(root, Behaviour(mirrors, selected[i]), budget, trusted).Err? ==>
              Fair(root, selected, mirrors, trusted, i, remaining, least, Attempts([budget], None, elapsed))
  {
    hide FetchOne;
  }

  /** An attempt is made if and only if a nanosecond is left for each mirror when it begins. */
  lemma {:induction false} AnyAttempt(root: RootBytes, selected: seq<DiscoveryEndpoint>, mirrors: Mirrors, timeout: int,
                                      trusted: TrustedState, total: int, cancel: Option<int>)
    requires selected != [] && timeout > 0
    ensures Try(root, selected, mirrors, timeout, trusted, 0, total, cancel).budgets != []
            <==> total - Behaviour(mirrors, selected[0]).pause >= |selected|
  {
    hide FetchOne, Elapsed, TruncDiv, Behaviour;
    ShareIsPositive(total - Behaviour(mirrors, selected[0]).pause, |selected|);
  }

  lemma {:induction false} ShareIsPositive(total: int, n: Pos)
    ensures TruncDiv(total, n) > 0 <==> total >= n
  {
    if total >= n { QuotientAtLeast(total, n, 1); }
  }

  /** Fair share of a whole fetch that is not cancelled: with total time `D`, `n` mirrors and
      `P` spent between attempts, every attempt gets at least the smaller of the timeout and
      `D / n - P`, all together stay within `D`, and the answer is the first mirror in
      (priority, identifier) order whose attempt succeeds. With less than a nanosecond for
      each, nothing is attempted. */
  lemma {:induction false} FairShare(c: Client, sources: seq<DiscoveryEndpoint>, mirrors: Mirrors,
                                     trusted: TrustedState, callerLeft: Option<int>, k: nat)
    requires GoodSettings(c, sources) && GoodSources(sources)
    ensures |Selected(c, sources)| > 0
    ensures var n, D, P := |Selected(c, sources)|, TotalTime(c, callerLeft), Pauses(Selected(c, sources), mirrors, 0);
            var r := AllAttempts(c, sources, mirrors, trusted, callerLeft, None);
            && (r.budgets != [] <==> D - Behaviour(mirrors, Selected(c, sources)[0]).pause >= n)
            && (D / n > P ==>
                  && (forall b | b in r.budgets :: b >= Min(TimeLimit(c), D / n - P))
                  && 0 <= r.elapsed <= D
                  && (r.answer.None? ==> |r.budgets| == n)
                  && (r.answer.Some? ==> r.answer.value < n && |r.budgets| == r.answer.value + 1)
                  && (k < |r.budgets| && r.answer != Some(k) ==>
                        FetchOne(c.root, Behaviour(mirrors, Selected(c, sources)[k]), r.budgets[k], trusted).Err?))
  {
    hide FetchOne, Try, Selected, GoodSources, Pauses, Behaviour;
    SelectedInOrder(c, sources, 0, 0, sources[0]);
    var selected, D := Selected(c, sources), TotalTime(c, callerLeft);
    AnyAttempt(c.root, selected, mirrors, AttemptTimeout(c), trusted, D, None);
    var P := Pauses(selected, mirrors, 0);
    if D / |selected| > P {
      FairFrom(c.root, selected, mirrors, AttemptTimeout(c), trusted, 0, D, D / |selected| - P);
      var r := AllAttempts(c, sources, mirrors, trusted, callerLeft, None);
      if k < |r.budgets| && r.answer != Some(k) {
        assert FailedAt(c.root, selected, mirrors, trusted, 0, r, k);
      }
    }
  }

  // ----- cancellation

  lemma {:induction false} NoCancellation(budget: int)
    ensures Allowance(budget, None) == budget
  {
  }

  /** One attempt beside the same one without cancellation. */
  lemma {:induction false} CutOffAttempt(root: RootBytes, m: Mirror, budget: Pos, cancel: int, trusted: TrustedState)
    ensures var allowed := Allowance(budget, Some(cancel));
            if Elapsed(m, budget) < cancel then
              && Elapsed(m, allowed) == Elapsed(m, budget)
              && FetchOne(root, m, allowed, trusted).Ok? == FetchOne(root, m, budget, trusted).Ok?
            else FetchOne(root, m, allowed, trusted).Err? && cancel <= Elapsed(m, allowed)
    ensures Elapsed(m, budget) >= 0
  {
    hide Verify;
  }

  lemma {:induction false} CutOffFrom(root: RootBytes, selected: seq<DiscoveryEndpoint>, mirrors: Mirrors, timeout: int,
                                      trusted: TrustedState, i: nat, remaining: int, cancel: int)
    requires i <= |selected|
    ensures var r := Try(root, selected, mirrors, timeout, trusted, i, remaining, Some(cancel));
            var u := Try(root, selected, mirrors, timeout, trusted, i, remaining, None);
            && r.budgets <= u.budgets
            && (u.elapsed < cancel ==> r == u)
            && (cancel <= u.elapsed ==> r.answer.None?)
    decreases |selected| - i
  {
    hide FetchOne, Elapsed, Allowance, Budget, Behaviour;
    if i < |selected| {
      var m := Behaviour(mirrors, selected[i]);
      var budget := Budget(remaining - m.pause, |selected| - i, timeout);
      if budget > 0 {
        var elapsed := m.pause + Elapsed(m, budget);
        assert Allowance(budget, None) == budget by { NoCancellation(budget); }
        CutOffAttempt(root, m, budget, cancel - m.pause, trusted);
        CutOffFrom(root, selected, mirrors, timeout, trusted, i + 1, remaining - elapsed, cancel - elapsed);
        TryTakesTime(root, selected, mirrors, timeout, trusted, i + 1, remaining - elapsed);
      }
    }
  }

  lemma {:induction false} TryTakesTime(root: RootBytes, selected: seq<DiscoveryEndpoint>, mirrors: Mirrors,
                                        timeout: int, trusted: TrustedState, i: nat, remaining: int)
    requires i <= |selected|
    ensures Try(root, selected, mirrors, timeout, trusted, i, remaining, None).elapsed >= 0
    decreases |selected| - i
  {
    hide FetchOne, Budget, Behaviour;
    if i < |selected| {
      var m := Behaviour(mirrors, selected[i]);
      var elapsed := m.pause + Elapsed(m, Budget(remaining - m.pause, |selected| - i, timeout));
      TryTakesTime(root, selected, mirrors, timeout, trusted, i + 1, remaining - elapsed);
    }
  }

  /** A fetch that the caller cancels makes the same attempts as one left alone, only fewer. It
      is exactly the same if that one is over before the caller cancels, and otherwise it
      answers nothing. */
  lemma {:induction false} CancellationCutsOff(c: Client, sources: seq<DiscoveryEndpoint>, mirrors: Mirrors,
                                               trusted: TrustedState, callerLeft: Option<int>, cancel: int)
    requires GoodSettings(c, sources)
    ensures var r := AllAttempts(c, sources, mirrors, trusted, callerLeft, Some(cancel));
            var u := AllAttempts(c, sources, mirrors, trusted, callerLeft, None);
            && r.budgets <= u.budgets
            && r.answer == (if u.elapsed < cancel then u.answer else None)
            && (u.elapsed < cancel ==> r == u)
  {
    hide Try, Selected;
    CutOffFrom(c.root, Selected(c, sources), mirrors, AttemptTimeout(c), trusted, 0, TotalTime(c, callerLeft), cancel);
  }

  /** A selected mirror that serves a verifying envelope within the guaranteed share makes the
      fetch succeed, there or at an earlier mirror, whatever the others do, unless the caller
      cancels within the total time. */
  lemma {:induction false} OnePromptMirrorSuffices(c: Client, sources: seq<DiscoveryEndpoint>, mirrors: Mirrors,
                                                   trusted: TrustedState, callerLeft: Option<int>,
                                                   cancel: Option<int>, k: nat)
    requires GoodSettings(c, sources) && GoodSources(sources)
    requires cancel.Some? ==> TotalTime(c, callerLeft) < cancel.value
    requires k < |Selected(c, sources)|
    requires var n, D, P := |Selected(c, sources)|, TotalTime(c, callerLeft), Pauses(Selected(c, sources), mirrors, 0);
             var m := Behaviour(mirrors, Selected(c, sources)[k]);
             && m.latency < Min(TimeLimit(c), D / n - P)
             && m.served.Some? && Verify(m.served.value, c.root, m.clock, trusted).document.Ok?
    ensures var a := AllAttempts(c, sources, mirrors, trusted, callerLeft, cancel).answer; a.Some? && a.value <= k
  {
    hide Try, Verify, Selected, Pauses;
    FairShare(c, sources, mirrors, trusted, callerLeft, k);
    var r := AllAttempts(c, sources, mirrors, trusted, callerLeft, None);
    if k < |r.budgets| { assert r.budgets[k] in r.budgets; }
    if cancel.Some? { CancellationCutsOff(c, sources, mirrors, trusted, callerLeft, cancel.value); }
  }

  /** The settings left at their defaults. */
  predicate DefaultSettings(c: Client) {
    c.root.RootKey? && c.maxAttempts == 0 && c.attemptTimeout == 0 && c.overallTimeout == 0
  }

  /** With the default settings and nobody cancelling, any one of up to sixteen good sources
      that serves a verifying envelope within 12 seconds and its share of 60 makes the fetch
      succeed, with that source or one before it. */
  lemma {:induction false} AnyPromptSourceSuffices(c: Client, sources: seq<DiscoveryEndpoint>, mirrors: Mirrors,
                                                   trusted: TrustedState, s: DiscoveryEndpoint)
    returns (k: nat)
    requires DefaultSettings(c) && 1 <= |sources| <= 16 && GoodSources(sources) && s in sources
    requires var m, P := Behaviour(mirrors, s), Pauses(Selected(c, sources), mirrors, 0);
             && m.latency < Min(12_000_000_000, 60_000_000_000 / |sources| - P)
             && m.served.Some? && Verify(m.served.value, c.root, m.clock, trusted).document.Ok?
    ensures var a := AllAttempts(c, sources, mirrors, trusted, None, None).answer;
            && a.Some? && a.value <= k < |sources| == |Selected(c, sources)|
            && Selected(c, sources)[k] == s
  {
    hide Try, Verify, Selected, Pauses, Behaviour, GoodSources;
    SelectedInOrder(c, sources, 0, 0, s);
    var selected := Selected(c, sources);
    k :| 0 <= k < |selected| && selected[k] == s;
    OnePromptMirrorSuffices(c, sources, mirrors, trusted, None, None, k);
  }
}
