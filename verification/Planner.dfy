/** Ranking of connection candidates and retry delays: internal/selector/planner.go. */
module Planner {
  import opened Basics
  import opened Ordering
  import opened Catalogs
  import opened KeyPolicies
  import opened Manifests
  import opened Samples

  const DEFAULT_MAX_CANDIDATES: int := 8
  const DIVERSITY_WINDOW: nat := 10_000

  datatype Options = Options(udpAvailable: bool, maxCandidates: int)

  datatype Observation = Observation(
    consecutiveFailures: U16,
    cooldownUntil: Time,
    lastSuccess: Time,
    transferVerified: bool)

  /** Go's zero `Observation`, read for an endpoint that was never observed. */
  const UNOBSERVED := Observation(0, 0, 0, false)

  datatype Candidate = Candidate(nodeId: string, provider: string, asn: U32, endpoint: Endpoint)

  datatype Scored = Scored(candidate: Candidate, score: U64)

  datatype Plan = Plan(candidates: seq<Candidate>, retryAt: Time)

  type Observations = map<string, Observation>

  function Observed(obs: Observations, id: string): Observation {
    if id in obs then obs[id] else UNOBSERVED
  }

  // ----- which endpoints take part

  function CandidateFor(n: Node, e: Endpoint): Candidate {
    Candidate(n.id, n.provider, n.asn, e)
  }

  function NodeOffers(n: Node): seq<Candidate> {
    Map(n.endpoints, e => CandidateFor(n, e))
  }

  /** Every endpoint of the document, in the order a scan meets them. */
  function Offers(ns: seq<Node>): seq<Candidate> {
    if ns == [] then [] else Offers(ns[..|ns|-1]) + NodeOffers(ns[|ns|-1])
  }

  predicate Usable(udp: bool, c: Candidate) {
    udp || c.endpoint.transport != AMNEZIA_WG
  }

  /** Usable, but still cooling down at `now`. */
  predicate Cooling(obs: Observations, now: Time, udp: bool, c: Candidate) {
    Usable(udp, c) && now < Observed(obs, c.endpoint.id).cooldownUntil
  }

  predicate Eligible(obs: Observations, now: Time, udp: bool, c: Candidate) {
    Usable(udp, c) && !Cooling(obs, now, udp, c)
  }

  /** The score in mathematical integers. Neither it nor the end of the window above it
      leaves 64 bits, so the source's arithmetic never wraps. */
  function ScoreOf(obs: Observations, c: Candidate): (score: U64)
    ensures score + DIVERSITY_WINDOW <= MAX_U64
  {
    var o := Observed(obs, c.endpoint.id);
    var base := c.endpoint.priority * 1_000 + o.consecutiveFailures * 100_000;
    if o.transferVerified && o.lastSuccess != 0 && base >= 100 then base - 100 else base
  }

  /** The eligible candidates, scored, in scan order. */
  function Active(obs: Observations, now: Time, udp: bool, offers: seq<Candidate>): seq<Scored> {
    if offers == [] then []
    else
      var last := offers[|offers|-1];
      Active(obs, now, udp, offers[..|offers|-1])
      + if Eligible(obs, now, udp, last) then [Scored(last, ScoreOf(obs, last))] else []
  }

  /** The earliest end of a cooldown met in the scan; 0 when there was none. */
  function RetryAt(obs: Observations, now: Time, udp: bool, offers: seq<Candidate>): Time {
    if offers == [] then 0
    else
      var last := offers[|offers|-1];
      var before := RetryAt(obs, now, udp, offers[..|offers|-1]);
      var until := Observed(obs, last.endpoint.id).cooldownUntil;
      if Cooling(obs, now, udp, last) && (before == 0 || until < before) then until else before
  }

  // ----- the greedy choice

  function ScoredKey(s: Scored): SortKey {
    SortKey(s.score, s.candidate.endpoint.id)
  }

  /** 0: provider and ASN are both new; 1: one of them is; 2: neither. */
  function DiversityClass(providers: set<string>, asns: set<U32>, s: Scored): nat {
    var newProvider, newAsn := s.candidate.provider !in providers, s.candidate.asn !in asns;
    if newProvider && newAsn then 0 else if newProvider || newAsn then 1 else 2
  }

  predicate NearBest(sorted: seq<Scored>, i: nat)
    requires i < |sorted|
  {
    sorted[i].score <= sorted[0].score + DIVERSITY_WINDOW
  }

  /** Position `i` has the best class within the window over the first `n` positions, and is
      the first to have it. */
  predicate BestOfFirst(sorted: seq<Scored>, providers: set<string>, asns: set<U32>, n: nat, i: nat)
    requires n <= |sorted|
  {
    && i < n && NearBest(sorted, i)
    && forall j | 0 <= j < n && NearBest(sorted, j) ::
         var ci, cj := DiversityClass(providers, asns, sorted[i]), DiversityClass(providers, asns, sorted[j]);
         ci < cj || (ci == cj && i <= j)
  }

  function Best(sorted: seq<Scored>, providers: set<string>, asns: set<U32>, n: nat): (i: nat)
    requires 0 < n <= |sorted|
    ensures i < n
    ensures BestOfFirst(sorted, providers, asns, n, i)
  {
    if n == 1 then 0
    else
      var b := Best(sorted, providers, asns, n - 1);
      if NearBest(sorted, n - 1)
         && DiversityClass(providers, asns, sorted[n-1]) < DiversityClass(providers, asns, sorted[b])
      then n - 1 else b
  }

  /** `mostDiverse`: two scans of the window, the second one less demanding. */
  method MostDiverse(sorted: seq<Scored>, providers: set<string>, asns: set<U32>) returns (index: nat)
    requires sorted != [] && SortedBy(sorted, ScoredKey)
    ensures index == Best(sorted, providers, asns, |sorted|)
  {
    ghost var best := Best(sorted, providers, asns, |sorted|);
    var maximumScore := sorted[0].score + DIVERSITY_WINDOW;
    var i := 0;
    while i < |sorted| && sorted[i].score <= maximumScore
      invariant i <= |sorted|
      invariant forall j | 0 <= j < i :: DiversityClass(providers, asns, sorted[j]) > 0
    {
      if sorted[i].candidate.provider !in providers && sorted[i].candidate.asn !in asns {
        return i;
      }
      i := i + 1;
    }
    BeyondWindow(sorted, i);
    i := 0;
    while i < |sorted| && sorted[i].score <= maximumScore
      invariant i <= |sorted|
      invariant forall j | 0 <= j < i :: DiversityClass(providers, asns, sorted[j]) == 2
    {
      if sorted[i].candidate.provider !in providers || sorted[i].candidate.asn !in asns {
        assert DiversityClass(providers, asns, sorted[best]) > 0;
        return i;
      }
      i := i + 1;
    }
    BeyondWindow(sorted, i);
    return 0;
  }

  lemma {:induction false} BeyondWindow(sorted: seq<Scored>, i: nat)
    requires sorted != [] && SortedBy(sorted, ScoredKey) && i <= |sorted|
    requires i < |sorted| ==> !NearBest(sorted, i)
    ensures forall j | i <= j < |sorted| :: !NearBest(sorted, j)
  {
    forall j | i <= j < |sorted| ensures !NearBest(sorted, j) {
      if i < j { assert KeyLeq(ScoredKey(sorted[i]), ScoredKey(sorted[j])); }
    }
  }

  function Providers(ss: seq<Scored>): set<string> {
    set s | s in ss :: s.candidate.provider
  }

  function Asns(ss: seq<Scored>): set<U32> {
    set s | s in ss :: s.candidate.asn
  }

  function Without<T>(s: seq<T>, i: nat): seq<T>
    requires i < |s|
  {
    s[..i] + s[i+1..]
  }

  /** The picks made after `before`, at most `limit` of them. */
  function Greedy(sorted: seq<Scored>, before: seq<Scored>, limit: nat): seq<Scored>
    decreases limit
  {
    if limit == 0 || sorted == [] then []
    else
      var i := Best(sorted, Providers(before), Asns(before), |sorted|);
      [sorted[i]] + Greedy(Without(sorted, i), before + [sorted[i]], limit - 1)
  }

  function Limit(options: Options): int {
    if options.maxCandidates == 0 then DEFAULT_MAX_CANDIDATES else options.maxCandidates
  }

  function Picks(ns: seq<Node>, obs: Observations, now: Time, udp: bool, limit: nat): seq<Scored> {
    Greedy(SortBy(Active(obs, now, udp, Offers(ns)), ScoredKey), [], limit)
  }

  function PlanFor(d: Document, obs: Observations, now: Time, options: Options): Result<Plan> {
    if !ValidDocument(d) then Err("invalid document")
    else if Limit(options) < 1 || Limit(options) > 16 then Err("max candidates must be between 1 and 16")
    else Ok(Plan(Map(Picks(d.nodes, obs, now, options.udpAvailable, Limit(options)), (s: Scored) => s.candidate),
                 RetryAt(obs, now, options.udpAvailable, Offers(d.nodes))))
  }

  // ----- the algorithm

  /** What one more offer adds to the scan. */
  lemma {:induction false} ScanStep(obs: Observations, now: Time, udp: bool, met: seq<Candidate>, c: Candidate)
    ensures Active(obs, now, udp, met + [c])
            == Active(obs, now, udp, met) + if Eligible(obs, now, udp, c) then [Scored(c, ScoreOf(obs, c))] else []
    ensures var before, until := RetryAt(obs, now, udp, met), Observed(obs, c.endpoint.id).cooldownUntil;
            RetryAt(obs, now, udp, met + [c])
            == if Cooling(obs, now, udp, c) && (before == 0 || until < before) then until else before
  {
    assert (met + [c])[..|met|] == met;
  }

  /** The inner loop: one node's endpoints. */
  method CollectNode(node: Node, obs: Observations, now: Time, udp: bool, ghost earlier: seq<Candidate>,
                     found: seq<Scored>, retry: Time)
    returns (active: seq<Scored>, retryAt: Time)
    requires found == Active(obs, now, udp, earlier) && retry == RetryAt(obs, now, udp, earlier)
    ensures active == Active(obs, now, udp, earlier + NodeOffers(node))
    ensures retryAt == RetryAt(obs, now, udp, earlier + NodeOffers(node))
  {
    hide Active, RetryAt;
    active, retryAt := found, retry;
    ghost var offers := NodeOffers(node);
    assert earlier + offers[..0] == earlier;
    for e := 0 to |node.endpoints|
      invariant active == Active(obs, now, udp, earlier + offers[..e])
      invariant retryAt == RetryAt(obs, now, udp, earlier + offers[..e])
    {
      var endpoint := node.endpoints[e];
      ScanStep(obs, now, udp, earlier + offers[..e], CandidateFor(node, endpoint));
      assert earlier + offers[..e+1] == (earlier + offers[..e]) + [CandidateFor(node, endpoint)];
      if endpoint.transport == AMNEZIA_WG && !udp { continue; }
      var observation := Observed(obs, endpoint.id);
      if now < observation.cooldownUntil {
        if retryAt == 0 || observation.cooldownUntil < retryAt { retryAt := observation.cooldownUntil; }
        continue;
      }
      var score := endpoint.priority * 1_000 + observation.consecutiveFailures * 100_000;
      if observation.transferVerified && observation.lastSuccess != 0 && score >= 100 { score := score - 100; }
      active := active + [Scored(CandidateFor(node, endpoint), score)];
    }
    assert earlier + offers[..|offers|] == earlier + offers;
  }

  method Collect(ns: seq<Node>, obs: Observations, now: Time, udp: bool) returns (active: seq<Scored>, retryAt: Time)
    ensures active == Active(obs, now, udp, Offers(ns))
    ensures retryAt == RetryAt(obs, now, udp, Offers(ns))
  {
    active, retryAt := [], 0;
    for n := 0 to |ns|
      invariant active == Active(obs, now, udp, Offers(ns[..n]))
      invariant retryAt == RetryAt(obs, now, udp, Offers(ns[..n]))
    {
      active, retryAt := CollectNode(ns[n], obs, now, udp, Offers(ns[..n]), active, retryAt);
      assert ns[..n+1][..n] == ns[..n];
    }
    assert ns[..|ns|] == ns;
  }

  lemma {:induction false} GreedyStep(active: seq<Scored>, done: seq<Scored>, limit: nat)
    requires active != [] && limit > 0
    ensures var i := Best(active, Providers(done), Asns(done), |active|);
            done + Greedy(active, done, limit)
            == (done + [active[i]]) + Greedy(Without(active, i), done + [active[i]], limit - 1)
  {
  }

  lemma {:induction false} RemovalKeepsOrder(s: seq<Scored>, i: nat)
    requires i < |s| && SortedBy(s, ScoredKey)
    ensures SortedBy(Without(s, i), ScoredKey)
    ensures DistinctKeys(s, ScoredKey) ==> DistinctKeys(Without(s, i), ScoredKey)
  {
    hide KeyLeq;
  }

  lemma {:induction false} SeenStep(done: seq<Scored>, s: Scored)
    ensures Providers(done + [s]) == Providers(done) + {s.candidate.provider}
    ensures Asns(done + [s]) == Asns(done) + {s.candidate.asn}
  {
    assert forall x :: x in done + [s] <==> x in done || x == s;
  }

  lemma {:induction false} GreedyEnds(active: seq<Scored>, done: seq<Scored>, limit: nat)
    requires active == [] || limit == 0
    ensures Greedy(active, done, limit) == []
  {
  }

  /** The selection loop, deleting each pick from the sorted slice. */
  method Select(sorted: seq<Scored>, limit: nat) returns (candidates: seq<Candidate>)
    requires SortedBy(sorted, ScoredKey)
    ensures candidates == Map(Greedy(sorted, [], limit), (s: Scored) => s.candidate)
  {
    hide SortedBy, Providers, Asns, Greedy, Best, BestOfFirst;
    var active, seenProviders, seenAsns: set<U32> := sorted, {}, {};
    candidates := [];
    ghost var done: seq<Scored> := [];
    assert Providers(done) == {} && Asns(done) == {} by { SeenNothing(); }
    while active != [] && |candidates| < limit
      invariant SortedBy(active, ScoredKey)
      invariant seenProviders == Providers(done) && seenAsns == Asns(done)
      invariant |done| <= limit && candidates == Map(done, (s: Scored) => s.candidate)
      invariant Greedy(sorted, [], limit) == done + Greedy(active, done, limit - |done|)
      decreases |active|
    {
      var index := MostDiverse(active, seenProviders, seenAsns);
      var selected := active[index];
      GreedyStep(active, done, limit - |done|);
      SeenStep(done, selected);
      RemovalKeepsOrder(active, index);
      candidates := candidates + [selected.candidate];
      seenProviders := seenProviders + {selected.candidate.provider};
      seenAsns := seenAsns + {selected.candidate.asn};
      done := done + [selected];
      active := active[..index] + active[index+1..];
    }
    GreedyEnds(active, done, limit - |done|);
  }

  lemma {:induction false} SeenNothing()
    ensures Providers([]) == {} && Asns([]) == {}
  {
  }

  /** `Rank`. */
  method Rank(d: Document, obs: Observations, now: Time, options: Options) returns (r: Result<Plan>)
    ensures r == PlanFor(d, obs, now, options)
  {
    if !ValidDocument(d) { return Err("invalid document"); }
    var maxCandidates := options.maxCandidates;
    if maxCandidates == 0 { maxCandidates := DEFAULT_MAX_CANDIDATES; }
    if maxCandidates < 1 || maxCandidates > 16 { return Err("max candidates must be between 1 and 16"); }
    var active, retryAt := Collect(d.nodes, obs, now, options.udpAvailable);
    var sorted := SortSlice(active, ScoredKey);
    SortIsDetermined(d, obs, now, options.udpAvailable, sorted);
    var candidates := Select(sorted, maxCandidates);
    return Ok(Plan(candidates, retryAt));
  }

  // ----- the scan does not depend on order

  lemma {:induction false} ActiveKeysDistinct(obs: Observations, now: Time, udp: bool, offers: seq<Candidate>)
    requires DistinctKeys(offers, (c: Candidate) => EndpointName(c.endpoint))
    ensures DistinctKeys(Active(obs, now, udp, offers), ScoredKey)
    ensures forall s | s in Active(obs, now, udp, offers) ::
              s.candidate in offers && Eligible(obs, now, udp, s.candidate) && s.score == ScoreOf(obs, s.candidate)
  {
    if offers != [] {
      var front, last := offers[..|offers|-1], offers[|offers|-1];
      ActiveKeysDistinct(obs, now, udp, front);
      var active := Active(obs, now, udp, front);
      forall i | 0 <= i < |active| ensures ScoredKey(active[i]) != ScoredKey(Scored(last, ScoreOf(obs, last))) {
        assert active[i] in active;
        var k :| 0 <= k < |front| && front[k] == active[i].candidate;
        assert EndpointName(offers[k].endpoint) != EndpointName(offers[|offers|-1].endpoint);
      }
    }
  }

  lemma {:induction false} OffersConcat(a: seq<Node>, b: seq<Node>)
    ensures Offers(a + b) == Offers(a) + Offers(b)
  {
    if b == [] {
      assert a + b == a;
    } else {
      assert (a + b)[..|a + b|-1] == a + b[..|b|-1];
      OffersConcat(a, b[..|b|-1]);
    }
  }

  lemma {:induction false} OffersOfOne(n: Node)
    ensures Offers([n]) == NodeOffers(n)
  {
    assert [n][..0] == [];
  }

  lemma {:induction false} OffersWithout(b: seq<Node>, j: nat)
    requires j < |b|
    ensures multiset(Offers(b)) == multiset(NodeOffers(b[j])) + multiset(Offers(b[..j] + b[j+1..]))
  {
    hide Offers;
    var front, back := b[..j], b[j+1..];
    assert b == (front + [b[j]]) + back;
    OffersConcat(front + [b[j]], back);
    OffersConcat(front, [b[j]]);
    OffersConcat(front, back);
    OffersOfOne(b[j]);
    PullMiddle(Offers(front), NodeOffers(b[j]), Offers(back));
  }

  lemma {:induction false} SameNodeSameOffers(x: Node, y: Node)
    requires ContentsOf(x) == ContentsOf(y)
    ensures multiset(NodeOffers(x)) == multiset(NodeOffers(y))
  {
    assert x.(endpoints := []) == y.(endpoints := []);
    MapOfReordered(x.endpoints, y.endpoints, e => CandidateFor(x, e));
    assert NodeOffers(y) == Map(y.endpoints, e => CandidateFor(x, e));
  }

  /** Reordering nodes, or endpoints within them, reorders the offers. */
  lemma {:induction false} OffersReordered(a: seq<Node>, b: seq<Node>)
    requires multiset(Map(a, ContentsOf)) == multiset(Map(b, ContentsOf))
    ensures multiset(Offers(a)) == multiset(Offers(b))
  {
    if a != [] {
      var j := MatchFirst(a, b, ContentsOf);
      OffersReordered(a[1..], b[..j] + b[j+1..]);
      OffersWithout(a, 0);
      assert a[..0] + a[1..] == a[1..];
      OffersWithout(b, j);
      SameNodeSameOffers(a[0], b[j]);
    } else {
      assert |multiset(Map(b, ContentsOf))| == |b|;
    }
  }

  /** How often a scored candidate occurs among the active ones. */
  lemma {:induction false} ActiveCounts(obs: Observations, now: Time, udp: bool, offers: seq<Candidate>, s: Scored)
    ensures multiset(Active(obs, now, udp, offers))[s]
            == if Eligible(obs, now, udp, s.candidate) && s.score == ScoreOf(obs, s.candidate)
               then multiset(offers)[s.candidate] else 0
  {
    if offers != [] {
      var front, last := offers[..|offers|-1], offers[|offers|-1];
      assert offers == front + [last];
      ActiveCounts(obs, now, udp, front, s);
    }
  }

  lemma {:induction false} ActiveReordered(
    obs: Observations, now: Time, udp: bool, a: seq<Candidate>, b: seq<Candidate>)
    requires multiset(a) == multiset(b)
    ensures multiset(Active(obs, now, udp, a)) == multiset(Active(obs, now, udp, b))
  {
    forall s ensures multiset(Active(obs, now, udp, a))[s] == multiset(Active(obs, now, udp, b))[s] {
      ActiveCounts(obs, now, udp, a, s);
      ActiveCounts(obs, now, udp, b, s);
    }
  }

  function CooldownEnd(obs: Observations, c: Candidate): Time {
    Observed(obs, c.endpoint.id).cooldownUntil
  }

  predicate CoolsUntil(obs: Observations, now: Time, udp: bool, c: Candidate, t: Time) {
    Cooling(obs, now, udp, c) && CooldownEnd(obs, c) == t
  }

  /** `t` is when the first of the cooling offers is available again. */
  predicate EarliestEnd(obs: Observations, now: Time, udp: bool, offers: seq<Candidate>, t: Time) {
    && (exists c | c in offers :: CoolsUntil(obs, now, udp, c, t))
    && (forall c | c in offers :: Cooling(obs, now, udp, c) ==> t <= CooldownEnd(obs, c))
  }

  predicate NoneCooling(obs: Observations, now: Time, udp: bool, offers: seq<Candidate>) {
    forall c | c in offers :: !Cooling(obs, now, udp, c)
  }

  /** The first cooldown to end does so at Go's zero time, which the scan takes for "none yet",
      and another ends later. The clock is then before the zero time. */
  predicate Blurred(obs: Observations, now: Time, udp: bool, offers: seq<Candidate>) {
    EarliestEnd(obs, now, udp, offers, 0)
    && exists c | c in offers :: Cooling(obs, now, udp, c) && CooldownEnd(obs, c) > 0
  }

  /** An endpoint counts for the retry time if its transport can be used and its cooldown, the
      zero time for one never observed, is not over. */
  lemma {:induction false} CoolingMeaning(obs: Observations, now: Time, udp: bool, c: Candidate)
    ensures Cooling(obs, now, udp, c) <==>
            && (udp || c.endpoint.transport != "amneziawg")
            && now < if c.endpoint.id in obs then obs[c.endpoint.id].cooldownUntil else 0
    ensures CooldownEnd(obs, c) == if c.endpoint.id in obs then obs[c.endpoint.id].cooldownUntil else 0
  {
  }

  /** What the scan remembers, whatever the clock. */
  lemma {:induction false} RetryAtScan(obs: Observations, now: Time, udp: bool, offers: seq<Candidate>)
    ensures var r := RetryAt(obs, now, udp, offers);
            && (r != 0 ==> exists c | c in offers :: CoolsUntil(obs, now, udp, c, r))
            && (forall c | c in offers && Cooling(obs, now, udp, c) && CooldownEnd(obs, c) < 0 ::
                  r <= CooldownEnd(obs, c))
            && ((forall c | c in offers :: !CoolsUntil(obs, now, udp, c, 0)) ==>
                  && (NoneCooling(obs, now, udp, offers) <==> r == 0)
                  && (forall c | c in offers :: Cooling(obs, now, udp, c) ==> r <= CooldownEnd(obs, c)))
  {
    if offers != [] {
      var front, last := offers[..|offers|-1], offers[|offers|-1];
      assert last in offers && forall c | c in front :: c in offers;
      assert forall c | c in offers :: c in front || c == last;
      RetryAtScan(obs, now, udp, front);
      var r := RetryAt(obs, now, udp, offers);
      if r != 0 {
        if r == RetryAt(obs, now, udp, front) {
          var c :| c in front && CoolsUntil(obs, now, udp, c, r);
          assert c in offers;
        } else {
          assert CoolsUntil(obs, now, udp, last, r);
        }
      } else {
        assert Cooling(obs, now, udp, last) ==>
               CoolsUntil(obs, now, udp, last, 0) || RetryAt(obs, now, udp, front) != 0;
      }
    }
  }

  /** `RetryAt` is the earliest end of a cooldown unless the case is blurred, which it never
      is from the zero time on; there, 0 says exactly that nothing is cooling. */
  lemma {:induction false} RetryAtIsEarliest(obs: Observations, now: Time, udp: bool, offers: seq<Candidate>)
    ensures var r := RetryAt(obs, now, udp, offers);
            && (NoneCooling(obs, now, udp, offers) ==> r == 0)
            && (!NoneCooling(obs, now, udp, offers) && !Blurred(obs, now, udp, offers) ==>
                  EarliestEnd(obs, now, udp, offers, r) && now < r)
            && (now >= 0 ==> !Blurred(obs, now, udp, offers) && (r == 0 <==> NoneCooling(obs, now, udp, offers)))
  {
    RetryAtScan(obs, now, udp, offers);
  }

  lemma {:induction false} ZeroLast(obs: Observations, now: Time, udp: bool, front: seq<Candidate>, c: Candidate)
    requires CoolsUntil(obs, now, udp, c, 0)
    requires forall x | x in front :: Cooling(obs, now, udp, x) ==> 0 <= CooldownEnd(obs, x)
    ensures RetryAt(obs, now, udp, front + [c]) == 0
  {
    RetryAtScan(obs, now, udp, front);
    assert (front + [c])[..|front|] == front;
  }

  lemma {:induction false} LaterLast(obs: Observations, now: Time, udp: bool, front: seq<Candidate>, c: Candidate)
    requires Cooling(obs, now, udp, c) && CooldownEnd(obs, c) > 0
    requires forall x | x in front :: Cooling(obs, now, udp, x) ==> 0 <= CooldownEnd(obs, x)
    ensures RetryAt(obs, now, udp, front + [c]) > 0
  {
    RetryAtScan(obs, now, udp, front);
    assert (front + [c])[..|front|] == front;
  }

  lemma {:induction false} RetryAtReordered(
    obs: Observations, now: Time, udp: bool, a: seq<Candidate>, b: seq<Candidate>)
    requires multiset(a) == multiset(b)
    ensures Blurred(obs, now, udp, a) <==> Blurred(obs, now, udp, b)
    ensures !Blurred(obs, now, udp, a) ==> RetryAt(obs, now, udp, a) == RetryAt(obs, now, udp, b)
  {
    SameMembers(a, b);
    RetryAtIsEarliest(obs, now, udp, a);
    RetryAtIsEarliest(obs, now, udp, b);
  }

  /** The offers of a valid document carry distinct endpoint identifiers. */
  lemma {:induction false} OfferNames(ns: seq<Node>)
    ensures Map(Offers(ns), (c: Candidate) => c.endpoint) == AllEndpoints(ns)
  {
    if ns != [] { OfferNames(ns[..|ns|-1]); }
  }

  lemma {:induction false} OffersDistinct(ns: seq<Node>)
    requires SoundNodes(ns)
    ensures DistinctKeys(Offers(ns), (c: Candidate) => EndpointName(c.endpoint))
  {
    OfferNames(ns);
    var offers, all := Offers(ns), AllEndpoints(ns);
    forall i, j | 0 <= i < j < |offers| ensures EndpointName(offers[i].endpoint) != EndpointName(offers[j].endpoint) {
      assert all[i] == offers[i].endpoint && all[j] == offers[j].endpoint;
    }
  }

  lemma {:induction false} SortIsDetermined(d: Document, obs: Observations, now: Time, udp: bool, sorted: seq<Scored>)
    requires ValidDocument(d)
    requires SortedBy(sorted, ScoredKey) && multiset(sorted) == multiset(Active(obs, now, udp, Offers(d.nodes)))
    ensures sorted == SortBy(Active(obs, now, udp, Offers(d.nodes)), ScoredKey)
    ensures DistinctKeys(sorted, ScoredKey)
  {
    hide DistinctKeys, SortedBy;
    var active := Active(obs, now, udp, Offers(d.nodes));
    OffersDistinct(d.nodes);
    ActiveKeysDistinct(obs, now, udp, Offers(d.nodes));
    SortBySorts(active, ScoredKey);
    DistinctKeysReordered(active, sorted, ScoredKey);
    SortedUnique(sorted, SortBy(active, ScoredKey), ScoredKey);
  }

  /** The same document up to the order of mirrors, nodes, and endpoints within a node. */
  predicate Reordered(d: Document, d': Document) {
    && d'.(discovery := [], nodes := []) == d.(discovery := [], nodes := [])
    && SameContents(Catalog(0, d.discovery, d.nodes), Catalog(0, d'.discovery, d'.nodes))
  }

  /** The plan does not depend on how the document lists its mirrors, nodes or endpoints, and
      neither does the retry time unless it is blurred. */
  lemma {:induction false} RankIgnoresOrder(d: Document, d': Document, obs: Observations, now: Time, options: Options)
    requires Reordered(d, d')
    ensures var r, r' := PlanFor(d, obs, now, options), PlanFor(d', obs, now, options);
            && (r.Ok? <==> r'.Ok?)
            && (r.Ok? ==> r.value.candidates == r'.value.candidates)
            && (!Blurred(obs, now, options.udpAvailable, Offers(d.nodes)) ==> r == r')
  {
    hide SameContents, ValidContents, Greedy, Active, RetryAt, Blurred;
    var c, c', udp := Catalog(0, d.discovery, d.nodes), Catalog(0, d'.discovery, d'.nodes), options.udpAvailable;
    ContentsOrderIrrelevant(c, c');
    if ValidDocument(d) {
      OffersReordered(d.nodes, d'.nodes);
      RetryAtReordered(obs, now, udp, Offers(d.nodes), Offers(d'.nodes));
      ActiveReordered(obs, now, udp, Offers(d.nodes), Offers(d'.nodes));
      SortBySorts(Active(obs, now, udp, Offers(d'.nodes)), ScoredKey);
      SortIsDetermined(d, obs, now, udp, SortBy(Active(obs, now, udp, Offers(d'.nodes)), ScoredKey));
    }
  }

  lemma {:induction false} ContentsOrderIrrelevant(c: Catalog, c': Catalog)
    requires SameContents(c, c')
    ensures ValidContents(c.discovery, c.nodes) <==> ValidContents(c'.discovery, c'.nodes)
    ensures multiset(Map(c.nodes, ContentsOf)) == multiset(Map(c'.nodes, ContentsOf))
  {
    hide ValidContents;
    if ValidContents(c.discovery, c.nodes) { ValidityIgnoresOrder(c, c'); }
    if ValidContents(c'.discovery, c'.nodes) { ValidityIgnoresOrder(c', c); }
  }

  // ----- when the order shows

  lemma {:induction false} OfferIn(ns: seq<Node>, c: Candidate) returns (j: nat, k: nat)
    requires c in Offers(ns)
    ensures j < |ns| && k < |ns[j].endpoints| && c == CandidateFor(ns[j], ns[j].endpoints[k])
  {
    var front, last := ns[..|ns|-1], ns[|ns|-1];
    if c in Offers(front) {
      j, k := OfferIn(front, c);
    } else {
      assert c in NodeOffers(last);
      k :| 0 <= k < |NodeOffers(last)| && NodeOffers(last)[k] == c;
      j := |ns| - 1;
    }
  }

  /** `n` with its endpoint `k` listed last. */
  function EndpointLast(n: Node, k: nat): Node
    requires k < |n.endpoints|
  {
    n.(endpoints := Without(n.endpoints, k) + [n.endpoints[k]])
  }

  lemma {:induction false} EndpointLastOffers(n: Node, k: nat)
    requires k < |n.endpoints|
    ensures ContentsOf(EndpointLast(n, k)) == ContentsOf(n)
    ensures var offers := NodeOffers(EndpointLast(n, k));
            |offers| == |n.endpoints| && offers[|offers|-1] == CandidateFor(n, n.endpoints[k])
  {
    RemoveAt(n.endpoints, k);
    var n' := EndpointLast(n, k);
    assert n'.(endpoints := []) == n.(endpoints := []);
  }

  /** Any offer can be made the last one by moving its node and its endpoint to the end. */
  lemma {:induction false} OfferLast(ns: seq<Node>, c: Candidate) returns (ns': seq<Node>, front: seq<Candidate>)
    requires c in Offers(ns)
    ensures multiset(Map(ns', ContentsOf)) == multiset(Map(ns, ContentsOf))
    ensures Offers(ns') == front + [c]
    ensures forall x | x in front :: x in Offers(ns)
  {
    hide Offers, ContentsOf, EndpointLast;
    var j, k := OfferIn(ns, c);
    var rest, node := Without(ns, j), EndpointLast(ns[j], k);
    ns' := rest + [node];
    EndpointLastOffers(ns[j], k);
    MapWithout(ns, j, ContentsOf);
    assert Map(ns', ContentsOf) == Map(rest, ContentsOf) + [ContentsOf(node)];
    OffersConcat(rest, [node]);
    OffersOfOne(node);
    var offers := Offers(ns');
    assert offers[|offers|-1] == c;
    front := offers[..|offers|-1];
    OffersReordered(ns, ns');
    SameMembers(Offers(ns), offers);
  }

  /** In a blurred case one way of listing the nodes and endpoints of a document gives 0, which
      is the earliest end of a cooldown, and another gives something later. */
  lemma {:induction false} BlurredDependsOnOrder(d: Document, obs: Observations, now: Time, options: Options)
    returns (a: Document, b: Document)
    requires PlanFor(d, obs, now, options).Ok? && Blurred(obs, now, options.udpAvailable, Offers(d.nodes))
    ensures a == d.(nodes := a.nodes) && b == d.(nodes := b.nodes) && Reordered(d, a) && Reordered(d, b)
    ensures PlanFor(a, obs, now, options).Ok? && PlanFor(b, obs, now, options).Ok?
    ensures PlanFor(a, obs, now, options).value.retryAt == 0 < PlanFor(b, obs, now, options).value.retryAt
  {
    hide RetryAt, Offers, Picks, ValidDocument;
    var udp, offers := options.udpAvailable, Offers(d.nodes);
    var zero :| zero in offers && CoolsUntil(obs, now, udp, zero, 0);
    var later :| later in offers && Cooling(obs, now, udp, later) && CooldownEnd(obs, later) > 0;
    var ns, front := OfferLast(d.nodes, zero);
    ZeroLast(obs, now, udp, front, zero);
    a := d.(nodes := ns);
    ns, front := OfferLast(d.nodes, later);
    LaterLast(obs, now, udp, front, later);
    b := d.(nodes := ns);
    RankIgnoresOrder(d, a, obs, now, options);
    RankIgnoresOrder(d, b, obs, now, options);
  }

  /** `Rank` answers the same for every order in which a document can be listed if and only if
      the retry time is not blurred. */
  lemma {:induction false} RankIgnoresOrderExactly(d: Document, obs: Observations, now: Time, options: Options)
    requires PlanFor(d, obs, now, options).Ok?
    ensures !Blurred(obs, now, options.udpAvailable, Offers(d.nodes)) <==>
            forall d' | Reordered(d, d') :: PlanFor(d', obs, now, options) == PlanFor(d, obs, now, options)
  {
    hide PlanFor, Blurred, Reordered;
    if Blurred(obs, now, options.udpAvailable, Offers(d.nodes)) {
      var a, b := BlurredDependsOnOrder(d, obs, now, options);
    } else {
      forall d' | Reordered(d, d') ensures PlanFor(d', obs, now, options) == PlanFor(d, obs, now, options) {
        RankIgnoresOrder(d, d', obs, now, options);
      }
    }
  }

  // ----- a document for which it shows

  const FIRST_ENDPOINT := SAMPLE.nodes[0].endpoints[0]
  const SECOND_ENDPOINT := FIRST_ENDPOINT.(id := "f", address := CheckedText("f.example:51820", true))

  /** The sample catalog with these endpoints, as a document. */
  function DocumentWith(es: seq<Endpoint>): Document {
    Document(SCHEMA_VERSION, 1, 1, HOUR, HOUR + 15 * MINUTE, PolicyWith(1, FIRST),
             SAMPLE.discovery, [SAMPLE.nodes[0].(endpoints := es)])
  }

  lemma {:induction false} DocumentWithIsValid(a: Endpoint, b: Endpoint)
    requires ValidEndpoint(a) && ValidEndpoint(b) && a.id != b.id
    ensures ValidDocument(DocumentWith([a, b]))
  {
    hide GrantChain, ValidEndpoint;
    FirstChains();
    PolicyIsValid(1, FIRST);
    SampleIsValid();
    var n := SAMPLE.nodes[0].(endpoints := [a, b]);
    assert SAMPLE.nodes[0] in SAMPLE.nodes && ValidNodeHeader(n);
    assert [n][..0] == [];
    assert AllEndpoints([n]) == [a, b];
  }

  lemma {:induction false} SampleEndpointsAreValid()
    ensures ValidEndpoint(FIRST_ENDPOINT) && ValidEndpoint(SECOND_ENDPOINT)
    ensures FIRST_ENDPOINT.id == "e" && SECOND_ENDPOINT.id == "f"
  {
    assert ValidId("e") && ValidId("f") && ValidCredential("c");
  }

  /** One nanosecond before the zero time, with one cooldown ending at it and one five seconds
      after it, `Rank` reports the later end if that endpoint is listed last. */
  lemma {:induction false} BlurredExample()
    ensures var d := DocumentWith([FIRST_ENDPOINT, SECOND_ENDPOINT]);
            var d' := DocumentWith([SECOND_ENDPOINT, FIRST_ENDPOINT]);
            var obs := map["e" := Observation(1, 0, 0, false), "f" := Observation(1, 5 * SECOND, 0, false)];
            var r, r' := PlanFor(d, obs, -1, Options(true, 0)), PlanFor(d', obs, -1, Options(true, 0));
            && Reordered(d, d')
            && r.Ok? && r.value.retryAt == 5 * SECOND
            && r'.Ok? && r'.value.retryAt == 0
  {
    hide ValidDocument, Picks, ValidEndpoint;
    SampleEndpointsAreValid();
    var e, f := FIRST_ENDPOINT, SECOND_ENDPOINT;
    DocumentWithIsValid(e, f);
    DocumentWithIsValid(f, e);
    SameNodesReordered(e, f);
    var obs := map["e" := Observation(1, 0, 0, false), "f" := Observation(1, 5 * SECOND, 0, false)];
    TwoOffers(e, f);
    TwoOffers(f, e);
    TwoRetryAt(obs, CandidateFor(SAMPLE.nodes[0], e), CandidateFor(SAMPLE.nodes[0], f));
  }

  lemma {:induction false} SameNodesReordered(a: Endpoint, b: Endpoint)
    ensures Reordered(DocumentWith([a, b]), DocumentWith([b, a]))
  {
    var n, n' := SAMPLE.nodes[0].(endpoints := [a, b]), SAMPLE.nodes[0].(endpoints := [b, a]);
    assert multiset([a, b]) == multiset([b, a]);
    assert Map([n], ContentsOf) == [ContentsOf(n)] && Map([n'], ContentsOf) == [ContentsOf(n')];
  }

  lemma {:induction false} TwoOffers(a: Endpoint, b: Endpoint)
    ensures Offers(DocumentWith([a, b]).nodes) == [CandidateFor(SAMPLE.nodes[0], a), CandidateFor(SAMPLE.nodes[0], b)]
  {
    OffersOfOne(SAMPLE.nodes[0].(endpoints := [a, b]));
  }

  lemma {:induction false} TwoRetryAt(obs: Observations, zero: Candidate, later: Candidate)
    requires CoolsUntil(obs, -1, true, zero, 0) && CoolsUntil(obs, -1, true, later, 5 * SECOND)
    ensures RetryAt(obs, -1, true, [zero, later]) == 5 * SECOND && RetryAt(obs, -1, true, [later, zero]) == 0
  {
    ScanStep(obs, -1, true, [], zero);
    ScanStep(obs, -1, true, [zero], later);
    ScanStep(obs, -1, true, [], later);
    ScanStep(obs, -1, true, [later], zero);
    assert [] + [zero] == [zero] && [zero] + [later] == [zero, later];
    assert [] + [later] == [later] && [later] + [zero] == [later, zero];
  }
}
