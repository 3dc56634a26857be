/** What a plan guarantees, stated without the algorithm: internal/selector/planner.go. */
module PlannerGuarantees {
  import opened Basics
  import opened Ordering
  import opened Catalogs
  import opened Manifests
  import opened Planner

  /** At most 10,000 above every remaining candidate. */
  predicate NearEvery(rest: multiset<Scored>, x: Scored) {
    forall d | d in rest :: x.score <= d.score + 10_000
  }

  /** How many of provider and ASN of `x` were used before. */
  function UsedBefore(before: seq<Scored>, x: Scored): nat {
    (if exists b | b in before :: b.candidate.provider == x.candidate.provider then 1 else 0)
    + (if exists b | b in before :: b.candidate.asn == x.candidate.asn then 1 else 0)
  }

  /** By score, then endpoint identifier. */
  predicate NotWorse(x: Scored, d: Scored) {
    || x.score < d.score
    || (&& x.score == d.score
        && (x.candidate.endpoint.id == d.candidate.endpoint.id
            || TextBefore(x.candidate.endpoint.id, d.candidate.endpoint.id)))
  }

  /** `x` comes before `d`: less of it was used before, or as much and it is not worse. */
  predicate Preferred(before: seq<Scored>, x: Scored, d: Scored) {
    || UsedBefore(before, x) < UsedBefore(before, d)
    || (UsedBefore(before, x) == UsedBefore(before, d) && NotWorse(x, d))
  }

  /** `x` is the preferred one of the remaining candidates near the best score. */
  predicate IsPick(rest: multiset<Scored>, before: seq<Scored>, x: Scored) {
    && x in rest && NearEvery(rest, x)
    && forall d | d in rest && NearEvery(rest, d) :: Preferred(before, x, d)
  }

  predicate PickAt(all: multiset<Scored>, before: seq<Scored>, picks: seq<Scored>, k: nat)
    requires k < |picks|
  {
    IsPick(all - multiset(picks[..k]), before + picks[..k], picks[k])
  }

  /** As many picks as allowed and possible, each made among what the earlier ones left. */
  predicate IsPlan(all: multiset<Scored>, before: seq<Scored>, picks: seq<Scored>, limit: nat) {
    && |picks| == Min(limit, |all|)
    && multiset(picks) <= all
    && forall k | 0 <= k < |picks| :: PickAt(all, before, picks, k)
  }

  // ----- the algorithm meets the specification

  lemma {:induction false} ClassMeaning(before: seq<Scored>, x: Scored)
    ensures DiversityClass(Providers(before), Asns(before), x) == UsedBefore(before, x)
  {
    assert x.candidate.provider in Providers(before)
           <==> exists b | b in before :: b.candidate.provider == x.candidate.provider;
    assert x.candidate.asn in Asns(before) <==> exists b | b in before :: b.candidate.asn == x.candidate.asn;
  }

  lemma {:induction false} NotWorseMeaning(x: Scored, d: Scored)
    ensures KeyLeq(ScoredKey(x), ScoredKey(d)) <==> NotWorse(x, d)
  {
    hide TextBefore;
    var a, b := x.candidate.endpoint.id, d.candidate.endpoint.id;
    TextTotal(a, b);
    TextLessMeaning(a, b);
  }

  lemma {:induction false} PreferredMeaning(before: seq<Scored>, x: Scored, d: Scored)
    ensures var cx := DiversityClass(Providers(before), Asns(before), x);
            var cd := DiversityClass(Providers(before), Asns(before), d);
            Preferred(before, x, d) <==> cx < cd || (cx == cd && KeyLeq(ScoredKey(x), ScoredKey(d)))
  {
    hide UsedBefore, NotWorse, DiversityClass, KeyLeq, Providers, Asns;
    ClassMeaning(before, x);
    ClassMeaning(before, d);
    NotWorseMeaning(x, d);
  }

  lemma {:induction false} BestIsPick(sorted: seq<Scored>, before: seq<Scored>)
    requires sorted != [] && SortedBy(sorted, ScoredKey)
    ensures IsPick(multiset(sorted), before, sorted[Best(sorted, Providers(before), Asns(before), |sorted|)])
  {
    hide KeyLeq, Preferred;
    var i := Best(sorted, Providers(before), Asns(before), |sorted|);
    var x, rest := sorted[i], multiset(sorted);
    forall j | 0 <= j < |sorted| ensures sorted[0].score <= sorted[j].score { ScoresAscend(sorted, 0, j); }
    assert sorted[0] in rest;
    forall d | d in rest && NearEvery(rest, d) ensures Preferred(before, x, d) {
      var j :| 0 <= j < |sorted| && sorted[j] == d;
      assert NearBest(sorted, j);
      KeyLeqTotalOrder(ScoredKey(x), ScoredKey(x), ScoredKey(x));
      PreferredMeaning(before, x, d);
    }
  }

  lemma {:induction false} ScoresAscend(sorted: seq<Scored>, i: nat, j: nat)
    requires SortedBy(sorted, ScoredKey) && i <= j < |sorted|
    ensures sorted[i].score <= sorted[j].score
  {
    if i < j { assert KeyLeq(ScoredKey(sorted[i]), ScoredKey(sorted[j])); }
  }

  /** One pick in front of a plan for what it leaves is a plan. */
  lemma {:induction false} PlanCons(
    all: multiset<Scored>, before: seq<Scored>, x: Scored, rest: seq<Scored>, limit: nat)
    requires limit > 0 && IsPick(all, before, x)
    requires IsPlan(all - multiset{x}, before + [x], rest, limit - 1)
    ensures IsPlan(all, before, [x] + rest, limit)
  {
    hide IsPick;
    var picks := [x] + rest;
    assert x in all by { PickIsMember(all, before, x); }
    forall k | 0 <= k < |picks| ensures PickAt(all, before, picks, k) {
      if k == 0 {
        assert picks[..0] == [] && before + [] == before && all - multiset([]) == all;
      } else {
        assert PickAt(all - multiset{x}, before + [x], rest, k - 1);
        assert picks[..k] == [x] + rest[..k-1];
        assert before + picks[..k] == (before + [x]) + rest[..k-1];
        assert all - multiset(picks[..k]) == (all - multiset{x}) - multiset(rest[..k-1]);
      }
    }
  }

  lemma {:induction false} PickIsMember(all: multiset<Scored>, before: seq<Scored>, x: Scored)
    requires IsPick(all, before, x)
    ensures x in all
  {
  }

  lemma {:induction false} EmptyPlan(all: multiset<Scored>, before: seq<Scored>, limit: nat)
    requires limit == 0 || |all| == 0
    ensures IsPlan(all, before, [], limit)
  {
  }

  lemma {:induction false} WithoutOne(s: seq<Scored>, i: nat)
    requires i < |s|
    ensures multiset(Without(s, i)) == multiset(s) - multiset{s[i]}
  {
    RemoveAt(s, i);
  }

  lemma {:induction false} GreedyIsPlan(sorted: seq<Scored>, before: seq<Scored>, limit: nat)
    requires SortedBy(sorted, ScoredKey)
    ensures IsPlan(multiset(sorted), before, Greedy(sorted, before, limit), limit)
    decreases limit
  {
    hide IsPlan, IsPick, SortedBy, Best, BestOfFirst, Providers, Asns;
    if limit == 0 || sorted == [] {
      EmptyPlan(multiset(sorted), before, limit);
    } else {
      var i := Best(sorted, Providers(before), Asns(before), |sorted|);
      BestIsPick(sorted, before);
      RemovalKeepsOrder(sorted, i);
      WithoutOne(sorted, i);
      GreedyIsPlan(Without(sorted, i), before + [sorted[i]], limit - 1);
      PlanCons(multiset(sorted), before, sorted[i], Greedy(Without(sorted, i), before + [sorted[i]], limit - 1), limit);
    }
  }

  /** Elements are told apart by score and endpoint identifier. */
  predicate KeysIdentify(all: multiset<Scored>) {
    forall s, t | s in all && t in all :: ScoredKey(s) == ScoredKey(t) ==> s == t
  }

  lemma {:induction false} PickUnique(rest: multiset<Scored>, before: seq<Scored>, x: Scored, y: Scored)
    requires IsPick(rest, before, x) && IsPick(rest, before, y) && KeysIdentify(rest)
    ensures x == y
  {
    hide KeyLeq, NotWorse;
    assert Preferred(before, x, y) && Preferred(before, y, x);
    NotWorseMeaning(x, y);
    NotWorseMeaning(y, x);
    KeyLeqTotalOrder(ScoredKey(x), ScoredKey(y), ScoredKey(x));
  }

  lemma {:induction false} IdentifyFewer(all: multiset<Scored>, gone: multiset<Scored>)
    requires KeysIdentify(all)
    ensures KeysIdentify(all - gone)
  {
    assert forall s | s in all - gone :: s in all;
  }

  lemma {:induction false} NextPickUnique(all: multiset<Scored>, p: seq<Scored>, q: seq<Scored>, k: nat)
    requires k < |p| && k < |q| && p[..k] == q[..k] && KeysIdentify(all)
    requires PickAt(all, [], p, k) && PickAt(all, [], q, k)
    ensures p[..k+1] == q[..k+1]
  {
    hide IsPick, KeysIdentify;
    IdentifyFewer(all, multiset(p[..k]));
    PickUnique(all - multiset(p[..k]), [] + p[..k], p[k], q[k]);
    assert p[..k+1] == p[..k] + [p[k]] && q[..k+1] == q[..k] + [q[k]];
  }

  /** The specification leaves nothing open: there is one plan. */
  lemma {:induction false} PlanUnique(all: multiset<Scored>, p: seq<Scored>, q: seq<Scored>, limit: nat, k: nat)
    requires IsPlan(all, [], p, limit) && IsPlan(all, [], q, limit) && KeysIdentify(all) && k <= |p|
    ensures |q| == |p| && p[..k] == q[..k]
  {
    hide PickAt, KeysIdentify;
    if k > 0 {
      PlanUnique(all, p, q, limit, k - 1);
      NextPickUnique(all, p, q, k - 1);
    }
  }

  /** The eligible endpoints of a document, scored. */
  function EligibleOf(d: Document, obs: Observations, now: Time, options: Options): multiset<Scored> {
    multiset(Active(obs, now, options.udpAvailable, Offers(d.nodes)))
  }

  function PicksOf(d: Document, obs: Observations, now: Time, options: Options): seq<Scored>
    requires Limit(options) >= 0
  {
    Picks(d.nodes, obs, now, options.udpAvailable, Limit(options))
  }

  /** The most candidates a plan may have. */
  function MostCandidates(options: Options): int {
    if options.maxCandidates == 0 then 8 else options.maxCandidates
  }

  /** `s` is endpoint `k` of node `i`: its transport can be used, it is not cooling down, and
      its score is a thousand per step of priority and a hundred thousand per failure, less a
      hundred, where there is as much, for a verified transfer. */
  predicate EligibleAt(d: Document, obs: Observations, now: Time, options: Options, s: Scored, i: nat, k: nat)
    requires i < |d.nodes| && k < |d.nodes[i].endpoints|
  {
    var n, e := d.nodes[i], d.nodes[i].endpoints[k];
    var o := if e.id in obs then obs[e.id] else Observation(0, 0, 0, false);
    var sum := e.priority * 1_000 + o.consecutiveFailures * 100_000;
    && s.candidate == Candidate(n.id, n.provider, n.asn, e)
    && (options.udpAvailable || e.transport != "amneziawg")
    && o.cooldownUntil <= now
    && s.score == if o.transferVerified && o.lastSuccess != 0 && sum >= 100 then sum - 100 else sum
  }

  predicate EligibleEntry(d: Document, obs: Observations, now: Time, options: Options, s: Scored) {
    exists i, k | 0 <= i < |d.nodes| && 0 <= k < |d.nodes[i].endpoints| :: EligibleAt(d, obs, now, options, s, i, k)
  }

  lemma {:induction false} OfferAt(ns: seq<Node>, i: nat, k: nat)
    requires i < |ns| && k < |ns[i].endpoints|
    ensures CandidateFor(ns[i], ns[i].endpoints[k]) in Offers(ns)
  {
    var last := ns[|ns|-1];
    if i < |ns| - 1 {
      OfferAt(ns[..|ns|-1], i, k);
    } else {
      assert NodeOffers(last)[k] in NodeOffers(last);
    }
  }

  lemma {:induction false} EligibleMeaning(d: Document, obs: Observations, now: Time, options: Options, s: Scored)
    ensures s in EligibleOf(d, obs, now, options) <==> EligibleEntry(d, obs, now, options, s)
  {
    hide Active, Offers;
    var udp, offers := options.udpAvailable, Offers(d.nodes);
    ActiveCounts(obs, now, udp, offers, s);
    assert s.candidate in offers <==> multiset(offers)[s.candidate] > 0;
    if s in EligibleOf(d, obs, now, options) {
      var i, k := OfferIn(d.nodes, s.candidate);
      assert EligibleAt(d, obs, now, options, s, i, k);
    }
    if i, k :| 0 <= i < |d.nodes| && 0 <= k < |d.nodes[i].endpoints| && EligibleAt(d, obs, now, options, s, i, k) {
      OfferAt(d.nodes, i, k);
    }
  }

  /** `Rank` accepts exactly valid documents and limits from 1 to 16, 8 when none is given. */
  lemma {:induction false} LimitMeaning(d: Document, obs: Observations, now: Time, options: Options)
    ensures PlanFor(d, obs, now, options).Ok? <==> ValidDocument(d) && 1 <= MostCandidates(options) <= 16
  {
    hide ValidDocument;
  }

  /** The candidates of a plan are the picks that the specification determines among the
      eligible endpoints of the document. */
  lemma {:induction false} RankMeetsSpecification(
    d: Document, obs: Observations, now: Time, options: Options, other: seq<Scored>)
    requires PlanFor(d, obs, now, options).Ok?
    ensures var all, picks := EligibleOf(d, obs, now, options), PicksOf(d, obs, now, options);
            && PlanFor(d, obs, now, options).value.candidates == Map(picks, (s: Scored) => s.candidate)
            && IsPlan(all, [], picks, MostCandidates(options))
            && (IsPlan(all, [], other, MostCandidates(options)) ==> other == picks)
            && (forall s: Scored :: s in all <==> EligibleEntry(d, obs, now, options, s))
  {
    hide IsPlan, Active, Greedy, ValidContents, SortedBy, DistinctKeys, EligibleEntry;
    var udp, active := options.udpAvailable, Active(obs, now, options.udpAvailable, Offers(d.nodes));
    var sorted, picks := SortBy(active, ScoredKey), PicksOf(d, obs, now, options);
    SortBySorts(active, ScoredKey);
    GreedyIsPlan(sorted, [], Limit(options));
    OffersOfDocument(d);
    ActiveKeysDistinct(obs, now, udp, Offers(d.nodes));
    forall s: Scored ensures s in EligibleOf(d, obs, now, options) <==> EligibleEntry(d, obs, now, options, s) {
      EligibleMeaning(d, obs, now, options, s);
    }
    if IsPlan(multiset(active), [], other, Limit(options)) {
      KeysIdentifyActive(active);
      PlanUnique(multiset(active), picks, other, Limit(options), |picks|);
      assert picks[..|picks|] == picks && other[..|other|] == other;
    }
  }

  /** When the limit allows for all of them, every eligible endpoint is planned. */
  lemma {:induction false} EligibleIsPlanned(d: Document, obs: Observations, now: Time, options: Options, s: Scored)
    requires PlanFor(d, obs, now, options).Ok? && EligibleEntry(d, obs, now, options, s)
    requires |EligibleOf(d, obs, now, options)| <= MostCandidates(options)
    ensures s.candidate in PlanFor(d, obs, now, options).value.candidates
  {
    hide PickAt, Active, EligibleEntry, PlanFor;
    RankMeetsSpecification(d, obs, now, options, []);
    var all, picks := EligibleOf(d, obs, now, options), PicksOf(d, obs, now, options);
    assert |multiset(picks)| == |picks| && all == multiset(picks) + (all - multiset(picks));
    assert s in multiset(picks);
    var i :| 0 <= i < |picks| && picks[i] == s;
    assert PlanFor(d, obs, now, options).value.candidates[i] == s.candidate;
  }

  lemma {:induction false} OffersOfDocument(d: Document)
    requires ValidDocument(d)
    ensures DistinctKeys(Offers(d.nodes), (c: Candidate) => EndpointName(c.endpoint))
  {
    OffersDistinct(d.nodes);
  }

  lemma {:induction false} KeysIdentifyActive(active: seq<Scored>)
    requires DistinctKeys(active, ScoredKey)
    ensures KeysIdentify(multiset(active))
  {
    forall s, t | s in multiset(active) && t in multiset(active) && ScoredKey(s) == ScoredKey(t) ensures s == t {
      var i :| 0 <= i < |active| && active[i] == s;
      var j :| 0 <= j < |active| && active[j] == t;
    }
  }

  // ----- consequences

  /** The first candidate is the global minimum by score and identifier. */
  lemma {:induction false} FirstIsBest(all: multiset<Scored>, picks: seq<Scored>, limit: nat, s: Scored)
    requires IsPlan(all, [], picks, limit) && limit > 0 && s in all
    ensures picks != [] && NotWorse(picks[0], s)
  {
    hide NotWorse;
    assert |all| > 0 by { assert multiset{s} <= all; assert all == (all - multiset{s}) + multiset{s}; }
    assert PickAt(all, [], picks, 0);
    assert picks[..0] == [] && all - multiset([]) == all && [] + picks[..0] == [];
    var x := picks[0];
    if NearEvery(all, s) {
      assert Preferred([], x, s);
    } else {
      var d :| d in all && s.score > d.score + 10_000;
      NotWorseByScore(x, s);
    }
  }

  lemma {:induction false} NotWorseByScore(x: Scored, d: Scored)
    requires x.score < d.score
    ensures NotWorse(x, d)
  {
  }

  /** Diversity never lifts a candidate over one that is better by more than the window:
      whenever `b` is planned, every such `a` was planned before it. */
  lemma {:induction false} BoundedInversion(all: multiset<Scored>, picks: seq<Scored>, limit: nat, j: nat, a: Scored)
    requires IsPlan(all, [], picks, limit) && j < |picks|
    requires a in all && picks[j].score > a.score + 10_000
    ensures a in picks[..j]
  {
    assert PickAt(all, [], picks, j);
    assert a in all - multiset(picks[..j]) || a in multiset(picks[..j]);
  }

  /** Every entry is eligible, and no endpoint is planned twice. */
  lemma {:induction false} EntriesAreDistinct(active: seq<Scored>, picks: seq<Scored>, limit: nat, i: nat, j: nat)
    requires IsPlan(multiset(active), [], picks, limit) && DistinctKeys(active, ScoredKey) && i < j < |picks|
    ensures picks[i] in active && picks[j] in active && ScoredKey(picks[i]) != ScoredKey(picks[j])
  {
    hide PickAt;
    assert picks[i] in multiset(picks) && picks[j] in multiset(picks);
    KeysIdentifyActive(active);
    if picks[i] == picks[j] {
      TwiceIn(picks, i, j);
      OnceIn(active, picks[i]);
    }
  }

  predicate Narrow(all: multiset<Scored>) {
    forall s, t | s in all && t in all :: s.score <= t.score + 10_000
  }

  /** Providers and ASNs correspond one to one. */
  predicate OneToOne(all: multiset<Scored>) {
    forall s, t | s in all && t in all ::
      s.candidate.provider == t.candidate.provider <==> s.candidate.asn == t.candidate.asn
  }

  lemma {:induction false} ProvidersBound(ss: seq<Scored>)
    ensures |Providers(ss)| <= |ss|
  {
    if ss == [] {
      SeenNothing();
    } else {
      var front, last := ss[..|ss|-1], ss[|ss|-1];
      assert ss == front + [last];
      ProvidersBound(front);
      SeenStep(front, last);
    }
  }

  lemma {:induction false} SmallerSetMisses(a: set<string>, b: set<string>) returns (x: string)
    requires |a| < |b|
    ensures x in b && x !in a
  {
    assert b == (b * a) + (b - a) && a == (b * a) + (a - b);
    assert b - a != {};
    x :| x in b && x !in a;
  }

  /** While some provider is unused, the next pick is from an unused one. */
  lemma {:induction false} NextPickIsNew(active: seq<Scored>, picks: seq<Scored>, limit: nat, k: nat)
    requires IsPlan(multiset(active), [], picks, limit) && k < |picks| && k < |Providers(active)|
    requires Narrow(multiset(active)) && OneToOne(multiset(active))
    ensures picks[k].candidate.provider !in Providers(picks[..k])
  {
    var all, before := multiset(active), picks[..k];
    ProvidersBound(before);
    var unused := SmallerSetMisses(Providers(before), Providers(active));
    var d :| d in active && d.candidate.provider == unused;
    assert PickAt(all, [], picks, k);
    assert [] + before == before;
    PrefixWithin(picks, k);
    assert d !in before && d in all - multiset(before);
    assert forall s | s in before :: s in all && s.candidate.asn != d.candidate.asn;
    assert UsedBefore(before, d) == 0;
    assert Preferred(before, picks[k], d);
  }

  lemma {:induction false} PrefixWithin(picks: seq<Scored>, k: nat)
    requires k <= |picks|
    ensures forall s | s in picks[..k] :: s in multiset(picks)
  {
  }

  /** If all eligible scores lie within the window and providers match ASNs one to one, the
      plan starts with as many different providers as there are, or as fit. */
  lemma {:induction false} DiversityGuarantee(active: seq<Scored>, picks: seq<Scored>, limit: nat, i: nat, j: nat)
    requires IsPlan(multiset(active), [], picks, limit)
    requires Narrow(multiset(active)) && OneToOne(multiset(active))
    requires i < j < Min(limit, |Providers(active)|)
    ensures j < |picks|
    ensures picks[i].candidate.provider != picks[j].candidate.provider
  {
    hide PickAt, Narrow, OneToOne;
    ProvidersBound(active);
    assert |multiset(active)| == |active|;
    NextPickIsNew(active, picks, limit, j);
    assert picks[..j][i] == picks[i];
  }

  /** All of it for `Rank`: as many candidates as allowed and eligible, none that needs
      missing UDP or is still cooling down, no endpoint twice, the best first, and none lifted over
      another that is better by more than the window. */
  lemma {:induction false} RankGuarantees(
    d: Document, obs: Observations, now: Time, options: Options, i: nat, j: nat, a: Scored)
    requires PlanFor(d, obs, now, options).Ok?
    ensures var all, picks := EligibleOf(d, obs, now, options), PicksOf(d, obs, now, options);
            && PlanFor(d, obs, now, options).value.candidates == Map(picks, (s: Scored) => s.candidate)
            && |picks| == Min(MostCandidates(options), |all|)
            && (i < j < |picks| ==> picks[i].candidate.endpoint.id != picks[j].candidate.endpoint.id)
            && (j < |picks| ==>
                  && (options.udpAvailable || picks[j].candidate.endpoint.transport != "amneziawg")
                  && Observed(obs, picks[j].candidate.endpoint.id).cooldownUntil <= now)
            && (a in all ==> picks != [] && NotWorse(picks[0], a))
            && (a in all && j < |picks| && picks[j].score > a.score + 10_000 ==> a in picks[..j])
  {
    hide Active, Greedy, ValidContents, SortedBy, PickAt;
    RankMeetsSpecification(d, obs, now, options, []);
    var all, picks := EligibleOf(d, obs, now, options), PicksOf(d, obs, now, options);
    if a in all {
      FirstIsBest(all, picks, Limit(options), a);
      if j < |picks| && picks[j].score > a.score + 10_000 {
        BoundedInversion(all, picks, Limit(options), j, a);
      }
    }
    if j < |picks| {
      assert picks[j] in multiset(picks) && picks[j] in all;
      assert EligibleEntry(d, obs, now, options, picks[j]);
    }
    if i < j < |picks| {
      EndpointsDistinct(d, obs, now, options, i, j);
    }
  }

  lemma {:induction false} EndpointsDistinct(
    d: Document, obs: Observations, now: Time, options: Options, i: nat, j: nat)
    requires PlanFor(d, obs, now, options).Ok? && i < j < |PicksOf(d, obs, now, options)|
    requires IsPlan(EligibleOf(d, obs, now, options), [], PicksOf(d, obs, now, options), Limit(options))
    ensures var picks := PicksOf(d, obs, now, options); picks[i].candidate.endpoint.id != picks[j].candidate.endpoint.id
  {
    hide Greedy, ValidContents, SortedBy, PickAt, DistinctKeys, Active;
    var picks, offers := PicksOf(d, obs, now, options), Offers(d.nodes);
    var active := Active(obs, now, options.udpAvailable, offers);
    OffersOfDocument(d);
    ActiveKeysDistinct(obs, now, options.udpAvailable, offers);
    EntriesAreDistinct(active, picks, Limit(options), i, j);
    SameNameSameOffer(offers, picks[i].candidate, picks[j].candidate);
  }

  lemma {:induction false} SameNameSameOffer(offers: seq<Candidate>, x: Candidate, y: Candidate)
    requires DistinctKeys(offers, (c: Candidate) => EndpointName(c.endpoint)) && x in offers && y in offers
    ensures x.endpoint.id == y.endpoint.id ==> x == y
  {
    var i :| 0 <= i < |offers| && offers[i] == x;
    var j :| 0 <= j < |offers| && offers[j] == y;
    if i < j { assert EndpointName(offers[i].endpoint) != EndpointName(offers[j].endpoint); }
    if j < i { assert EndpointName(offers[j].endpoint) != EndpointName(offers[i].endpoint); }
  }

  /** What the weights mean: more failures put a candidate beyond the reach of diversity
      unless its priority is ahead by ninety steps or more, a verified transfer breaks ties between
      equals, and it never outweighs a step of priority. */
  lemma {:induction false} ScoreMeaning(obs: Observations, a: Candidate, b: Candidate)
    requires a.endpoint.priority > 0 && b.endpoint.priority > 0
    ensures var x, y := Observed(obs, a.endpoint.id), Observed(obs, b.endpoint.id);
            && (x.consecutiveFailures < y.consecutiveFailures && a.endpoint.priority <= b.endpoint.priority + 89 ==>
                  ScoreOf(obs, b) > ScoreOf(obs, a) + 10_000)
            && (x.consecutiveFailures == y.consecutiveFailures && a.endpoint.priority < b.endpoint.priority ==>
                  ScoreOf(obs, a) < ScoreOf(obs, b))
            && (x.consecutiveFailures == y.consecutiveFailures && a.endpoint.priority == b.endpoint.priority ==>
                  (ScoreOf(obs, a) < ScoreOf(obs, b) <==>
                     (x.transferVerified && x.lastSuccess != 0) && !(y.transferVerified && y.lastSuccess != 0)))
  {
  }

  /** Health is not traded for diversity: a candidate with fewer failures, and no priority
      more than 89 steps behind, is planned before one with more. */
  lemma {:induction false} HealthBeforeDiversity(
    d: Document, obs: Observations, now: Time, options: Options, j: nat, a: Candidate)
    requires PlanFor(d, obs, now, options).Ok? && j < |PicksOf(d, obs, now, options)|
    requires a in Offers(d.nodes) && Eligible(obs, now, options.udpAvailable, a)
    requires var b := PicksOf(d, obs, now, options)[j].candidate;
             && Observed(obs, a.endpoint.id).consecutiveFailures < Observed(obs, b.endpoint.id).consecutiveFailures
             && a.endpoint.priority <= b.endpoint.priority + 89
    ensures exists i | 0 <= i < j :: PicksOf(d, obs, now, options)[i].candidate == a
  {
    hide Active, Greedy, ValidDocument, SortedBy, PickAt, IsPick;
    RankMeetsSpecification(d, obs, now, options, []);
    var all, picks := EligibleOf(d, obs, now, options), PicksOf(d, obs, now, options);
    var s := Scored(a, ScoreOf(obs, a));
    ActiveCounts(obs, now, options.udpAvailable, Offers(d.nodes), s);
    ActiveCounts(obs, now, options.udpAvailable, Offers(d.nodes), picks[j]);
    assert a in multiset(Offers(d.nodes));
    assert picks[j] in multiset(picks) && picks[j] in all;
    BoundedInversion(all, picks, Limit(options), j, s);
    var i :| 0 <= i < j && picks[..j][i] == s;
    assert picks[i].candidate == a;
  }

  /** The diversity guarantee for `Rank`. */
  lemma {:induction false} RankSpreadsProviders(
    d: Document, obs: Observations, now: Time, options: Options, i: nat, j: nat)
    requires PlanFor(d, obs, now, options).Ok?
    requires Narrow(EligibleOf(d, obs, now, options)) && OneToOne(EligibleOf(d, obs, now, options))
    requires i < j < Min(Limit(options), |Providers(Active(obs, now, options.udpAvailable, Offers(d.nodes)))|)
    ensures var candidates := PlanFor(d, obs, now, options).value.candidates;
            j < |candidates| && candidates[i].provider != candidates[j].provider
  {
    hide Active, Greedy, ValidDocument, IsPlan, Narrow, OneToOne;
    RankMeetsSpecification(d, obs, now, options, []);
    DiversityGuarantee(Active(obs, now, options.udpAvailable, Offers(d.nodes)), PicksOf(d, obs, now, options),
                       Limit(options), i, j);
  }

  // ----- retry delays

  datatype FailureClass =
    | DnsFailure
    | HandshakeFailure
    | TransferFailure
    | SuspectedCensorship
    | SuspectedAllowlist
    | UnknownFailure

  const MAX_I64: int := 0x7FFF_FFFF_FFFF_FFFF

  function CooldownBounds(c: FailureClass): Result<(nat, nat)> {
    match c
    case DnsFailure => Ok((5 * SECOND, 2 * MINUTE))
    case HandshakeFailure => Ok((15 * SECOND, 10 * MINUTE))
    case TransferFailure => Ok((30 * SECOND, 15 * MINUTE))
    case SuspectedCensorship => Ok((2 * MINUTE, 30 * MINUTE))
    case SuspectedAllowlist => Ok((15 * MINUTE, 6 * HOUR))
    case UnknownFailure => Err("unknown failure class")
  }

  /** `base` times two to the power `n`. */
  function Doubled(base: nat, n: nat): nat {
    if n == 0 then base else 2 * Doubled(base, n - 1)
  }

  function Pow2(n: nat): nat {
    Doubled(1, n)
  }

  lemma {:induction false} DoubledIsPower(base: nat, n: nat)
    ensures Doubled(base, n) == base * Pow2(n)
  {
    if n > 0 {
      DoubledIsPower(base, n - 1);
      assert base * (2 * Pow2(n - 1)) == 2 * (base * Pow2(n - 1));
    }
  }

  lemma {:induction false} DoubledMonotone(base: nat, a: nat, b: nat)
    requires a <= b
    ensures Doubled(base, a) <= Doubled(base, b)
  {
    if a < b { DoubledMonotone(base, a, b - 1); }
  }

  /** Doubling from `base` for every failure after the first, up to `cap`. */
  function Delay(base: nat, cap: nat, failures: nat): int {
    if failures == 0 then 0 else Min(cap, base * Pow2(failures - 1))
  }

  /** The doubling loop. `doublings` counts its multiplications. */
  method DoubleUpTo(base: nat, cap: nat, failures: U16) returns (delay: nat, ghost doublings: nat)
    requires 0 < failures && base <= cap
    ensures delay == Min(cap, Doubled(base, failures - 1))
    ensures Doubled(base, doublings) <= cap
  {
    doublings := 0;
    delay := base;
    var count: nat := 1;
    while count < failures && delay < cap
      invariant 1 <= count <= failures && doublings == count - 1
      invariant delay == Doubled(base, count - 1) <= cap
    {
      if delay > cap / 2 {
        DoubledMonotone(base, count, failures - 1);
        return cap, doublings;
      }
      delay := delay * 2;
      doublings := doublings + 1;
      count := count + 1;
    }
    DoubledMonotone(base, count - 1, failures - 1);
    if delay > cap { return cap, doublings; }
  }

  /** For every known class and number of failures: exponential, capped, inside 64 bits, and
      found with at most five doublings. */
  method Cooldown(c: FailureClass, failures: U16) returns (r: Result<int>, ghost doublings: nat)
    ensures r.Ok? <==> !c.UnknownFailure?
    ensures r.Ok? ==>
              var (base, cap) := CooldownBounds(c).value;
              r.value == Delay(base, cap, failures) && 0 <= r.value <= cap <= MAX_I64 && doublings <= 5
    ensures failures == 0 && r.Ok? ==> r.value == 0
    ensures failures > 0 ==>
              match c
              case DnsFailure => r == Ok(Min(120_000_000_000, 5_000_000_000 * Pow2(failures - 1)))
              case HandshakeFailure => r == Ok(Min(600_000_000_000, 15_000_000_000 * Pow2(failures - 1)))
              case TransferFailure => r == Ok(Min(900_000_000_000, 30_000_000_000 * Pow2(failures - 1)))
              case SuspectedCensorship => r == Ok(Min(1_800_000_000_000, 120_000_000_000 * Pow2(failures - 1)))
              case SuspectedAllowlist => r == Ok(Min(21_600_000_000_000, 900_000_000_000 * Pow2(failures - 1)))
              case UnknownFailure => r.Err?
  {
    doublings := 0;
    var bounds := CooldownBounds(c);
    if bounds.Err? { return Err(bounds.reason), 0; }
    if failures == 0 { return Ok(0), 0; }
    var delay: nat;
    delay, doublings := DoubleUpTo(bounds.value.0, bounds.value.1, failures);
    DoubledIsPower(bounds.value.0, failures - 1);
    FewDoublings(bounds.value.0, bounds.value.1, doublings);
    return Ok(delay), doublings;
  }

  lemma {:induction false} FewDoublings(base: nat, cap: nat, n: nat)
    requires Doubled(base, n) <= cap < 64 * base
    ensures n <= 5
  {
    if n >= 6 {
      DoubledMonotone(base, 6, n);
      SixDoublings(base);
    }
  }

  lemma {:induction false} SixDoublings(base: nat)
    ensures Doubled(base, 6) == 64 * base
  {
    assert Doubled(base, 1) == 2 * base;
    assert Doubled(base, 2) == 4 * base;
    assert Doubled(base, 3) == 8 * base;
    assert Doubled(base, 4) == 16 * base;
    assert Doubled(base, 5) == 32 * base;
  }

  /** More failures never shorten the delay. */
  lemma {:induction false} DelayMonotone(base: nat, cap: nat, m: nat, n: nat)
    requires m <= n
    ensures Delay(base, cap, m) <= Delay(base, cap, n)
  {
    if 0 < m {
      DoubledIsPower(base, m - 1);
      DoubledIsPower(base, n - 1);
      DoubledMonotone(base, m - 1, n - 1);
    }
  }
}
