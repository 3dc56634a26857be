/** Catalog contents, their validation and their canonical form:
    internal/manifest/manifest.go. */
module Catalogs {
  import opened Basics
  import opened Ordering

  /** Text together with the verdict of the parsers that are not part of this model
      (URL, host, port and server-name syntax). */
  datatype CheckedText = CheckedText(text: string, acceptable: bool)

  /** The URL of a mirror together with two verdicts: whether it is an HTTPS URL without
      credentials, query or fragment, and whether its host and port are well formed. */
  datatype UrlText = UrlText(text: string, plainHttps: bool, goodHost: bool)

  datatype DiscoveryEndpoint = DiscoveryEndpoint(id: string, url: UrlText, priority: U16)

  datatype Endpoint = Endpoint(
    id: string,
    transport: string,
    address: CheckedText,
    serverName: CheckedText,
    credentialRef: string,
    priority: U16)

  datatype Node = Node(
    id: string,
    region: string,
    countryCode: string,
    provider: string,
    asn: U32,
    endpoints: seq<Endpoint>)

  datatype Catalog = Catalog(revision: U64, discovery: seq<DiscoveryEndpoint>, nodes: seq<Node>)

  const AMNEZIA_WG := "amneziawg"
  const REALITY := "vless-reality"

  predicate LowerOrDigit(c: char) {
    'a' <= c <= 'z' || '0' <= c <= '9'
  }

  predicate Alphanumeric(c: char) {
    LowerOrDigit(c) || 'A' <= c <= 'Z'
  }

  predicate Slug(s: string, longest: nat) {
    1 <= |s| <= longest && LowerOrDigit(s[0]) && forall c | c in s :: LowerOrDigit(c) || c == '-'
  }

  predicate ValidId(s: string) {
    Slug(s, 63)
  }

  predicate ValidCountry(s: string) {
    |s| == 2 && forall c | c in s :: 'A' <= c <= 'Z'
  }

  predicate ValidCredential(s: string) {
    && 1 <= |s| <= 128 && Alphanumeric(s[0])
    && forall c | c in s :: Alphanumeric(c) || c == '.' || c == '_' || c == '-'
  }

  predicate ValidSource(d: DiscoveryEndpoint) {
    ValidId(d.id) && 1 <= d.priority <= 1000 && d.url.plainHttps && d.url.goodHost
  }

  predicate ValidEndpoint(e: Endpoint) {
    && ValidId(e.id)
    && e.address.acceptable
    && ValidCredential(e.credentialRef)
    && 1 <= e.priority <= 1000
    && (if e.transport == AMNEZIA_WG then e.serverName.text == ""
        else e.transport == REALITY && e.serverName.acceptable)
  }

  predicate ValidNodeHeader(n: Node) {
    && ValidId(n.id) && Slug(n.region, 64) && ValidCountry(n.countryCode)
    && ValidId(n.provider) && n.asn > 0
    && 1 <= |n.endpoints| <= 16
  }

  // ----- validity of whole catalogs

  function SourceKey(d: DiscoveryEndpoint): SortKey { SortKey(d.priority, d.id) }
  function EndpointKey(e: Endpoint): SortKey { SortKey(e.priority, e.id) }
  function NodeKey(n: Node): SortKey { SortKey(0, n.id) }

  /** Keys that ignore everything but the identifier. */
  function SourceName(d: DiscoveryEndpoint): SortKey { SortKey(0, d.id) }
  function EndpointName(e: Endpoint): SortKey { SortKey(0, e.id) }

  /** All endpoints, in the order a scan over the nodes meets them. */
  function AllEndpoints(nodes: seq<Node>): seq<Endpoint> {
    if nodes == [] then [] else AllEndpoints(nodes[..|nodes|-1]) + nodes[|nodes|-1].endpoints
  }

  predicate ValidDiscovery(ds: seq<DiscoveryEndpoint>) {
    1 <= |ds| <= 16 && (forall d | d in ds :: ValidSource(d)) && DistinctKeys(ds, SourceName)
  }

  /** Everything required of the nodes but their number. */
  predicate SoundNodes(ns: seq<Node>) {
    && (forall n | n in ns :: ValidNodeHeader(n))
    && DistinctKeys(ns, NodeKey)
    && (forall e | e in AllEndpoints(ns) :: ValidEndpoint(e))
    && DistinctKeys(AllEndpoints(ns), EndpointName)
  }

  predicate ValidNodes(ns: seq<Node>) {
    1 <= |ns| <= 1000 && SoundNodes(ns)
  }

  predicate ValidContents(ds: seq<DiscoveryEndpoint>, ns: seq<Node>) {
    ValidDiscovery(ds) && ValidNodes(ns)
  }

  /** The identifiers met so far, as the seen-maps of the validators record them. */
  ghost function Names<T>(s: seq<T>, key: T -> SortKey): set<string> {
    set i | 0 <= i < |s| :: key(s[i]).name
  }

  lemma {:induction false} NamesStep<T>(s: seq<T>, x: T, key: T -> SortKey)
    requires DistinctKeys(s, key)
    requires forall y :: key(y).rank == 0
    ensures Names(s + [x], key) == Names(s, key) + {key(x).name}
    ensures DistinctKeys(s + [x], key) <==> key(x).name !in Names(s, key)
  {
    var more := s + [x];
    assert more[|s|] == x && forall i | 0 <= i < |s| :: more[i] == s[i];
    forall k | k in Names(s, key) ensures k in Names(more, key) {
      var i :| 0 <= i < |s| && key(s[i]).name == k;
      assert key(more[i]).name == k;
    }
    assert key(more[|s|]).name in Names(more, key);
    if key(x).name in Names(s, key) {
      var i :| 0 <= i < |s| && key(s[i]).name == key(x).name;
      assert key(more[i]) == key(more[|s|]);
    }
  }

  /** A prefix with a repeated key spoils every extension. */
  lemma {:induction false} DistinctPrefix<T>(s: seq<T>, t: seq<T>, key: T -> SortKey)
    requires s <= t && DistinctKeys(t, key)
    ensures DistinctKeys(s, key)
  {
  }

  method ValidateDiscovery(ds: seq<DiscoveryEndpoint>) returns (ok: bool)
    ensures ok <==> ValidDiscovery(ds)
  {
    if |ds| == 0 || |ds| > 16 { return false; }
    var ids: set<string> := {};
    for index := 0 to |ds|
      invariant forall d | d in ds[..index] :: ValidSource(d)
      invariant DistinctKeys(ds[..index], SourceName)
      invariant ids == Names(ds[..index], SourceName)
    {
      var source := ds[index];
      assert source in ds && ds[..index+1] == ds[..index] + [source];
      NamesStep(ds[..index], source, SourceName);
      if !ValidId(source.id) { return false; }
      if source.id in ids {
        assert !DistinctKeys(ds[..index+1], SourceName);
        return false;
      }
      ids := ids + {source.id};
      if source.priority == 0 || source.priority > 1000 { return false; }
      if !source.url.plainHttps { return false; }
      if !source.url.goodHost { return false; }
    }
    assert ds[..|ds|] == ds;
    return true;
  }

  /** The inner loop of `validateCatalogContents`: one node's endpoints against all the
      endpoint identifiers met before. */
  method ValidateEndpoints(ghost before: seq<Endpoint>, es: seq<Endpoint>, seen: set<string>)
    returns (ok: bool, seen': set<string>)
    requires DistinctKeys(before, EndpointName) && seen == Names(before, EndpointName)
    ensures ok <==> (forall e | e in es :: ValidEndpoint(e)) && DistinctKeys(before + es, EndpointName)
    ensures ok ==> seen' == Names(before + es, EndpointName)
  {
    seen' := seen;
    assert before + es[..0] == before;
    for index := 0 to |es|
      invariant forall e | e in es[..index] :: ValidEndpoint(e)
      invariant DistinctKeys(before + es[..index], EndpointName)
      invariant seen' == Names(before + es[..index], EndpointName)
    {
      var endpoint := es[index];
      assert before + es[..index+1] == (before + es[..index]) + [endpoint];
      assert before + es[..index+1] <= before + es;
      NamesStep(before + es[..index], endpoint, EndpointName);
      if !ValidEndpoint(endpoint) { return false, seen'; }
      if endpoint.id in seen' {
        assert !DistinctKeys(before + es[..index+1], EndpointName);
        return false, seen';
      }
      seen' := seen' + {endpoint.id};
    }
    assert before + es[..|es|] == before + es;
    return true, seen';
  }

  lemma {:induction false} AllEndpointsPrefix(ns: seq<Node>, k: nat)
    requires k <= |ns|
    ensures AllEndpoints(ns[..k]) <= AllEndpoints(ns)
  {
    if k < |ns| {
      AllEndpointsPrefix(ns[..|ns|-1], k);
      assert ns[..|ns|-1][..k] == ns[..k];
    } else {
      assert ns[..k] == ns;
    }
  }

  lemma {:induction false} AllEndpointsAppend(ns: seq<Node>, node: Node)
    ensures AllEndpoints(ns + [node]) == AllEndpoints(ns) + node.endpoints
  {
    assert (ns + [node])[..|ns|] == ns;
  }

  lemma {:induction false} SoundNodesStep(ns: seq<Node>, node: Node)
    ensures SoundNodes(ns + [node]) <==>
            && SoundNodes(ns)
            && ValidNodeHeader(node)
            && DistinctKeys(ns + [node], NodeKey)
            && (forall e | e in node.endpoints :: ValidEndpoint(e))
            && DistinctKeys(AllEndpoints(ns) + node.endpoints, EndpointName)
    ensures AllEndpoints(ns + [node]) == AllEndpoints(ns) + node.endpoints
  {
    var more := ns + [node];
    AllEndpointsAppend(ns, node);
    assert forall n :: n in more <==> n in ns || n == node;
    if DistinctKeys(more, NodeKey) {
      DistinctPrefix(ns, more, NodeKey);
    }
    if DistinctKeys(AllEndpoints(more), EndpointName) {
      DistinctPrefix(AllEndpoints(ns), AllEndpoints(more), EndpointName);
    }
  }

  lemma {:induction false} SoundNodesPrefix(ns: seq<Node>, k: nat)
    requires k <= |ns| && SoundNodes(ns)
    ensures SoundNodes(ns[..k])
  {
    if k < |ns| {
      assert ns == ns[..|ns|-1] + [ns[|ns|-1]];
      SoundNodesStep(ns[..|ns|-1], ns[|ns|-1]);
      SoundNodesPrefix(ns[..|ns|-1], k);
      assert ns[..|ns|-1][..k] == ns[..k];
    } else {
      assert ns[..k] == ns;
    }
  }

  method ValidateNodes(ns: seq<Node>) returns (ok: bool)
    ensures ok <==> SoundNodes(ns)
  {
    var nodeIds: set<string> := {};
    var endpointIds: set<string> := {};
    for index := 0 to |ns|
      invariant SoundNodes(ns[..index])
      invariant nodeIds == Names(ns[..index], NodeKey)
      invariant endpointIds == Names(AllEndpoints(ns[..index]), EndpointName)
    {
      var node := ns[index];
      ghost var before := ns[..index];
      assert ns[..index+1] == before + [node];
      if SoundNodes(ns) { SoundNodesPrefix(ns, index + 1); }
      SoundNodesStep(before, node);
      NamesStep(before, node, NodeKey);
      if !ValidId(node.id) { return false; }
      if node.id in nodeIds { return false; }
      nodeIds := nodeIds + {node.id};
      if !Slug(node.region, 64) || !ValidCountry(node.countryCode) || !ValidId(node.provider) { return false; }
      if node.asn == 0 { return false; }
      if |node.endpoints| == 0 || |node.endpoints| > 16 { return false; }
      ok, endpointIds := ValidateEndpoints(AllEndpoints(before), node.endpoints, endpointIds);
      if !ok { return false; }
    }
    assert ns[..|ns|] == ns;
    return true;
  }

  method ValidateCatalogContents(ds: seq<DiscoveryEndpoint>, ns: seq<Node>) returns (ok: bool)
    ensures ok <==> ValidContents(ds, ns)
  {
    ok := ValidateDiscovery(ds);
    if !ok { return false; }
    if |ns| == 0 || |ns| > 1000 { return false; }
    ok := ValidateNodes(ns);
  }

  // ----- canonical form

  function CanonicalDiscovery(ds: seq<DiscoveryEndpoint>): seq<DiscoveryEndpoint> {
    SortBy(ds, SourceKey)
  }

  function CanonicalNode(n: Node): Node {
    n.(endpoints := SortBy(n.endpoints, EndpointKey))
  }

  function Map<S, T>(s: seq<S>, f: S -> T): (r: seq<T>)
    ensures |r| == |s| && forall i | 0 <= i < |s| :: r[i] == f(s[i])
  {
    seq(|s|, i requires 0 <= i < |s| => f(s[i]))
  }

  function CanonicalNodes(ns: seq<Node>): seq<Node> {
    SortBy(Map(ns, CanonicalNode), NodeKey)
  }

  function CanonicalCatalog(c: Catalog): Catalog {
    Catalog(c.revision, CanonicalDiscovery(c.discovery), CanonicalNodes(c.nodes))
  }

  /** What a node says, without the order it lists its endpoints in. */
  datatype NodeContents = NodeContents(header: Node, endpoints: multiset<Endpoint>)

  function ContentsOf(n: Node): NodeContents {
    NodeContents(n.(endpoints := []), multiset(n.endpoints))
  }

  /** Two catalogs that differ at most in the order of mirrors, of nodes, and of the
      endpoints within a node. */
  predicate SameContents(a: Catalog, b: Catalog) {
    && a.revision == b.revision
    && multiset(a.discovery) == multiset(b.discovery)
    && multiset(Map(a.nodes, ContentsOf)) == multiset(Map(b.nodes, ContentsOf))
  }

  lemma {:induction false} MapWithout<S, T>(s: seq<S>, j: nat, f: S -> T)
    requires j < |s|
    ensures multiset(Map(s, f)) == multiset(Map(s[..j] + s[j+1..], f)) + multiset{f(s[j])}
    ensures multiset(Map(s[..j] + s[j+1..], f)) == multiset(Map(s, f)) - multiset{f(s[j])}
  {
    assert Map(s, f)[..j] + Map(s, f)[j+1..] == Map(s[..j] + s[j+1..], f);
    RemoveAt(Map(s, f), j);
  }

  lemma {:induction false} MapTail<S, T>(s: seq<S>, f: S -> T)
    requires s != []
    ensures multiset(Map(s, f)) == multiset(Map(s[1..], f)) + multiset{f(s[0])}
    ensures multiset(Map(s[1..], f)) == multiset(Map(s, f)) - multiset{f(s[0])}
  {
    assert Map(s, f) == [f(s[0])] + Map(s[1..], f);
  }

  lemma {:induction false} PartnerOf<T>(a: seq<T>, b: seq<T>) returns (j: nat)
    requires multiset(a) == multiset(b) && a != []
    ensures j < |b| && b[j] == a[0]
  {
    assert a[0] in multiset(a);
    assert a[0] in b;
    j :| 0 <= j < |b| && b[j] == a[0];
  }

  /** If two lists have the same image, the first element of one has a partner in the
      other, and the rests still have the same image. */
  lemma {:induction false} MatchFirst<S, T>(a: seq<S>, b: seq<S>, c: S -> T) returns (j: nat)
    requires multiset(Map(a, c)) == multiset(Map(b, c)) && a != []
    ensures j < |b| && c(b[j]) == c(a[0])
    ensures multiset(Map(a[1..], c)) == multiset(Map(b[..j] + b[j+1..], c))
  {
    j := PartnerOf(Map(a, c), Map(b, c));
    MapTail(a, c);
    MapWithout(b, j, c);
  }

  lemma {:induction false} MapReordered<S, T, U>(a: seq<S>, b: seq<S>, c: S -> T, f: S -> U)
    requires multiset(Map(a, c)) == multiset(Map(b, c))
    requires forall x, y | x in a && y in b && c(x) == c(y) :: f(x) == f(y)
    ensures multiset(Map(a, f)) == multiset(Map(b, f))
  {
    if a != [] {
      var j := MatchFirst(a, b, c);
      MapReordered(a[1..], b[..j] + b[j+1..], c, f);
      MapTail(a, f);
      MapWithout(b, j, f);
    } else {
      assert |multiset(Map(b, c))| == |b|;
    }
  }

  /** Rearranging a list rearranges its image. */
  lemma {:induction false} MapOfReordered<S, T>(a: seq<S>, b: seq<S>, f: S -> T)
    requires multiset(a) == multiset(b)
    ensures multiset(Map(a, f)) == multiset(Map(b, f))
  {
    var identity := (x: S) => x;
    assert Map(a, identity) == a && Map(b, identity) == b;
    MapReordered(a, b, identity, f);
  }

  lemma {:induction false} AllEndpointsIn(ns: seq<Node>, e: Endpoint)
    ensures e in AllEndpoints(ns) <==> exists n | n in ns :: e in n.endpoints
  {
    if ns != [] {
      var front, last := ns[..|ns|-1], ns[|ns|-1];
      AllEndpointsIn(front, e);
      assert ns == front + [last];
    }
  }

  lemma {:induction false} AllEndpointsConcat(a: seq<Node>, b: seq<Node>)
    ensures AllEndpoints(a + b) == AllEndpoints(a) + AllEndpoints(b)
  {
    if b == [] {
      assert a + b == a;
    } else {
      assert (a + b)[..|a + b|-1] == a + b[..|b|-1];
      AllEndpointsConcat(a, b[..|b|-1]);
    }
  }

  lemma {:induction false} PullMiddle<T>(p: seq<T>, q: seq<T>, r: seq<T>)
    ensures multiset((p + q) + r) == multiset(q) + multiset(p + r)
  {
  }

  lemma {:induction false} AllEndpointsAround(front: seq<Node>, node: Node, back: seq<Node>)
    ensures multiset(AllEndpoints((front + [node]) + back))
            == multiset(node.endpoints) + multiset(AllEndpoints(front + back))
  {
    AllEndpointsConcat(front + [node], back);
    AllEndpointsConcat(front, back);
    AllEndpointsAppend(front, node);
    PullMiddle(AllEndpoints(front), node.endpoints, AllEndpoints(back));
  }

  lemma {:induction false} AllEndpointsRemove(b: seq<Node>, j: nat)
    requires j < |b|
    ensures multiset(AllEndpoints(b)) == multiset(b[j].endpoints) + multiset(AllEndpoints(b[..j] + b[j+1..]))
  {
    hide AllEndpoints;
    AllEndpointsAround(b[..j], b[j], b[j+1..]);
    assert b == (b[..j] + [b[j]]) + b[j+1..];
  }

  /** The endpoints of all nodes taken together do not depend on any order. */
  lemma {:induction false} AllEndpointsReordered(a: seq<Node>, b: seq<Node>)
    requires multiset(Map(a, ContentsOf)) == multiset(Map(b, ContentsOf))
    ensures multiset(AllEndpoints(a)) == multiset(AllEndpoints(b))
  {
    if a != [] {
      var j := MatchFirst(a, b, ContentsOf);
      AllEndpointsReordered(a[1..], b[..j] + b[j+1..]);
      AllEndpointsRemove(a, 0);
      assert a[..0] + a[1..] == a[1..];
      AllEndpointsRemove(b, j);
    } else {
      assert |multiset(Map(b, ContentsOf))| == |b|;
    }
  }

  lemma {:induction false} SameContentsHeaders(a: seq<Node>, b: seq<Node>)
    requires multiset(Map(a, ContentsOf)) == multiset(Map(b, ContentsOf))
    ensures forall n | n in b :: exists m | m in a :: ContentsOf(m) == ContentsOf(n)
  {
    SameMembers(Map(a, ContentsOf), Map(b, ContentsOf));
    forall n | n in b ensures exists m | m in a :: ContentsOf(m) == ContentsOf(n) {
      var j :| 0 <= j < |b| && b[j] == n;
      assert Map(b, ContentsOf)[j] in Map(a, ContentsOf);
      var i :| 0 <= i < |a| && Map(a, ContentsOf)[i] == Map(b, ContentsOf)[j];
      assert a[i] in a;
    }
  }

  lemma {:induction false} NodeKeysReordered(a: seq<Node>, b: seq<Node>)
    requires multiset(Map(a, ContentsOf)) == multiset(Map(b, ContentsOf))
    requires DistinctKeys(a, NodeKey)
    ensures DistinctKeys(b, NodeKey)
  {
    var key := (c: NodeContents) => NodeKey(c.header);
    var ca, cb := Map(a, ContentsOf), Map(b, ContentsOf);
    forall i, j | 0 <= i < j < |ca| ensures key(ca[i]) != key(ca[j]) {
      assert NodeKey(a[i]) != NodeKey(a[j]);
    }
    DistinctKeysReordered(ca, cb, key);
    forall i, j | 0 <= i < j < |b| ensures NodeKey(b[i]) != NodeKey(b[j]) {
      assert key(cb[i]) != key(cb[j]);
    }
  }

  /** Validity does not depend on any order. */
  lemma {:induction false} ValidityIgnoresOrder(a: Catalog, b: Catalog)
    requires SameContents(a, b)
    requires ValidContents(a.discovery, a.nodes)
    ensures ValidContents(b.discovery, b.nodes)
  {
    SameMembers(a.discovery, b.discovery);
    DistinctKeysReordered(a.discovery, b.discovery, SourceName);
    SameMembers(Map(a.nodes, ContentsOf), Map(b.nodes, ContentsOf));
    SameContentsHeaders(a.nodes, b.nodes);
    forall n | n in b.nodes ensures ValidNodeHeader(n) {
      var m :| m in a.nodes && ContentsOf(m) == ContentsOf(n);
      assert |multiset(m.endpoints)| == |m.endpoints| && |multiset(n.endpoints)| == |n.endpoints|;
      assert m.(endpoints := []) == n.(endpoints := []);
    }
    NodeKeysReordered(a.nodes, b.nodes);
    AllEndpointsReordered(a.nodes, b.nodes);
    SameMembers(AllEndpoints(a.nodes), AllEndpoints(b.nodes));
    DistinctKeysReordered(AllEndpoints(a.nodes), AllEndpoints(b.nodes), EndpointName);
  }

  /** Canonicalising rearranges and changes nothing else. */
  lemma {:induction false} CanonicalKeepsContents(c: Catalog)
    ensures SameContents(c, CanonicalCatalog(c))
  {
    SortBySorts(c.discovery, SourceKey);
    SortBySorts(Map(c.nodes, CanonicalNode), NodeKey);
    MapOfReordered(CanonicalNodes(c.nodes), Map(c.nodes, CanonicalNode), ContentsOf);
    forall i | 0 <= i < |c.nodes| ensures ContentsOf(CanonicalNode(c.nodes[i])) == ContentsOf(c.nodes[i]) {
      SortBySorts(c.nodes[i].endpoints, EndpointKey);
    }
    assert Map(Map(c.nodes, CanonicalNode), ContentsOf) == Map(c.nodes, ContentsOf);
  }

  lemma {:induction false} CanonicalValidity(c: Catalog)
    ensures ValidContents(c.discovery, c.nodes)
            <==> ValidContents(CanonicalDiscovery(c.discovery), CanonicalNodes(c.nodes))
  {
    CanonicalKeepsContents(c);
    if ValidContents(c.discovery, c.nodes) {
      ValidityIgnoresOrder(c, CanonicalCatalog(c));
    } else if ValidContents(CanonicalDiscovery(c.discovery), CanonicalNodes(c.nodes)) {
      ValidityIgnoresOrder(CanonicalCatalog(c), c);
    }
  }

  lemma {:induction false} EndpointKeysWithin(ns: seq<Node>, n: Node)
    requires n in ns && DistinctKeys(AllEndpoints(ns), EndpointName)
    ensures DistinctKeys(n.endpoints, EndpointKey)
  {
    var front, last := ns[..|ns|-1], ns[|ns|-1];
    var all := AllEndpoints(ns);
    assert ns == front + [last];
    if n in front {
      AllEndpointsPrefix(ns, |ns| - 1);
      EndpointKeysWithin(front, n);
    } else {
      var k := |AllEndpoints(front)|;
      forall i, j | 0 <= i < j < |n.endpoints| ensures EndpointKey(n.endpoints[i]) != EndpointKey(n.endpoints[j]) {
        assert all[k+i] == n.endpoints[i] && all[k+j] == n.endpoints[j];
        assert EndpointName(all[k+i]) != EndpointName(all[k+j]);
      }
    }
  }

  lemma {:induction false} CanonicalNodesReordered(a: seq<Node>, b: seq<Node>)
    requires multiset(Map(a, ContentsOf)) == multiset(Map(b, ContentsOf))
    requires DistinctKeys(a, NodeKey) && DistinctKeys(AllEndpoints(a), EndpointName)
    ensures CanonicalNodes(a) == CanonicalNodes(b)
  {
    forall x, y | x in a && y in b && ContentsOf(x) == ContentsOf(y) ensures CanonicalNode(x) == CanonicalNode(y) {
      EndpointKeysWithin(a, x);
      SortByReordered(x.endpoints, y.endpoints, EndpointKey);
      assert x.(endpoints := []) == y.(endpoints := []);
    }
    MapReordered(a, b, ContentsOf, CanonicalNode);
    forall i, j | 0 <= i < j < |a| ensures NodeKey(Map(a, CanonicalNode)[i]) != NodeKey(Map(a, CanonicalNode)[j]) {
      assert NodeKey(a[i]) != NodeKey(a[j]);
    }
    SortByReordered(Map(a, CanonicalNode), Map(b, CanonicalNode), NodeKey);
  }

  /** The canonical form is a complete invariant: valid catalogs have the same canonical
      form exactly when they differ only in order. */
  lemma {:induction false} CanonicalFormIdentifiesContents(a: Catalog, b: Catalog)
    requires ValidContents(a.discovery, a.nodes)
    ensures CanonicalCatalog(a) == CanonicalCatalog(b) <==> SameContents(a, b)
  {
    if SameContents(a, b) {
      forall i, j | 0 <= i < j < |a.discovery| ensures SourceKey(a.discovery[i]) != SourceKey(a.discovery[j]) {
        assert SourceName(a.discovery[i]) != SourceName(a.discovery[j]);
      }
      SortByReordered(a.discovery, b.discovery, SourceKey);
      CanonicalNodesReordered(a.nodes, b.nodes);
    }
    if CanonicalCatalog(a) == CanonicalCatalog(b) {
      CanonicalKeepsContents(a);
      CanonicalKeepsContents(b);
    }
  }

  /** `CatalogDigest`. */
  function CatalogDigest(c: Catalog): Result<Digest<Catalog>> {
    if ValidContents(CanonicalDiscovery(c.discovery), CanonicalNodes(c.nodes))
    then Ok(DigestOf(CanonicalCatalog(c)))
    else Err("invalid catalog")
  }

  /** Digests exist exactly for valid catalogs, and two of them are equal exactly when the
      catalogs have the same revision and differ only in order. */
  lemma {:induction false} CatalogDigestIdentifiesContents(a: Catalog, b: Catalog)
    ensures CatalogDigest(a).Ok? <==> ValidContents(a.discovery, a.nodes)
    ensures CatalogDigest(a).Ok? && CatalogDigest(b).Ok? ==>
              (CatalogDigest(a) == CatalogDigest(b) <==> SameContents(a, b))
    ensures CatalogDigest(a).Ok? && SameContents(a, b) ==> CatalogDigest(b).Ok?
  {
    CanonicalValidity(a);
    CanonicalValidity(b);
    if ValidContents(a.discovery, a.nodes) {
      CanonicalFormIdentifiesContents(a, b);
      if SameContents(a, b) { ValidityIgnoresOrder(a, b); }
    }
  }

  /** Sorting a canonical catalog again changes nothing. */
  lemma {:induction false} CanonicalCatalogIsFixed(c: Catalog)
    requires ValidContents(c.discovery, c.nodes)
    ensures CanonicalCatalog(CanonicalCatalog(c)) == CanonicalCatalog(c)
  {
    CanonicalKeepsContents(c);
    CanonicalFormIdentifiesContents(c, CanonicalCatalog(c));
  }

  // ----- sorting in place, ties and all

  /** `canonicalNodes` as it runs: each node's endpoints are sorted in a copy, then the
      nodes. Equal keys may end up in any order. */
  method SortNodes(ns: seq<Node>) returns (r: seq<Node>)
    ensures multiset(Map(r, ContentsOf)) == multiset(Map(ns, ContentsOf))
    ensures SortedBy(r, NodeKey) && forall n | n in r :: SortedBy(n.endpoints, EndpointKey)
  {
    var result := ns;
    for index := 0 to |ns|
      invariant |result| == |ns| && result[index..] == ns[index..]
      invariant forall i | 0 <= i < index ::
                  ContentsOf(result[i]) == ContentsOf(ns[i]) && SortedBy(result[i].endpoints, EndpointKey)
    {
      var endpoints := SortSlice(ns[index].endpoints, EndpointKey);
      result := result[index := ns[index].(endpoints := endpoints)];
    }
    assert Map(result, ContentsOf) == Map(ns, ContentsOf);
    r := SortSlice(result, NodeKey);
    MapOfReordered(r, result, ContentsOf);
    SameMembers(r, result);
  }

  /** How ties are broken never shows: nodes whose identifiers are distinct have one sorted
      arrangement. */
  lemma {:induction false} SortedNodesAreCanonical(ns: seq<Node>, r: seq<Node>)
    requires multiset(Map(r, ContentsOf)) == multiset(Map(ns, ContentsOf))
    requires SortedBy(r, NodeKey) && forall n | n in r :: SortedBy(n.endpoints, EndpointKey)
    requires SoundNodes(r)
    ensures r == CanonicalNodes(ns)
  {
    forall i | 0 <= i < |r| ensures CanonicalNode(r[i]) == r[i] {
      EndpointKeysWithin(r, r[i]);
      SortBySorts(r[i].endpoints, EndpointKey);
      SortedUnique(r[i].endpoints, SortBy(r[i].endpoints, EndpointKey), EndpointKey);
    }
    assert Map(r, CanonicalNode) == r;
    SortBySorts(r, NodeKey);
    SortedUnique(r, SortBy(r, NodeKey), NodeKey);
    CanonicalNodesReordered(r, ns);
  }

  /** However the sorts broke ties, sorted copies are valid exactly when the canonical ones
      are, and then they are the canonical ones. */
  lemma {:induction false} SortedCopiesAreCanonical(c: Catalog, discovery: seq<DiscoveryEndpoint>, nodes: seq<Node>)
    requires multiset(discovery) == multiset(c.discovery) && SortedBy(discovery, SourceKey)
    requires multiset(Map(nodes, ContentsOf)) == multiset(Map(c.nodes, ContentsOf))
    requires SortedBy(nodes, NodeKey) && forall n | n in nodes :: SortedBy(n.endpoints, EndpointKey)
    ensures ValidContents(discovery, nodes)
            <==> ValidContents(CanonicalDiscovery(c.discovery), CanonicalNodes(c.nodes))
    ensures ValidContents(discovery, nodes) ==>
              discovery == CanonicalDiscovery(c.discovery) && nodes == CanonicalNodes(c.nodes)
  {
    CatalogDigestIdentifiesContents(Catalog(c.revision, discovery, nodes), c);
    CatalogDigestIdentifiesContents(c, Catalog(c.revision, discovery, nodes));
    if ValidContents(discovery, nodes) {
      SortedNodesAreCanonical(c.nodes, nodes);
      SortedSourcesAreCanonical(c.discovery, discovery);
    }
  }

  /** `CatalogDigest` as it runs. */
  method ComputeDigest(c: Catalog) returns (r: Result<Digest<Catalog>>)
    ensures r == CatalogDigest(c)
  {
    hide ValidContents;
    var discovery := SortSlice(c.discovery, SourceKey);
    var nodes := SortNodes(c.nodes);
    SortedCopiesAreCanonical(c, discovery, nodes);
    var ok := ValidateCatalogContents(discovery, nodes);
    if !ok { return Err("invalid catalog"); }
    return Ok(DigestOf(Catalog(c.revision, discovery, nodes)));
  }

  lemma {:induction false} SortedSourcesAreCanonical(ds: seq<DiscoveryEndpoint>, r: seq<DiscoveryEndpoint>)
    requires multiset(r) == multiset(ds) && SortedBy(r, SourceKey) && DistinctKeys(r, SourceName)
    ensures r == CanonicalDiscovery(ds)
  {
    forall i, j | 0 <= i < j < |r| ensures SourceKey(r[i]) != SourceKey(r[j]) {
      assert SourceName(r[i]) != SourceName(r[j]);
    }
    SortBySorts(ds, SourceKey);
    SortedUnique(r, CanonicalDiscovery(ds), SourceKey);
  }

  // ----- the rules of a catalog, entry by entry

  predicate SlugRules(s: string, longest: nat) {
    && 1 <= |s| <= longest && s[0] != '-'
    && forall i | 0 <= i < |s| :: 'a' <= s[i] <= 'z' || '0' <= s[i] <= '9' || s[i] == '-'
  }

  predicate SourceRules(d: DiscoveryEndpoint) {
    SlugRules(d.id, 63) && 1 <= d.priority <= 1000 && d.url.plainHttps && d.url.goodHost
  }

  predicate NodeRules(n: Node) {
    && SlugRules(n.id, 63) && SlugRules(n.region, 64) && SlugRules(n.provider, 63)
    && |n.countryCode| == 2 && 'A' <= n.countryCode[0] <= 'Z' && 'A' <= n.countryCode[1] <= 'Z'
    && n.asn > 0 && 1 <= |n.endpoints| <= 16
  }

  predicate EndpointRules(e: Endpoint) {
    && SlugRules(e.id, 63) && e.address.acceptable && 1 <= e.priority <= 1000
    && 1 <= |e.credentialRef| <= 128 && e.credentialRef[0] !in {'.', '_', '-'}
    && (forall i | 0 <= i < |e.credentialRef| ::
          var c := e.credentialRef[i];
          'a' <= c <= 'z' || 'A' <= c <= 'Z' || '0' <= c <= '9' || c in {'.', '_', '-'})
    && (|| (e.transport == "amneziawg" && e.serverName.text == "")
        || (e.transport == "vless-reality" && e.serverName.acceptable))
  }

  lemma {:induction false} SlugMeaning(s: string, longest: nat)
    ensures Slug(s, longest) <==> SlugRules(s, longest)
  {
    if SlugRules(s, longest) {
      forall c | c in s ensures LowerOrDigit(c) || c == '-' {
        var i :| 0 <= i < |s| && s[i] == c;
      }
    }
    if Slug(s, longest) { assert forall i | 0 <= i < |s| :: s[i] in s; }
  }

  lemma {:induction false} SourceMeaning(d: DiscoveryEndpoint)
    ensures ValidSource(d) <==> SourceRules(d)
  {
    hide Slug;
    SlugMeaning(d.id, 63);
  }

  lemma {:induction false} NodeMeaning(n: Node)
    ensures ValidNodeHeader(n) <==> NodeRules(n)
  {
    hide Slug, ValidCountry;
    SlugMeaning(n.id, 63);
    SlugMeaning(n.region, 64);
    SlugMeaning(n.provider, 63);
    CountryMeaning(n.countryCode);
  }

  lemma {:induction false} CountryMeaning(s: string)
    ensures ValidCountry(s) <==> |s| == 2 && 'A' <= s[0] <= 'Z' && 'A' <= s[1] <= 'Z'
  {
    if |s| == 2 { assert s[0] in s && s[1] in s && forall c | c in s :: c == s[0] || c == s[1]; }
  }

  lemma {:induction false} EndpointMeaning(e: Endpoint)
    ensures ValidEndpoint(e) <==> EndpointRules(e)
  {
    hide Slug;
    SlugMeaning(e.id, 63);
    var s := e.credentialRef;
    if EndpointRules(e) {
      forall c | c in s ensures Alphanumeric(c) || c == '.' || c == '_' || c == '-' {
        var i :| 0 <= i < |s| && s[i] == c;
      }
    }
    if ValidEndpoint(e) { assert forall i | 0 <= i < |s| :: s[i] in s; }
  }

  /** Where endpoint `k` of node `i` stands among all endpoints. */
  function Offset(ns: seq<Node>, i: nat, k: nat): nat
    requires i <= |ns|
  {
    |AllEndpoints(ns[..i])| + k
  }

  lemma {:induction false} EndpointAt(ns: seq<Node>, i: nat, k: nat)
    requires i < |ns| && k < |ns[i].endpoints|
    ensures Offset(ns, i, k) < |AllEndpoints(ns)| && AllEndpoints(ns)[Offset(ns, i, k)] == ns[i].endpoints[k]
    ensures Offset(ns, i, k) < Offset(ns, i + 1, 0)
  {
    assert ns[..i+1] == ns[..i] + [ns[i]];
    AllEndpointsAppend(ns[..i], ns[i]);
    AllEndpointsPrefix(ns, i + 1);
  }

  lemma {:induction false} OffsetsRise(ns: seq<Node>, i: nat, j: nat)
    requires i <= j <= |ns|
    ensures Offset(ns, i, 0) <= Offset(ns, j, 0)
  {
    assert ns[..j][..i] == ns[..i];
    AllEndpointsPrefix(ns[..j], i);
  }

  lemma {:induction false} Locate(ns: seq<Node>, p: nat) returns (i: nat, k: nat)
    requires p < |AllEndpoints(ns)|
    ensures i < |ns| && k < |ns[i].endpoints| && Offset(ns, i, k) == p
  {
    var front := ns[..|ns|-1];
    if p < |AllEndpoints(front)| {
      i, k := Locate(front, p);
      assert front[..i] == ns[..i];
    } else {
      i, k := |ns| - 1, p - |AllEndpoints(front)|;
    }
  }

  /** No endpoint identifier is used twice in the whole catalog. */
  predicate EndpointIdsDiffer(ns: seq<Node>) {
    forall i, k, j, l | 0 <= i < |ns| && 0 <= k < |ns[i].endpoints| && 0 <= j < |ns| && 0 <= l < |ns[j].endpoints| ::
      ns[i].endpoints[k].id == ns[j].endpoints[l].id ==> i == j && k == l
  }

  lemma {:induction false} EndpointIdsMeaning(ns: seq<Node>)
    ensures DistinctKeys(AllEndpoints(ns), EndpointName) <==> EndpointIdsDiffer(ns)
  {
    hide AllEndpoints;
    var all := AllEndpoints(ns);
    if DistinctKeys(all, EndpointName) {
      forall i, k, j, l | 0 <= i < |ns| && 0 <= k < |ns[i].endpoints| && 0 <= j < |ns| && 0 <= l < |ns[j].endpoints|
        ensures ns[i].endpoints[k].id == ns[j].endpoints[l].id ==> i == j && k == l
      {
        EndpointAt(ns, i, k);
        EndpointAt(ns, j, l);
        if i < j { OffsetsRise(ns, i + 1, j); }
        if j < i { OffsetsRise(ns, j + 1, i); }
        var p, q := Offset(ns, i, k), Offset(ns, j, l);
        assert p < q ==> EndpointName(all[p]) != EndpointName(all[q]);
        assert q < p ==> EndpointName(all[q]) != EndpointName(all[p]);
      }
    }
    if EndpointIdsDiffer(ns) {
      forall p, q | 0 <= p < q < |all| ensures EndpointName(all[p]) != EndpointName(all[q]) {
        var i, k := Locate(ns, p);
        var j, l := Locate(ns, q);
        EndpointAt(ns, i, k);
        EndpointAt(ns, j, l);
      }
    }
  }

  lemma {:induction false} EndpointsMeaning(ns: seq<Node>)
    ensures (forall e | e in AllEndpoints(ns) :: ValidEndpoint(e))
            <==> (forall i, k | 0 <= i < |ns| && 0 <= k < |ns[i].endpoints| :: EndpointRules(ns[i].endpoints[k]))
  {
    hide ValidEndpoint, EndpointRules, AllEndpoints;
    if forall e | e in AllEndpoints(ns) :: ValidEndpoint(e) {
      forall i, k | 0 <= i < |ns| && 0 <= k < |ns[i].endpoints| ensures EndpointRules(ns[i].endpoints[k]) {
        EndpointAt(ns, i, k);
        EndpointMeaning(ns[i].endpoints[k]);
      }
    }
    if forall i, k | 0 <= i < |ns| && 0 <= k < |ns[i].endpoints| :: EndpointRules(ns[i].endpoints[k]) {
      forall e | e in AllEndpoints(ns) ensures ValidEndpoint(e) {
        var p :| 0 <= p < |AllEndpoints(ns)| && AllEndpoints(ns)[p] == e;
        var i, k := Locate(ns, p);
        EndpointAt(ns, i, k);
        EndpointMeaning(e);
      }
    }
  }

  /** A catalog is valid if and only if it has 1 to 16 mirrors and 1 to 1000 nodes that follow
      the rules, and no identifier of a mirror, a node or an endpoint is used twice. */
  lemma {:induction false} ContentsMeaning(ds: seq<DiscoveryEndpoint>, ns: seq<Node>)
    ensures ValidContents(ds, ns) <==>
            && 1 <= |ds| <= 16 && 1 <= |ns| <= 1000
            && (forall i | 0 <= i < |ds| :: SourceRules(ds[i]))
            && (forall i, j | 0 <= i < j < |ds| :: ds[i].id != ds[j].id)
            && (forall i | 0 <= i < |ns| :: NodeRules(ns[i]))
            && (forall i, j | 0 <= i < j < |ns| :: ns[i].id != ns[j].id)
            && (forall i, k | 0 <= i < |ns| && 0 <= k < |ns[i].endpoints| :: EndpointRules(ns[i].endpoints[k]))
            && EndpointIdsDiffer(ns)
  {
    hide ValidSource, SourceRules, ValidNodeHeader, NodeRules, EndpointRules, EndpointIdsDiffer, AllEndpoints;
    EndpointIdsMeaning(ns);
    EndpointsMeaning(ns);
    MirrorsMeaning(ds);
    NodesMeaning(ns);
  }

  lemma {:induction false} MirrorsMeaning(ds: seq<DiscoveryEndpoint>)
    ensures (forall d | d in ds :: ValidSource(d)) <==> (forall i | 0 <= i < |ds| :: SourceRules(ds[i]))
    ensures DistinctKeys(ds, SourceName) <==> (forall i, j | 0 <= i < j < |ds| :: ds[i].id != ds[j].id)
  {
    hide ValidSource, SourceRules;
    forall d ensures ValidSource(d) <==> SourceRules(d) { SourceMeaning(d); }
    forall i, j | 0 <= i < j < |ds| ensures SourceName(ds[i]) != SourceName(ds[j]) <==> ds[i].id != ds[j].id {}
  }

  lemma {:induction false} NodesMeaning(ns: seq<Node>)
    ensures (forall n | n in ns :: ValidNodeHeader(n)) <==> (forall i | 0 <= i < |ns| :: NodeRules(ns[i]))
    ensures DistinctKeys(ns, NodeKey) <==> (forall i, j | 0 <= i < j < |ns| :: ns[i].id != ns[j].id)
  {
    hide ValidNodeHeader, NodeRules;
    forall n ensures ValidNodeHeader(n) <==> NodeRules(n) { NodeMeaning(n); }
    forall i, j | 0 <= i < j < |ns| ensures NodeKey(ns[i]) != NodeKey(ns[j]) <==> ns[i].id != ns[j].id {}
  }

  /** The order of the canonical form of a valid catalog: mirrors, and the endpoints of a node,
      by priority and then identifier; nodes by identifier. */
  lemma {:induction false} CanonicalOrder(c: Catalog, i: nat, j: nat, k: nat)
    requires ValidContents(c.discovery, c.nodes) && i < j
    ensures var ds := CanonicalCatalog(c).discovery;
            j < |ds| ==> ds[i].priority < ds[j].priority
                         || (ds[i].priority == ds[j].priority && TextBefore(ds[i].id, ds[j].id))
    ensures var ns := CanonicalCatalog(c).nodes;
            && (j < |ns| ==> TextBefore(ns[i].id, ns[j].id))
            && (k < |ns| && j < |ns[k].endpoints| ==>
                  var es := ns[k].endpoints;
                  || es[i].priority < es[j].priority
                  || (es[i].priority == es[j].priority && TextBefore(es[i].id, es[j].id)))
  {
    hide SortBy, TextBefore, AllEndpoints;
    var canonical := CanonicalCatalog(c);
    CanonicalValidity(c);
    SortBySorts(c.discovery, SourceKey);
    SortBySorts(Map(c.nodes, CanonicalNode), NodeKey);
    var ds, ns := canonical.discovery, canonical.nodes;
    forall p, q | 0 <= p < q < |ds| ensures SourceKey(ds[p]) != SourceKey(ds[q]) {
      assert SourceName(ds[p]) != SourceName(ds[q]);
    }
    if j < |ds| { StrictlySorted(ds, SourceKey, i, j); }
    if j < |ns| { StrictlySorted(ns, NodeKey, i, j); }
    if k < |ns| && j < |ns[k].endpoints| {
      CanonicalEndpointsSorted(c, ns[k]);
      EndpointKeysWithin(ns, ns[k]);
      StrictlySorted(ns[k].endpoints, EndpointKey, i, j);
    }
  }

  lemma {:induction false} CanonicalEndpointsSorted(c: Catalog, n: Node)
    requires n in CanonicalNodes(c.nodes)
    ensures SortedBy(n.endpoints, EndpointKey)
  {
    var mapped := Map(c.nodes, CanonicalNode);
    SortBySorts(mapped, NodeKey);
    SameMembers(CanonicalNodes(c.nodes), mapped);
    var i :| 0 <= i < |mapped| && mapped[i] == n;
    SortBySorts(c.nodes[i].endpoints, EndpointKey);
  }
}
