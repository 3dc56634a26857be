/** Concrete keys, policies and catalogs for the runs and inputs that show what can happen. */
module Samples {
  import opened Basics
  import opened Ordering
  import opened KeyPolicies
  import opened Catalogs

  function Named(c: char): PublicKey {
    PublicKey(seq(43, i => c))
  }

  function Holder(key: PublicKey): PrivateKey {
    PrivateKey(true, key, key)
  }

  function Grant(key: PublicKey, epoch: U64, from: U64, to: U64): KeyGrant {
    KeyGrant(KeyID(key), EncodedKey(key, 0), epoch, from, to)
  }

  const ROOT := Named('r')
  const K := Named('k')

  const FIRST := [Grant(K, 1, 1, 0)]

  lemma {:induction false} FirstChains()
    ensures GrantChain(FIRST)
  {
  }

  lemma {:induction false} ChainIsSorted(gs: seq<KeyGrant>)
    requires GrantChain(gs)
    ensures CanonicalKeyGrants(gs) == gs
  {
    ArrangedIsCanonical(gs, gs);
  }

  function PolicyWith(version: U64, gs: seq<KeyGrant>): KeyPolicy {
    KeyPolicy(version, KeyID(ROOT), gs, PolicySignature(ROOT, PolicyPayload(version, KeyID(ROOT), gs), 0))
  }

  lemma {:induction false} PolicyIsValid(version: U64, gs: seq<KeyGrant>)
    requires version > 0 && GrantChain(gs)
    ensures SignKeyPolicy(Holder(ROOT), version, gs) == Ok(PolicyWith(version, gs))
    ensures ValidateKeyPolicy(PolicyWith(version, gs), RootKey(ROOT)).Ok?
  {
    hide GrantChain, SortBy;
    ChainIsSorted(gs);
  }

  const SAMPLE := Catalog(1,
    [DiscoveryEndpoint("d", UrlText("https://d.example/v1/manifest", true, true), 10)],
    [Node("n", "eu", "DE", "p", 64501,
          [Endpoint("e", AMNEZIA_WG, CheckedText("e.example:51820", true), CheckedText("", false), "c", 10)])])

  lemma {:induction false} SampleIsValid()
    ensures ValidContents(SAMPLE.discovery, SAMPLE.nodes)
  {
    var n := SAMPLE.nodes[0];
    assert SAMPLE.nodes[..0] == [];
    assert AllEndpoints(SAMPLE.nodes) == n.endpoints;
    assert ValidId("d") && ValidId("n") && ValidId("p") && ValidId("e")
           && Slug("eu", 64) && ValidCountry("DE") && ValidCredential("c");
  }
}
