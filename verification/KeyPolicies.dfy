/** Root-signed key policies: internal/manifest/keypolicy.go. */
module KeyPolicies {
  import opened Basics
  import opened Ordering

  const KEY_ID_LEN: nat := EncodedLen(32)
  const SIGNATURE_LEN: nat := EncodedLen(64)
  const MAX_POLICY_KEYS: nat := 64

  type KeyIdText = s: string | |s| == 43 witness seq(43, i => 'A')

  /** An Ed25519 public key (section 5.1 of RFC 8032), named by the identifier it hashes to. */
  datatype PublicKey = PublicKey(id: KeyIdText)

  /** A private key: whether it has the right size, the public key its seed derives, and
      the public half stored in it. */
  datatype PrivateKey = PrivateKey(wellSized: bool, derived: PublicKey, public: PublicKey)

  /** The bytes passed as the pinned offline root. */
  datatype RootBytes = RootKey(key: PublicKey) | WrongSize

  /** Encoded key text; `variant` tells apart texts that decode to the same bytes. */
  datatype PublicKeyText = EncodedKey(key: PublicKey, variant: nat) | UndecodableKey(text: string)

  datatype KeyGrant = KeyGrant(
    keyId: string,
    publicKey: PublicKeyText,
    epoch: U64,
    notBefore: U64,
    notAfter: U64)

  /** The bytes the root signs. */
  datatype PolicyPayload = PolicyPayload(version: U64, rootKeyId: string, keys: seq<KeyGrant>)

  /** Encoded signature text. Only the holder of `signer` can produce a `PolicySignature`;
      `variant` tells apart several valid signatures of one payload. */
  datatype PolicySignatureText =
    | Unsigned
    | PolicySignature(signer: PublicKey, payload: PolicyPayload, variant: nat)
    | Unverifiable(length: nat, variant: nat)

  datatype KeyPolicy = KeyPolicy(
    version: U64,
    rootKeyId: string,
    keys: seq<KeyGrant>,
    signature: PolicySignatureText)

  function KeyID(key: PublicKey): string {
    key.id
  }

  predicate ValidPrivateKey(key: PrivateKey) {
    key.wellSized && key.derived == key.public
  }

  function GrantKey(g: KeyGrant): SortKey {
    SortKey(g.notBefore, g.keyId)
  }

  function CanonicalKeyGrants(grants: seq<KeyGrant>): seq<KeyGrant> {
    SortBy(grants, GrantKey)
  }

  function CanonicalKeyPolicy(policy: KeyPolicy): KeyPolicy {
    policy.(keys := CanonicalKeyGrants(policy.keys))
  }

  function SignatureTextLen(s: PolicySignatureText): nat {
    match s
    case Unsigned => 0
    case PolicySignature(_, _, _) => SIGNATURE_LEN
    case Unverifiable(n, _) => n
  }

  // ----- shape of a policy

  predicate GoodKey(g: KeyGrant) {
    g.publicKey.EncodedKey? && KeyID(g.publicKey.key) == g.keyId
  }

  predicate GoodRange(g: KeyGrant) {
    g.epoch != 0 && g.notBefore != 0 && (g.notAfter == 0 || g.notBefore <= g.notAfter)
  }

  /** `next` takes over exactly where `previous` stops; the sum wraps at 64 bits. */
  predicate Succeeds(previous: KeyGrant, next: KeyGrant) {
    && previous.notAfter != 0
    && previous.notAfter != MAX_U64
    && next.epoch == (previous.epoch + 1) % (MAX_U64 + 1)
    && next.notBefore == previous.notAfter + 1
  }

  /** The grant at position `n` of the version-ordered list is sound and continues the
      ones before it. */
  predicate Continues(gs: seq<KeyGrant>, n: nat)
    requires n < |gs|
  {
    && GoodKey(gs[n])
    && (forall i | 0 <= i < n :: gs[i].keyId != gs[n].keyId)
    && GoodRange(gs[n])
    && (if n == 0 then gs[0].epoch == 1 && gs[0].notBefore == 1 else Succeeds(gs[n-1], gs[n]))
  }

  /** Grants in version order form one gapless chain from version 1 and epoch 1 upwards,
      open-ended at its end. */
  predicate GrantChain(gs: seq<KeyGrant>) {
    && 1 <= |gs| <= MAX_POLICY_KEYS
    && (forall n | 0 <= n < |gs| :: Continues(gs, n))
    && gs[|gs|-1].notAfter == 0
  }

  predicate HeaderOk(policy: KeyPolicy) {
    && policy.version != 0
    && |policy.rootKeyId| == KEY_ID_LEN
    && (policy.signature.Unsigned? || SignatureTextLen(policy.signature) == SIGNATURE_LEN)
  }

  predicate ShapeOk(policy: KeyPolicy) {
    HeaderOk(policy) && GrantChain(CanonicalKeyGrants(policy.keys))
  }

  lemma {:induction false} ChainAdvances(gs: seq<KeyGrant>, i: nat, j: nat)
    requires GrantChain(gs) && i <= j < |gs|
    ensures gs[j].epoch == j + 1
    ensures i < j ==> gs[i].notAfter != 0 && gs[i].notBefore <= gs[i].notAfter < gs[j].notBefore
    decreases j
  {
    hide GoodKey;
    assert Continues(gs, 0);
    if j > 0 {
      ChainAdvances(gs, if i < j then i else j - 1, j - 1);
      assert Continues(gs, j) && Continues(gs, j - 1) && Continues(gs, i);
    }
  }

  lemma {:induction false} ChainHasDistinctKeys(gs: seq<KeyGrant>)
    requires GrantChain(gs)
    ensures DistinctKeys(gs, GrantKey)
  {
    forall i, j | 0 <= i < j < |gs| ensures GrantKey(gs[i]) != GrantKey(gs[j]) {
      ChainAdvances(gs, i, j);
    }
  }

  /** Whether the grants chain does not depend on how the sort broke ties. */
  lemma {:induction false} AnySortWillDo(gs: seq<KeyGrant>, sorted: seq<KeyGrant>)
    requires multiset(sorted) == multiset(gs) && SortedBy(sorted, GrantKey)
    ensures GrantChain(sorted) <==> GrantChain(CanonicalKeyGrants(gs))
    ensures GrantChain(sorted) ==> sorted == CanonicalKeyGrants(gs)
  {
    var canonical := CanonicalKeyGrants(gs);
    SortBySorts(gs, GrantKey);
    if GrantChain(sorted) {
      ChainHasDistinctKeys(sorted);
      SortedUnique(sorted, canonical, GrantKey);
    } else if GrantChain(canonical) {
      ChainHasDistinctKeys(canonical);
      SortedUnique(canonical, sorted, GrantKey);
    }
  }

  /** The loop of `validateKeyPolicyShape` over the sorted copy. */
  method CheckGrantChain(grants: seq<KeyGrant>) returns (ok: bool)
    requires 1 <= |grants| <= MAX_POLICY_KEYS
    ensures ok <==> GrantChain(grants)
  {
    var seenKeys: set<string> := {};
    for index := 0 to |grants|
      invariant forall n | 0 <= n < index :: Continues(grants, n)
      invariant forall k :: k in seenKeys <==> exists i | 0 <= i < index :: grants[i].keyId == k
    {
      var grant := grants[index];
      ghost var fits := Continues(grants, index);
      if !GoodKey(grant) { return false; }
      if grant.keyId in seenKeys { return false; }
      seenKeys := seenKeys + {grant.keyId};
      if grant.epoch == 0 || grant.notBefore == 0 { return false; }
      if grant.notAfter != 0 && grant.notAfter < grant.notBefore { return false; }
      if index == 0 {
        if grant.epoch != 1 || grant.notBefore != 1 { return false; }
        continue;
      }
      var previous := grants[index-1];
      if previous.notAfter == 0 || previous.notAfter == MAX_U64 { return false; }
      if grant.epoch != (previous.epoch + 1) % (MAX_U64 + 1) || grant.notBefore != previous.notAfter + 1 {
        return false;
      }
    }
    return grants[|grants|-1].notAfter == 0;
  }

  method ValidateKeyPolicyShape(policy: KeyPolicy) returns (ok: bool)
    ensures ok <==> ShapeOk(policy)
  {
    SortBySorts(policy.keys, GrantKey);
    if policy.version == 0 { return false; }
    if |policy.rootKeyId| != KEY_ID_LEN { return false; }
    if |policy.keys| == 0 || |policy.keys| > MAX_POLICY_KEYS { return false; }
    if !policy.signature.Unsigned? && SignatureTextLen(policy.signature) != SIGNATURE_LEN { return false; }
    var grants := SortSlice(policy.keys, GrantKey);
    assert |multiset(grants)| == |grants| == |policy.keys|;
    AnySortWillDo(policy.keys, grants);
    ok := CheckGrantChain(grants);
  }

  // ----- authorisation

  predicate Covers(g: KeyGrant, version: U64) {
    g.notBefore <= version && (g.notAfter == 0 || version <= g.notAfter)
  }

  function GrantIn(grants: seq<KeyGrant>, keyId: string, version: U64): Result<KeyGrant> {
    if grants == [] then Err("signing key is absent from key policy")
    else if grants[0].keyId != keyId then GrantIn(grants[1..], keyId, version)
    else if !Covers(grants[0], version) then Err("signing key is not authorized for this version")
    else if !grants[0].publicKey.EncodedKey? then Err("key policy contains an invalid public key")
    else Ok(grants[0])
  }

  /** The grant under which `keyId` may sign `version`; looked up in the order given. */
  function KeyPolicyGrant(policy: KeyPolicy, keyId: string, version: U64): Result<KeyGrant> {
    GrantIn(policy.keys, keyId, version)
  }

  /** The first grant to `keyId` is at `i`; it reaches from `notBefore` to `notAfter`, both
      included, or without end; and its key decodes. */
  predicate Authorises(grants: seq<KeyGrant>, i: nat, keyId: string, version: U64)
    requires i < |grants|
  {
    && grants[i].keyId == keyId && (forall j | 0 <= j < i :: grants[j].keyId != keyId)
    && grants[i].notBefore <= version && (grants[i].notAfter == 0 || version <= grants[i].notAfter)
    && grants[i].publicKey.EncodedKey?
  }

  lemma {:induction false} GrantMeaning(grants: seq<KeyGrant>, keyId: string, version: U64)
    ensures GrantIn(grants, keyId, version).Ok? <==>
            exists i | 0 <= i < |grants| :: Authorises(grants, i, keyId, version)
    ensures GrantIn(grants, keyId, version).Ok? ==>
              exists i | 0 <= i < |grants| ::
                Authorises(grants, i, keyId, version) && GrantIn(grants, keyId, version).value == grants[i]
  {
    if grants != [] && grants[0].keyId == keyId {
      assert GrantIn(grants, keyId, version).Ok? ==> Authorises(grants, 0, keyId, version);
    } else if grants != [] {
      GrantMeaning(grants[1..], keyId, version);
      if i :| 0 <= i < |grants| && Authorises(grants, i, keyId, version) {
        forall j | 0 <= j < i - 1 ensures grants[1..][j].keyId != keyId { assert grants[1..][j] == grants[j+1]; }
        assert Authorises(grants[1..], i - 1, keyId, version);
      }
      if i :| 0 <= i < |grants[1..]| && Authorises(grants[1..], i, keyId, version)
              && GrantIn(grants[1..], keyId, version) == Ok(grants[1..][i]) {
        forall j | 0 <= j < i + 1 ensures grants[j].keyId != keyId {
          if j > 0 { assert grants[1..][j-1] == grants[j]; }
        }
        assert Authorises(grants, i + 1, keyId, version);
      }
    }
  }

  method LookupGrant(policy: KeyPolicy, keyId: string, version: U64) returns (r: Result<KeyGrant>)
    ensures r == KeyPolicyGrant(policy, keyId, version)
    ensures r.Ok? <==> exists i | 0 <= i < |policy.keys| :: Authorises(policy.keys, i, keyId, version)
    ensures r.Ok? ==> exists i | 0 <= i < |policy.keys| ::
                        Authorises(policy.keys, i, keyId, version) && r.value == policy.keys[i]
  {
    for i := 0 to |policy.keys|
      invariant GrantIn(policy.keys[i..], keyId, version) == KeyPolicyGrant(policy, keyId, version)
      invariant forall j | 0 <= j < i :: policy.keys[j].keyId != keyId
    {
      var grant := policy.keys[i];
      assert policy.keys[i..][0] == grant && policy.keys[i..][1..] == policy.keys[i+1..];
      if grant.keyId != keyId { continue; }
      if version < grant.notBefore || (grant.notAfter != 0 && version > grant.notAfter) {
        return Err("signing key is not authorized for this version");
      }
      if !grant.publicKey.EncodedKey? {
        return Err("key policy contains an invalid public key");
      }
      assert Authorises(policy.keys, i, keyId, version);
      return Ok(grant);
    }
    return Err("signing key is absent from key policy");
  }

  /** The search for the last grant that starts no later than `version`. */
  lemma {:induction false} ChainCoversEveryVersion(gs: seq<KeyGrant>, version: U64, k: nat) returns (i: nat)
    requires GrantChain(gs) && 0 < version && k < |gs|
    requires k + 1 < |gs| ==> version < gs[k+1].notBefore
    ensures i <= k && Covers(gs[i], version)
  {
    assert Continues(gs, 0);
    if gs[k].notBefore <= version {
      i := k;
      if k + 1 < |gs| { assert Continues(gs, k + 1); }
    } else {
      i := ChainCoversEveryVersion(gs, version, k - 1);
    }
  }

  lemma {:induction false} ChainCoversOnce(gs: seq<KeyGrant>, version: U64, i: nat, j: nat)
    requires GrantChain(gs) && i < |gs| && j < |gs|
    requires Covers(gs[i], version) && Covers(gs[j], version)
    ensures i == j
  {
    if i < j { ChainAdvances(gs, i, j); }
    if j < i { ChainAdvances(gs, j, i); }
  }

  /** The one grant of a well-shaped policy that covers `version`. */
  ghost function Owner(policy: KeyPolicy, version: U64): (g: KeyGrant)
    requires ShapeOk(policy) && version > 0
    ensures g in policy.keys && Covers(g, version) && GoodKey(g) && GoodRange(g)
    ensures g.notBefore <= version && (g.notAfter == 0 || version <= g.notAfter)
    ensures forall h | h in policy.keys && Covers(h, version) :: h == g
    ensures forall h | h in policy.keys && h.notBefore <= version && (h.notAfter == 0 || version <= h.notAfter) ::
              h == g
  {
    var gs := CanonicalKeyGrants(policy.keys);
    assert exists i: nat :: i < |gs| && Covers(gs[i], version) by {
      var i := ChainCoversEveryVersion(gs, version, |gs| - 1);
      assert Covers(gs[i], version);
    }
    var i: nat :| i < |gs| && Covers(gs[i], version);
    assert Continues(gs, i);
    SortBySorts(policy.keys, GrantKey);
    SameMembers(gs, policy.keys);
    assert forall h | h in policy.keys && Covers(h, version) :: h == gs[i] by {
      forall h | h in policy.keys && Covers(h, version) ensures h == gs[i] {
        var j :| 0 <= j < |gs| && gs[j] == h;
        ChainCoversOnce(gs, version, i, j);
      }
    }
    gs[i]
  }

  lemma {:induction false} GrantInFindsUniqueKey(grants: seq<KeyGrant>, g: KeyGrant, version: U64)
    requires g in grants && g.publicKey.EncodedKey?
    requires forall h | h in grants && h.keyId == g.keyId :: h == g
    ensures GrantIn(grants, g.keyId, version).Ok? <==> Covers(g, version)
    ensures GrantIn(grants, g.keyId, version).Ok? ==> GrantIn(grants, g.keyId, version).value == g
  {
    if grants[0].keyId == g.keyId {
      assert grants[0] == g;
    } else {
      assert grants == [grants[0]] + grants[1..];
      GrantInFindsUniqueKey(grants[1..], g, version);
    }
  }

  lemma {:induction false} GrantInFinds(grants: seq<KeyGrant>, keyId: string, version: U64)
    requires GrantIn(grants, keyId, version).Ok?
    ensures var g := GrantIn(grants, keyId, version).value;
            g in grants && g.keyId == keyId && Covers(g, version) && g.publicKey.EncodedKey?
  {
    if grants[0].keyId != keyId {
      GrantInFinds(grants[1..], keyId, version);
    }
  }

  lemma {:induction false} KeyIdsAreUnique(policy: KeyPolicy, g: KeyGrant, h: KeyGrant)
    requires ShapeOk(policy) && g in policy.keys && h in policy.keys
    ensures g.keyId == h.keyId <==> g == h
    ensures g.epoch == h.epoch <==> g == h
    ensures g.epoch < h.epoch <==> g.notBefore < h.notBefore
    ensures g.epoch < h.epoch ==> g.notAfter != 0 && g.notAfter < h.notBefore
    ensures GoodKey(g) && GoodRange(g)
  {
    var gs := CanonicalKeyGrants(policy.keys);
    SortBySorts(policy.keys, GrantKey);
    SameMembers(gs, policy.keys);
    var i :| 0 <= i < |gs| && gs[i] == g;
    var j :| 0 <= j < |gs| && gs[j] == h;
    assert Continues(gs, i) && Continues(gs, j);
    ChainAdvances(gs, i, i);
    ChainAdvances(gs, j, j);
    if i < j { ChainAdvances(gs, i, j); }
    if j < i { ChainAdvances(gs, j, i); }
  }

  /** A well-shaped policy partitions versions 1..2^64-1: the lookup on the list as given
      succeeds for exactly one key per version, and for no key at version 0. */
  lemma {:induction false} PolicyPartitionsVersions(policy: KeyPolicy, keyId: string, version: U64)
    requires ShapeOk(policy)
    ensures version == 0 ==> KeyPolicyGrant(policy, keyId, version).Err?
    ensures version > 0 ==>
              var r := KeyPolicyGrant(policy, keyId, version);
              && (r.Ok? <==> keyId == Owner(policy, version).keyId)
              && (r.Ok? ==> r.value == Owner(policy, version))
  {
    var r := KeyPolicyGrant(policy, keyId, version);
    if r.Ok? {
      GrantInFinds(policy.keys, keyId, version);
      KeyIdsAreUnique(policy, r.value, r.value);
    }
    if version > 0 {
      var g := Owner(policy, version);
      forall h | h in policy.keys && h.keyId == g.keyId ensures h == g {
        KeyIdsAreUnique(policy, h, g);
      }
      GrantInFindsUniqueKey(policy.keys, g, version);
    }
  }

  /** Later versions never have an earlier epoch, and the key changes exactly when the
      epoch does. */
  lemma {:induction false} EpochsFollowVersions(policy: KeyPolicy, v: U64, w: U64)
    requires ShapeOk(policy) && 0 < v <= w
    ensures Owner(policy, v).epoch <= Owner(policy, w).epoch
    ensures Owner(policy, v).keyId == Owner(policy, w).keyId <==> Owner(policy, v).epoch == Owner(policy, w).epoch
    ensures 0 < Owner(policy, v).epoch
  {
    KeyIdsAreUnique(policy, Owner(policy, v), Owner(policy, w));
    KeyIdsAreUnique(policy, Owner(policy, w), Owner(policy, v));
  }

  // ----- signatures and digests

  function SigningPayload(policy: KeyPolicy): PolicyPayload {
    PolicyPayload(policy.version, policy.rootKeyId, CanonicalKeyGrants(policy.keys))
  }

  function ValidateKeyPolicy(policy: KeyPolicy, root: RootBytes): (r: Result<Digest<KeyPolicy>>)
    ensures r.Ok? ==>
              && root.RootKey? && policy.rootKeyId == KeyID(root.key)
              && policy.signature.PolicySignature? && policy.signature.signer == root.key
              && policy.signature.payload == SigningPayload(policy) && r.value == DigestOf(CanonicalKeyPolicy(policy))
              && policy.signature.payload.version == policy.version
              && policy.signature.payload.rootKeyId == policy.rootKeyId
  {
    if root.WrongSize? then Err("invalid offline root public key")
    else if !ShapeOk(policy) then Err("malformed key policy")
    else if policy.rootKeyId != KeyID(root.key) then Err("key policy root does not match the pinned offline root")
    else if !policy.signature.PolicySignature? then Err("key policy signature is invalid")
    else if policy.signature.signer != root.key || policy.signature.payload != SigningPayload(policy) then
      Err("key policy signature verification failed")
    else Ok(DigestOf(CanonicalKeyPolicy(policy)))
  }

  function SignKeyPolicy(root: PrivateKey, version: U64, grants: seq<KeyGrant>): Result<KeyPolicy> {
    var policy := KeyPolicy(version, KeyID(root.public), CanonicalKeyGrants(grants), Unsigned);
    if !ValidPrivateKey(root) then Err("invalid offline root private key")
    else if !ShapeOk(policy) then Err("malformed key policy")
    else Ok(policy.(signature := PolicySignature(root.derived, SigningPayload(policy), 0)))
  }

  /** Two policies that differ at most in the order of their grants. */
  predicate SamePolicyContents(p: KeyPolicy, q: KeyPolicy) {
    p.(keys := []) == q.(keys := []) && multiset(p.keys) == multiset(q.keys)
  }

  lemma {:induction false} ReorderedGrantsSortAlike(p: KeyPolicy, q: KeyPolicy)
    requires SamePolicyContents(p, q) && ShapeOk(p)
    ensures CanonicalKeyGrants(p.keys) == CanonicalKeyGrants(q.keys)
  {
    SortBySorts(p.keys, GrantKey);
    SortBySorts(q.keys, GrantKey);
    ChainHasDistinctKeys(CanonicalKeyGrants(p.keys));
    SortedUnique(CanonicalKeyGrants(p.keys), CanonicalKeyGrants(q.keys), GrantKey);
  }

  /** Validity, digest and authorisation do not depend on the order of the grants. */
  lemma {:induction false} PolicyOrderIsIrrelevant(
    p: KeyPolicy, q: KeyPolicy, root: RootBytes, keyId: string, version: U64)
    requires SamePolicyContents(p, q)
    ensures ShapeOk(p) <==> ShapeOk(q)
    ensures ValidateKeyPolicy(p, root) == ValidateKeyPolicy(q, root)
    ensures ShapeOk(p) ==> KeyPolicyGrant(p, keyId, version).Ok? == KeyPolicyGrant(q, keyId, version).Ok?
    ensures ShapeOk(p) && KeyPolicyGrant(p, keyId, version).Ok? ==>
              KeyPolicyGrant(p, keyId, version) == KeyPolicyGrant(q, keyId, version)
  {
    if ShapeOk(p) { ReorderedGrantsSortAlike(p, q); }
    if ShapeOk(q) { ReorderedGrantsSortAlike(q, p); }
    if ShapeOk(p) {
      PolicyPartitionsVersions(p, keyId, version);
      PolicyPartitionsVersions(q, keyId, version);
      SameMembers(p.keys, q.keys);
      if version > 0 {
        assert Owner(p, version) in q.keys && Covers(Owner(p, version), version);
      }
    }
  }

  /** The stable digest identifies a valid policy up to the order of its grants. */
  lemma {:induction false} PolicyDigestIdentifiesContents(p: KeyPolicy, q: KeyPolicy, root: RootBytes)
    requires ValidateKeyPolicy(p, root).Ok? && ValidateKeyPolicy(q, root).Ok?
    ensures ValidateKeyPolicy(p, root) == ValidateKeyPolicy(q, root) <==> SamePolicyContents(p, q)
  {
    SortBySorts(p.keys, GrantKey);
    SortBySorts(q.keys, GrantKey);
    if SamePolicyContents(p, q) {
      ReorderedGrantsSortAlike(p, q);
    }
  }

  /** What the root signs validates against its public key, in whatever order the grants
      are later listed, and under no other root. */
  lemma {:induction false} SignedPolicyValidates(
    root: PrivateKey, version: U64, grants: seq<KeyGrant>, p: KeyPolicy, pinned: RootBytes)
    requires SignKeyPolicy(root, version, grants).Ok?
    requires SamePolicyContents(SignKeyPolicy(root, version, grants).value, p)
    ensures multiset(p.keys) == multiset(grants) && p.version == version
    ensures ValidateKeyPolicy(p, pinned).Ok? <==> pinned == RootKey(root.public)
  {
    var signed := SignKeyPolicy(root, version, grants).value;
    SortBySorts(grants, GrantKey);
    PolicyOrderIsIrrelevant(signed, p, pinned, "", 0);
    assert ShapeOk(signed.(signature := Unsigned));
    assert CanonicalKeyGrants(signed.keys) == CanonicalKeyGrants(signed.(signature := Unsigned).keys);
    assert ShapeOk(signed);
  }

  lemma {:induction false} CanonicalGrantsKeepChain(gs: seq<KeyGrant>)
    ensures multiset(CanonicalKeyGrants(gs)) == multiset(gs)
    ensures GrantChain(CanonicalKeyGrants(CanonicalKeyGrants(gs))) <==> GrantChain(CanonicalKeyGrants(gs))
    ensures GrantChain(CanonicalKeyGrants(gs)) ==> CanonicalKeyGrants(CanonicalKeyGrants(gs)) == CanonicalKeyGrants(gs)
  {
    hide GrantChain;
    SortBySorts(gs, GrantKey);
    AnySortWillDo(CanonicalKeyGrants(gs), CanonicalKeyGrants(gs));
  }

  /** A policy is accepted if and only if it is what the holder of the pinned root would sign
      for its version and grants, up to the order of the grants and the choice among several
      signatures of one payload. */
  lemma {:induction false} OnlyRootSignedPoliciesValidate(p: KeyPolicy, root: PublicKey)
    ensures ValidateKeyPolicy(p, RootKey(root)).Ok? <==>
            && var signed := SignKeyPolicy(PrivateKey(true, root, root), p.version, p.keys);
            && signed.Ok? && p.signature.PolicySignature?
            && SamePolicyContents(p.(signature := PolicySignature(p.signature.signer, p.signature.payload, 0)),
                                  signed.value)
    ensures ValidateKeyPolicy(p, RootKey(root)).Ok? ==>
              && ValidateKeyPolicy(p, RootKey(root)).value.content.signature == p.signature
              && p.signature.payload.version == p.version && p.signature.payload.rootKeyId == p.rootKeyId == root.id
              && multiset(p.signature.payload.keys) == multiset(p.keys)
  {
    hide GrantChain, CanonicalKeyGrants;
    CanonicalGrantsKeepChain(p.keys);
    var signed := SignKeyPolicy(PrivateKey(true, root, root), p.version, p.keys);
    if signed.Ok? && SamePolicyContents(p.(signature := Unsigned), signed.value.(signature := Unsigned)) {
      assert signed.value.keys == CanonicalKeyGrants(p.keys) && p.rootKeyId == KeyID(root);
    }
  }

  // ----- with the sorts as they run

  /** `ValidateKeyPolicy` as it runs: every canonical copy is a sort of its own, and ties may
      be broken differently each time. */
  method CheckKeyPolicy(policy: KeyPolicy, root: RootBytes) returns (r: Result<Digest<KeyPolicy>>)
    ensures r == ValidateKeyPolicy(policy, root)
  {
    hide GrantChain;
    if root.WrongSize? { return Err("invalid offline root public key"); }
    var shaped := ValidateKeyPolicyShape(policy);
    if !shaped { return Err("malformed key policy"); }
    if policy.rootKeyId != KeyID(root.key) { return Err("key policy root does not match the pinned offline root"); }
    if !policy.signature.PolicySignature? { return Err("key policy signature is invalid"); }
    var signedGrants := SortSlice(policy.keys, GrantKey);
    SortedGrantsAreCanonical(policy, signedGrants);
    if policy.signature.signer != root.key
       || policy.signature.payload != PolicyPayload(policy.version, policy.rootKeyId, signedGrants) {
      return Err("key policy signature verification failed");
    }
    var hashedGrants := SortSlice(policy.keys, GrantKey);
    SortedGrantsAreCanonical(policy, hashedGrants);
    return Ok(DigestOf(policy.(keys := hashedGrants)));
  }

  lemma {:induction false} SortedGrantsAreCanonical(policy: KeyPolicy, sorted: seq<KeyGrant>)
    requires ShapeOk(policy) && multiset(sorted) == multiset(policy.keys) && SortedBy(sorted, GrantKey)
    ensures sorted == CanonicalKeyGrants(policy.keys)
  {
    AnySortWillDo(policy.keys, sorted);
  }

  /** `SignKeyPolicy` as it runs. */
  method SignGrants(root: PrivateKey, version: U64, grants: seq<KeyGrant>) returns (r: Result<KeyPolicy>)
    ensures r == SignKeyPolicy(root, version, grants)
  {
    hide GrantChain;
    if !ValidPrivateKey(root) { return Err("invalid offline root private key"); }
    var sorted := SortSlice(grants, GrantKey);
    var policy := KeyPolicy(version, KeyID(root.public), sorted, Unsigned);
    var shaped := ValidateKeyPolicyShape(policy);
    SortBySorts(grants, GrantKey);
    PolicyOrderIsIrrelevant(policy, policy.(keys := CanonicalKeyGrants(grants)), WrongSize, "", 0);
    if !shaped { return Err("malformed key policy"); }
    PolicyOrderIsIrrelevant(policy, policy.(keys := grants), WrongSize, "", 0);
    SortedGrantsAreCanonical(policy.(keys := grants), sorted);
    var signedGrants := SortSlice(policy.keys, GrantKey);
    SortedGrantsAreCanonical(policy, signedGrants);
    var payload := PolicyPayload(version, policy.rootKeyId, signedGrants);
    return Ok(policy.(signature := PolicySignature(root.derived, payload, 0)));
  }

  // ----- the rules of a policy, without the sort

  /** The grants in an order in which the epochs count up from 1, the first starts at version
      1, each starts where the one before stops, only the last is open-ended, and every key is
      well formed, named by its identifier and granted once. */
  predicate Arranged(gs: seq<KeyGrant>) {
    && (forall n | 0 <= n < |gs| :: ArrangedAt(gs, n))
    && (forall m, n | 0 <= m < n < |gs| :: gs[m].keyId != gs[n].keyId)
  }

  predicate ArrangedAt(gs: seq<KeyGrant>, n: nat)
    requires n < |gs|
  {
    && gs[n].epoch == n + 1
    && gs[n].notBefore == (if n == 0 then 1 else gs[n-1].notAfter + 1)
    && (if n == |gs| - 1 then gs[n].notAfter == 0 else gs[n].notBefore <= gs[n].notAfter)
    && gs[n].publicKey.EncodedKey? && gs[n].publicKey.key.id == gs[n].keyId
  }

  lemma {:induction false} ChainIsArranged(gs: seq<KeyGrant>)
    requires 1 <= |gs| <= 64
    ensures GrantChain(gs) <==> Arranged(gs)
  {
    if GrantChain(gs) {
      forall n | 0 <= n < |gs| ensures ArrangedAt(gs, n) {
        ChainAdvances(gs, n, n);
        assert Continues(gs, n);
        if n < |gs| - 1 { assert Continues(gs, n + 1); }
      }
      forall m, n | 0 <= m < n < |gs| ensures gs[m].keyId != gs[n].keyId { assert Continues(gs, n); }
    }
    if Arranged(gs) {
      forall n | 0 <= n < |gs| ensures Continues(gs, n) {
        assert ArrangedAt(gs, n);
        if n > 0 { assert ArrangedAt(gs, n - 1); }
      }
      assert ArrangedAt(gs, |gs| - 1);
    }
  }

  /** A policy is well shaped if and only if it has a version, names a root by 43 characters,
      is unsigned or has a signature of 86, and has 1 to 64 grants that can be arranged. */
  lemma {:induction false} ShapeMeaning(policy: KeyPolicy)
    ensures ShapeOk(policy) <==>
            && policy.version > 0 && |policy.rootKeyId| == 43
            && (policy.signature.Unverifiable? ==> policy.signature.length == 86)
            && 1 <= |policy.keys| <= 64
            && exists gs | multiset(gs) == multiset(policy.keys) :: Arranged(gs)
  {
    hide Continues, Arranged;
    var canonical := CanonicalKeyGrants(policy.keys);
    SortBySorts(policy.keys, GrantKey);
    assert SIGNATURE_LEN == 86 && KEY_ID_LEN == 43;
    if 1 <= |policy.keys| <= 64 {
      ChainIsArranged(canonical);
      if gs :| multiset(gs) == multiset(policy.keys) && Arranged(gs) {
        assert |multiset(gs)| == |gs| && |multiset(policy.keys)| == |policy.keys|;
        ChainIsArranged(gs);
        ArrangedIsCanonical(policy.keys, gs);
      }
    }
  }

  lemma {:induction false} ArrangedIsCanonical(keys: seq<KeyGrant>, gs: seq<KeyGrant>)
    requires GrantChain(gs) && multiset(gs) == multiset(keys)
    ensures CanonicalKeyGrants(keys) == gs
  {
    hide Continues;
    forall i, j | 0 <= i < j < |gs| ensures KeyLeq(GrantKey(gs[i]), GrantKey(gs[j])) { ChainAdvances(gs, i, j); }
    SortBySorts(keys, GrantKey);
    ChainHasDistinctKeys(gs);
    SortedUnique(gs, CanonicalKeyGrants(keys), GrantKey);
  }
}
