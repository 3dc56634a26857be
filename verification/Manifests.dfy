/** Signed manifests and the client's trusted state: internal/manifest/manifest.go. */
module Manifests {
  import opened Basics
  import opened Ordering
  import opened KeyPolicies
  import opened Catalogs

  const SCHEMA_VERSION: int := 3
  const ALGORITHM := "Ed25519"
  const MAX_MANIFEST_BYTES: nat := 0x10_0000
  const MAX_MANIFEST_LIFE: int := HOUR
  const ALLOWED_CLOCK_SKEW: int := 2 * MINUTE

  datatype Document = Document(
    schemaVersion: int,
    version: U64,
    catalogRevision: U64,
    issuedAt: Time,
    expiresAt: Time,
    keyPolicy: KeyPolicy,
    discovery: seq<DiscoveryEndpoint>,
    nodes: seq<Node>)

  /** Payload bytes, by what strict JSON decoding makes of them. `variant` tells apart byte
      strings of one length that decode alike. */
  datatype Payload =
    | JsonOf(document: Document, size: nat, variant: nat)
    | NotADocument(size: nat, variant: nat)

  /** The payload field of an envelope. Go's decoder skips line breaks, so a text may be
      longer than the encoding of the bytes it decodes to. */
  datatype PayloadText =
    | PayloadText(bytes: Payload, lineBreaks: nat, variant: nat)
    | NotBase64(length: nat)

  /** The signature field of an envelope. Only the holder of `signer` can produce an
      `OnlineSignature`. */
  datatype SignatureText =
    | OnlineSignature(signer: PublicKey, payload: Payload, variant: nat)
    | OtherSignature(length: nat, variant: nat)

  datatype Envelope = Envelope(
    algorithm: string,
    keyId: string,
    payload: PayloadText,
    signature: SignatureText)

  datatype TrustedState = TrustedState(
    version: U64,
    issuedAt: Time,
    payloadDigest: Digest<Payload>,
    policyVersion: U64,
    policyDigest: Digest<KeyPolicy>,
    signingKeyId: string,
    signingKeyEpoch: U64)

  const EMPTY_STATE := TrustedState(0, 0, NoDigest, 0, NoDigest, "", 0)

  function PayloadTextLen(p: PayloadText): nat {
    match p
    case PayloadText(bytes, lineBreaks, _) => EncodedLen(bytes.size) + lineBreaks
    case NotBase64(length) => length
  }

  function SignatureLen(s: SignatureText): nat {
    if s.OnlineSignature? then SIGNATURE_LEN else s.length
  }

  // ----- documents

  predicate ValidDocument(d: Document) {
    && d.schemaVersion == SCHEMA_VERSION
    && d.version != 0
    && d.catalogRevision != 0
    && d.issuedAt != 0 && d.expiresAt != 0
    && d.issuedAt < d.expiresAt
    && d.expiresAt - d.issuedAt <= MAX_MANIFEST_LIFE
    && !d.keyPolicy.signature.Unsigned?
    && ShapeOk(d.keyPolicy)
    && ValidContents(d.discovery, d.nodes)
  }

  /** Years 0000 to 9999, the only ones Go's JSON encoder writes. */
  predicate EncodableTime(t: Time) {
    -366 * 24 * HOUR <= t < 3652059 * 24 * HOUR
  }

  function DocumentFor(catalog: Catalog, version: U64, policy: KeyPolicy, now: Time, ttl: int): Document {
    Document(SCHEMA_VERSION, version, catalog.revision, TruncateToSecond(now), TruncateToSecond(now) + ttl,
             CanonicalKeyPolicy(policy), CanonicalDiscovery(catalog.discovery), CanonicalNodes(catalog.nodes))
  }

  /** `Issue`. `size` is the length of the document's JSON encoding. */
  function Issue(catalog: Catalog, version: U64, policy: KeyPolicy, root: RootBytes,
                 now: Time, ttl: int, key: PrivateKey, size: Pos): Result<Envelope>
  {
    var document := DocumentFor(catalog, version, policy, now, ttl);
    var payload := JsonOf(document, size, 0);
    if !ValidPrivateKey(key) then Err("invalid Ed25519 private key")
    else if version == 0 then Err("issued version must be greater than zero")
    else if ttl < MINUTE || ttl > MAX_MANIFEST_LIFE then Err("ttl must be between 1m and 1h")
    else if ValidateKeyPolicy(policy, root).Err? then Err("invalid key policy")
    else if KeyPolicyGrant(policy, KeyID(key.public), version).Err? then Err("signing key is not authorized")
    else if !ValidDocument(document) then Err("invalid document")
    else if !EncodableTime(document.issuedAt) || !EncodableTime(document.expiresAt) then Err("encode payload")
    else if size > MAX_MANIFEST_BYTES then Err("encoded payload exceeds 1 MiB")
    else Ok(Envelope(ALGORITHM, KeyID(key.public), PayloadText(payload, 0, 0),
                     OnlineSignature(key.derived, payload, 0)))
  }

  // ----- verification

  predicate Complete(s: TrustedState) {
    && !s.payloadDigest.NoDigest? && s.issuedAt != 0 && s.policyVersion != 0
    && !s.policyDigest.NoDigest? && s.signingKeyId != "" && s.signingKeyEpoch != 0
  }

  function ValidateStateTransition(trusted: TrustedState, candidate: TrustedState): Result<()> {
    if trusted.version == 0 then
      if trusted != EMPTY_STATE then Err("trusted state is internally inconsistent") else Ok(())
    else if !Complete(trusted) then Err("trusted state is incomplete")
    else if !ValidDigest(trusted.payloadDigest) || !ValidDigest(trusted.policyDigest)
            || |trusted.signingKeyId| != KEY_ID_LEN then
      Err("trusted state contains invalid digests or key ID")
    else if candidate.policyVersion < trusted.policyVersion then Err("key policy is older than trusted policy")
    else if candidate.policyVersion == trusted.policyVersion && candidate.policyDigest != trusted.policyDigest then
      Err("same-version key policy equivocation detected")
    else if candidate.version < trusted.version then Err("version is older than trusted version")
    else if candidate.version == trusted.version then
      if candidate.payloadDigest != trusted.payloadDigest || candidate.issuedAt != trusted.issuedAt then
        Err("same-version payload equivocation detected")
      else Ok(())
    else if candidate.issuedAt < trusted.issuedAt then Err("issuance time moved backwards")
    else if candidate.signingKeyEpoch < trusted.signingKeyEpoch then Err("signing key epoch moved backwards")
    else if candidate.signingKeyId == trusted.signingKeyId && candidate.signingKeyEpoch != trusted.signingKeyEpoch then
      Err("signing key epoch changed without changing the key")
    else if candidate.signingKeyId != trusted.signingKeyId && candidate.signingKeyEpoch <= trusted.signingKeyEpoch then
      Err("signing key changed without advancing its epoch")
    else Ok(())
  }

  /** The part of `Verify` that does not look at the client's state or clock: a document
      and the state it would lead to. */
  function Authenticate(e: Envelope, root: RootBytes): Result<(Document, TrustedState)> {
    if root.WrongSize? then Err("invalid offline root public key")
    else if e.algorithm != ALGORITHM then Err("unsupported algorithm")
    else if e.keyId == "" then Err("signing key ID is required")
    else if PayloadTextLen(e.payload) == 0 || PayloadTextLen(e.payload) > EncodedLen(MAX_MANIFEST_BYTES) then
      Err("encoded payload size is invalid")
    else if SignatureLen(e.signature) != SIGNATURE_LEN then Err("encoded signature size is invalid")
    else if !e.payload.PayloadText? then Err("decode payload")
    else if e.payload.bytes.size == 0 || e.payload.bytes.size > MAX_MANIFEST_BYTES then Err("payload size is invalid")
    else if !e.payload.bytes.JsonOf? then Err("decode signed document")
    else
      var document := e.payload.bytes.document;
      var policyDigest := ValidateKeyPolicy(document.keyPolicy, root);
      var grant := KeyPolicyGrant(document.keyPolicy, e.keyId, document.version);
      if !ValidDocument(document) then Err("invalid document")
      else if policyDigest.Err? then Err("invalid key policy")
      else if grant.Err? then Err("signing key is not authorized")
      else if !e.signature.OnlineSignature? || !grant.value.publicKey.EncodedKey?
              || e.signature.signer != grant.value.publicKey.key || e.signature.payload != e.payload.bytes then
        Err("signature verification failed")
      else Ok((document, TrustedState(document.version, document.issuedAt, DigestOf(e.payload.bytes),
                                      document.keyPolicy.version, policyDigest.value,
                                      grant.value.keyId, grant.value.epoch)))
  }

  datatype Verdict = Verdict(document: Result<Document>, trusted: TrustedState)

  predicate InWindow(d: Document, now: Time) {
    d.issuedAt - ALLOWED_CLOCK_SKEW <= now < d.expiresAt
  }

  function Verify(e: Envelope, root: RootBytes, now: Time, trusted: TrustedState): (v: Verdict)
    ensures v.document.Err? ==> v.trusted == trusted
    ensures v.trusted != trusted ==> v.document.Ok? && v.trusted.version > trusted.version
  {
    var a := Authenticate(e, root);
    if a.Err? then Verdict(Err(a.reason), trusted)
    else
      var (document, candidate) := a.value;
      if !InWindow(document, now) then Verdict(Err("document is not valid yet or has expired"), trusted)
      else if ValidateStateTransition(trusted, candidate).Err? then
        Verdict(Err(ValidateStateTransition(trusted, candidate).reason), trusted)
      else if trusted.version == candidate.version then Verdict(Ok(document), trusted)
      else Verdict(Ok(document), candidate)
  }

  // ----- the round trip

  /** What reaches a client when an issued envelope is served as JSON. */
  function EnvelopeJsonLen(e: Envelope): nat {
    |"{\"algorithm\":\""| + |e.algorithm| + |"\",\"key_id\":\""| + |e.keyId|
    + |"\",\"payload\":\""| + PayloadTextLen(e.payload)
    + |"\",\"signature\":\""| + SignatureLen(e.signature) + |"\"}\n"|
  }

  /** The size test of `DecodeEnvelope`. */
  predicate DecodableLen(n: nat) {
    0 < n <= EncodedLen(MAX_MANIFEST_BYTES) + 1024
  }

  lemma {:induction false} IssuedPolicyAuthorises(policy: KeyPolicy, root: RootBytes, keyId: string, version: U64)
    requires ValidateKeyPolicy(policy, root).Ok? && KeyPolicyGrant(policy, keyId, version).Ok?
    ensures ValidateKeyPolicy(CanonicalKeyPolicy(policy), root) == ValidateKeyPolicy(policy, root)
    ensures KeyPolicyGrant(CanonicalKeyPolicy(policy), keyId, version) == KeyPolicyGrant(policy, keyId, version)
    ensures var g := KeyPolicyGrant(policy, keyId, version).value;
            g.keyId == keyId && GoodKey(g) && 0 < g.epoch && 0 < version
  {
    SortBySorts(policy.keys, GrantKey);
    PolicyOrderIsIrrelevant(policy, CanonicalKeyPolicy(policy), root, keyId, version);
    PolicyPartitionsVersions(policy, keyId, version);
    GrantInFinds(policy.keys, keyId, version);
  }

  /** The state a client reaches from an issued envelope. */
  function StateFor(catalog: Catalog, version: U64, policy: KeyPolicy, now: Time, ttl: int,
                    keyId: string, epoch: U64, size: Pos): TrustedState
  {
    TrustedState(version, TruncateToSecond(now),
                 DigestOf(JsonOf(DocumentFor(catalog, version, policy, now, ttl), size, 0)),
                 policy.version, DigestOf(CanonicalKeyPolicy(policy)), keyId, epoch)
  }

  lemma {:induction false} IssuedEnvelopeAuthenticates(
    catalog: Catalog, version: U64, policy: KeyPolicy, root: RootBytes,
    now: Time, ttl: int, key: PrivateKey, size: Pos)
    requires Issue(catalog, version, policy, root, now, ttl, key, size).Ok?
    ensures KeyPolicyGrant(policy, KeyID(key.public), version).Ok?
    ensures Authenticate(Issue(catalog, version, policy, root, now, ttl, key, size).value, root)
            == Ok((DocumentFor(catalog, version, policy, now, ttl),
                   StateFor(catalog, version, policy, now, ttl, KeyID(key.public),
                            KeyPolicyGrant(policy, KeyID(key.public), version).value.epoch, size)))
  {
    hide ValidContents, GrantIn;
    EncodedLenMonotone(size, MAX_MANIFEST_BYTES);
    IssuedPolicyAuthorises(policy, root, KeyID(key.public), version);
  }

  /** Whatever `Issue` produces fits the size limits, and a new client accepts it at exactly
      the instants of the window, as the canonical form of the catalog that went in. */
  lemma {:induction false} RoundTrip(
    catalog: Catalog, version: U64, policy: KeyPolicy, root: RootBytes,
    now: Time, ttl: int, key: PrivateKey, size: Pos, clock: Time)
    requires Issue(catalog, version, policy, root, now, ttl, key, size).Ok?
    ensures var e := Issue(catalog, version, policy, root, now, ttl, key, size).value;
            var v := Verify(e, root, clock, EMPTY_STATE);
            var issued := TruncateToSecond(now);
            && DecodableLen(EnvelopeJsonLen(e)) && EnvelopeJsonLen(e) == EncodedLen(size) + 193 <= 1_399_126
            && (v.document.Ok? <==> issued - 120_000_000_000 <= clock < issued + ttl)
            && (v.document.Ok? ==>
                  && Catalog(v.document.value.catalogRevision, v.document.value.discovery, v.document.value.nodes)
                     == CanonicalCatalog(catalog)
                  && SameContents(catalog, CanonicalCatalog(catalog))
                  && v.trusted.version == v.document.value.version == version
                  && v.document.value.issuedAt == issued && v.document.value.expiresAt == issued + ttl
                  && Ok(v.trusted.policyDigest) == ValidateKeyPolicy(policy, root)
                  && v.trusted.signingKeyId == KeyID(key.public)
                  && v.trusted.signingKeyEpoch == Owner(policy, version).epoch)
  {
    IssuedEnvelopeAuthenticates(catalog, version, policy, root, now, ttl, key, size);
    PolicyPartitionsVersions(policy, KeyID(key.public), version);
    EncodedLenMonotone(size, MAX_MANIFEST_BYTES);
    CanonicalKeepsContents(catalog);
  }

  // ----- issuing, with the sorts and loops as they run

  method ValidateDocument(d: Document) returns (ok: bool)
    ensures ok <==> ValidDocument(d)
  {
    hide ShapeOk, ValidContents;
    if d.schemaVersion != SCHEMA_VERSION || d.version == 0 || d.catalogRevision == 0 { return false; }
    if d.issuedAt == 0 || d.expiresAt == 0 { return false; }
    if d.expiresAt <= d.issuedAt || d.expiresAt - d.issuedAt > MAX_MANIFEST_LIFE { return false; }
    if d.keyPolicy.signature.Unsigned? { return false; }
    ok := ValidateKeyPolicyShape(d.keyPolicy);
    if !ok { return false; }
    ok := ValidateCatalogContents(d.discovery, d.nodes);
  }

  /** However ties are broken, a document built from sorted copies is valid exactly when the
      canonical one is, and then it is the canonical one. */
  lemma {:induction false} BuiltDocumentIsCanonical(
    catalog: Catalog, version: U64, policy: KeyPolicy, root: RootBytes, now: Time, ttl: int, built: Document)
    requires ValidateKeyPolicy(policy, root).Ok?
    requires multiset(built.keyPolicy.keys) == multiset(policy.keys) && SortedBy(built.keyPolicy.keys, GrantKey)
    requires multiset(built.discovery) == multiset(catalog.discovery) && SortedBy(built.discovery, SourceKey)
    requires multiset(Map(built.nodes, ContentsOf)) == multiset(Map(catalog.nodes, ContentsOf))
    requires SortedBy(built.nodes, NodeKey) && forall n | n in built.nodes :: SortedBy(n.endpoints, EndpointKey)
    requires var d := DocumentFor(catalog, version, policy, now, ttl);
             built == d.(keyPolicy := policy.(keys := built.keyPolicy.keys),
                         discovery := built.discovery, nodes := built.nodes)
    ensures ValidDocument(built) <==> ValidDocument(DocumentFor(catalog, version, policy, now, ttl))
    ensures ValidDocument(built) ==> built == DocumentFor(catalog, version, policy, now, ttl)
  {
    hide GrantChain, ValidContents, SortedBy;
    SortedGrantsAreCanonical(policy, built.keyPolicy.keys);
    SortedCopiesAreCanonical(catalog, built.discovery, built.nodes);
  }

  /** The document of `Issue`, from three sorts. */
  method BuildDocument(catalog: Catalog, version: U64, policy: KeyPolicy, ghost root: RootBytes, now: Time, ttl: int)
    returns (document: Document)
    requires ValidateKeyPolicy(policy, root).Ok?
    ensures ValidDocument(document) <==> ValidDocument(DocumentFor(catalog, version, policy, now, ttl))
    ensures ValidDocument(document) ==> document == DocumentFor(catalog, version, policy, now, ttl)
  {
    hide ValidDocument, ValidateKeyPolicy, SortedBy;
    var grants := SortSlice(policy.keys, GrantKey);
    var discovery := SortSlice(catalog.discovery, SourceKey);
    var nodes := SortNodes(catalog.nodes);
    var issuedAt := TruncateToSecond(now);
    document := Document(SCHEMA_VERSION, version, catalog.revision, issuedAt, issuedAt + ttl,
                         policy.(keys := grants), discovery, nodes);
    BuiltDocumentIsCanonical(catalog, version, policy, root, now, ttl, document);
  }

  lemma {:induction false} IssuedIsAcceptedAtOnce(
    catalog: Catalog, version: U64, policy: KeyPolicy, root: RootBytes,
    now: Time, ttl: int, key: PrivateKey, size: Pos)
    requires Issue(catalog, version, policy, root, now, ttl, key, size).Ok?
    ensures Verify(Issue(catalog, version, policy, root, now, ttl, key, size).value, root,
                   TruncateToSecond(now), EMPTY_STATE).document.Ok?
  {
    hide Verify, ValidDocument, ValidateKeyPolicy, GrantIn;
    RoundTrip(catalog, version, policy, root, now, ttl, key, size, TruncateToSecond(now));
  }

  /** `Issue` as it runs. What it signs is accepted by a new client at once. */
  method IssueManifest(catalog: Catalog, version: U64, policy: KeyPolicy, root: RootBytes,
                       now: Time, ttl: int, key: PrivateKey, size: Pos)
    returns (r: Result<Envelope>)
    ensures r == Issue(catalog, version, policy, root, now, ttl, key, size)
    ensures r.Ok? ==> Verify(r.value, root, TruncateToSecond(now), EMPTY_STATE).document.Ok?
  {
    hide ValidDocument, ValidateKeyPolicy, GrantIn, Verify, DocumentFor;
    if !ValidPrivateKey(key) { return Err("invalid Ed25519 private key"); }
    if version == 0 { return Err("issued version must be greater than zero"); }
    if ttl < MINUTE || ttl > MAX_MANIFEST_LIFE { return Err("ttl must be between 1m and 1h"); }
    var policyDigest := CheckKeyPolicy(policy, root);
    if policyDigest.Err? { return Err("invalid key policy"); }
    var grant := LookupGrant(policy, KeyID(key.public), version);
    if grant.Err? { return Err("signing key is not authorized"); }
    var document := BuildDocument(catalog, version, policy, root, now, ttl);
    var ok := ValidateDocument(document);
    if !ok { return Err("invalid document"); }
    if !EncodableTime(document.issuedAt) || !EncodableTime(document.expiresAt) { return Err("encode payload"); }
    if size > MAX_MANIFEST_BYTES { return Err("encoded payload exceeds 1 MiB"); }
    var payload := JsonOf(document, size, 0);
    r := Ok(Envelope(ALGORITHM, KeyID(key.public), PayloadText(payload, 0, 0),
                     OnlineSignature(key.derived, payload, 0)));
    IssuedIsAcceptedAtOnce(catalog, version, policy, root, now, ttl, key, size);
  }

  // ----- a client over a whole run

  datatype Delivery = Delivery(envelope: Envelope, now: Time)

  /** The client's state after it was offered `ds` in order. */
  function RunClient(root: RootBytes, start: TrustedState, ds: seq<Delivery>): TrustedState {
    if ds == [] then start
    else
      var last := ds[|ds|-1];
      Verify(last.envelope, root, last.now, RunClient(root, start, ds[..|ds|-1])).trusted
  }

  /** What the client answers to delivery `i`. */
  function Answer(root: RootBytes, start: TrustedState, ds: seq<Delivery>, i: nat): Verdict
    requires i < |ds|
  {
    Verify(ds[i].envelope, root, ds[i].now, RunClient(root, start, ds[..i]))
  }

  /** Nothing the client remembers goes back, and an unchanged version is an unchanged state. */
  predicate NoRegress(s: TrustedState, t: TrustedState) {
    && s.version <= t.version
    && s.policyVersion <= t.policyVersion
    && s.signingKeyEpoch <= t.signingKeyEpoch
    && (s.version > 0 ==> s.issuedAt <= t.issuedAt)
    && (s.version == t.version ==> s == t)
    && (s.version > 0 && s.policyVersion == t.policyVersion ==> s.policyDigest == t.policyDigest)
  }

  lemma {:induction false} VerifyNeverRegresses(e: Envelope, root: RootBytes, now: Time, trusted: TrustedState)
    ensures NoRegress(trusted, Verify(e, root, now, trusted).trusted)
  {
  }

  lemma {:induction false} RunStep(root: RootBytes, start: TrustedState, ds: seq<Delivery>, i: nat)
    requires i < |ds|
    ensures RunClient(root, start, ds[..i+1]) == Answer(root, start, ds, i).trusted
  {
    assert ds[..i+1][..i] == ds[..i];
  }

  /** Over any run of arbitrary envelopes, and from any starting state. */
  lemma {:induction false} ClientNeverRegresses(root: RootBytes, start: TrustedState, ds: seq<Delivery>, i: nat, j: nat)
    requires i <= j <= |ds|
    ensures NoRegress(RunClient(root, start, ds[..i]), RunClient(root, start, ds[..j]))
    decreases j
  {
    hide Verify;
    if i < j {
      ClientNeverRegresses(root, start, ds, i, j - 1);
      RunStep(root, start, ds, j - 1);
      VerifyNeverRegresses(ds[j-1].envelope, root, ds[j-1].now, RunClient(root, start, ds[..j-1]));
    }
  }

  lemma {:induction false} CandidateRecordsPayload(e: Envelope, root: RootBytes)
    requires Authenticate(e, root).Ok?
    ensures e.payload.PayloadText? && e.payload.bytes.JsonOf?
    ensures var (d, c) := Authenticate(e, root).value;
            && d == e.payload.bytes.document && c.payloadDigest == DigestOf(e.payload.bytes)
            && 0 < c.version == d.version && c.issuedAt == d.issuedAt && c.policyVersion == d.keyPolicy.version
            && Ok(c.policyDigest) == ValidateKeyPolicy(d.keyPolicy, root)
  {
  }

  /** Accepting a document leaves its version and payload digest in the state. */
  lemma {:induction false} AcceptedIsRemembered(e: Envelope, root: RootBytes, now: Time, trusted: TrustedState)
    requires Verify(e, root, now, trusted).document.Ok?
    ensures var v := Verify(e, root, now, trusted);
            && e.payload.PayloadText? && e.payload.bytes.JsonOf?
            && v.document.value == e.payload.bytes.document
            && v.trusted.version == v.document.value.version
            && v.trusted.payloadDigest == DigestOf(e.payload.bytes)
            && v.trusted.issuedAt == v.document.value.issuedAt
            && trusted.version <= v.trusted.version
  {
    hide Authenticate;
    if Authenticate(e, root).Ok? { CandidateRecordsPayload(e, root); }
  }

  /** Two accepted documents with one version are the same bytes, however far apart in the
      run they were accepted. */
  lemma {:induction false} ClientAcceptsOnePayloadPerVersion(
    root: RootBytes, start: TrustedState, ds: seq<Delivery>, i: nat, j: nat)
    requires i < j < |ds|
    requires Answer(root, start, ds, i).document.Ok? && Answer(root, start, ds, j).document.Ok?
    ensures Answer(root, start, ds, i).document.value.version <= Answer(root, start, ds, j).document.value.version
    ensures Answer(root, start, ds, i).document.value.version == Answer(root, start, ds, j).document.value.version ==>
              ds[i].envelope.payload.PayloadText? && ds[j].envelope.payload.PayloadText?
              && ds[i].envelope.payload.bytes == ds[j].envelope.payload.bytes
  {
    hide Verify;
    AcceptedIsRemembered(ds[i].envelope, root, ds[i].now, RunClient(root, start, ds[..i]));
    AcceptedIsRemembered(ds[j].envelope, root, ds[j].now, RunClient(root, start, ds[..j]));
    RunStep(root, start, ds, i);
    RunStep(root, start, ds, j);
    ClientNeverRegresses(root, start, ds, i + 1, j + 1);
  }

  /** A state that passes the checks a transition makes of the state it starts from. */
  predicate SelfConsistent(s: TrustedState) {
    s == EMPTY_STATE
    || (&& s.version > 0 && Complete(s)
        && ValidDigest(s.payloadDigest) && ValidDigest(s.policyDigest) && |s.signingKeyId| == KEY_ID_LEN)
  }

  lemma {:induction false} CandidateIsSelfConsistent(e: Envelope, root: RootBytes)
    requires Authenticate(e, root).Ok?
    ensures SelfConsistent(Authenticate(e, root).value.1)
    ensures Authenticate(e, root).value.1.version > 0
  {
    var document := e.payload.bytes.document;
    IssuedPolicyAuthorises(document.keyPolicy, root, e.keyId, document.version);
  }

  /** A client never locks itself out with state it wrote: whatever it was offered, its
      state passes every check on stored state. */
  lemma {:induction false} ReachableStatesAreSelfConsistent(root: RootBytes, ds: seq<Delivery>)
    ensures SelfConsistent(RunClient(root, EMPTY_STATE, ds))
  {
    if ds != [] {
      ReachableStatesAreSelfConsistent(root, ds[..|ds|-1]);
      var e := ds[|ds|-1].envelope;
      if Authenticate(e, root).Ok? { CandidateIsSelfConsistent(e, root); }
    }
  }

  /** The genuine reasons to refuse a successor of `s`. */
  predicate Supersedes(s: TrustedState, c: TrustedState) {
    && s.policyVersion <= c.policyVersion
    && (s.policyVersion == c.policyVersion ==> s.policyDigest == c.policyDigest)
    && s.version < c.version
    && s.issuedAt <= c.issuedAt
    && s.signingKeyEpoch <= c.signingKeyEpoch
    && (s.signingKeyId == c.signingKeyId <==> s.signingKeyEpoch == c.signingKeyEpoch)
  }

  /** The bytes of a payload determine everything a client learns from an envelope. */
  lemma {:induction false} PayloadDeterminesCandidate(e: Envelope, f: Envelope, root: RootBytes)
    requires Authenticate(e, root).Ok? && Authenticate(f, root).Ok?
    requires e.payload.bytes == f.payload.bytes
    ensures Authenticate(e, root) == Authenticate(f, root)
    ensures e.signature.signer == f.signature.signer && e.signature.payload == f.signature.payload
  {
    var d := e.payload.bytes.document;
    PolicyPartitionsVersions(d.keyPolicy, e.keyId, d.version);
    PolicyPartitionsVersions(d.keyPolicy, f.keyId, d.version);
  }

  /** Every state is empty or was read off a delivered envelope. */
  lemma {:induction false} StateWasDelivered(root: RootBytes, ds: seq<Delivery>) returns (i: nat)
    ensures RunClient(root, EMPTY_STATE, ds) != EMPTY_STATE ==>
              && i < |ds| && Authenticate(ds[i].envelope, root).Ok?
              && RunClient(root, EMPTY_STATE, ds) == Authenticate(ds[i].envelope, root).value.1
  {
    i := 0;
    if ds != [] {
      i := StateWasDelivered(root, ds[..|ds|-1]);
      if RunClient(root, EMPTY_STATE, ds) != RunClient(root, EMPTY_STATE, ds[..|ds|-1]) {
        i := |ds| - 1;
      }
    }
  }

  lemma {:induction false} TransitionDecision(s: TrustedState, c: TrustedState)
    requires SelfConsistent(s) && c.version > 0
    requires s.version > 0 && s.payloadDigest == c.payloadDigest ==> s == c
    ensures ValidateStateTransition(s, c).Ok? <==> s == EMPTY_STATE || s == c || Supersedes(s, c)
  {
  }

  lemma {:induction false} SameBytesSameState(root: RootBytes, ds: seq<Delivery>, e: Envelope)
    requires Authenticate(e, root).Ok?
    ensures var s := RunClient(root, EMPTY_STATE, ds);
            var c := Authenticate(e, root).value.1;
            s.version > 0 && s.payloadDigest == c.payloadDigest ==> s == c
  {
    hide Authenticate;
    var i := StateWasDelivered(root, ds);
    if RunClient(root, EMPTY_STATE, ds) != EMPTY_STATE {
      var f := ds[i].envelope;
      CandidateRecordsPayload(e, root);
      CandidateRecordsPayload(f, root);
      if f.payload.bytes == e.payload.bytes { PayloadDeterminesCandidate(f, e, root); }
    }
  }

  lemma {:induction false} VerifyDecision(e: Envelope, root: RootBytes, now: Time, s: TrustedState)
    requires Authenticate(e, root).Ok? && InWindow(Authenticate(e, root).value.0, now)
    ensures Verify(e, root, now, s).document.Ok? <==> ValidateStateTransition(s, Authenticate(e, root).value.1).Ok?
    ensures Verify(e, root, now, s).document.Ok? ==>
              Verify(e, root, now, s).trusted
              == if s.version == Authenticate(e, root).value.1.version then s else Authenticate(e, root).value.1
  {
  }

  /** For a state the client wrote itself, nothing but the relation between old and new
      decides: the same document again, or a genuine successor. */
  lemma {:induction false} OnlyGenuineReasonsRefuse(root: RootBytes, ds: seq<Delivery>, e: Envelope, now: Time)
    requires Authenticate(e, root).Ok? && InWindow(Authenticate(e, root).value.0, now)
    ensures var s := RunClient(root, EMPTY_STATE, ds);
            var c := Authenticate(e, root).value.1;
            Verify(e, root, now, s).document.Ok? <==> s == EMPTY_STATE || s == c || Supersedes(s, c)
  {
    ReachableStatesAreSelfConsistent(root, ds);
    CandidateIsSelfConsistent(e, root);
    SameBytesSameState(root, ds, e);
    TransitionDecision(RunClient(root, EMPTY_STATE, ds), Authenticate(e, root).value.1);
    VerifyDecision(e, root, now, RunClient(root, EMPTY_STATE, ds));
  }

  // ----- what is issued and what is accepted, on the fields themselves

  /** `Issue` succeeds if and only if the key is sound and granted the version by a policy the
      root signed, the lifetime is one minute to one hour, the catalog has a revision and is
      valid, issue and expiry lie in the years 0000 to 9999 and are not Go's zero time, and the
      encoding is at most one mebibyte. */
  lemma {:induction false} IssueMeaning(catalog: Catalog, version: U64, policy: KeyPolicy, root: RootBytes,
                                        now: Time, ttl: int, key: PrivateKey, size: Pos)
    ensures var t := TruncateToSecond(now);
            Issue(catalog, version, policy, root, now, ttl, key, size).Ok? <==>
            && key.wellSized && key.derived == key.public
            && version > 0 && 60_000_000_000 <= ttl <= 3_600_000_000_000
            && ValidateKeyPolicy(policy, root).Ok?
            && (exists i | 0 <= i < |policy.keys| :: Authorises(policy.keys, i, key.public.id, version))
            && catalog.revision > 0 && ValidContents(catalog.discovery, catalog.nodes)
            && t != 0 && t + ttl != 0
            && -31_622_400_000_000_000 <= t && t + ttl < 315_537_897_600_000_000_000
            && size <= 1_048_576
  {
    hide ValidContents, GrantIn, GrantChain, Authorises;
    GrantMeaning(policy.keys, key.public.id, version);
    CanonicalValidity(catalog);
    CanonicalGrantsKeepChain(policy.keys);
  }

  /** An envelope that speaks for the root: algorithm and sizes as agreed, a document of schema
      3 with all its parts, a policy that the root signed, and a signature over exactly these
      bytes by the key to which the policy grants the version under this identifier. */
  predicate Genuine(e: Envelope, root: RootBytes) {
    && root.RootKey? && e.algorithm == "Ed25519" && e.keyId != ""
    && e.payload.PayloadText? && e.payload.bytes.JsonOf?
    && 1 <= e.payload.bytes.size <= 1_048_576
    && EncodedLen(e.payload.bytes.size) + e.payload.lineBreaks <= 1_398_102
    && var d := e.payload.bytes.document;
    && d.schemaVersion == 3 && d.version > 0 && d.catalogRevision > 0
    && d.issuedAt != 0 && d.expiresAt != 0
    && d.issuedAt < d.expiresAt <= d.issuedAt + 3_600_000_000_000
    && ValidContents(d.discovery, d.nodes)
    && ValidateKeyPolicy(d.keyPolicy, root).Ok?
    && exists i | 0 <= i < |d.keyPolicy.keys| :: SignedUnder(e, d, i)
  }

  /** Grant `i` authorises the version, and its key signed the payload. */
  predicate SignedUnder(e: Envelope, d: Document, i: nat)
    requires i < |d.keyPolicy.keys| && e.payload.PayloadText?
  {
    && Authorises(d.keyPolicy.keys, i, e.keyId, d.version)
    && e.signature.OnlineSignature?
    && e.signature.signer == d.keyPolicy.keys[i].publicKey.key && e.signature.payload == e.payload.bytes
  }

  /** What a client will remember of a genuine envelope. */
  predicate Remembers(e: Envelope, root: RootBytes, i: nat, c: TrustedState)
    requires Genuine(e, root) && i < |e.payload.bytes.document.keyPolicy.keys|
  {
    var d := e.payload.bytes.document;
    && c.version == d.version && c.issuedAt == d.issuedAt && c.payloadDigest == DigestOf(e.payload.bytes)
    && c.policyVersion == d.keyPolicy.version && Ok(c.policyDigest) == ValidateKeyPolicy(d.keyPolicy, root)
    && c.signingKeyId == d.keyPolicy.keys[i].keyId && c.signingKeyEpoch == d.keyPolicy.keys[i].epoch
  }

  lemma {:induction false} GenuineMeaning(e: Envelope, root: RootBytes)
    ensures Authenticate(e, root).Ok? <==> Genuine(e, root)
    ensures Authenticate(e, root).Ok? ==>
              && Authenticate(e, root).value.0 == e.payload.bytes.document
              && exists i | 0 <= i < |e.payload.bytes.document.keyPolicy.keys| ::
                   SignedUnder(e, e.payload.bytes.document, i) && Remembers(e, root, i, Authenticate(e, root).value.1)
  {
    hide ValidContents, GrantIn, GrantChain;
    assert EncodedLen(MAX_MANIFEST_BYTES) == 1_398_102 && SIGNATURE_LEN == 86;
    if e.payload.PayloadText? && e.payload.bytes.JsonOf? {
      var d := e.payload.bytes.document;
      GrantMeaning(d.keyPolicy.keys, e.keyId, d.version);
      if e.payload.bytes.size > 0 { EncodedLenMonotone(1, e.payload.bytes.size); }
      OneGrant(d.keyPolicy.keys, e.keyId, d.version);
      if Authenticate(e, root).Ok? {
        var i :| 0 <= i < |d.keyPolicy.keys| && Authorises(d.keyPolicy.keys, i, e.keyId, d.version)
                 && GrantIn(d.keyPolicy.keys, e.keyId, d.version).value == d.keyPolicy.keys[i];
        assert SignedUnder(e, d, i);
      }
      if Genuine(e, root) {
        var i :| 0 <= i < |d.keyPolicy.keys| && SignedUnder(e, d, i);
        assert Authorises(d.keyPolicy.keys, i, e.keyId, d.version);
        assert GrantIn(d.keyPolicy.keys, e.keyId, d.version) == Ok(d.keyPolicy.keys[i]);
        assert ValidDocument(d);
      }
    }
  }

  lemma {:induction false} OneGrant(grants: seq<KeyGrant>, keyId: string, version: U64)
    ensures forall i, j | 0 <= i < |grants| && 0 <= j < |grants|
                          && Authorises(grants, i, keyId, version) && Authorises(grants, j, keyId, version) :: i == j
  {
  }

  predicate DecodableDigest<T>(d: Digest<T>) {
    d.DigestOf? || (d.OtherText? && d.decodes)
  }

  /** A client in state `s` may go on to `c`: from nothing at all, or from a complete state to
      the same payload or to a successor. */
  predicate MayFollow(s: TrustedState, c: TrustedState) {
    || s == TrustedState(0, 0, NoDigest, 0, NoDigest, "", 0)
    || (&& s.version > 0 && s.issuedAt != 0 && s.policyVersion > 0 && s.signingKeyEpoch > 0
        && DecodableDigest(s.payloadDigest) && DecodableDigest(s.policyDigest) && |s.signingKeyId| == 43
        && s.policyVersion <= c.policyVersion
        && (s.policyVersion == c.policyVersion ==> s.policyDigest == c.policyDigest)
        && (|| (s.version == c.version && s.payloadDigest == c.payloadDigest && s.issuedAt == c.issuedAt)
            || (&& s.version < c.version && s.issuedAt <= c.issuedAt
                && (if s.signingKeyId == c.signingKeyId then s.signingKeyEpoch == c.signingKeyEpoch
                    else s.signingKeyEpoch < c.signingKeyEpoch))))
  }

  lemma {:induction false} TransitionMeaning(s: TrustedState, c: TrustedState)
    requires c.version > 0
    ensures ValidateStateTransition(s, c).Ok? <==> MayFollow(s, c)
  {
    assert KEY_ID_LEN == 43;
  }

  /** For every client state, its own or not, and every envelope and clock: `Verify` accepts if
      and only if the envelope is genuine, the clock lies from two minutes before its issue to
      just before its expiry, and the client may go on from its state to what the envelope
      says, which is then what it holds. */
  lemma {:induction false} AcceptanceMeaning(e: Envelope, root: RootBytes, now: Time, s: TrustedState)
    ensures Verify(e, root, now, s).document.Ok? <==>
            && Genuine(e, root)
            && var d := e.payload.bytes.document;
            && d.issuedAt - 120_000_000_000 <= now < d.expiresAt
            && exists i, c | 0 <= i < |d.keyPolicy.keys| ::
                 SignedUnder(e, d, i) && Remembers(e, root, i, c) && MayFollow(s, c)
    ensures Verify(e, root, now, s).document.Ok? ==>
              && Verify(e, root, now, s).document.value == e.payload.bytes.document
              && exists i | 0 <= i < |e.payload.bytes.document.keyPolicy.keys| ::
                   && SignedUnder(e, e.payload.bytes.document, i)
                   && (Verify(e, root, now, s).trusted != s ==> Remembers(e, root, i, Verify(e, root, now, s).trusted))
  {
    hide Authenticate, ValidContents, ValidateKeyPolicy, ValidateStateTransition, MayFollow, Authorises;
    GenuineMeaning(e, root);
    if Genuine(e, root) {
      var d, c := e.payload.bytes.document, Authenticate(e, root).value.1;
      CandidateRecordsPayload(e, root);
      TransitionMeaning(s, c);
      OneGrant(d.keyPolicy.keys, e.keyId, d.version);
      forall i, c' | 0 <= i < |d.keyPolicy.keys| && SignedUnder(e, d, i) && Remembers(e, root, i, c') ensures c' == c {}
    }
  }

  /** The rules of a document. */
  lemma {:induction false} DocumentMeaning(d: Document)
    ensures ValidDocument(d) <==>
            && d.schemaVersion == 3 && d.version > 0 && d.catalogRevision > 0
            && d.issuedAt != 0 && d.expiresAt != 0
            && d.issuedAt < d.expiresAt <= d.issuedAt + 3_600_000_000_000
            && d.keyPolicy.signature != Unsigned && ShapeOk(d.keyPolicy)
            && ValidContents(d.discovery, d.nodes)
  {
    hide ShapeOk, ValidContents;
  }

  /** The size of a response that is read at all. */
  lemma {:induction false} DecodableMeaning(n: nat)
    ensures DecodableLen(n) <==> 0 < n <= 1_399_126
  {
    assert EncodedLen(MAX_MANIFEST_BYTES) == 1_398_102;
  }
}
