/**
 Encryption and request digests for steering and follow-up commands (`AgentControlKeyring`).
 SHA-256, HKDF, HMAC and AES-GCM are library functions and appear as parameters; where a result
 needs something of them, it is a hypothesis of that lemma or an explicit counterexample it returns.
 */
module ControlCrypto {

  import opened Common
  import opened Json
  import Utf8

  type Bytes = Utf8.Bytes

  datatype Crypto = Crypto(
    sha256: Bytes -> Bytes,
    hkdf: (Bytes, Bytes, Bytes) -> Bytes,
    hmac: (Bytes, Bytes) -> string,
    seal: (Bytes, Bytes, Bytes, Bytes) -> Bytes,
    unseal: (Bytes, Bytes, Bytes, Bytes) -> Option<Bytes>)

  /** What AES-GCM (section 7 of NIST SP 800-38D) promises to an honest reader. */
  ghost predicate Unseals(C: Crypto) {
    forall key: Bytes, nonce: Bytes, plaintext: Bytes, aad: Bytes ::
      C.unseal(key, nonce, C.seal(key, nonce, plaintext, aad), aad) == Some(plaintext)
  }

  datatype ControlError =
    | KeyMaterialInvalid
    | ContentBounds
    | TenantRequired
    | KeyUnavailable
    | AuthenticationFailed
    | FingerprintInvalid
    | NotUtf8

  // ----- keyrings -----

  datatype Ring = Ring(keyId: string, keys: map<string, Bytes>)

  predicate IsRing(r: Ring) {
    r.keyId != "" && r.keyId in r.keys && forall id <- r.keys :: |r.keys[id]| == 32
  }

  /**
   The constructor, with its two ways of naming the active key and of passing key material. It
   succeeds exactly when the decryption keys make a ring with the active key, or, without any,
   when there is an active id and a 32-byte master key.
   */
  function NewRing(masterKey: Bytes, keyId: string, activeKeyId: string, decryptionKeys: map<string, Bytes>)
    : (r: Result<Ring, ControlError>)
    ensures r.Ok? <==> if decryptionKeys != map[] then IsRing(Ring(ActiveId(keyId, activeKeyId), decryptionKeys))
                       else ActiveId(keyId, activeKeyId) != "" && |masterKey| == 32
    ensures r.Ok? ==> IsRing(r.value) && r.value.keyId == ActiveId(keyId, activeKeyId)
    ensures r.Ok? ==> r.value.keys == if decryptionKeys != map[] then decryptionKeys else map[r.value.keyId := masterKey]
  {
    var active := ActiveId(keyId, activeKeyId);
    var keys := if decryptionKeys != map[] then decryptionKeys
                else if active != "" && masterKey != [] then map[active := masterKey] else map[];
    if active == "" || active !in keys || exists id <- keys :: |keys[id]| != 32 then Err(KeyMaterialInvalid)
    else Ok(Ring(active, keys))
  }

  function ActiveId(keyId: string, activeKeyId: string): string {
    if activeKeyId != "" then activeKeyId else keyId
  }

  /** Every key of the earlier ring is still there, with the same material. */
  ghost predicate Retains(later: Ring, earlier: Ring) {
    forall id <- earlier.keys :: id in later.keys && later.keys[id] == earlier.keys[id]
  }

  ghost predicate IsRotation(rings: seq<Ring>) {
    (forall i | 0 <= i < |rings| :: IsRing(rings[i])) && forall i | 0 < i < |rings| :: Retains(rings[i], rings[i - 1])
  }

  /** Whatever the active key does in between, a rotation that never drops a key retains them all. */
  lemma {:induction false} RotationRetains(rings: seq<Ring>, i: nat, j: nat)
    requires IsRotation(rings) && i <= j < |rings|
    ensures Retains(rings[j], rings[i])
    decreases j - i
  {
    if i < j {
      RotationRetains(rings, i, j - 1);
      assert Retains(rings[j], rings[j - 1]);
    }
  }

  // ----- derived keys -----

  function SaltText(keyId: string): string {
    "coifesp-agent-control:" + keyId
  }

  const INFO_PREFIX := "tenant:"

  const INFO_SUFFIX := ":agent-control:v1"

  function InfoText(tenantId: string): string {
    INFO_PREFIX + tenantId + INFO_SUFFIX
  }

  /** Different key ids have different salts, before hashing. */
  lemma SaltInjective(s: string, t: string)
    ensures Utf8.Encode(SaltText(s)) == Utf8.Encode(SaltText(t)) <==> s == t
  {
    Utf8.EncodeInjective(SaltText(s), SaltText(t));
    var n := |"coifesp-agent-control:"|;
    assert SaltText(s)[n..] == s && SaltText(t)[n..] == t;
  }

  lemma InfoInjective(s: string, t: string)
    ensures Utf8.Encode(InfoText(s)) == Utf8.Encode(InfoText(t)) <==> s == t
  {
    Utf8.EncodeInjective(InfoText(s), InfoText(t));
    var a, b := |INFO_PREFIX|, |INFO_SUFFIX|;
    assert InfoText(s)[a..|InfoText(s)| - b] == s && InfoText(t)[a..|InfoText(t)| - b] == t;
  }

  function Derive(C: Crypto, ring: Ring, tenantId: string, keyId: string): Bytes
    requires keyId in ring.keys
  {
    C.hkdf(ring.keys[keyId], C.sha256(Utf8.Encode(SaltText(keyId))), Utf8.Encode(InfoText(tenantId)))
  }

  // ----- content -----

  /** Where a command belongs. */
  datatype Address = Address(tenantId: string, runId: string, sequence: int, commandId: string, commandType: string)

  function AadJson(a: Address, keyId: string): Json {
    Obj(map["schema" := Str("coifesp.agent-control.ciphertext.v1"),
            "tenant_id" := Str(a.tenantId),
            "run_id" := Str(a.runId),
            "sequence" := Int(a.sequence),
            "command_id" := Str(a.commandId),
            "command_type" := Str(a.commandType),
            "key_id" := Str(keyId)])
  }

  function Aad(a: Address, keyId: string): Bytes {
    Utf8.Encode(Dumps(AadJson(a, keyId), true))
  }

  lemma AadJsonInjective(a: Address, k: string, b: Address, l: string)
    requires AadJson(a, k) == AadJson(b, l)
    ensures a == b && k == l
  {
    AadFields(a, k);
    AadFields(b, l);
  }

  /** Whoever reads the associated data finds each of the six fields under its own name. */
  lemma AadReads(a: Address, keyId: string)
    ensures var t := Dumps(AadJson(a, keyId), true);
            Aad(a, keyId) == Utf8.Encode(t) && IsAscii(t)
            && Field(t, "schema") == Some(Str("coifesp.agent-control.ciphertext.v1"))
            && Field(t, "tenant_id") == Some(Str(a.tenantId)) && Field(t, "run_id") == Some(Str(a.runId))
            && Field(t, "sequence") == Some(Int(a.sequence)) && Field(t, "command_id") == Some(Str(a.commandId))
            && Field(t, "command_type") == Some(Str(a.commandType)) && Field(t, "key_id") == Some(Str(keyId))
  {
    ParseInverts(AadJson(a, keyId), true);
    AsciiFlag(AadJson(a, keyId), "");
    AadFields(a, keyId);
  }

  lemma AadFields(a: Address, keyId: string)
    ensures var m := AadJson(a, keyId).fields;
            m.Keys == {"schema", "tenant_id", "run_id", "sequence", "command_id", "command_type", "key_id"}
            && m["schema"] == Str("coifesp.agent-control.ciphertext.v1")
            && m["tenant_id"] == Str(a.tenantId) && m["run_id"] == Str(a.runId) && m["sequence"] == Int(a.sequence)
            && m["command_id"] == Str(a.commandId) && m["command_type"] == Str(a.commandType) && m["key_id"] == Str(keyId)
  {
  }

  /** The associated data identifies all six fields. */
  lemma AadInjective(a: Address, k: string, b: Address, l: string)
    ensures Aad(a, k) == Aad(b, l) <==> a == b && k == l
  {
    Utf8.EncodeInjective(Dumps(AadJson(a, k), true), Dumps(AadJson(b, l), true));
    DumpsInjective(AadJson(a, k), AadJson(b, l), true);
    if AadJson(a, k) == AadJson(b, l) {
      AadJsonInjective(a, k, b, l);
    }
  }

  datatype Sealed = Sealed(ciphertext: Bytes, nonce: Bytes, fingerprint: string, keyId: string)

  const MAX_CONTENT_BYTES := 65536

  /** `encrypt`, with the random nonce as an input. */
  function Encrypt(C: Crypto, ring: Ring, a: Address, content: string, nonce: Bytes): Result<Sealed, ControlError>
    requires IsRing(ring)
  {
    var plaintext := Utf8.Encode(content);
    if plaintext == [] || |plaintext| > MAX_CONTENT_BYTES then Err(ContentBounds)
    else if a.tenantId == "" then Err(TenantRequired)
    else
      var key := Derive(C, ring, a.tenantId, ring.keyId);
      Ok(Sealed(C.seal(key, nonce, plaintext, Aad(a, ring.keyId)), nonce, C.hmac(key, plaintext), ring.keyId))
  }

  function Decrypt(C: Crypto, ring: Ring, a: Address, s: Sealed): Result<string, ControlError> {
    if s.keyId !in ring.keys then Err(KeyUnavailable)
    else if a.tenantId == "" then Err(TenantRequired)
    else
      var key := Derive(C, ring, a.tenantId, s.keyId);
      match C.unseal(key, s.nonce, s.ciphertext, Aad(a, s.keyId))
      case None => Err(AuthenticationFailed)
      case Some(plaintext) =>
        if C.hmac(key, plaintext) != s.fingerprint then Err(FingerprintInvalid)
        else match Utf8.Decode(plaintext)
          case None => Err(NotUtf8)
          case Some(content) =>
            if content == "" || |plaintext| > MAX_CONTENT_BYTES then Err(ContentBounds) else Ok(content)
  }

  /** Content stays readable under every later ring of a rotation. */
  lemma RoundTrip(C: Crypto, rings: seq<Ring>, i: nat, j: nat, a: Address, content: string, nonce: Bytes)
    requires Unseals(C) && IsRotation(rings) && i <= j < |rings|
    requires Encrypt(C, rings[i], a, content, nonce).Ok?
    ensures Decrypt(C, rings[j], a, Encrypt(C, rings[i], a, content, nonce).value) == Ok(content)
  {
    RotationRetains(rings, i, j);
    Utf8.DecodeInverts(content);
    Readable(C, rings[i], rings[j], a, content, nonce);
  }

  lemma Readable(C: Crypto, ring: Ring, later: Ring, a: Address, content: string, nonce: Bytes)
    requires Unseals(C) && IsRing(ring) && Retains(later, ring)
    requires Encrypt(C, ring, a, content, nonce).Ok? && Utf8.Decode(Utf8.Encode(content)) == Some(content)
    ensures Decrypt(C, later, a, Encrypt(C, ring, a, content, nonce).value) == Ok(content)
  {
  }

  /** Encryption succeeds exactly for 1 to 65536 bytes of content and a named tenant. */
  lemma EncryptAccepts(C: Crypto, ring: Ring, a: Address, content: string, nonce: Bytes)
    requires IsRing(ring)
    ensures Encrypt(C, ring, a, content, nonce).Ok? <==> content != "" && |Utf8.Encode(content)| <= 65536 && a.tenantId != ""
    ensures content == "" || |Utf8.Encode(content)| > 65536 ==> Encrypt(C, ring, a, content, nonce) == Err(ContentBounds)
    ensures Encrypt(C, ring, a, content, nonce).Ok? ==>
              var s := Encrypt(C, ring, a, content, nonce).value; s.nonce == nonce && s.keyId == ring.keyId
  {
    Utf8.DecodeInverts(content);
    Utf8.DecodeInverts("");
  }

  /**
   Decryption returns a content exactly when the key is there, the tenant is named, the cipher
   opens the ciphertext at this place to the bytes of the content, the fingerprint is theirs and
   the content has 1 to 65536 bytes.
   */
  lemma DecryptAccepts(C: Crypto, ring: Ring, a: Address, s: Sealed, content: string)
    ensures Decrypt(C, ring, a, s) == Ok(content) <==>
            s.keyId in ring.keys && a.tenantId != "" && content != "" && |Utf8.Encode(content)| <= 65536
            && C.unseal(Derive(C, ring, a.tenantId, s.keyId), s.nonce, s.ciphertext, Aad(a, s.keyId)) == Some(Utf8.Encode(content))
            && s.fingerprint == C.hmac(Derive(C, ring, a.tenantId, s.keyId), Utf8.Encode(content))
  {
    Utf8.DecodeInverts(content);
    if Decrypt(C, ring, a, s) == Ok(content) {
      Utf8.DecodeStrict(C.unseal(Derive(C, ring, a.tenantId, s.keyId), s.nonce, s.ciphertext, Aad(a, s.keyId)).value);
    }
  }

  /** What is decrypted carries the fingerprint that encryption gives this content, for this tenant and key. */
  lemma DecryptedIsAsSealed(C: Crypto, ring: Ring, a: Address, s: Sealed, content: string)
    requires IsRing(ring) && s.keyId != "" && Decrypt(C, ring, a, s) == Ok(content)
    ensures IsRing(ring.(keyId := s.keyId))
    ensures var again := Encrypt(C, ring.(keyId := s.keyId), a, content, s.nonce);
            again.Ok? && again.value.fingerprint == s.fingerprint && again.value.keyId == s.keyId
  {
    DecryptAccepts(C, ring, a, s, content);
    EncryptAccepts(C, ring.(keyId := s.keyId), a, content, s.nonce);
  }

  /** With any other fingerprint a sealed command is refused for it, under every ring that retains the key. */
  lemma AlteredFingerprint(C: Crypto, ring: Ring, later: Ring, a: Address, content: string, nonce: Bytes, other: string)
    requires Unseals(C) && IsRing(ring) && Retains(later, ring) && Encrypt(C, ring, a, content, nonce).Ok?
    requires other != Encrypt(C, ring, a, content, nonce).value.fingerprint
    ensures Decrypt(C, later, a, Encrypt(C, ring, a, content, nonce).value.(fingerprint := other)) == Err(FingerprintInvalid)
  {
  }

  /** Ciphertext sealed with one piece of associated data and accepted with another. */
  ghost predicate IsForgery(C: Crypto, key: Bytes, nonce: Bytes, plaintext: Bytes, aad: Bytes, key': Bytes, nonce': Bytes, aad': Bytes) {
    aad != aad' && C.unseal(key', nonce', C.seal(key, nonce, plaintext, aad), aad').Some?
  }

  /**
   A sealed command opens nowhere else: success with any other tenant, run, sequence, command id,
   command type or key id, under any ring, nonce and fingerprint, is a forgery against the cipher.
   */
  lemma OpensOnlyInPlace(C: Crypto, ring: Ring, ring': Ring, a: Address, b: Address, content: string, nonce: Bytes, s: Sealed)
    requires IsRing(ring) && Encrypt(C, ring, a, content, nonce).Ok?
    requires s.ciphertext == Encrypt(C, ring, a, content, nonce).value.ciphertext
    requires Decrypt(C, ring', b, s).Ok?
    ensures (b == a && s.keyId == ring.keyId)
            || IsForgery(C, Derive(C, ring, a.tenantId, ring.keyId), nonce, Utf8.Encode(content), Aad(a, ring.keyId),
                         Derive(C, ring', b.tenantId, s.keyId), s.nonce, Aad(b, s.keyId))
  {
    AadInjective(a, ring.keyId, b, s.keyId);
  }

  // ----- request digests -----

  datatype Request = Request(tenantId: string, runId: string, commandId: string, commandType: string, content: string)

  function RequestJson(q: Request): Json {
    Obj(map["run_id" := Str(q.runId),
            "command_id" := Str(q.commandId),
            "command_type" := Str(q.commandType),
            "content" := Str(q.content)])
  }

  function RequestText(q: Request): Bytes {
    Utf8.Encode(Dumps(RequestJson(q), false))
  }

  lemma RequestFields(q: Request)
    ensures var m := RequestJson(q).fields;
            m.Keys == {"run_id", "command_id", "command_type", "content"}
            && m["run_id"] == Str(q.runId) && m["command_id"] == Str(q.commandId)
            && m["command_type"] == Str(q.commandType) && m["content"] == Str(q.content)
  {
  }

  /** Whoever reads the digested text finds each field of the request, but its tenant, under its own name. */
  lemma RequestReads(q: Request)
    ensures var t := Dumps(RequestJson(q), false);
            RequestText(q) == Utf8.Encode(t)
            && Field(t, "run_id") == Some(Str(q.runId)) && Field(t, "command_id") == Some(Str(q.commandId))
            && Field(t, "command_type") == Some(Str(q.commandType)) && Field(t, "content") == Some(Str(q.content))
  {
    ParseInverts(RequestJson(q), false);
    RequestFields(q);
  }

  lemma RequestTextInjective(p: Request, q: Request)
    requires RequestText(p) == RequestText(q)
    ensures p == q.(tenantId := p.tenantId)
  {
    Utf8.EncodeInjective(Dumps(RequestJson(p), false), Dumps(RequestJson(q), false));
    DumpsInjective(RequestJson(p), RequestJson(q), false);
    RequestJsonInjective(p, q);
  }

  lemma RequestJsonInjective(p: Request, q: Request)
    requires RequestJson(p) == RequestJson(q)
    ensures p == q.(tenantId := p.tenantId)
  {
    RequestFields(p);
    RequestFields(q);
  }

  function DigestUnder(C: Crypto, ring: Ring, q: Request, keyId: string): string
    requires keyId in ring.keys
  {
    C.hmac(Derive(C, ring, q.tenantId, keyId), RequestText(q))
  }

  function RequestDigest(C: Crypto, ring: Ring, q: Request): Result<string, ControlError>
    requires IsRing(ring)
  {
    if q.tenantId == "" then Err(TenantRequired) else Ok(DigestUnder(C, ring, q, ring.keyId))
  }

  function RequestDigests(C: Crypto, ring: Ring, q: Request): Result<set<string>, ControlError>
    requires IsRing(ring)
  {
    if q.tenantId == "" then Err(TenantRequired) else Ok(set id <- ring.keys :: DigestUnder(C, ring, q, id))
  }

  /** A request stays recognisable: its digest at one time is among its digests at every later time. */
  lemma DigestStays(C: Crypto, rings: seq<Ring>, i: nat, j: nat, q: Request)
    requires IsRotation(rings) && i <= j < |rings| && q.tenantId != ""
    ensures RequestDigest(C, rings[i], q).Ok? && RequestDigests(C, rings[j], q).Ok?
    ensures RequestDigest(C, rings[i], q).value in RequestDigests(C, rings[j], q).value
  {
    RotationRetains(rings, i, j);
    assert DigestUnder(C, rings[j], q, rings[i].keyId) == DigestUnder(C, rings[i], q, rings[i].keyId);
  }

  /** Two different inputs of HMAC or of HKDF with the same output. */
  datatype Clash =
    | HmacClash(key: Bytes, message: Bytes, key': Bytes, message': Bytes)
    | HkdfClash(secret: Bytes, salt: Bytes, info: Bytes, secret': Bytes, salt': Bytes, info': Bytes)

  ghost predicate IsClash(C: Crypto, c: Clash) {
    match c
    case HmacClash(k, m, k', m') => (k, m) != (k', m') && C.hmac(k, m) == C.hmac(k', m')
    case HkdfClash(s, t, i, s', t', i') => (s, t, i) != (s', t', i') && C.hkdf(s, t, i) == C.hkdf(s', t', i')
  }

  /** The inputs from which this key of the ring is derived for the tenant. */
  function HkdfInputs(C: Crypto, ring: Ring, tenantId: string, keyId: string): (Bytes, Bytes, Bytes)
    requires keyId in ring.keys
  {
    (ring.keys[keyId], C.sha256(Utf8.Encode(SaltText(keyId))), Utf8.Encode(InfoText(tenantId)))
  }

  /** The clash is one of the two digests of these requests, or of the two keys they were made with. */
  ghost predicate IsClashOf(C: Crypto, c: Clash, ring: Ring, p: Request, id: string, ring': Ring, q: Request, id': string)
    requires id in ring.keys && id' in ring'.keys
  {
    var s, t := HkdfInputs(C, ring, p.tenantId, id), HkdfInputs(C, ring', q.tenantId, id');
    IsClash(C, c)
    && (c == HmacClash(Derive(C, ring, p.tenantId, id), RequestText(p), Derive(C, ring', q.tenantId, id'), RequestText(q))
        || c == HkdfClash(s.0, s.1, s.2, t.0, t.1, t.2))
  }

  /**
   It is never mistaken for another: a digest shared by different requests is a clash of HMAC on
   their own keys and texts, or of HKDF on the inputs of these keys.
   */
  lemma DigestDistinguishes(C: Crypto, ring: Ring, ring': Ring, p: Request, q: Request) returns (c: Clash)
    requires IsRing(ring) && IsRing(ring') && p.tenantId != "" && q.tenantId != "" && p != q
    requires RequestDigest(C, ring, p).value in RequestDigests(C, ring', q).value
    ensures exists id <- ring'.keys :: IsClashOf(C, c, ring, p, ring.keyId, ring', q, id)
  {
    var id :| id in ring'.keys && DigestUnder(C, ring, p, ring.keyId) == DigestUnder(C, ring', q, id);
    c := DigestClash(C, ring, ring', p, q, id);
  }

  lemma DigestClash(C: Crypto, ring: Ring, ring': Ring, p: Request, q: Request, id: string) returns (c: Clash)
    requires ring.keyId in ring.keys && id in ring'.keys && p != q
    requires DigestUnder(C, ring, p, ring.keyId) == DigestUnder(C, ring', q, id)
    ensures IsClashOf(C, c, ring, p, ring.keyId, ring', q, id)
  {
    var k, k' := Derive(C, ring, p.tenantId, ring.keyId), Derive(C, ring', q.tenantId, id);
    if k != k' || RequestText(p) != RequestText(q) {
      c := HmacClash(k, RequestText(p), k', RequestText(q));
    } else {
      RequestTextInjective(p, q);
      InfoInjective(p.tenantId, q.tenantId);
      var s, t := HkdfInputs(C, ring, p.tenantId, ring.keyId), HkdfInputs(C, ring', q.tenantId, id);
      c := HkdfClash(s.0, s.1, s.2, t.0, t.1, t.2);
    }
  }
}
