/** The certificate store as a value, and each of its operations as a function on it. */
module StoreModel {
  import opened Common
  import opened Sorting
  import opened AuthScope
  import opened Trust

  /** The key table, the order in which iteration visits it (oldest insertion first), and the flag. */
  datatype Store = Store(keys: Keys, order: seq<uint64>, valid: bool)

  const EMPTY_STORE := Store(map[], [], false)

  datatype SignedCert = SignedCert(cert: Bytes, caKeyId: uint64, caSignature: Bytes)

  const SIGNATURE_SIZE := 64
  const PUBLIC_KEY_SIZE := 32

  datatype SetupError =
    NoData | BadSignatureLength | ParseFailed | BoundToIdentity | NotEd25519 | BadPublicKey | NoExpiry

  /** The list a certificate carries; an empty one means "all". */
  function ParameterOf(items: Items): Items {
    if items == [] then [RESERVED_ITEM] else SetupList(items)
  }

  function ScopeOf(body: CertBody): Scope {
    Scope(ParameterOf(body.pops), ParameterOf(body.apps), body.expiry)
  }

  /** Takes a signed message apart into a storable certificate and the public key it is about. */
  function SetupCert(env: Env, msg: SignedCert): Result<(Cert, Bytes), SetupError> {
    if msg.cert == [] then Err(NoData)
    else if |msg.caSignature| != SIGNATURE_SIZE then Err(BadSignatureLength)
    else
      match env.parse(msg.cert)
      case None => Err(ParseFailed)
      case Some(body) =>
        if body.identityBound then Err(BoundToIdentity)
        else if !body.ed25519 then Err(NotEd25519)
        else if |body.keyData| != PUBLIC_KEY_SIZE then Err(BadPublicKey)
        else if body.expiry <= 0 then Err(NoExpiry)
        else Ok((Cert(msg.cert, msg.caKeyId, msg.caSignature, ScopeOf(body), body.created), body.keyData))
  }

  function RootKey(pub: Bytes): Key {
    Key(Hardcoded, Some(pub), [], ALL_SCOPE, -1)
  }

  /** In a build with a compiled-in root, an empty table gets that root. */
  function OneTimeInit(env: Env, s: Store): Store {
    if env.root.Some? && |s.keys| == 0 then
      var id := env.keyId(env.root.value);
      s.(keys := s.keys[id := RootKey(env.root.value)], order := s.order + [id])
    else
      s
  }

  function AddKeyRevocation(s: Store, id: uint64): Store {
    if id !in s.keys then
      Store(s.keys[id := Key(Revoked, None, [], EMPTY_SCOPE, -1)], s.order + [id], false)
    else if s.keys[id].trust == Revoked then
      s
    else
      s.(keys := s.keys[id := s.keys[id].(trust := Revoked)], valid := false)
  }

  predicate HasSignature(certs: seq<Cert>, signature: Bytes) {
    exists i :: 0 <= i < |certs| && certs[i].signature == signature
  }

  /** Adds a certificate under the key it is about. `None` is a message that could not be decoded. */
  function AddCert(env: Env, store: Store, msg: Option<SignedCert>): (Store, bool) {
    var s := OneTimeInit(env, store);
    if msg.None? then (s, false)
    else
      match SetupCert(env, msg.value)
      case Err(_) => (s, false)
      case Ok((cert, pub)) => InsertCert(env, s, cert, pub)
  }

  function InsertCert(env: Env, s: Store, cert: Cert, pub: Bytes): (Store, bool) {
    var id := env.keyId(pub);
    if Collides(s, id, pub) then (s, false)
    else
      var s' := ProvideKey(s, id, pub);
      if HasSignature(s'.keys[id].certs, cert.signature) then (s', true)
      else (AppendCert(s', id, cert), true)
  }

  /** Another public key is already stored under this id. */
  predicate Collides(s: Store, id: uint64, pub: Bytes) {
    id in s.keys && s.keys[id].pub.Some? && s.keys[id].pub != Some(pub)
  }

  /** Creates the key, or fills in the public key of one known only as revoked. */
  function ProvideKey(s: Store, id: uint64, pub: Bytes): (r: Store)
    ensures id in r.keys
  {
    if id in s.keys then
      s.(keys := s.keys[id := s.keys[id].(pub := Some(pub))])
    else
      s.(keys := s.keys[id := Key(Unknown, Some(pub), [], EMPTY_SCOPE, -1)], order := s.order + [id])
  }

  function AppendCert(s: Store, id: uint64, cert: Cert): Store
    requires id in s.keys
  {
    s.(keys := s.keys[id := s.keys[id].(certs := s.keys[id].certs + [cert])], valid := false)
  }

  /** Every key listed for iteration is in the table. */
  ghost predicate Listed(s: Store) {
    forall k :: k in s.order ==> k in s.keys
  }

  /** Recomputes trust unless it is known to be up to date. */
  function EnsureTrustValid(env: Env, store: Store): (r: Store)
    requires Listed(store)
    ensures Listed(r)
  {
    var s := OneTimeInit(env, store);
    if s.valid then s else s.(keys := Recompute(env, s.keys, s.order), valid := true)
  }

  datatype CheckError =
    NoSignedData | NoSignature | MissingCaKeyId | UnknownCaKey | CaKeyNotTrusted | CaKeyExpired
    | SignatureLength | SignatureInvalid
    | CertParseFailed | CertExpired | CertKeyType | CertBadKey | CertKeyRevoked
    | KeyRevoked | KeyNotTrusted | KeyExpired

  /** The checks `CertStore_CheckCASignature` makes, in its order, once trust is up to date. */
  function CASignatureVerdict(env: Env, m: Keys, data: Bytes, caKeyId: uint64, signature: Bytes, now: int)
    : Result<Scope, CheckError>
  {
    if data == [] then Err(NoSignedData)
    else if signature == [] then Err(NoSignature)
    else if caKeyId == 0 then Err(MissingCaKeyId)
    else if caKeyId !in m then Err(UnknownCaKey)
    else
      var key := m[caKeyId];
      if !IsTrusted(key.trust) then Err(CaKeyNotTrusted)
      else if key.scope.expiry < now then Err(CaKeyExpired)
      else if |signature| != SIGNATURE_SIZE then Err(SignatureLength)
      else if !(key.pub.Some? && env.verify(key.pub.value, data, signature)) then Err(SignatureInvalid)
      else Ok(key.scope)
  }

  /** The further checks on the certificate itself. A key id of 0 means the key data is unusable. */
  function CertVerdict(env: Env, m: Keys, msg: SignedCert, now: int): Result<Scope, CheckError> {
    match CASignatureVerdict(env, m, msg.cert, msg.caKeyId, msg.caSignature, now)
    case Err(e) => Err(e)
    case Ok(scope) =>
      match env.parse(msg.cert)
      case None => Err(CertParseFailed)
      case Some(body) =>
        if body.expiry < now then Err(CertExpired)
        else if !body.ed25519 then Err(CertKeyType)
        else
          var id := env.keyId(body.keyData);
          if id == 0 then Err(CertBadKey)
          else if id in m && m[id].trust != NotTrusted && !IsTrusted(m[id].trust) then Err(CertKeyRevoked)
          else Ok(scope)
  }

  function PublicKeyVerdict(m: Keys, id: uint64, now: int): Result<Scope, CheckError> {
    if id in m && m[id].trust == Revoked then Err(KeyRevoked)
    else if id !in m || !IsTrusted(m[id].trust) then Err(KeyNotTrusted)
    else if m[id].scope.expiry < now then Err(KeyExpired)
    else Ok(m[id].scope)
  }
}
