/** What a stored certificate says, what a query answers, and what each operation changes. */
module StoreAnswers {
  import opened Common
  import opened AuthScope
  import opened Trust
  import opened TrustChains
  import opened StoreModel
  import opened StoreInvariant
  import opened StoreRuns

  // ---------- what is taken from a message ----------

  /** The list in a certificate allows the item: an empty list, or the mark for all, allows every one. */
  predicate Allows(items: Items, x: int) {
    items == [] || items == [RESERVED_ITEM] || x in items
  }

  lemma ParameterAllows(items: Items, x: int)
    requires x != RESERVED_ITEM
    ensures HasItem(ParameterOf(items), x) <==> Allows(items, x)
  {
    if items != [] {
      SetupListCorrect(items);
      SetUpAll(items);
    }
  }

  /** Only the mark for all is set up as the mark for all. */
  lemma SetUpAll(items: Items)
    requires items != []
    ensures IsAll(SetupList(items)) <==> items == [RESERVED_ITEM]
  {
    SetupListCorrect(items);
    var r := SetupList(items);
    forall i | 0 <= i < |items| ensures items[i] in r {
      assert items[i] in items;
    }
    forall i | 0 <= i < |r| ensures r[i] in items {
      assert r[i] in r;
    }
    if |items| >= 2 && items[0] == items[1] == RESERVED_ITEM && IsAll(r) {
      assert LeastRepeated(items);
    }
  }

  /** A stored certificate grants what its signed bytes grant, until they say it expires. */
  ghost predicate Says(c: Cert, body: CertBody) {
    && (forall x :: x != RESERVED_ITEM ==> (HasItem(c.scope.apps, x) <==> Allows(body.apps, x)))
    && (forall x :: x != RESERVED_ITEM ==> (HasItem(c.scope.pops, x) <==> Allows(body.pops, x)))
    && c.scope.expiry == body.expiry && c.created == body.created
  }

  lemma ScopeSays(c: Cert, body: CertBody)
    requires c.scope == ScopeOf(body) && c.created == body.created
    ensures Says(c, body)
  {
    forall x | x != RESERVED_ITEM
      ensures HasItem(c.scope.apps, x) <==> Allows(body.apps, x)
      ensures HasItem(c.scope.pops, x) <==> Allows(body.pops, x)
    {
      ParameterAllows(body.apps, x);
      ParameterAllows(body.pops, x);
    }
  }

  /**
   * A message is taken exactly if it carries signed bytes and a signature of the right size, and the
   * bytes are a certificate for an Ed25519 key of the right size that is not bound to an identity and
   * expires at some time. What is stored is what it says.
   */
  lemma SetupCertIff(env: Env, msg: SignedCert)
    ensures SetupCert(env, msg).Ok? <==>
      && msg.cert != [] && |msg.caSignature| == 64 && env.parse(msg.cert).Some?
      && var body := env.parse(msg.cert).value;
         !body.identityBound && body.ed25519 && |body.keyData| == 32 && body.expiry != 0
    ensures SetupCert(env, msg).Ok? ==>
      var (c, pub) := SetupCert(env, msg).value;
      var body := env.parse(msg.cert).value;
      && pub == body.keyData && Says(c, body)
      && c.signedData == msg.cert && c.signer == msg.caKeyId && c.signature == msg.caSignature
  {
    if SetupCert(env, msg).Ok? {
      ScopeSays(SetupCert(env, msg).value.0, env.parse(msg.cert).value);
    }
  }

  /** In a valid store every certificate on a chain says what its signed bytes say, about the key it is used for. */
  lemma ChainSaysSo(env: Env, s: Store, p: seq<uint64>, k: uint64)
    requires Inv(env, s) && IsChain(env, s.keys, p) && k in p
    requires k in s.keys && s.keys[k].trust != Hardcoded
    ensures Backed(env, s.keys, k) && s.keys[k].pub.Some? && env.keyId(s.keys[k].pub.value) == k
    ensures env.parse(Chosen(s.keys, k).signedData).Some?
    ensures var body := env.parse(Chosen(s.keys, k).signedData).value;
      body.keyData == s.keys[k].pub.value && Says(Chosen(s.keys, k), body)
  {
    var i :| 0 <= i < |p| && p[i] == k;
    if i < |p| - 1 {
      assert Link(env, s.keys, p[i], p[i + 1]);
    }
    assert KeyOk(env, k, s.keys[k]);
    assert CertOk(env, s.keys[k].pub.value, Chosen(s.keys, k));
    ScopeSays(Chosen(s.keys, k), env.parse(Chosen(s.keys, k).signedData).value);
  }

  // ---------- what a query answers ----------

  /** The authority met along a chain from the key. */
  ghost predicate AuthorityOf(env: Env, m: Keys, id: uint64, scope: Scope) {
    exists p :: IsAuthority(env, m, id, scope, p)
  }

  ghost predicate IsAuthority(env: Env, m: Keys, id: uint64, scope: Scope, p: seq<uint64>) {
    && IsChain(env, m, p) && p[0] == id
    && (forall k :: k in p ==> k in m) && (forall i :: 0 <= i < |p| - 1 ==> 0 <= m[p[i]].newest < |m[p[i]].certs|)
    && scope == ChainScope(m, p)
  }

  lemma MeetsAuthority(env: Env, s: Store, id: uint64)
    requires Inv(env, s) && s.valid && id in s.keys && IsTrusted(s.keys[id].trust)
    ensures AuthorityOf(env, s.keys, id, s.keys[id].scope)
  {
    QueriedSound(env, s);
    var p := ChainOf(env, s, id);
    ScopeIsIntersection(env, s.keys, p);
    assert IsAuthority(env, s.keys, id, s.keys[id].scope, p);
  }

  /** No two chains from a key meet different authorities. */
  lemma AuthorityUnique(env: Env, s: Store, id: uint64, scope: Scope)
    requires Inv(env, s) && s.valid && AuthorityOf(env, s.keys, id, scope)
    ensures id in s.keys && scope == s.keys[id].scope
  {
    QueriedSound(env, s);
    var p :| IsAuthority(env, s.keys, id, scope, p);
    ScopeIsIntersection(env, s.keys, p);
    assert p[0] in p;
  }

  lemma AnswersScope(env: Env, m: Keys, data: Bytes, id: uint64, signature: Bytes, now: int)
    ensures var r := CASignatureVerdict(env, m, data, id, signature, now);
      r.Ok? ==> id in m && IsTrusted(m[id].trust) && r.value == m[id].scope
    ensures var r := PublicKeyVerdict(m, id, now);
      r.Ok? ==> id in m && IsTrusted(m[id].trust) && r.value == m[id].scope
  {
  }

  /** The authority a query about a signature answers with is the one met along a chain from the CA key. */
  lemma SignatureAnswer(env: Env, s: Store, data: Bytes, caKeyId: uint64, signature: Bytes, now: int)
    requires Inv(env, s) && s.valid
    ensures var r := CASignatureVerdict(env, s.keys, data, caKeyId, signature, now);
      r.Ok? ==> AuthorityOf(env, s.keys, caKeyId, r.value)
  {
    AnswersScope(env, s.keys, data, caKeyId, signature, now);
    if CASignatureVerdict(env, s.keys, data, caKeyId, signature, now).Ok? {
      MeetsAuthority(env, s, caKeyId);
    }
  }

  lemma CertPassesOn(env: Env, m: Keys, msg: SignedCert, now: int)
    ensures CertVerdict(env, m, msg, now).Ok? ==>
      CertVerdict(env, m, msg, now) == CASignatureVerdict(env, m, msg.cert, msg.caKeyId, msg.caSignature, now)
  {
  }

  /** So is the one a query about a certificate answers with. */
  lemma CertAnswer(env: Env, s: Store, msg: SignedCert, now: int)
    requires Inv(env, s) && s.valid
    ensures CertVerdict(env, s.keys, msg, now).Ok? ==>
      AuthorityOf(env, s.keys, msg.caKeyId, CertVerdict(env, s.keys, msg, now).value)
  {
    SignatureAnswer(env, s, msg.cert, msg.caKeyId, msg.caSignature, now);
    CertPassesOn(env, s.keys, msg, now);
  }

  /** And the one a query about a public key answers with is met along a chain from that key. */
  lemma PublicKeyAnswer(env: Env, s: Store, id: uint64, now: int)
    requires Inv(env, s) && s.valid
    ensures PublicKeyVerdict(s.keys, id, now).Ok? ==>
      AuthorityOf(env, s.keys, id, PublicKeyVerdict(s.keys, id, now).value)
  {
    AnswersScope(env, s.keys, [], id, [], now);
    if PublicKeyVerdict(s.keys, id, now).Ok? {
      MeetsAuthority(env, s, id);
    }
  }

  // ---------- why a query is refused ----------

  ghost predicate HasExpiredChain(env: Env, m: Keys, id: uint64, now: int) {
    HasChain(env, m, id) && !HasUnexpiredChain(env, m, id, now)
  }

  lemma TrustedIffChain(env: Env, s: Store, id: uint64)
    requires Inv(env, s) && s.valid && id in s.keys
    ensures IsTrusted(s.keys[id].trust) <==> HasChain(env, s.keys, id)
  {
    QueriedSound(env, s);
    if IsTrusted(s.keys[id].trust) {
      var p := ChainOf(env, s, id);
      assert HasChain(env, s.keys, id);
    } else if HasChain(env, s.keys, id) {
      var p :| IsChain(env, s.keys, p) && p[0] == id;
      ChainIsTrusted(env, s.keys, p);
      assert false;
    }
  }

  /** A key on no chain is unknown, or known and untrusted; one on a chain is known. */
  lemma ChainStanding(env: Env, s: Store, id: uint64, now: int)
    requires Inv(env, s) && s.valid && now <= TIME_MAX
    ensures HasChain(env, s.keys, id) <==> id in s.keys && IsTrusted(s.keys[id].trust)
    ensures HasExpiredChain(env, s.keys, id, now) <==>
      id in s.keys && IsTrusted(s.keys[id].trust) && s.keys[id].scope.expiry < now
  {
    if id in s.keys {
      TrustedIffChain(env, s, id);
      TrustedIffUnexpiredChain(env, s, id, now);
    } else if HasChain(env, s.keys, id) {
      var p :| IsChain(env, s.keys, p) && p[0] == id;
      QueriedSound(env, s);
      ChainIsTrusted(env, s.keys, p);
      assert false;
    }
  }

  /**
   * The error `e` is the first that applies, in the order they are checked for, when the CA key is `known`
   * or not, `trusted` or not and `expired` or not.
   */
  predicate FirstReason(
    e: CheckError, data: Bytes, id: uint64, signature: Bytes, known: bool, trusted: bool, expired: bool, verifies: bool)
  {
    var given := data != [] && signature != [] && id != 0;
    var usable := given && trusted && !expired;
    match e
    case NoSignedData => data == []
    case NoSignature => data != [] && signature == []
    case MissingCaKeyId => data != [] && signature != [] && id == 0
    case UnknownCaKey => given && !known
    case CaKeyNotTrusted => given && known && !trusted
    case CaKeyExpired => given && trusted && expired
    case SignatureLength => usable && |signature| != 64
    case SignatureInvalid => usable && |signature| == 64 && !verifies
    case _ => false
  }

  ghost predicate VerifiesUnder(env: Env, m: Keys, id: uint64, data: Bytes, signature: Bytes) {
    id in m && m[id].pub.Some? && env.verify(m[id].pub.value, data, signature)
  }

  lemma FirstReasonOf(env: Env, m: Keys, data: Bytes, id: uint64, signature: Bytes, now: int, e: CheckError)
    ensures var trusted := id in m && IsTrusted(m[id].trust);
      CASignatureVerdict(env, m, data, id, signature, now) == Err(e) <==>
      FirstReason(e, data, id, signature, id in m, trusted, trusted && m[id].scope.expiry < now,
                  VerifiesUnder(env, m, id, data, signature))
  {
  }

  /** A signature is refused for a reason exactly when it is the first that applies. */
  lemma SignatureRefusal(env: Env, s: Store, data: Bytes, id: uint64, signature: Bytes, now: int, e: CheckError)
    requires Inv(env, s) && s.valid && now <= TIME_MAX
    ensures CASignatureVerdict(env, s.keys, data, id, signature, now) == Err(e) <==>
      FirstReason(e, data, id, signature, id in s.keys, HasChain(env, s.keys, id),
                  HasExpiredChain(env, s.keys, id, now), VerifiesUnder(env, s.keys, id, data, signature))
  {
    FirstReasonOf(env, s.keys, data, id, signature, now, e);
    ChainStanding(env, s, id, now);
  }

  /** The error is the first that applies to what a certificate says, when its key is revoked or not. */
  predicate FirstFault(e: CheckError, parsed: Option<CertBody>, now: int, keyId: uint64, revoked: bool) {
    match parsed
    case None => e == CertParseFailed
    case Some(body) =>
      match e
      case CertExpired => body.expiry < now
      case CertKeyType => now <= body.expiry && !body.ed25519
      case CertBadKey => now <= body.expiry && body.ed25519 && keyId == 0
      case CertKeyRevoked => now <= body.expiry && body.ed25519 && keyId != 0 && revoked
      case _ => false
  }

  function SignedKeyId(env: Env, msg: SignedCert): uint64 {
    match env.parse(msg.cert)
    case None => 0
    case Some(body) => env.keyId(body.keyData)
  }

  lemma FirstFaultOf(env: Env, m: Keys, msg: SignedCert, now: int, e: CheckError)
    requires CASignatureVerdict(env, m, msg.cert, msg.caKeyId, msg.caSignature, now).Ok?
    ensures var id := SignedKeyId(env, msg);
      CertVerdict(env, m, msg, now) == Err(e) <==>
      FirstFault(e, env.parse(msg.cert), now, id, id in m && m[id].trust != NotTrusted && !IsTrusted(m[id].trust))
  {
  }

  /** A certificate is refused for what is wrong with its signature, else for the first fault that applies. */
  lemma CertRefusal(env: Env, s: Store, msg: SignedCert, now: int, e: CheckError)
    requires Inv(env, s) && s.valid
    ensures var signed := CASignatureVerdict(env, s.keys, msg.cert, msg.caKeyId, msg.caSignature, now);
      CertVerdict(env, s.keys, msg, now) == Err(e) <==>
      if signed.Err? then signed == Err(e)
      else FirstFault(e, env.parse(msg.cert), now, SignedKeyId(env, msg), IsRevoked(s, SignedKeyId(env, msg)))
  {
    if CASignatureVerdict(env, s.keys, msg.cert, msg.caKeyId, msg.caSignature, now).Ok? {
      FirstFaultOf(env, s.keys, msg, now, e);
      DecidedKinds(env, s);
    }
  }

  lemma KeyReasonOf(m: Keys, id: uint64, now: int)
    ensures var r := PublicKeyVerdict(m, id, now);
      var trusted := id in m && IsTrusted(m[id].trust);
      var revoked := id in m && m[id].trust == Revoked;
      && (r == Err(KeyRevoked) <==> revoked)
      && (r == Err(KeyNotTrusted) <==> !revoked && !trusted)
      && (r == Err(KeyExpired) <==> trusted && m[id].scope.expiry < now)
  {
  }

  /** Why a public key is refused: it was revoked, else no chain leads from it, else the chain has expired. */
  lemma PublicKeyRefusal(env: Env, s: Store, id: uint64, now: int)
    requires Inv(env, s) && s.valid && now <= TIME_MAX
    ensures var r := PublicKeyVerdict(s.keys, id, now);
      && (r == Err(KeyRevoked) <==> IsRevoked(s, id))
      && (r == Err(KeyNotTrusted) <==> !IsRevoked(s, id) && !HasChain(env, s.keys, id))
      && (r == Err(KeyExpired) <==> HasExpiredChain(env, s.keys, id, now))
  {
    ChainStanding(env, s, id, now);
    KeyReasonOf(s.keys, id, now);
  }

  // ---------- what an operation changes ----------

  lemma KnownSignature(certs: seq<Cert>, cert: Cert)
    ensures HasSignature(certs, cert.signature) <==> exists c :: c in certs && c.signature == cert.signature
  {
    if c :| c in certs && c.signature == cert.signature {
      var i :| 0 <= i < |certs| && certs[i] == c;
    }
  }

  /**
   * A message is accepted exactly if it can be taken apart and no other public key has the id of the key
   * it is about. Then that key has its public key and, after those it had, the certificate, unless one
   * with the same signature was there; nothing else changes but for the root put into an empty table.
   */
  lemma AddedCert(env: Env, store: Store, msg: SignedCert)
    requires SetupCert(env, msg).Ok?
    ensures var s := OneTimeInit(env, store);
      var (t, ok) := AddCert(env, store, Some(msg));
      var (c, pub) := SetupCert(env, msg).value;
      var id := env.keyId(pub);
      var before := if id in s.keys then s.keys[id].certs else [];
      && (ok <==> id in s.keys ==> s.keys[id].pub.None? || s.keys[id].pub == Some(pub))
      && (ok ==>
        && id in t.keys && t.keys[id].pub == Some(pub)
        && t.keys[id].certs == (if exists k :: k in before && k.signature == c.signature then before else before + [c])
        && t.keys[id].trust == if id in s.keys then s.keys[id].trust else Unknown)
      && (!ok ==> t == s)
      && (forall k :: k != id ==> ((k in t.keys <==> k in s.keys) && (k in s.keys ==> t.keys[k] == s.keys[k])))
  {
    var s := OneTimeInit(env, store);
    var (c, pub) := SetupCert(env, msg).value;
    var id := env.keyId(pub);
    KnownSignature(if id in s.keys then s.keys[id].certs else [], c);
  }

  lemma RejectedCert(env: Env, store: Store, msg: Option<SignedCert>)
    requires msg.None? || SetupCert(env, msg.value).Err?
    ensures AddCert(env, store, msg) == (OneTimeInit(env, store), false)
  {
  }

  lemma Revoking(s: Store, id: uint64)
    ensures var r := AddKeyRevocation(s, id);
      && r.keys == s.keys[id :=
           if id in s.keys then s.keys[id].(trust := Revoked) else Key(Revoked, None, [], EMPTY_SCOPE, -1)]
      && r.valid == (s.valid && IsRevoked(s, id))
  {
    if IsRevoked(s, id) {
      assert s.keys[id := s.keys[id].(trust := Revoked)] == s.keys;
    }
  }

  /** What the key a certificate is about becomes. */
  function Certified(key: Option<Key>, pub: Bytes, cert: Cert): Key {
    var k := if key.None? then Key(Unknown, Some(pub), [], EMPTY_SCOPE, -1) else key.value.(pub := Some(pub));
    if HasSignature(k.certs, cert.signature) then k else k.(certs := k.certs + [cert])
  }

  function KeyAt(s: Store, id: uint64): Option<Key> {
    if id in s.keys then Some(s.keys[id]) else None
  }

  lemma Inserting(env: Env, s: Store, cert: Cert, pub: Bytes)
    ensures var id := env.keyId(pub); var (t, ok) := InsertCert(env, s, cert, pub);
      && ok == !Collides(s, id, pub)
      && t.keys == (if ok then s.keys[id := Certified(KeyAt(s, id), pub, cert)] else s.keys)
      && t.valid == (s.valid && (ok ==> id in s.keys && HasSignature(s.keys[id].certs, cert.signature)))
  {
    var id := env.keyId(pub);
    var k := ProvideKey(s, id, pub).keys[id];
    assert s.keys[id := k][id := Certified(KeyAt(s, id), pub, cert)]
        == s.keys[id := Certified(KeyAt(s, id), pub, cert)];
  }

  lemma InsertCommutes(env: Env, s: Store, id: uint64, cert: Cert, pub: Bytes)
    ensures var a, b := InsertCert(env, AddKeyRevocation(s, id), cert, pub), InsertCert(env, s, cert, pub);
      && a.1 == b.1 && a.0.keys == AddKeyRevocation(b.0, id).keys && a.0.valid == AddKeyRevocation(b.0, id).valid
  {
    Revoking(s, id);
    Revoking(InsertCert(env, s, cert, pub).0, id);
    Inserting(env, s, cert, pub);
    Inserting(env, AddKeyRevocation(s, id), cert, pub);
  }

  /** Whether a key is revoked before or after a certificate is added makes no difference. */
  lemma RevokingAndAddingCommute(env: Env, s: Store, id: uint64, msg: Option<SignedCert>)
    requires |s.keys| > 0
    ensures var a, b := AddCert(env, AddKeyRevocation(s, id), msg), AddCert(env, s, msg);
      && a.1 == b.1 && a.0.keys == AddKeyRevocation(b.0, id).keys && a.0.valid == AddKeyRevocation(b.0, id).valid
  {
    Revoking(s, id);
    assert id in AddKeyRevocation(s, id).keys.Keys;
    if msg.Some? && SetupCert(env, msg.value).Ok? {
      var (cert, pub) := SetupCert(env, msg.value).value;
      InsertCommutes(env, s, id, cert, pub);
    }
  }
}
