/** The certificate store on objects, each operation proved to compute its function in `StoreModel`. */
module CertStore {
  import opened Common
  import opened AuthScope
  import opened Trust
  import opened TrustScopes
  import opened TrustOrder
  import opened StoreModel
  import opened StoreInvariant

  /** The list a certificate carries, set up for intersection; an empty one means "all". */
  method ParameterFrom(items: Items) returns (v: Items)
    ensures v == ParameterOf(items)
  {
    if |items| > 0 {
      v := Setup(items);
    } else {
      v := [RESERVED_ITEM];
    }
  }

  /** Takes a signed message apart, checking it in the source's order. */
  method CertFrom(env: Env, msg: SignedCert) returns (r: Result<(Cert, Bytes), SetupError>)
    ensures r == SetupCert(env, msg)
  {
    if |msg.cert| == 0 {
      return Err(NoData);
    }
    if |msg.caSignature| != SIGNATURE_SIZE {
      return Err(BadSignatureLength);
    }
    var parsed := env.parse(msg.cert);
    if parsed.None? {
      return Err(ParseFailed);
    }
    var body := parsed.value;
    if body.identityBound {
      return Err(BoundToIdentity);
    }
    if !body.ed25519 {
      return Err(NotEd25519);
    }
    if |body.keyData| != PUBLIC_KEY_SIZE {
      return Err(BadPublicKey);
    }
    if body.expiry <= 0 {
      return Err(NoExpiry);
    }
    var pops := ParameterFrom(body.pops);
    var apps := ParameterFrom(body.apps);
    r := Ok((Cert(msg.cert, msg.caKeyId, msg.caSignature, Scope(pops, apps, body.expiry), body.created), body.keyData));
  }

  class PublicKey {
    var trust: Trust
    var pub: Option<Bytes>
    var certs: seq<Cert>
    var scope: Scope
    var newest: int

    ghost function Record(): Key
      reads this
    {
      Key(trust, pub, certs, scope, newest)
    }

    /** A key not seen before. */
    constructor (pub: Option<Bytes>)
      ensures Record() == Key(Unknown, pub, [], EMPTY_SCOPE, -1)
    {
      this.trust, this.pub, this.certs, this.scope, this.newest := Unknown, pub, [], EMPTY_SCOPE, -1;
    }

    predicate Trusted()
      reads this
    {
      IsTrusted(trust)
    }
  }

  class Store {
    const env: Env
    var keys: map<uint64, PublicKey>
    var order: seq<uint64>
    var trustValid: bool

    /** Distinct ids own distinct objects, and iteration visits only keys in the table. */
    ghost predicate Valid()
      reads this`keys, this`order
    {
      && (forall j, k :: j in keys && k in keys && j != k ==> keys[j] != keys[k])
      && forall k :: k in order ==> k in keys
    }

    ghost function Table(): (m: Keys)
      reads this`keys, keys.Values
      ensures m.Keys == keys.Keys
    {
      map k | k in keys :: keys[k].Record()
    }

    ghost function State(): StoreModel.Store
      reads this, keys.Values
    {
      StoreModel.Store(Table(), order, trustValid)
    }

    constructor (env: Env)
      ensures Valid() && State() == EMPTY_STORE && this.env == env
    {
      this.env := env;
      keys, order, trustValid := map[], [], false;
    }

    method OneTimeInit()
      requires Valid()
      modifies this
      ensures Valid() && State() == StoreModel.OneTimeInit(env, old(State()))
      ensures fresh(keys.Values - old(keys.Values))
    {
      if env.root.Some? && |keys| == 0 {
        var key := new PublicKey(env.root);
        key.trust := Hardcoded;
        key.scope := ALL_SCOPE;
        var id := env.keyId(env.root.value);
        keys, order := keys[id := key], order + [id];
        assert State() == StoreModel.OneTimeInit(env, old(State()));
      }
    }

    method Reset()
      modifies this
      ensures Valid() && State() == EMPTY_STORE
    {
      keys, order, trustValid := map[], [], false;
    }

    method AddKeyRevocation(id: uint64)
      requires Valid()
      modifies this, keys.Values
      ensures Valid() && State() == StoreModel.AddKeyRevocation(old(State()), id)
      ensures fresh(keys.Values - old(keys.Values))
    {
      if id !in keys {
        var key := new PublicKey(None);
        key.trust := Revoked;
        keys, order, trustValid := keys[id := key], order + [id], false;
        assert Table() == old(Table())[id := key.Record()];
      } else if keys[id].trust != Revoked {
        SetTrust(id, Revoked);
        trustValid := false;
      }
    }

    method AddCert(msg: Option<SignedCert>) returns (ok: bool)
      requires Valid()
      modifies this, keys.Values
      ensures Valid() && (State(), ok) == StoreModel.AddCert(env, old(State()), msg)
      ensures fresh(keys.Values - old(keys.Values))
    {
      OneTimeInit();
      if msg.None? {
        return false;
      }
      var setup := CertFrom(env, msg.value);
      if setup.Err? {
        return false;
      }
      var (cert, pub) := setup.value;
      ok := InsertCert(cert, pub);
    }

    method InsertCert(cert: Cert, pub: Bytes) returns (ok: bool)
      requires Valid()
      modifies this, keys.Values
      ensures Valid() && (State(), ok) == StoreModel.InsertCert(env, old(State()), cert, pub)
      ensures fresh(keys.Values - old(keys.Values))
    {
      var id := env.keyId(pub);
      if id in keys && keys[id].pub != Some(pub) && keys[id].pub.Some? {
        return false;
      }
      ProvideKey(id, pub);
      var known := FindSignature(keys[id].certs, cert.signature);
      if !known {
        AppendCert(id, cert);
      }
      ok := true;
    }

    method ProvideKey(id: uint64, pub: Bytes)
      requires Valid()
      modifies this, keys.Values
      ensures Valid() && State() == StoreModel.ProvideKey(old(State()), id, pub)
      ensures fresh(keys.Values - old(keys.Values))
    {
      if id in keys {
        keys[id].pub := Some(pub);
        assert Table() == old(Table())[id := keys[id].Record()];
      } else {
        var key := new PublicKey(Some(pub));
        keys, order := keys[id := key], order + [id];
        assert Table() == old(Table())[id := key.Record()];
      }
    }

    method AppendCert(id: uint64, cert: Cert)
      requires Valid() && id in keys
      modifies this, keys[id]
      ensures keys == old(keys) && Valid()
      ensures State() == StoreModel.AppendCert(old(State()), id, cert)
    {
      keys[id].certs := keys[id].certs + [cert];
      trustValid := false;
      assert Table() == old(Table())[id := keys[id].Record()];
    }

    method FindSignature(certs: seq<Cert>, signature: Bytes) returns (found: bool)
      ensures found == HasSignature(certs, signature)
    {
      for i := 0 to |certs|
        invariant forall j :: 0 <= j < i ==> certs[j].signature != signature
      {
        if certs[i].signature == signature {
          return true;
        }
      }
      found := false;
    }

    method SetTrust(id: uint64, trust: Trust)
      requires Valid() && id in keys
      modifies keys[id]
      ensures Table() == old(Table())[id := old(Table())[id].(trust := trust)]
    {
      keys[id].trust := trust;
    }

    method SetBest(id: uint64, scope: Scope, newest: int)
      requires Valid() && id in keys
      modifies keys[id]
      ensures Table() == old(Table())[id := old(Table())[id].(scope := scope, newest := newest)]
    {
      keys[id].scope := scope;
      keys[id].newest := newest;
    }

    /** Evaluates one key; every intersection it performs is of two non-empty lists. */
    method RecursiveEvaluateKeyTrust(id: uint64)
      requires Valid() && id in keys && ScopesUsable(Table())
      modifies keys.Values
      ensures Table() == Evaluate(env, old(Table()), id)
      decreases UnknownKeys(Table()), 0, 0
    {
      if keys[id].trust != Unknown {
        return;
      }
      BeginKey(id);
      if |keys[id].certs| == 0 {
        SetTrust(id, NotTrusted);
        return;
      }
      ScanAllCerts(id);
      ConcludeKey(id);
    }

    /** Marks a key as being worked on. */
    method BeginKey(id: uint64)
      requires Valid() && id in keys && keys[id].trust == Unknown && ScopesUsable(Table())
      modifies keys[id]
      ensures Table() == old(Table())[id := old(Table())[id].(trust := Working, newest := -1)]
      ensures UnknownKeys(Table()) < UnknownKeys(old(Table()))
      ensures ScopesUsable(Table())
    {
      ghost var m := Table();
      BegunUsable(m, id);
      SetTrust(id, Working);
      SetBest(id, keys[id].scope, -1);
      assert id in UnknownKeys(m);
    }

    method ConcludeKey(id: uint64)
      requires Valid() && id in keys
      modifies keys[id]
      ensures Table() == Conclude(old(Table()), id)
    {
      if keys[id].newest < 0 {
        SetTrust(id, NotTrusted);
        SetBest(id, EMPTY_SCOPE, keys[id].newest);
      } else {
        SetTrust(id, Trust.Trusted);
      }
    }

    /** The loop over a key's certificates. */
    method ScanAllCerts(id: uint64)
      requires Valid() && ScopesUsable(Table()) && Scanning(Table(), id, 0)
      modifies keys.Values
      ensures Table() == ScanCerts(env, old(Table()), id, 0)
      decreases UnknownKeys(Table()), 1, |Table()[id].certs|
    {
      ghost var m := Table();
      for i := 0 to |keys[id].certs|
        invariant ScannedTo(env, m, Table(), id, i)
      {
        ScanOne(m, id, i);
      }
      ScannedAll(env, m, Table(), id);
    }

    /** One round of that loop, begun with the table `m`. */
    method ScanOne(ghost m: Keys, id: uint64, i: nat)
      requires Valid() && ScannedTo(env, m, Table(), id, i) && i < |Table()[id].certs|
      modifies keys.Values
      ensures ScannedTo(env, m, Table(), id, i + 1)
      decreases UnknownKeys(Table()), 1, |Table()[id].certs| - i, 1
    {
      ScannedStep(env, m, Table(), id, i);
      ExamineCert(id, i);
    }

    /** The body of that loop. */
    method ExamineCert(id: uint64, i: nat)
      requires Valid() && ScopesUsable(Table()) && Scanning(Table(), id, i) && i < |Table()[id].certs|
      modifies keys.Values
      ensures Table() == ScanCert(env, old(Table()), id, i)
      decreases UnknownKeys(Table()), 1, |Table()[id].certs| - i, 0
    {
      var signer := keys[id].certs[i].signer;
      if signer !in keys {
        return;
      }
      ghost var m := Table();
      if keys[signer] == keys[id] {
        if env.root.Some? {
          return;
        }
      } else {
        if keys[signer].trust == Working {
          return;
        }
        RecursiveEvaluateKeyTrust(signer);
        EvaluateUsable(env, m, signer);
        assert Advances(m[id], Table()[id]);
        if !keys[signer].Trusted() {
          return;
        }
      }
      ConsiderCert(id, i);
    }

    /** The rest of the body, once the signer is trusted. */
    method ConsiderCert(id: uint64, i: nat)
      requires Valid() && ScopesUsable(Table()) && Scanning(Table(), id, i) && i < |Table()[id].certs|
      requires var s := Table()[id].certs[i].signer; s in keys && (s == id || IsTrusted(Table()[s].trust))
      modifies keys[id]
      ensures Table() == Consider(env, old(Table()), id, i)
    {
      var cert := keys[id].certs[i];
      if !Verifies(env, keys[cert.signer].pub, cert) {
        return;
      }
      var authScope := EffectiveScope(id, cert);
      ChooseIfUsable(id, i, authScope);
    }

    /** Passes over a certificate that leaves no authority. */
    method ChooseIfUsable(id: uint64, i: nat, scope: Scope)
      requires Valid() && Scanning(Table(), id, i) && i < |Table()[id].certs|
      modifies keys[id]
      ensures var m := old(Table()); var key := m[id];
        Table() == if scope.apps != [] && scope.pops != []
                      && (key.newest < 0 || key.certs[key.newest].created < key.certs[i].created)
          then m[id := key.(scope := scope, newest := i)] else m
    {
      if |scope.apps| == 0 {
        return;
      }
      if |scope.pops| == 0 {
        return;
      }
      ChooseIfNewer(id, i, scope);
    }

    /** Chooses a valid certificate if it is the first one or newer than the best so far. */
    method ChooseIfNewer(id: uint64, i: nat, scope: Scope)
      requires Valid() && Scanning(Table(), id, i) && i < |Table()[id].certs|
      modifies keys[id]
      ensures var m := old(Table()); var key := m[id];
        Table() == if key.newest < 0 || key.certs[key.newest].created < key.certs[i].created
          then m[id := key.(scope := scope, newest := i)] else m
    {
      var key := keys[id];
      if key.newest < 0 || key.certs[key.newest].created < key.certs[i].created {
        SetBest(id, scope, i);
      }
    }

    /** The authority the certificate passes on to its key. */
    method EffectiveScope(id: uint64, cert: Cert) returns (scope: Scope)
      requires Valid() && ScopesUsable(Table()) && id in keys && cert in keys[id].certs
      requires cert.signer in keys && (cert.signer == id || IsTrusted(Table()[cert.signer].trust))
      ensures scope == LinkScope(Table(), id, cert)
    {
      scope := cert.scope;
      if keys[cert.signer] != keys[id] {
        IntersectionsNonEmpty(Table(), id, cert);
        scope := IntersectScopes(keys[cert.signer].scope, cert.scope);
      }
    }

    /** The store is as before but with trust brought up to date. */
    twostate predicate Refreshed()
      reads this, keys.Values
    {
      Valid() && fresh(keys.Values - old(keys.Values)) && RefreshedFrom(env, old(State()), State())
    }

    /** Recomputes the trust of every key unless it is known to be up to date. */
    method EnsureTrustValid()
      requires Valid() && Inv(env, State())
      modifies this, keys.Values
      ensures Refreshed()
    {
      EnsureRefreshes(env, State());
      UpdateTrust();
    }

    method UpdateTrust()
      requires Valid() && Inv(env, State()) && Listed(State())
      modifies this, keys.Values
      ensures Valid() && State() == StoreModel.EnsureTrustValid(env, old(State()))
      ensures fresh(keys.Values - old(keys.Values))
    {
      OneTimeInitKeeps(env, State());
      OneTimeInit();
      if !trustValid {
        RecomputeAll();
      }
    }

    method RecomputeAll()
      requires Valid() && Inv(env, State())
      modifies this`trustValid, keys.Values
      ensures keys == old(keys) && order == old(order)
      ensures Listed(old(State()))
      ensures State() == old(State()).(keys := Recompute(env, old(Table()), order), valid := true)
    {
      ForgottenUsable(env, Table());
      RecomputeTable();
      MarkValid();
    }

    method MarkValid()
      modifies this`trustValid
      ensures keys == old(keys) && order == old(order)
      ensures State() == old(State()).(valid := true)
    {
      trustValid := true;
    }

    method RecomputeTable()
      requires Valid() && Covers(order, Table()) && ScopesUsable(Forget(Table()))
      modifies keys.Values
      ensures keys == old(keys) && order == old(order)
      ensures Table() == Recompute(env, old(Table()), order)
    {
      ForgetTrust();
      EvaluateAllKeys();
    }

    /** Marks everything not in a terminal state as unknown. */
    method ForgetTrust()
      requires Valid() && Covers(order, Table())
      modifies keys.Values
      ensures Table() == Forget(old(Table()))
    {
      ghost var m := Table();
      for i := 0 to |order|
        invariant Table() == ForgetListed(m, order[..i])
      {
        var id := order[i];
        if keys[id].trust != Revoked && keys[id].trust != Hardcoded {
          SetTrust(id, Unknown);
        }
        ForgetListedStep(m, order, i);
      }
      assert order[..|order|] == order;
      ForgetListedAll(m, order);
    }

    method EvaluateAllKeys()
      requires Valid() && ScopesUsable(Table())
      modifies keys.Values
      ensures Table() == EvaluateAll(env, old(Table()), order)
    {
      ghost var m := Table();
      assert order[0..] == order;
      for i := 0 to |order|
        invariant Table().Keys == m.Keys && ScopesUsable(Table())
        invariant EvaluateAll(env, Table(), order[i..]) == EvaluateAll(env, m, order)
      {
        ghost var before := Table();
        EvaluateUsable(env, before, order[i]);
        EvaluateAllStep(env, before, order, i);
        RecursiveEvaluateKeyTrust(order[i]);
      }
    }

    /** Checks a signature by a CA key; on success returns the authority granted to that key. */
    method CheckCASignature(data: Bytes, caKeyId: uint64, signature: Bytes, now: int)
      returns (r: Result<Scope, CheckError>)
      requires Valid() && Inv(env, State())
      modifies this, keys.Values
      ensures Refreshed()
      ensures r == CASignatureVerdict(env, Table(), data, caKeyId, signature, now)
    {
      EnsureTrustValid();
      r := JudgeCASignature(data, caKeyId, signature, now);
    }

    method JudgeCASignature(data: Bytes, caKeyId: uint64, signature: Bytes, now: int)
      returns (r: Result<Scope, CheckError>)
      ensures Valid() == old(Valid()) && State() == old(State())
      ensures r == CASignatureVerdict(env, Table(), data, caKeyId, signature, now)
    {
      if |data| == 0 {
        return Err(NoSignedData);
      }
      if |signature| == 0 {
        return Err(NoSignature);
      }
      if caKeyId == 0 {
        return Err(MissingCaKeyId);
      }
      if caKeyId !in keys {
        return Err(UnknownCaKey);
      }
      var key := keys[caKeyId];
      if !key.Trusted() {
        return Err(CaKeyNotTrusted);
      }
      if key.scope.expiry < now {
        return Err(CaKeyExpired);
      }
      if |signature| != SIGNATURE_SIZE {
        return Err(SignatureLength);
      }
      if !(key.pub.Some? && env.verify(key.pub.value, data, signature)) {
        return Err(SignatureInvalid);
      }
      r := Ok(key.scope);
    }

    /** Checks a certificate, its signer's chain, and that its own key has not been revoked. */
    method CheckCert(msg: SignedCert, now: int) returns (r: Result<Scope, CheckError>)
      requires Valid() && Inv(env, State())
      modifies this, keys.Values
      ensures Refreshed()
      ensures r == CertVerdict(env, Table(), msg, now)
    {
      var signed := CheckCASignature(msg.cert, msg.caKeyId, msg.caSignature, now);
      r := JudgeCert(msg, now, signed);
    }

    method JudgeCert(msg: SignedCert, now: int, signed: Result<Scope, CheckError>)
      returns (r: Result<Scope, CheckError>)
      requires signed == CASignatureVerdict(env, Table(), msg.cert, msg.caKeyId, msg.caSignature, now)
      ensures Valid() == old(Valid()) && State() == old(State())
      ensures r == CertVerdict(env, Table(), msg, now)
    {
      if signed.Err? {
        return signed;
      }
      var parsed := env.parse(msg.cert);
      if parsed.None? {
        return Err(CertParseFailed);
      }
      if parsed.value.expiry < now {
        return Err(CertExpired);
      }
      if !parsed.value.ed25519 {
        return Err(CertKeyType);
      }
      var id := env.keyId(parsed.value.keyData);
      if id == 0 {
        return Err(CertBadKey);
      }
      if id in keys && keys[id].trust != NotTrusted && !keys[id].Trusted() {
        return Err(CertKeyRevoked);
      }
      r := signed;
    }

    /** Checks that the store itself vouches for a public key. */
    method CheckPublicKey(id: uint64, now: int) returns (r: Result<Scope, CheckError>)
      requires Valid() && Inv(env, State())
      modifies this, keys.Values
      ensures Refreshed()
      ensures r == PublicKeyVerdict(Table(), id, now)
    {
      EnsureTrustValid();
      r := JudgePublicKey(id, now);
    }

    method JudgePublicKey(id: uint64, now: int) returns (r: Result<Scope, CheckError>)
      ensures Valid() == old(Valid()) && State() == old(State())
      ensures r == PublicKeyVerdict(Table(), id, now)
    {
      if id in keys && keys[id].trust == Revoked {
        return Err(KeyRevoked);
      }
      if id !in keys || !keys[id].Trusted() {
        return Err(KeyNotTrusted);
      }
      if keys[id].scope.expiry < now {
        return Err(KeyExpired);
      }
      r := Ok(keys[id].scope);
    }
  }
}
