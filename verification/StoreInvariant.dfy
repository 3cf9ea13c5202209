/** What every operation of the certificate store keeps. */
module StoreInvariant {
  import opened Common
  import opened Sorting
  import opened AuthScope
  import opened Trust
  import opened TrustChains
  import opened TrustOrder
  import opened TrustCache
  import opened TrustScopes
  import opened StoreModel

  /** A stored certificate says what its signed bytes say, and they are about the key it is stored under. */
  ghost predicate CertOk(env: Env, pub: Bytes, c: Cert) {
    && c.signedData != [] && |c.signature| == SIGNATURE_SIZE
    && env.parse(c.signedData).Some?
    && var body := env.parse(c.signedData).value;
       body.keyData == pub && body.expiry > 0 && c.created == body.created && c.scope == ScopeOf(body)
  }

  ghost predicate KeyOk(env: Env, id: uint64, key: Key) {
    && key.trust != Working
    && (!IsTerminal(key.trust) ==> key.certs != [])
    && (key.pub.None? ==> key.trust == Revoked && key.certs == [])
    && (key.pub.Some? ==> env.keyId(key.pub.value) == id)
    && (forall i :: 0 <= i < |key.certs| ==> key.pub.Some? && CertOk(env, key.pub.value, key.certs[i]))
    && (key.trust == Hardcoded ==> env.root.Some? && key.pub == env.root && key.scope == ALL_SCOPE)
  }

  ghost predicate KeysOk(env: Env, m: Keys) {
    forall k :: k in m ==> KeyOk(env, k, m[k])
  }

  /** A table marked as up to date is what recomputing it would give. */
  ghost predicate UpToDate(env: Env, s: Store) {
    Listed(s) && Recompute(env, s.keys, s.order) == s.keys
  }

  ghost predicate Inv(env: Env, s: Store) {
    && Distinct(s.order) && Covers(s.order, s.keys)
    && KeysOk(env, s.keys)
    && (s.valid ==> UpToDate(env, s) && (env.root.Some? ==> |s.keys| > 0))
  }

  lemma ScopeOfUsable(body: CertBody)
    requires body.expiry > 0
    ensures Usable(ScopeOf(body))
  {
    SetupListCorrect(body.pops);
    SetupListCorrect(body.apps);
  }

  lemma KeysOkPopulated(env: Env, m: Keys)
    requires KeysOk(env, m)
    ensures Populated(m)
  {
    forall k | k in m && !IsTerminal(m[k].trust) ensures m[k].certs != [] {
      assert KeyOk(env, k, m[k]);
    }
  }

  /** When a pass starts, everything it will intersect is usable. */
  lemma ForgottenUsable(env: Env, m: Keys)
    requires KeysOk(env, m)
    ensures ScopesUsable(Forget(m))
  {
    forall k | k in m ensures KeyUsable(Forget(m)[k]) {
      assert KeyOk(env, k, m[k]);
      forall i | 0 <= i < |m[k].certs| ensures Usable(m[k].certs[i].scope) {
        assert CertOk(env, m[k].pub.value, m[k].certs[i]);
        ScopeOfUsable(env.parse(m[k].certs[i].signedData).value);
      }
    }
  }

  lemma RecomputeKeysOk(env: Env, m: Keys, order: seq<uint64>)
    requires KeysOk(env, m) && Covers(order, m)
    ensures KeysOk(env, Recompute(env, m, order))
  {
    RecomputeShape(env, m, order);
    var r := Recompute(env, m, order);
    forall k | k in r ensures KeyOk(env, k, r[k]) {
      assert SameNode(m[k], r[k]) && KeyOk(env, k, m[k]);
    }
  }

  lemma AppendDistinct(order: seq<uint64>, id: uint64)
    requires Distinct(order) && id !in order
    ensures Distinct(order + [id])
  {
  }

  /** Replacing or adding one well-formed key, with the flag cleared, keeps the invariant. */
  lemma KeyChangeKeeps(env: Env, s: Store, id: uint64, key: Key)
    requires Inv(env, s) && KeyOk(env, id, key)
    ensures Inv(env, Store(s.keys[id := key], if id in s.keys then s.order else s.order + [id], false))
  {
    if id !in s.keys {
      AppendDistinct(s.order, id);
    }
  }

  lemma OneTimeInitKeeps(env: Env, s: Store)
    requires Inv(env, s)
    ensures Inv(env, OneTimeInit(env, s))
    ensures env.root.Some? ==> |OneTimeInit(env, s).keys| > 0
  {
    if env.root.Some? && |s.keys| == 0 {
      KeyChangeKeeps(env, s, env.keyId(env.root.value), RootKey(env.root.value));
    }
  }

  lemma RevocationKeeps(env: Env, s: Store, id: uint64)
    requires Inv(env, s)
    ensures Inv(env, AddKeyRevocation(s, id))
  {
    if id !in s.keys || s.keys[id].trust != Revoked {
      assert id in s.keys ==> KeyOk(env, id, s.keys[id]);
      KeyChangeKeeps(env, s, id, AddKeyRevocation(s, id).keys[id]);
    }
  }

  lemma SetupCertOk(env: Env, msg: SignedCert)
    ensures SetupCert(env, msg).Ok? ==>
      CertOk(env, SetupCert(env, msg).value.1, SetupCert(env, msg).value.0)
  {
  }

  lemma ProvideKeyOk(env: Env, s: Store, cert: Cert, pub: Bytes)
    requires Inv(env, s) && CertOk(env, pub, cert)
    requires !Collides(s, env.keyId(pub), pub)
    ensures var id := env.keyId(pub); var key := ProvideKey(s, id, pub).keys[id];
      && key.pub == Some(pub)
      && KeyOk(env, id, key.(certs := key.certs + [cert]))
      && (id in s.keys && s.keys[id].pub.Some? ==> key == s.keys[id])
      && (HasSignature(key.certs, cert.signature) ==> id in s.keys && s.keys[id].pub.Some?)
  {
    var id := env.keyId(pub);
    if id in s.keys {
      assert KeyOk(env, id, s.keys[id]);
    }
    var key := ProvideKey(s, id, pub).keys[id];
    var certs := key.certs + [cert];
    forall i | 0 <= i < |certs| ensures CertOk(env, pub, certs[i]) {
      assert i < |key.certs| ==> certs[i] == key.certs[i];
    }
  }

  lemma KnownCertKeeps(env: Env, s: Store, cert: Cert, pub: Bytes)
    requires Inv(env, s) && CertOk(env, pub, cert) && !Collides(s, env.keyId(pub), pub)
    requires HasSignature(ProvideKey(s, env.keyId(pub), pub).keys[env.keyId(pub)].certs, cert.signature)
    ensures ProvideKey(s, env.keyId(pub), pub) == s
  {
    var id := env.keyId(pub);
    ProvideKeyOk(env, s, cert, pub);
    assert s.keys[id := ProvideKey(s, id, pub).keys[id]] == s.keys;
  }

  lemma AppendedCert(s: Store, id: uint64, pub: Bytes, cert: Cert)
    ensures var key := ProvideKey(s, id, pub).keys[id];
      AppendCert(ProvideKey(s, id, pub), id, cert)
      == Store(s.keys[id := key.(certs := key.certs + [cert])], if id in s.keys then s.order else s.order + [id], false)
  {
    var key := ProvideKey(s, id, pub).keys[id];
    var key' := key.(certs := key.certs + [cert]);
    assert ProvideKey(s, id, pub).keys[id := key'] == s.keys[id := key'];
  }

  lemma NewCertKeeps(env: Env, s: Store, cert: Cert, pub: Bytes)
    requires Inv(env, s) && CertOk(env, pub, cert) && !Collides(s, env.keyId(pub), pub)
    ensures Inv(env, AppendCert(ProvideKey(s, env.keyId(pub), pub), env.keyId(pub), cert))
  {
    var id := env.keyId(pub);
    var key := ProvideKey(s, id, pub).keys[id];
    ProvideKeyOk(env, s, cert, pub);
    KeyChangeKeeps(env, s, id, key.(certs := key.certs + [cert]));
    AppendedCert(s, id, pub, cert);
  }

  lemma InsertCertKeeps(env: Env, s: Store, cert: Cert, pub: Bytes)
    requires Inv(env, s) && CertOk(env, pub, cert)
    ensures Inv(env, InsertCert(env, s, cert, pub).0)
  {
    var id := env.keyId(pub);
    if !Collides(s, id, pub) {
      if HasSignature(ProvideKey(s, id, pub).keys[id].certs, cert.signature) {
        KnownCertKeeps(env, s, cert, pub);
      } else {
        NewCertKeeps(env, s, cert, pub);
      }
    }
  }

  lemma AddCertKeeps(env: Env, s: Store, msg: Option<SignedCert>)
    requires Inv(env, s)
    ensures Inv(env, AddCert(env, s, msg).0)
  {
    OneTimeInitKeeps(env, s);
    if msg.Some? && SetupCert(env, msg.value).Ok? {
      SetupCertOk(env, msg.value);
      var (cert, pub) := SetupCert(env, msg.value).value;
      InsertCertKeeps(env, OneTimeInit(env, s), cert, pub);
    }
  }

  lemma ProvidedKeyStays(s: Store, id: uint64, pub: Bytes)
    requires id in s.keys && s.keys[id].pub == Some(pub)
    ensures ProvideKey(s, id, pub) == s
  {
    assert s.keys[id := s.keys[id].(pub := Some(pub))] == s.keys;
  }

  lemma InsertedTwice(env: Env, s: Store, cert: Cert, pub: Bytes)
    requires InsertCert(env, s, cert, pub).1
    ensures InsertCert(env, InsertCert(env, s, cert, pub).0, cert, pub) == (InsertCert(env, s, cert, pub).0, true)
  {
    var id := env.keyId(pub);
    var t := InsertCert(env, s, cert, pub).0;
    var certs := ProvideKey(s, id, pub).keys[id].certs;
    assert t.keys[id].pub == Some(pub);
    if !HasSignature(certs, cert.signature) {
      assert t.keys[id].certs[|certs|].signature == cert.signature;
    }
    ProvidedKeyStays(t, id, pub);
  }

  /** Adding a certificate again is accepted and changes nothing, so trust need not be recomputed. */
  lemma AddedTwice(env: Env, s: Store, msg: SignedCert)
    requires AddCert(env, s, Some(msg)).1
    ensures AddCert(env, AddCert(env, s, Some(msg)).0, Some(msg)) == (AddCert(env, s, Some(msg)).0, true)
  {
    var (cert, pub) := SetupCert(env, msg).value;
    InsertedTwice(env, OneTimeInit(env, s), cert, pub);
    var t := AddCert(env, s, Some(msg)).0;
    assert env.keyId(pub) in t.keys;
    assert |t.keys| > 0;
    assert OneTimeInit(env, t) == t;
  }

  lemma RecomputedUpToDate(env: Env, s: Store)
    requires KeysOk(env, s.keys) && Covers(s.order, s.keys)
    ensures UpToDate(env, Store(Recompute(env, s.keys, s.order), s.order, true))
  {
    KeysOkPopulated(env, s.keys);
    RecomputeIdempotent(env, s.keys, s.order);
  }

  lemma RecomputedKeeps(env: Env, s: Store)
    requires Inv(env, s) && (env.root.Some? ==> |s.keys| > 0)
    ensures Covers(s.order, s.keys)
    ensures Inv(env, s.(keys := Recompute(env, s.keys, s.order), valid := true))
  {
    var r := Recompute(env, s.keys, s.order);
    RecomputeKeysOk(env, s.keys, s.order);
    RecomputedUpToDate(env, s);
    assert |r| == |r.Keys| && |s.keys| == |s.keys.Keys|;
  }

  /** `r` is `s` with trust brought up to date. */
  ghost predicate RefreshedFrom(env: Env, s: Store, r: Store) {
    Inv(env, r) && Listed(s) && r == EnsureTrustValid(env, s)
  }

  lemma EnsureRefreshes(env: Env, s: Store)
    requires Inv(env, s)
    ensures Listed(s) && RefreshedFrom(env, s, EnsureTrustValid(env, s))
  {
    EnsureKeeps(env, s);
  }

  lemma EnsureKeeps(env: Env, s: Store)
    requires Inv(env, s)
    ensures Listed(s)
    ensures Inv(env, EnsureTrustValid(env, s))
    ensures EnsureTrustValid(env, s).valid
  {
    OneTimeInitKeeps(env, s);
    RecomputedKeeps(env, OneTimeInit(env, s));
  }
}
