/**
 * Trust evaluation over the table of public keys, as functions on values.
 * `CertStore.Store` performs the same steps on objects and is proved to compute these functions.
 */
module Trust {
  import opened Common
  import opened AuthScope

  datatype Trust = Revoked | NotTrusted | Working | Unknown | Trusted | Hardcoded

  /** Trust states at or above "trusted". */
  predicate IsTrusted(t: Trust) {
    t == Trusted || t == Hardcoded
  }

  /** States a recomputation leaves alone. */
  predicate IsTerminal(t: Trust) {
    t == Revoked || t == Hardcoded
  }

  /** States in which a verdict has been reached. */
  predicate IsDecided(t: Trust) {
    t != Unknown && t != Working
  }

  datatype Cert = Cert(signedData: Bytes, signer: uint64, signature: Bytes, scope: Scope, created: int)

  datatype Key = Key(trust: Trust, pub: Option<Bytes>, certs: seq<Cert>, scope: Scope, newest: int)

  type Keys = map<uint64, Key>

  /** The fields of a certificate the store looks at, once parsed. */
  datatype CertBody = CertBody(
    identityBound: bool, ed25519: bool, keyData: Bytes, created: uint32, expiry: uint32, pops: Items, apps: Items)

  /**
   * What the store takes from outside: signature verification (public key, data, signature), the
   * hash naming a public key, the parser of signed bytes, and the root key compiled in, if any.
   */
  datatype Env = Env(
    verify: (Bytes, Bytes, Bytes) -> bool,
    keyId: Bytes -> uint64,
    parse: Bytes -> Option<CertBody>,
    root: Option<Bytes>)

  predicate Verifies(env: Env, pub: Option<Bytes>, c: Cert) {
    pub.Some? && env.verify(pub.value, c.signedData, c.signature)
  }

  ghost function UnknownKeys(m: Keys): set<uint64> {
    set k | k in m && m[k].trust == Unknown
  }

  /** `r` results from `m` by deciding some unknown keys and touching nothing else. */
  ghost predicate Extends(m: Keys, r: Keys) {
    && r.Keys == m.Keys
    && forall k :: k in m ==> Advances(m[k], r[k])
  }

  ghost predicate Advances(before: Key, after: Key) {
    && (before.trust != Unknown ==> after == before)
    && after.certs == before.certs && after.pub == before.pub
    && (before.trust == Unknown ==> after == before || after.trust == Trusted || after.trust == NotTrusted)
  }

  lemma ExtendsTransitive(a: Keys, b: Keys, c: Keys)
    requires Extends(a, b) && Extends(b, c)
    ensures Extends(a, c)
  {
    forall k | k in a ensures Advances(a[k], c[k]) {
      assert Advances(a[k], b[k]) && Advances(b[k], c[k]);
    }
  }

  lemma ExtendsUnknown(m: Keys, r: Keys)
    requires Extends(m, r)
    ensures UnknownKeys(r) <= UnknownKeys(m)
  {
    forall k | k in UnknownKeys(r) ensures k in UnknownKeys(m) {
      assert Advances(m[k], r[k]);
    }
  }

  /** Evaluates one key, first evaluating the keys that signed its certificates. */
  function Evaluate(env: Env, m: Keys, id: uint64): (r: Keys)
    requires id in m
    ensures Extends(m, r)
    ensures r[id].trust != Unknown
    decreases UnknownKeys(m), 0, 0
  {
    if m[id].trust != Unknown then
      m
    else
      var m1 := m[id := m[id].(trust := Working, newest := -1)];
      assert UnknownKeys(m1) == UnknownKeys(m) - {id};
      if m[id].certs == [] then
        m[id := m[id].(trust := NotTrusted, newest := -1)]
      else
        var m2 := ScanCerts(env, m1, id, 0);
        var r := Conclude(m2, id);
        FinishExtends(m, m1, m2, r, id);
        r
  }

  /** The state while `id` is being worked on and certificates before `i` have been looked at. */
  ghost predicate Scanning(m: Keys, id: uint64, i: nat) {
    && id in m
    && m[id].trust == Working
    && i <= |m[id].certs|
    && -1 <= m[id].newest < i
  }

  /** Other keys may have been decided; the key being worked on only had its best certificate updated. */
  ghost predicate ScanExtends(m: Keys, r: Keys, id: uint64) {
    && id in m && id in r
    && r[id] == m[id].(scope := r[id].scope, newest := r[id].newest)
    && Extends(m, r[id := m[id]])
  }

  lemma ScanExtendsTransitive(a: Keys, b: Keys, c: Keys, id: uint64)
    requires ScanExtends(a, b, id) && ScanExtends(b, c, id)
    ensures ScanExtends(a, c, id)
  {
    var b', c', c'' := b[id := a[id]], c[id := b[id]], c[id := a[id]];
    assert c''.Keys == a.Keys;
    forall k | k in a ensures Advances(a[k], c''[k]) {
      assert Advances(a[k], b'[k]);
      assert Advances(b[k], c'[k]);
    }
  }

  lemma ScanExtendsUnknown(m: Keys, r: Keys, id: uint64)
    requires ScanExtends(m, r, id) && m[id].trust != Unknown
    ensures UnknownKeys(r) <= UnknownKeys(m)
  {
    var r' := r[id := m[id]];
    ExtendsUnknown(m, r');
    assert UnknownKeys(r) <= UnknownKeys(r');
  }

  /** The loop over the certificates of `id`, from index `i` on. */
  function ScanCerts(env: Env, m: Keys, id: uint64, i: nat): (r: Keys)
    requires Scanning(m, id, i)
    ensures ScanExtends(m, r, id)
    ensures Scanning(r, id, |m[id].certs|)
    decreases UnknownKeys(m), 1, |m[id].certs| - i
  {
    if i == |m[id].certs| then
      m
    else
      var m' := ScanCert(env, m, id, i);
      ScanExtendsUnknown(m, m', id);
      var r := ScanCerts(env, m', id, i + 1);
      ScanExtendsTransitive(m, m', r, id);
      r
  }

  lemma ScanCertsStep(env: Env, m: Keys, id: uint64, i: nat)
    requires Scanning(m, id, i) && i < |m[id].certs|
    ensures Scanning(ScanCert(env, m, id, i), id, i + 1)
    ensures ScanCerts(env, m, id, i) == ScanCerts(env, ScanCert(env, m, id, i), id, i + 1)
  {
  }

  /** One certificate: find the signer, make sure it is trusted, and consider the certificate. */
  function ScanCert(env: Env, m: Keys, id: uint64, i: nat): (r: Keys)
    requires Scanning(m, id, i) && i < |m[id].certs|
    ensures ScanExtends(m, r, id)
    ensures Scanning(r, id, i + 1)
    decreases UnknownKeys(m), 1, |m[id].certs| - i, 0
  {
    var signer := m[id].certs[i].signer;
    if signer !in m then
      m
    else if signer == id then
      if env.root.Some? then m else Consider(env, m, id, i)
    else if m[signer].trust == Working then
      m
    else
      var m' := Evaluate(env, m, signer);
      assert Advances(m[id], m'[id]);
      assert m'[id := m[id]] == m';
      if IsTrusted(m'[signer].trust) then
        var r := Consider(env, m', id, i);
        ScanExtendsTransitive(m, m', r, id);
        r
      else
        m'
  }

  /** The authority a certificate passes on, given its signer's. */
  function LinkScope(m: Keys, id: uint64, c: Cert): Scope
    requires c.signer in m
  {
    if c.signer == id then c.scope else MeetScope(m[c.signer].scope, c.scope)
  }

  /** Checks the signature and the resulting authority, and keeps the newest certificate that passes. */
  function Consider(env: Env, m: Keys, id: uint64, i: nat): (r: Keys)
    requires Scanning(m, id, i) && i < |m[id].certs| && m[id].certs[i].signer in m
    ensures ScanExtends(m, r, id)
    ensures Scanning(r, id, i + 1)
  {
    var key := m[id];
    var c := key.certs[i];
    var scope := LinkScope(m, id, c);
    assert m[id := m[id]] == m;
    if !Verifies(env, m[c.signer].pub, c) || scope.apps == [] || scope.pops == [] then
      m
    else if key.newest < 0 || key.certs[key.newest].created < c.created then
      var r := m[id := key.(scope := scope, newest := i)];
      assert r[id := m[id]] == m;
      r
    else
      m
  }

  /** Trusted if a valid certificate was found. */
  function Conclude(m: Keys, id: uint64): Keys
    requires id in m
  {
    if m[id].newest < 0 then
      m[id := m[id].(trust := NotTrusted, scope := EMPTY_SCOPE)]
    else
      m[id := m[id].(trust := Trusted)]
  }

  lemma FinishExtends(m: Keys, m1: Keys, m2: Keys, r: Keys, id: uint64)
    requires id in m && m[id].trust == Unknown
    requires m1 == m[id := m[id].(trust := Working, newest := -1)]
    requires ScanExtends(m1, m2, id) && r == Conclude(m2, id)
    ensures Extends(m, r)
  {
    var m2' := m2[id := m1[id]];
    assert m2'.Keys == m2.Keys && r.Keys == m2.Keys && m1.Keys == m.Keys;
    forall k | k in m ensures Advances(m[k], r[k]) {
      assert Advances(m1[k], m2'[k]);
    }
  }

  /** The pass over all keys in iteration order. */
  function EvaluateAll(env: Env, m: Keys, order: seq<uint64>): (r: Keys)
    requires forall k :: k in order ==> k in m
    ensures Extends(m, r)
    ensures forall k :: k in order ==> r[k].trust != Unknown
  {
    if order == [] then
      m
    else
      var m' := Evaluate(env, m, order[0]);
      var r := EvaluateAll(env, m', order[1..]);
      ExtendsTransitive(m, m', r);
      assert Advances(m'[order[0]], r[order[0]]);
      r
  }

  lemma EvaluateAllStep(env: Env, m: Keys, order: seq<uint64>, i: nat)
    requires i < |order| && forall k :: k in order ==> k in m
    ensures EvaluateAll(env, m, order[i..]) == EvaluateAll(env, Evaluate(env, m, order[i]), order[i + 1..])
  {
    assert order[i..][0] == order[i] && order[i..][1..] == order[i + 1..];
  }

  /** Marks every key not in a terminal state as unknown. */
  function Forget(m: Keys): (r: Keys)
    ensures r.Keys == m.Keys
  {
    map k | k in m :: if IsTerminal(m[k].trust) then m[k] else m[k].(trust := Unknown)
  }

  /** The table with only the listed keys marked so far. */
  ghost function ForgetListed(m: Keys, listed: seq<uint64>): Keys {
    map k | k in m :: if k in listed then Forget(m)[k] else m[k]
  }

  lemma ForgetListedStep(m: Keys, order: seq<uint64>, i: nat)
    requires i < |order| && order[i] in m
    ensures var id := order[i]; var before := ForgetListed(m, order[..i]);
      ForgetListed(m, order[..i + 1]) ==
        if IsTerminal(before[id].trust) then before else before[id := before[id].(trust := Unknown)]
  {
    assert order[..i + 1] == order[..i] + [order[i]];
  }

  lemma ForgetListedAll(m: Keys, order: seq<uint64>)
    requires forall k :: k in m ==> k in order
    ensures ForgetListed(m, order) == Forget(m)
  {
  }

  function Recompute(env: Env, m: Keys, order: seq<uint64>): (r: Keys)
    requires forall k :: k in order ==> k in m
    ensures r.Keys == m.Keys
  {
    EvaluateAll(env, Forget(m), order)
  }
}
