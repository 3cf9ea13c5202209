/** Evaluation only ever intersects non-empty sorted lists. */
module TrustScopes {
  import opened Common
  import opened AuthScope
  import opened Trust

  /** The authority of every trusted key, and every certificate's, is usable. */
  ghost predicate ScopesUsable(m: Keys) {
    forall k :: k in m ==> KeyUsable(m[k])
  }

  ghost predicate KeyUsable(key: Key) {
    && (IsTrusted(key.trust) || (key.trust == Working && key.newest >= 0) ==> Usable(key.scope))
    && forall i :: 0 <= i < |key.certs| ==> Usable(key.certs[i].scope)
  }

  /** Marking a key as being worked on. */
  lemma BegunUsable(m: Keys, id: uint64)
    requires id in m && m[id].trust == Unknown && ScopesUsable(m)
    ensures var m1 := m[id := m[id].(trust := Working, newest := -1)];
      ScopesUsable(m1) && UnknownKeys(m1) == UnknownKeys(m) - {id}
  {
    assert KeyUsable(m[id]);
  }

  lemma {:induction false} EvaluateUsable(env: Env, m: Keys, id: uint64)
    requires id in m && ScopesUsable(m)
    ensures ScopesUsable(Evaluate(env, m, id))
    decreases UnknownKeys(m), 0, 0
  {
    if m[id].trust == Unknown && m[id].certs != [] {
      var m1 := m[id := m[id].(trust := Working, newest := -1)];
      BegunUsable(m, id);
      ScanCertsUsable(env, m1, id, 0);
      assert KeyUsable(ScanCerts(env, m1, id, 0)[id]);
    }
  }

  lemma {:induction false} ScanCertsUsable(env: Env, m: Keys, id: uint64, i: nat)
    requires Scanning(m, id, i) && ScopesUsable(m)
    ensures ScopesUsable(ScanCerts(env, m, id, i))
    decreases UnknownKeys(m), 1, |m[id].certs| - i
  {
    if i < |m[id].certs| {
      ScanCertUsable(env, m, id, i);
      ScanExtendsUnknown(m, ScanCert(env, m, id, i), id);
      ScanCertsUsable(env, ScanCert(env, m, id, i), id, i + 1);
      ScanCertsStep(env, m, id, i);
    }
  }

  lemma {:induction false} ScanCertUsable(env: Env, m: Keys, id: uint64, i: nat)
    requires Scanning(m, id, i) && i < |m[id].certs| && ScopesUsable(m)
    ensures ScopesUsable(ScanCert(env, m, id, i))
    decreases UnknownKeys(m), 1, |m[id].certs| - i, 0
  {
    var signer := m[id].certs[i].signer;
    if signer == id {
      ConsiderUsable(env, m, id, i);
    } else if signer in m && m[signer].trust != Working {
      var m' := Evaluate(env, m, signer);
      EvaluateUsable(env, m, signer);
      assert Advances(m[id], m'[id]);
      if IsTrusted(m'[signer].trust) {
        ConsiderUsable(env, m', id, i);
      }
    }
  }

  lemma ConsiderUsable(env: Env, m: Keys, id: uint64, i: nat)
    requires Scanning(m, id, i) && i < |m[id].certs| && ScopesUsable(m)
    requires var s := m[id].certs[i].signer; s in m && (s == id || IsTrusted(m[s].trust))
    ensures ScopesUsable(Consider(env, m, id, i))
  {
    var c := m[id].certs[i];
    assert KeyUsable(m[id]) && KeyUsable(m[c.signer]);
    var scope := LinkScope(m, id, c);
    if scope.apps != [] && scope.pops != [] && c.signer != id {
      MeetScopeUsable(m[c.signer].scope, c.scope);
    }
  }

  /** Every pair of lists met when a certificate is considered may safely be scanned in parallel. */
  lemma IntersectionsNonEmpty(m: Keys, k: uint64, c: Cert)
    requires ScopesUsable(m) && k in m && c in m[k].certs && c.signer in m && IsTrusted(m[c.signer].trust)
    ensures m[c.signer].scope.pops != [] && c.scope.pops != []
    ensures m[c.signer].scope.apps != [] && c.scope.apps != []
  {
    assert KeyUsable(m[k]) && KeyUsable(m[c.signer]);
  }

  // ---------- the loop over the certificates, step by step ----------

  /** The loop over the certificates of `id` has come from `m` to `t`, with those before `i` looked at. */
  ghost predicate ScannedTo(env: Env, m: Keys, t: Keys, id: uint64, i: nat) {
    && Scanning(m, id, 0) && Scanning(t, id, i) && t[id].certs == m[id].certs
    && ScanCerts(env, t, id, i) == ScanCerts(env, m, id, 0)
    && UnknownKeys(t) <= UnknownKeys(m) && ScopesUsable(t)
  }

  lemma ScannedStep(env: Env, m: Keys, t: Keys, id: uint64, i: nat)
    requires ScannedTo(env, m, t, id, i) && i < |t[id].certs|
    ensures ScannedTo(env, m, ScanCert(env, t, id, i), id, i + 1)
  {
    ScanCertsStep(env, t, id, i);
    ScanCertUsable(env, t, id, i);
    ScanExtendsUnknown(t, ScanCert(env, t, id, i), id);
  }

  lemma ScannedAll(env: Env, m: Keys, t: Keys, id: uint64)
    requires id in t && ScannedTo(env, m, t, id, |t[id].certs|)
    ensures t == ScanCerts(env, m, id, 0)
  {
  }
}
