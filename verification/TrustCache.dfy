/** A recomputation depends on nothing an earlier one left behind, so repeating it changes nothing. */
module TrustCache {
  import opened Common
  import opened AuthScope
  import opened Trust
  import opened TrustOrder

  /**
   * Equal but for what evaluation overwrites before reading: the stale authority and choice of an
   * unknown key, and the stale authority of a key without a valid certificate so far.
   */
  ghost predicate Alike(a: Key, b: Key) {
    && a.trust == b.trust && a.certs == b.certs && a.pub == b.pub
    && (IsDecided(a.trust) ==> a == b)
    && (a.trust == Working ==> a.newest == b.newest && (a.newest >= 0 ==> a.scope == b.scope))
  }

  ghost predicate AlikeKeys(m: Keys, r: Keys) {
    m.Keys == r.Keys && forall k :: k in m ==> Alike(m[k], r[k])
  }

  lemma AlikeUpdate(m: Keys, r: Keys, k: uint64, a: Key, b: Key)
    requires AlikeKeys(m, r) && Alike(a, b)
    ensures AlikeKeys(m[k := a], r[k := b])
  {
  }

  /** The tables when a key starts being worked on. */
  lemma BegunAlike(m: Keys, r: Keys, id: uint64)
    requires AlikeKeys(m, r) && id in m && m[id].trust == Unknown && Populated(m)
    ensures var m1 := m[id := m[id].(trust := Working, newest := -1)];
      var r1 := r[id := r[id].(trust := Working, newest := -1)];
      AlikeKeys(m1, r1) && Populated(m1) && UnknownKeys(m1) == UnknownKeys(m) - {id}
      && Scanning(m1, id, 0) && Scanning(r1, id, 0) && m[id].certs == r[id].certs != []
  {
    assert Alike(m[id], r[id]);
    var m1 := m[id := m[id].(trust := Working, newest := -1)];
    AlikeUpdate(m, r, id, m1[id], r[id].(trust := Working, newest := -1));
    assert SameGraph(m, m1);
    PopulatedStable(m, m1);
  }

  lemma ConcludeAlike(m: Keys, r: Keys, id: uint64)
    requires AlikeKeys(m, r) && id in m && m[id].trust == Working
    ensures AlikeKeys(Conclude(m, id), Conclude(r, id))
  {
    assert Alike(m[id], r[id]);
    AlikeUpdate(m, r, id, Conclude(m, id)[id], Conclude(r, id)[id]);
  }

  lemma {:induction false} EvaluateAlike(env: Env, m: Keys, r: Keys, id: uint64)
    requires AlikeKeys(m, r) && id in m && Populated(m)
    ensures AlikeKeys(Evaluate(env, m, id), Evaluate(env, r, id))
    decreases UnknownKeys(m), 0, 0
  {
    assert Alike(m[id], r[id]);
    if m[id].trust == Unknown {
      var m1 := m[id := m[id].(trust := Working, newest := -1)];
      var r1 := r[id := r[id].(trust := Working, newest := -1)];
      BegunAlike(m, r, id);
      ScanCertsAlike(env, m1, r1, id, 0);
      ConcludeAlike(ScanCerts(env, m1, id, 0), ScanCerts(env, r1, id, 0), id);
    }
  }

  lemma {:induction false} ScanCertsAlike(env: Env, m: Keys, r: Keys, id: uint64, i: nat)
    requires AlikeKeys(m, r) && Scanning(m, id, i) && Scanning(r, id, i) && Populated(m)
    ensures AlikeKeys(ScanCerts(env, m, id, i), ScanCerts(env, r, id, i))
    decreases UnknownKeys(m), 1, |m[id].certs| - i
  {
    assert Alike(m[id], r[id]);
    if i < |m[id].certs| {
      ScanCertAlike(env, m, r, id, i);
      var m', r' := ScanCert(env, m, id, i), ScanCert(env, r, id, i);
      ScanExtendsUnknown(m, m', id);
      ScanExtendsSameGraph(m, m', id);
      PopulatedStable(m, m');
      ScanCertsAlike(env, m', r', id, i + 1);
      ScanCertsStep(env, m, id, i);
      ScanCertsStep(env, r, id, i);
    }
  }

  lemma {:induction false} ScanCertAlike(env: Env, m: Keys, r: Keys, id: uint64, i: nat)
    requires AlikeKeys(m, r) && Scanning(m, id, i) && Scanning(r, id, i) && i < |m[id].certs| && Populated(m)
    requires m[id].certs == r[id].certs
    ensures AlikeKeys(ScanCert(env, m, id, i), ScanCert(env, r, id, i))
    decreases UnknownKeys(m), 1, |m[id].certs| - i, 0
  {
    var signer := m[id].certs[i].signer;
    if signer in m {
      assert Alike(m[signer], r[signer]);
      if signer == id {
        if env.root.None? {
          ConsiderAlike(env, m, r, id, i);
        }
      } else if m[signer].trust != Working {
        EvaluateAlike(env, m, r, signer);
        var m', r' := Evaluate(env, m, signer), Evaluate(env, r, signer);
        assert Alike(m'[signer], r'[signer]);
        assert Advances(m[id], m'[id]) && Advances(r[id], r'[id]);
        if IsTrusted(m'[signer].trust) {
          ConsiderAlike(env, m', r', id, i);
        }
      }
    }
  }

  lemma ConsiderAlike(env: Env, m: Keys, r: Keys, id: uint64, i: nat)
    requires AlikeKeys(m, r) && Scanning(m, id, i) && Scanning(r, id, i) && i < |m[id].certs|
    requires m[id].certs == r[id].certs
    requires var s := m[id].certs[i].signer; s in m && (s == id || IsTrusted(m[s].trust))
    ensures AlikeKeys(Consider(env, m, id, i), Consider(env, r, id, i))
  {
    var s := m[id].certs[i].signer;
    assert Alike(m[id], r[id]) && Alike(m[s], r[s]);
    var scope := LinkScope(m, id, m[id].certs[i]);
    assert scope == LinkScope(r, id, r[id].certs[i]);
    AlikeUpdate(m, r, id, m[id].(scope := scope, newest := i), r[id].(scope := scope, newest := i));
  }

  lemma {:induction false} EvaluateAllAlike(env: Env, m: Keys, r: Keys, order: seq<uint64>)
    requires AlikeKeys(m, r) && Populated(m) && forall k :: k in order ==> k in m
    ensures AlikeKeys(EvaluateAll(env, m, order), EvaluateAll(env, r, order))
  {
    if order != [] {
      var m', r' := Evaluate(env, m, order[0]), Evaluate(env, r, order[0]);
      EvaluateAlike(env, m, r, order[0]);
      ExtendsSameGraph(m, m');
      PopulatedStable(m, m');
      EvaluateAllAlike(env, m', r', order[1..]);
    }
  }

  lemma ForgetAlike(m: Keys, r: Keys)
    requires SameGraph(m, r)
    ensures AlikeKeys(Forget(m), Forget(r))
  {
    forall k | k in m ensures Alike(Forget(m)[k], Forget(r)[k]) {
      assert SameNode(m[k], r[k]);
    }
  }

  /** Recomputing from any two tables over the same graph gives the same table, key by key. */
  lemma RecomputeDeterminedByGraph(env: Env, m: Keys, r: Keys, order: seq<uint64>)
    requires SameGraph(m, r) && Covers(order, m) && Populated(m)
    ensures Recompute(env, m, order) == Recompute(env, r, order)
  {
    ForgetAlike(m, r);
    ForgetSameGraph(m);
    PopulatedStable(m, Forget(m));
    EvaluateAllAlike(env, Forget(m), Forget(r), order);
    RecomputeShape(env, m, order);
    AlikeDecided(Recompute(env, m, order), Recompute(env, r, order));
  }

  lemma AlikeDecided(a: Keys, b: Keys)
    requires AlikeKeys(a, b) && forall k :: k in a ==> IsDecided(a[k].trust)
    ensures a == b
  {
    forall k | k in a ensures a[k] == b[k] {
      assert Alike(a[k], b[k]);
    }
  }

  lemma RecomputeIdempotent(env: Env, m: Keys, order: seq<uint64>)
    requires Covers(order, m) && Populated(m)
    ensures Recompute(env, Recompute(env, m, order), order) == Recompute(env, m, order)
  {
    RecomputeShape(env, m, order);
    RecomputeDeterminedByGraph(env, m, Recompute(env, m, order), order);
  }
}
