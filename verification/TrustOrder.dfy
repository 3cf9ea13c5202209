/**
 * What trust evaluation computes for keys that no signing cycle reaches, whatever the order in
 * which keys are visited; and why recomputing twice changes nothing.
 */
module TrustOrder {
  import opened Common
  import opened AuthScope
  import opened Trust
  import opened TrustChains

  // ---------- the signer graph ----------

  /** `k` holds a certificate of another known key, `s`, and its own trust is to be computed. */
  ghost predicate Edge(m: Keys, k: uint64, s: uint64) {
    && k in m && s in m && k != s
    && !IsTerminal(m[k].trust)
    && exists i :: 0 <= i < |m[k].certs| && m[k].certs[i].signer == s
  }

  ghost predicate SignerPath(m: Keys, p: seq<uint64>) {
    && p != []
    && p[0] in m
    && forall i :: 0 <= i < |p| - 1 ==> Edge(m, p[i], p[i + 1])
  }

  /** No path of signers from `k` meets a key twice. Certificates a key signs for itself do not count. */
  ghost predicate Grounded(m: Keys, k: uint64) {
    forall p: seq<uint64> :: SignerPath(m, p) && p[0] == k ==> Distinct(p)
  }

  ghost predicate Reaches(m: Keys, a: uint64, b: uint64) {
    exists p :: SignerPath(m, p) && p[0] == a && p[|p| - 1] == b
  }

  /** Two tables over the same graph: same keys, certificates, public keys and terminal states. */
  ghost predicate SameGraph(m: Keys, r: Keys) {
    && m.Keys == r.Keys
    && forall k :: k in m ==> SameNode(m[k], r[k])
  }

  ghost predicate SameNode(a: Key, b: Key) {
    && a.certs == b.certs && a.pub == b.pub
    && IsTerminal(a.trust) == IsTerminal(b.trust)
    && (IsTerminal(a.trust) ==> a == b)
  }

  lemma SameGraphPaths(m: Keys, r: Keys)
    requires SameGraph(m, r)
    ensures forall p: seq<uint64> :: SignerPath(m, p) <==> SignerPath(r, p)
    ensures forall k :: Grounded(m, k) <==> Grounded(r, k)
  {
    forall a, b ensures Edge(m, a, b) <==> Edge(r, a, b) {
      assert a in m ==> SameNode(m[a], r[a]);
    }
    forall p: seq<uint64> ensures SignerPath(m, p) <==> SignerPath(r, p) {
    }
  }

  lemma ExtendsSameGraph(m: Keys, r: Keys)
    requires Extends(m, r)
    ensures SameGraph(m, r)
  {
    forall k | k in m ensures SameNode(m[k], r[k]) {
      assert Advances(m[k], r[k]);
    }
  }

  lemma ScanExtendsSameGraph(m: Keys, r: Keys, id: uint64)
    requires ScanExtends(m, r, id) && m[id].trust == Working
    ensures SameGraph(m, r)
  {
    var r' := r[id := m[id]];
    assert r.Keys == r'.Keys;
    forall k | k in m ensures SameNode(m[k], r[k]) {
      assert Advances(m[k], r'[k]);
    }
  }

  // ---------- the declarative specification ----------

  /** A verdict has been reached on every other known key that signed a certificate of `k`. */
  ghost predicate SignersDecided(m: Keys, k: uint64, n: nat)
    requires k in m && n <= |m[k].certs|
  {
    forall i :: 0 <= i < n ==> SignerDecided(m, k, m[k].certs[i])
  }

  ghost predicate SignerDecided(m: Keys, k: uint64, c: Cert) {
    c.signer in m && c.signer != k ==> IsDecided(m[c.signer].trust)
  }

  /** `best` is the first of the newest valid certificates among the first `n`, or -1 if none is valid. */
  ghost predicate IsBest(env: Env, m: Keys, k: uint64, n: nat, best: int)
    requires k in m && n <= |m[k].certs|
  {
    var certs := m[k].certs;
    if best < 0 then
      best == -1 && forall i :: 0 <= i < n ==> !ValidCert(env, m, k, certs[i])
    else
      && best < n
      && ValidCert(env, m, k, certs[best])
      && forall i :: 0 <= i < n && ValidCert(env, m, k, certs[i]) ==>
           certs[i].created < certs[best].created || (certs[i].created == certs[best].created && best <= i)
  }

  /**
   * The key is trusted if and only if one of its certificates is valid, and it then has the
   * authority passed on by the first of the newest valid ones; otherwise it has none.
   */
  ghost predicate Settled(env: Env, m: Keys, k: uint64)
    requires k in m
  {
    && SignersDecided(m, k, |m[k].certs|)
    && IsBest(env, m, k, |m[k].certs|, m[k].newest)
    && (if m[k].newest < 0 then
          m[k].trust == NotTrusted && m[k].scope == EMPTY_SCOPE
        else
          m[k].trust == Trusted && m[k].scope == LinkScope(m, k, m[k].certs[m[k].newest]))
  }

  lemma SettledMeansTrustedIffValid(env: Env, m: Keys, k: uint64)
    requires k in m && Settled(env, m, k)
    ensures m[k].trust == Trusted <==> exists i :: 0 <= i < |m[k].certs| && ValidCert(env, m, k, m[k].certs[i])
  {
  }

  ghost predicate AllSettled(env: Env, m: Keys) {
    forall k :: k in m && IsDecided(m[k].trust) && !IsTerminal(m[k].trust) && Grounded(m, k) ==> Settled(env, m, k)
  }

  // ---------- evaluation meets the specification ----------

  /** Keys being worked on lead to the key now looked at. */
  ghost predicate OnStack(m: Keys, id: uint64) {
    forall w :: w in m && m[w].trust == Working ==> Reaches(m, w, id)
  }

  /** Nothing a decided verdict rests on is changed between `m` and `r`. */
  ghost predicate KeepsDecided(m: Keys, r: Keys) {
    SameGraph(m, r) && forall k :: k in m && IsDecided(m[k].trust) ==> r[k] == m[k]
  }

  lemma ValidCertStable(env: Env, m: Keys, r: Keys, k: uint64, c: Cert)
    requires KeepsDecided(m, r) && SignerDecided(m, k, c)
    ensures ValidCert(env, r, k, c) <==> ValidCert(env, m, k, c)
    ensures SignerDecided(r, k, c)
    ensures c.signer in m ==> LinkScope(r, k, c) == LinkScope(m, k, c)
  {
    if c.signer in m {
      assert SameNode(m[c.signer], r[c.signer]);
    }
  }

  lemma IsBestStable(env: Env, m: Keys, r: Keys, k: uint64, n: nat, best: int)
    requires KeepsDecided(m, r) && k in m && n <= |m[k].certs| && SignersDecided(m, k, n)
    ensures r[k].certs == m[k].certs
    ensures SignersDecided(r, k, n)
    ensures IsBest(env, m, k, n, best) <==> IsBest(env, r, k, n, best)
  {
    assert SameNode(m[k], r[k]);
    forall i | 0 <= i < n
      ensures SignerDecided(r, k, m[k].certs[i])
      ensures ValidCert(env, r, k, m[k].certs[i]) <==> ValidCert(env, m, k, m[k].certs[i])
    {
      assert SignerDecided(m, k, m[k].certs[i]);
      ValidCertStable(env, m, r, k, m[k].certs[i]);
    }
  }

  lemma SettledStable(env: Env, m: Keys, r: Keys, k: uint64)
    requires KeepsDecided(m, r) && k in m && IsDecided(m[k].trust) && Settled(env, m, k)
    ensures Settled(env, r, k)
  {
    IsBestStable(env, m, r, k, |m[k].certs|, m[k].newest);
    if m[k].newest >= 0 {
      var c := m[k].certs[m[k].newest];
      assert SignerDecided(m, k, c);
      ValidCertStable(env, m, r, k, c);
    }
  }

  /** Settling one more key keeps all others settled. */
  lemma AllSettledStep(env: Env, m: Keys, r: Keys, id: uint64)
    requires AllSettled(env, m) && KeepsDecided(m, r) && id in m
    requires forall k :: k in m && k != id && IsDecided(r[k].trust) ==> IsDecided(m[k].trust)
    requires IsDecided(r[id].trust) && !IsTerminal(r[id].trust) && Grounded(r, id) ==> Settled(env, r, id)
    ensures AllSettled(env, r)
  {
    SameGraphPaths(m, r);
    forall k | k in r && IsDecided(r[k].trust) && !IsTerminal(r[k].trust) && Grounded(r, k)
      ensures Settled(env, r, k)
    {
      if k != id {
        assert SameNode(m[k], r[k]);
        SettledStable(env, m, r, k);
      }
    }
  }

  /** What the loop over the certificates of `id` has established once the first `i` were looked at. */
  ghost predicate SettledSoFar(env: Env, m: Keys, id: uint64, i: nat) {
    ScannedSoFar(env, m, id, i) && AllSettled(env, m) && OnStack(m, id)
  }

  ghost predicate ScannedSoFar(env: Env, m: Keys, id: uint64, i: nat) {
    Scanning(m, id, i) && (Grounded(m, id) ==> BestSoFar(env, m, id, i))
  }

  ghost predicate BestSoFar(env: Env, m: Keys, id: uint64, i: nat)
    requires Scanning(m, id, i)
  {
    && SignersDecided(m, id, i)
    && IsBest(env, m, id, i, m[id].newest)
    && (m[id].newest >= 0 ==> m[id].scope == LinkScope(m, id, m[id].certs[m[id].newest]))
  }

  lemma PathAppend(m: Keys, p: seq<uint64>, s: uint64)
    requires SignerPath(m, p) && Edge(m, p[|p| - 1], s)
    ensures SignerPath(m, p + [s])
  {
    var q := p + [s];
    forall i | 0 <= i < |q| - 1 ensures Edge(m, q[i], q[i + 1]) {
      if i < |p| - 1 {
        assert Edge(m, p[i], p[i + 1]);
      }
    }
  }

  lemma PathPrepend(m: Keys, k: uint64, p: seq<uint64>)
    requires SignerPath(m, p) && Edge(m, k, p[0])
    ensures SignerPath(m, [k] + p)
  {
    var q := [k] + p;
    forall i | 0 <= i < |q| - 1 ensures Edge(m, q[i], q[i + 1]) {
      if i > 0 {
        assert Edge(m, p[i - 1], p[i]);
      }
    }
  }

  /** A signer of `id` that is still being worked on closes a cycle through `id`. */
  lemma WorkingSignerCycle(m: Keys, id: uint64, s: uint64)
    requires Edge(m, id, s) && OnStack(m, id) && m[s].trust == Working
    ensures !Grounded(m, id)
  {
    var p :| SignerPath(m, p) && p[0] == s && p[|p| - 1] == id;
    PathPrepend(m, id, p);
    var q := [id] + p;
    assert q[0] == q[|q| - 1] && |q| >= 2;
    assert !Distinct(q);
  }

  lemma OnStackStep(m: Keys, id: uint64, s: uint64)
    requires Edge(m, id, s) && OnStack(m, id)
    ensures OnStack(m, s)
  {
    forall w | w in m && m[w].trust == Working ensures Reaches(m, w, s) {
      var p :| SignerPath(m, p) && p[0] == w && p[|p| - 1] == id;
      PathAppend(m, p, s);
      var q := p + [s];
      assert q[0] == w && q[|q| - 1] == s;
    }
  }

  /** The keys being worked on, and what they reach, are the same in both tables. */
  lemma OnStackStable(m: Keys, r: Keys, id: uint64)
    requires OnStack(m, id) && SameGraph(m, r)
    requires forall k :: k in m && r[k].trust == Working ==> m[k].trust == Working
    ensures OnStack(r, id)
  {
    SameGraphPaths(m, r);
    forall w | w in r && r[w].trust == Working ensures Reaches(r, w, id) {
      var p :| SignerPath(m, p) && p[0] == w && p[|p| - 1] == id;
      assert SignerPath(r, p);
    }
  }

  lemma ExtendsKeeps(m: Keys, r: Keys)
    requires Extends(m, r)
    ensures KeepsDecided(m, r)
    ensures forall k :: k in m && r[k].trust == Working ==> m[k].trust == Working
  {
    ExtendsSameGraph(m, r);
    forall k | k in m
      ensures IsDecided(m[k].trust) ==> r[k] == m[k]
      ensures r[k].trust == Working ==> m[k].trust == Working
    {
      assert Advances(m[k], r[k]);
    }
  }

  /** Every key whose trust is to be computed holds a certificate. */
  ghost predicate Populated(m: Keys) {
    forall k :: k in m && !IsTerminal(m[k].trust) ==> m[k].certs != []
  }

  lemma PopulatedStable(m: Keys, r: Keys)
    requires Populated(m) && SameGraph(m, r)
    ensures Populated(r)
  {
    forall k | k in r && !IsTerminal(r[k].trust) ensures r[k].certs != [] {
      assert SameNode(m[k], r[k]);
    }
  }

  lemma {:induction false} EvaluateSettles(env: Env, m: Keys, id: uint64)
    requires id in m && AllSettled(env, m) && OnStack(m, id) && Populated(m)
    ensures AllSettled(env, Evaluate(env, m, id))
    decreases UnknownKeys(m), 0, 0
  {
    if m[id].trust == Unknown {
      var m1 := m[id := m[id].(trust := Working, newest := -1)];
      assert UnknownKeys(m1) == UnknownKeys(m) - {id};
      BeginSettles(env, m, id, m1);
      ScanCertsSettles(env, m1, id, 0);
      ConcludeSettles(env, ScanCerts(env, m1, id, 0), id);
    }
  }

  lemma BeginSettles(env: Env, m: Keys, id: uint64, m1: Keys)
    requires id in m && m[id].trust == Unknown && AllSettled(env, m) && OnStack(m, id) && Populated(m)
    requires m1 == m[id := m[id].(trust := Working, newest := -1)]
    ensures SettledSoFar(env, m1, id, 0) && Populated(m1)
  {
    assert KeepsDecided(m, m1);
    AllSettledStep(env, m, m1, id);
    SameGraphPaths(m, m1);
    forall w | w in m1 && m1[w].trust == Working ensures Reaches(m1, w, id) {
      if w == id {
        assert SignerPath(m1, [id]);
      } else {
        var p :| SignerPath(m, p) && p[0] == w && p[|p| - 1] == id;
        assert SignerPath(m1, p);
      }
    }
  }

  lemma ConcludeSettles(env: Env, m: Keys, id: uint64)
    requires id in m && SettledSoFar(env, m, id, |m[id].certs|)
    ensures AllSettled(env, Conclude(m, id))
  {
    var r := Conclude(m, id);
    assert KeepsDecided(m, r);
    SameGraphPaths(m, r);
    if Grounded(r, id) {
      IsBestStable(env, m, r, id, |m[id].certs|, m[id].newest);
    }
    AllSettledStep(env, m, r, id);
  }

  lemma {:induction false} ScanCertsSettles(env: Env, m: Keys, id: uint64, i: nat)
    requires SettledSoFar(env, m, id, i) && Populated(m)
    ensures SettledSoFar(env, ScanCerts(env, m, id, i), id, |m[id].certs|)
    decreases UnknownKeys(m), 1, |m[id].certs| - i
  {
    if i < |m[id].certs| {
      var m' := ScanCertSettles(env, m, id, i);
      ScanCertsSettles(env, m', id, i + 1);
      ScanCertsStep(env, m, id, i);
    }
  }

  lemma {:induction false} ScanCertSettles(env: Env, m: Keys, id: uint64, i: nat) returns (r: Keys)
    requires SettledSoFar(env, m, id, i) && i < |m[id].certs| && Populated(m)
    ensures r == ScanCert(env, m, id, i) && r[id].certs == m[id].certs
    ensures SettledSoFar(env, r, id, i + 1) && Populated(r)
    ensures UnknownKeys(r) <= UnknownKeys(m)
    decreases UnknownKeys(m), 1, |m[id].certs| - i, 0
  {
    r := ScanCert(env, m, id, i);
    ScanExtendsUnknown(m, r, id);
    ScanExtendsSameGraph(m, r, id);
    PopulatedStable(m, r);
    var c := m[id].certs[i];
    var signer := c.signer;
    if signer !in m {
      SkipSettles(env, m, id, i);
    } else if signer == id {
      if env.root.Some? {
        SkipSettles(env, m, id, i);
      } else {
        ConsiderSettles(env, m, id, i);
      }
    } else {
      assert Edge(m, id, signer);
      if m[signer].trust == Working {
        WorkingSignerCycle(m, id, signer);
        SkipSettles(env, m, id, i);
      } else {
        OnStackStep(m, id, signer);
        EvaluateSettles(env, m, signer);
        var m' := Evaluate(env, m, signer);
        SignerEvaluated(env, m, id, i, m');
        if IsTrusted(m'[signer].trust) {
          ConsiderSettles(env, m', id, i);
        } else {
          SkipSettles(env, m', id, i);
        }
      }
    }
  }

  lemma SignerEvaluated(env: Env, m: Keys, id: uint64, i: nat, m': Keys)
    requires SettledSoFar(env, m, id, i) && i < |m[id].certs|
    requires Extends(m, m') && AllSettled(env, m')
    requires var s := m[id].certs[i].signer;
      s in m && s != id && m[s].trust != Working && m'[s].trust != Unknown
    ensures SettledSoFar(env, m', id, i) && m'[id] == m[id]
    ensures SignerDecided(m', id, m[id].certs[i])
  {
    ExtendsKeeps(m, m');
    OnStackStable(m, m', id);
    SameGraphPaths(m, m');
    assert Advances(m[id], m'[id]);
    if Grounded(m, id) {
      IsBestStable(env, m, m', id, i, m[id].newest);
      if m[id].newest >= 0 {
        var best := m[id].certs[m[id].newest];
        assert SignerDecided(m, id, best);
        ValidCertStable(env, m, m', id, best);
      }
    }
  }

  /** A certificate that is passed over was not valid, unless a cycle runs through the key. */
  lemma SkipSettles(env: Env, m: Keys, id: uint64, i: nat)
    requires SettledSoFar(env, m, id, i) && i < |m[id].certs|
    requires Grounded(m, id) ==>
      SignerDecided(m, id, m[id].certs[i]) && !ValidCert(env, m, id, m[id].certs[i])
    ensures SettledSoFar(env, m, id, i + 1)
  {
  }

  lemma ConsiderSettles(env: Env, m: Keys, id: uint64, i: nat)
    requires SettledSoFar(env, m, id, i) && i < |m[id].certs|
    requires var s := m[id].certs[i].signer; s in m && (if s == id then env.root.None? else IsTrusted(m[s].trust))
    ensures SettledSoFar(env, Consider(env, m, id, i), id, i + 1)
  {
    var c := m[id].certs[i];
    var r := Consider(env, m, id, i);
    if r == m {
      NotBetter(env, m, id, i);
    } else {
      Better(env, m, id, i, r);
    }
  }

  lemma NotBetter(env: Env, m: Keys, id: uint64, i: nat)
    requires SettledSoFar(env, m, id, i) && i < |m[id].certs|
    requires SignerDecided(m, id, m[id].certs[i])
    requires ValidCert(env, m, id, m[id].certs[i]) ==>
      m[id].newest >= 0 && m[id].certs[i].created <= m[id].certs[m[id].newest].created
    ensures SettledSoFar(env, m, id, i + 1)
  {
  }

  lemma Better(env: Env, m: Keys, id: uint64, i: nat, r: Keys)
    requires SettledSoFar(env, m, id, i) && i < |m[id].certs|
    requires SignerDecided(m, id, m[id].certs[i]) && ValidCert(env, m, id, m[id].certs[i])
    requires m[id].newest >= 0 ==> m[id].certs[m[id].newest].created < m[id].certs[i].created
    requires r == m[id := m[id].(scope := LinkScope(m, id, m[id].certs[i]), newest := i)]
    ensures SettledSoFar(env, r, id, i + 1)
  {
    assert KeepsDecided(m, r);
    AllSettledStep(env, m, r, id);
    OnStackStable(m, r, id);
    SameGraphPaths(m, r);
    if Grounded(m, id) {
      NewBest(env, m, id, i, r);
    }
  }

  lemma NewBest(env: Env, m: Keys, id: uint64, i: nat, r: Keys)
    requires KeepsDecided(m, r) && id in m && i < |m[id].certs| && SignersDecided(m, id, i)
    requires IsBest(env, m, id, i, m[id].newest)
    requires SignerDecided(m, id, m[id].certs[i]) && ValidCert(env, m, id, m[id].certs[i])
    requires m[id].newest >= 0 ==> m[id].certs[m[id].newest].created < m[id].certs[i].created
    requires r[id].certs == m[id].certs
    ensures SignersDecided(r, id, i + 1) && IsBest(env, r, id, i + 1, i)
    ensures LinkScope(r, id, m[id].certs[i]) == LinkScope(m, id, m[id].certs[i])
  {
    IsBestStable(env, m, r, id, i, m[id].newest);
    ValidCertStable(env, m, r, id, m[id].certs[i]);
  }

  lemma {:induction false} EvaluateAllSettles(env: Env, m: Keys, order: seq<uint64>)
    requires forall k :: k in order ==> k in m
    requires AllSettled(env, m) && Populated(m)
    requires forall k :: k in m ==> m[k].trust != Working
    ensures AllSettled(env, EvaluateAll(env, m, order))
  {
    if order != [] {
      var m' := Evaluate(env, m, order[0]);
      EvaluateSettles(env, m, order[0]);
      ExtendsKeeps(m, m');
      PopulatedStable(m, m');
      EvaluateAllSettles(env, m', order[1..]);
    }
  }

  lemma ForgetSameGraph(m: Keys)
    ensures SameGraph(m, Forget(m))
  {
    forall k | k in m ensures SameNode(m[k], Forget(m)[k]) {
    }
  }

  ghost predicate Covers(order: seq<uint64>, m: Keys) {
    forall k :: k in order <==> k in m
  }

  lemma RecomputeShape(env: Env, m: Keys, order: seq<uint64>)
    requires Covers(order, m)
    ensures SameGraph(m, Recompute(env, m, order))
    ensures forall k :: k in m ==> IsDecided(Recompute(env, m, order)[k].trust)
  {
    ForgetSameGraph(m);
    var f, r := Forget(m), Recompute(env, m, order);
    ExtendsSameGraph(f, r);
    ExtendsKeeps(f, r);
    forall k | k in m ensures SameNode(m[k], r[k]) && IsDecided(r[k].trust) {
      assert SameNode(m[k], f[k]) && SameNode(f[k], r[k]);
      assert k in order;
    }
  }

  /** After a recomputation every key that no signing cycle reaches meets the specification. */
  lemma RecomputeSettles(env: Env, m: Keys, order: seq<uint64>)
    requires Covers(order, m) && Populated(m)
    ensures AllSettled(env, Recompute(env, m, order))
  {
    ForgetSameGraph(m);
    PopulatedStable(m, Forget(m));
    EvaluateAllSettles(env, Forget(m), order);
  }

  // ---------- the specification determines the result ----------

  /** The two tables agree on `k`, and on which of its signers are known. */
  ghost predicate AgreeAt(a: Keys, b: Keys, k: uint64) {
    && k in a && k in b && SameNode(a[k], b[k])
    && forall i :: 0 <= i < |a[k].certs| ==> (a[k].certs[i].signer in a <==> a[k].certs[i].signer in b)
  }

  /** The two tables agree on `k` and on every key its signers lead to. */
  ghost predicate AgreeBelow(a: Keys, b: Keys, k: uint64) {
    forall p: seq<uint64> :: SignerPath(a, p) && p[0] == k ==> AgreeAt(a, b, p[|p| - 1])
  }

  lemma {:induction false} AgreeBelowPath(a: Keys, b: Keys, p: seq<uint64>)
    requires SignerPath(b, p) && p[0] in a && AgreeBelow(a, b, p[0])
    ensures SignerPath(a, p)
  {
    if |p| > 1 {
      var q := p[..|p| - 1];
      forall i | 0 <= i < |q| - 1 ensures Edge(b, q[i], q[i + 1]) {
        assert Edge(b, p[i], p[i + 1]);
      }
      AgreeBelowPath(a, b, q);
      assert AgreeAt(a, b, q[|q| - 1]) && Edge(b, p[|p| - 2], p[|p| - 1]);
      PathAppend(a, q, p[|p| - 1]);
      assert p == q + [p[|p| - 1]];
    }
  }

  /** The specification determines the state of a grounded key from what its signers lead to. */
  lemma {:induction false} SettledUnique(env: Env, a: Keys, b: Keys, p: seq<uint64>)
    requires AllSettled(env, a) && AllSettled(env, b)
    requires forall k :: k in a ==> IsDecided(a[k].trust)
    requires forall k :: k in b ==> IsDecided(b[k].trust)
    requires SignerPath(a, p) && Grounded(a, p[0]) && AgreeBelow(a, b, p[0]) && SignerPath(b, p)
    ensures p[|p| - 1] in a && p[|p| - 1] in b && a[p[|p| - 1]] == b[p[|p| - 1]]
    decreases |a.Keys| - |p|
  {
    var k := p[|p| - 1];
    assert AgreeAt(a, b, k);
    if !IsTerminal(a[k].trust) {
      GroundedBoth(a, b, p);
      forall i | 0 <= i < |a[k].certs| ensures SameLink(env, a, b, k, a[k].certs[i]) {
        var s := a[k].certs[i].signer;
        if s in a && s != k {
          assert Edge(a, k, s) && Edge(b, k, s);
          PathAppend(a, p, s);
          PathAppend(b, p, s);
          var q := p + [s];
          assert q[0] == p[0] && q[|q| - 1] == s;
          PathInTable(a, q);
          DistinctFits(q, a.Keys);
          SettledUnique(env, a, b, q);
        }
      }
      SameVerdict(env, a, b, k);
    }
  }

  ghost predicate SameLink(env: Env, a: Keys, b: Keys, k: uint64, c: Cert) {
    && (ValidCert(env, a, k, c) <==> ValidCert(env, b, k, c))
    && (c.signer in a <==> c.signer in b)
    && (c.signer in a ==> LinkScope(a, k, c) == LinkScope(b, k, c))
  }

  lemma SameVerdict(env: Env, a: Keys, b: Keys, k: uint64)
    requires k in a && k in b && SameNode(a[k], b[k])
    requires Settled(env, a, k) && Settled(env, b, k)
    requires forall i :: 0 <= i < |a[k].certs| ==> SameLink(env, a, b, k, a[k].certs[i])
    ensures a[k] == b[k]
  {
    var x, y := a[k].newest, b[k].newest;
    if x >= 0 {
      assert SameLink(env, a, b, k, a[k].certs[x]);
    }
    if y >= 0 {
      assert SameLink(env, a, b, k, a[k].certs[y]);
    }
  }

  lemma GroundedBoth(a: Keys, b: Keys, p: seq<uint64>)
    requires SignerPath(a, p) && SignerPath(b, p) && Grounded(a, p[0]) && AgreeBelow(a, b, p[0])
    ensures Grounded(a, p[|p| - 1]) && Grounded(b, p[|p| - 1])
  {
    forall q: seq<uint64> | SignerPath(b, q) && q[0] == p[0] ensures Distinct(q) {
      AgreeBelowPath(a, b, q);
    }
    GroundedAlong(a, p);
    GroundedAlong(b, p);
  }

  lemma PathInTable(m: Keys, p: seq<uint64>)
    requires SignerPath(m, p)
    ensures forall k :: k in p ==> k in m
  {
    forall k | k in p ensures k in m {
      var i :| 0 <= i < |p| && p[i] == k;
      if i > 0 {
        assert Edge(m, p[i - 1], p[i]);
      }
    }
  }

  /** Every key on a path from a grounded key is grounded. */
  lemma GroundedAlong(m: Keys, p: seq<uint64>)
    requires SignerPath(m, p) && Grounded(m, p[0])
    ensures Grounded(m, p[|p| - 1])
  {
    forall q: seq<uint64> | SignerPath(m, q) && q[0] == p[|p| - 1] ensures Distinct(q) {
      var join := p + q[1..];
      forall i | 0 <= i < |join| - 1 ensures Edge(m, join[i], join[i + 1]) {
        if i < |p| - 1 {
          assert Edge(m, p[i], p[i + 1]);
        } else {
          assert Edge(m, q[i - |p| + 1], q[i - |p| + 2]);
        }
      }
      assert SignerPath(m, join) && join[0] == p[0];
      forall i, j | 0 <= i < j < |q| ensures q[i] != q[j] {
        assert join[|p| - 1 + i] != join[|p| - 1 + j];
      }
    }
  }

  /**
   * The verdict on a key no signing cycle reaches depends only on the keys its signers lead to:
   * not on any other key or certificate in the table, nor on the order of the pass.
   */
  lemma VerdictIsLocal(env: Env, m1: Keys, order1: seq<uint64>, m2: Keys, order2: seq<uint64>, k: uint64)
    requires Covers(order1, m1) && Populated(m1) && Covers(order2, m2) && Populated(m2)
    requires k in m1 && Grounded(m1, k) && AgreeBelow(m1, m2, k)
    ensures k in m2 && Recompute(env, m1, order1)[k] == Recompute(env, m2, order2)[k]
  {
    var a, b := Recompute(env, m1, order1), Recompute(env, m2, order2);
    RecomputeShape(env, m1, order1);
    RecomputeShape(env, m2, order2);
    RecomputeSettles(env, m1, order1);
    RecomputeSettles(env, m2, order2);
    assert Grounded(a, k) by {
      SameGraphPaths(m1, a);
    }
    AgreeHere(m1, m2, k);
    AgreeBelowRecomputed(m1, m2, a, b, k);
    assert SignerPath(a, [k]) && SignerPath(b, [k]);
    SettledUnique(env, a, b, [k]);
  }

  lemma AgreeHere(m1: Keys, m2: Keys, k: uint64)
    requires k in m1 && AgreeBelow(m1, m2, k)
    ensures k in m2 && AgreeAt(m1, m2, k)
  {
    assert SignerPath(m1, [k]);
  }

  lemma AgreeBelowRecomputed(m1: Keys, m2: Keys, a: Keys, b: Keys, k: uint64)
    requires SameGraph(m1, a) && SameGraph(m2, b) && AgreeBelow(m1, m2, k)
    ensures AgreeBelow(a, b, k)
  {
    SameGraphPaths(m1, a);
    forall p: seq<uint64> | SignerPath(a, p) && p[0] == k ensures AgreeAt(a, b, p[|p| - 1]) {
      var j := p[|p| - 1];
      assert AgreeAt(m1, m2, j);
      assert SameNode(m1[j], a[j]) && SameNode(m2[j], b[j]);
    }
  }

  /**
   * For a key no signing cycle reaches, a recomputation gives the same trust, chosen certificate
   * and authority whatever the order in which the keys are visited.
   */
  lemma OrderIndependent(env: Env, m: Keys, order1: seq<uint64>, order2: seq<uint64>, k: uint64)
    requires Covers(order1, m) && Covers(order2, m) && Populated(m)
    requires k in m && Grounded(m, k)
    ensures Recompute(env, m, order1)[k] == Recompute(env, m, order2)[k]
  {
    forall p: seq<uint64> | SignerPath(m, p) && p[0] == k ensures AgreeAt(m, m, p[|p| - 1]) {
      PathInTable(m, p);
    }
    VerdictIsLocal(env, m, order1, m, order2, k);
  }
}
