/** Soundness of trust evaluation: every key left trusted has a chain of verified certificates. */
module TrustChains {
  import opened Common
  import opened Sorting
  import opened AuthScope
  import opened Trust

  /** Certificate `c` of key `k` vouches for it, as things stand in `m`. */
  ghost predicate ValidCert(env: Env, m: Keys, k: uint64, c: Cert) {
    && c.signer in m
    && (if c.signer == k then env.root.None? else IsTrusted(m[c.signer].trust))
    && Verifies(env, m[c.signer].pub, c)
    && LinkScope(m, k, c).apps != []
    && LinkScope(m, k, c).pops != []
  }

  /** The chosen certificate of `k` is valid and the key's authority is what it passes on. */
  ghost predicate Backed(env: Env, m: Keys, k: uint64) {
    && k in m
    && 0 <= m[k].newest < |m[k].certs|
    && ValidCert(env, m, k, Chosen(m, k))
    && m[k].scope == LinkScope(m, k, Chosen(m, k))
  }

  ghost function Chosen(m: Keys, k: uint64): Cert
    requires k in m && 0 <= m[k].newest < |m[k].certs|
  {
    m[k].certs[m[k].newest]
  }

  /** `k` is trusted through a certificate signed by `signer`. */
  ghost predicate Link(env: Env, m: Keys, k: uint64, signer: uint64) {
    Backed(env, m, k) && m[k].trust == Trusted && Chosen(m, k).signer == signer
  }

  /** Where a chain may end: the root compiled in or, in a build without one, a self-signed key. */
  ghost predicate Anchor(env: Env, m: Keys, k: uint64) {
    k in m && (m[k].trust == Hardcoded || (env.root.None? && Link(env, m, k, k)))
  }

  ghost predicate IsChain(env: Env, m: Keys, p: seq<uint64>) {
    && p != []
    && Distinct(p)
    && (forall i :: 0 <= i < |p| - 1 ==> Link(env, m, p[i], p[i + 1]))
    && Anchor(env, m, p[|p| - 1])
  }

  ghost predicate HasChain(env: Env, m: Keys, k: uint64) {
    exists p :: IsChain(env, m, p) && p[0] == k
  }

  ghost predicate Sound(env: Env, m: Keys) {
    forall k :: k in m && m[k].trust == Trusted ==> HasChain(env, m, k)
  }

  /** No revoked, rejected or undecided key is on a chain. */
  lemma ChainIsTrusted(env: Env, m: Keys, p: seq<uint64>)
    requires IsChain(env, m, p)
    ensures forall k :: k in p ==> k in m && IsTrusted(m[k].trust)
  {
    forall k | k in p ensures k in m && IsTrusted(m[k].trust) {
      var i :| 0 <= i < |p| && p[i] == k;
      if i < |p| - 1 {
        assert Link(env, m, p[i], p[i + 1]);
      }
    }
  }

  lemma BackedStable(env: Env, m: Keys, r: Keys, k: uint64)
    requires Backed(env, m, k) && k in r && r[k] == m[k]
    requires Chosen(m, k).signer in r
    requires var s := Chosen(m, k).signer; r[s] == m[s] || (s == k && r[s].pub == m[s].pub)
    ensures Backed(env, r, k)
  {
  }

  /** A chain survives any change to keys that are not on it. */
  lemma ChainStable(env: Env, m: Keys, r: Keys, p: seq<uint64>)
    requires IsChain(env, m, p)
    requires forall k :: k in p ==> k in m && k in r && r[k] == m[k]
    ensures IsChain(env, r, p)
  {
    forall i | 0 <= i < |p| - 1 ensures Link(env, r, p[i], p[i + 1]) {
      assert Link(env, m, p[i], p[i + 1]) && p[i] in p && p[i + 1] in p;
      BackedStable(env, m, r, p[i]);
    }
    var last := p[|p| - 1];
    assert last in p;
    if m[last].trust != Hardcoded {
      BackedStable(env, m, r, last);
    }
  }

  lemma HasChainStable(env: Env, m: Keys, r: Keys, k: uint64)
    requires HasChain(env, m, k)
    requires forall j :: j in m && IsTrusted(m[j].trust) ==> j in r && r[j] == m[j]
    ensures HasChain(env, r, k)
  {
    var p :| IsChain(env, m, p) && p[0] == k;
    ChainIsTrusted(env, m, p);
    ChainStable(env, m, r, p);
  }

  /** Changing a key that is not trusted, without making it trusted, keeps the table sound. */
  lemma SoundUpdate(env: Env, m: Keys, k: uint64, key: Key)
    requires Sound(env, m) && k in m && !IsTrusted(m[k].trust) && key.trust != Trusted
    ensures Sound(env, m[k := key])
  {
    var r := m[k := key];
    forall j | j in r && r[j].trust == Trusted ensures HasChain(env, r, j) {
      HasChainStable(env, m, r, j);
    }
  }

  /** Trusting a key through its best certificate keeps the table sound. */
  lemma SoundTrust(env: Env, m: Keys, k: uint64)
    requires Sound(env, m) && Backed(env, m, k) && m[k].trust == Working
    ensures Sound(env, m[k := m[k].(trust := Trusted)])
  {
    var r := m[k := m[k].(trust := Trusted)];
    var s := Chosen(m, k).signer;
    assert Link(env, r, k, s);
    if s == k {
      assert IsChain(env, r, [k]);
    } else {
      var p := if m[s].trust == Hardcoded then [s] else (var q :| IsChain(env, m, q) && q[0] == s; q);
      assert IsChain(env, m, p);
      ChainIsTrusted(env, m, p);
      ChainStable(env, m, r, p);
      var q := [k] + p;
      assert k !in p;
      forall i | 0 <= i < |q| - 1 ensures Link(env, r, q[i], q[i + 1]) {
        if i > 0 {
          assert Link(env, r, p[i - 1], p[i]);
        }
      }
      assert IsChain(env, r, q);
    }
    forall j | j in r && r[j].trust == Trusted ensures HasChain(env, r, j) {
      if j != k {
        HasChainStable(env, m, r, j);
      }
    }
  }

  /** While `id` is being worked on its best certificate so far, if any, is valid. */
  ghost predicate SoundSoFar(env: Env, m: Keys, id: uint64) {
    Sound(env, m) && id in m && (m[id].newest >= 0 ==> Backed(env, m, id))
  }

  lemma {:induction false} EvaluateSound(env: Env, m: Keys, id: uint64)
    requires id in m && Sound(env, m)
    ensures Sound(env, Evaluate(env, m, id))
    decreases UnknownKeys(m), 0, 0
  {
    if m[id].trust == Unknown {
      var m1 := m[id := m[id].(trust := Working, newest := -1)];
      assert UnknownKeys(m1) == UnknownKeys(m) - {id};
      SoundUpdate(env, m, id, m1[id]);
      if m[id].certs == [] {
        SoundUpdate(env, m, id, m[id].(trust := NotTrusted, newest := -1));
      } else {
        ScanCertsSound(env, m1, id, 0);
        var m2 := ScanCerts(env, m1, id, 0);
        if m2[id].newest < 0 {
          SoundUpdate(env, m2, id, m2[id].(trust := NotTrusted, scope := EMPTY_SCOPE));
        } else {
          SoundTrust(env, m2, id);
        }
      }
    }
  }

  lemma {:induction false} ScanCertsSound(env: Env, m: Keys, id: uint64, i: nat)
    requires Scanning(m, id, i) && SoundSoFar(env, m, id)
    ensures SoundSoFar(env, ScanCerts(env, m, id, i), id)
    decreases UnknownKeys(m), 1, |m[id].certs| - i
  {
    if i < |m[id].certs| {
      ScanCertSound(env, m, id, i);
      var m' := ScanCert(env, m, id, i);
      ScanExtendsUnknown(m, m', id);
      ScanCertsSound(env, m', id, i + 1);
    }
  }

  lemma {:induction false} ScanCertSound(env: Env, m: Keys, id: uint64, i: nat)
    requires Scanning(m, id, i) && i < |m[id].certs| && SoundSoFar(env, m, id)
    ensures SoundSoFar(env, ScanCert(env, m, id, i), id)
    decreases UnknownKeys(m), 1, |m[id].certs| - i, 0
  {
    var signer := m[id].certs[i].signer;
    if signer !in m {
    } else if signer == id {
      if env.root.None? {
        ConsiderSound(env, m, id, i);
      }
    } else if m[signer].trust != Working {
      EvaluateSound(env, m, signer);
      var m' := Evaluate(env, m, signer);
      assert Advances(m[id], m'[id]);
      if m[id].newest >= 0 {
        var s := Chosen(m, id).signer;
        assert Advances(m[s], m'[s]);
        BackedStable(env, m, m', id);
      }
      if IsTrusted(m'[signer].trust) {
        ConsiderSound(env, m', id, i);
      }
    }
  }

  lemma ConsiderSound(env: Env, m: Keys, id: uint64, i: nat)
    requires Scanning(m, id, i) && i < |m[id].certs| && SoundSoFar(env, m, id)
    requires var s := m[id].certs[i].signer; s in m && (if s == id then env.root.None? else IsTrusted(m[s].trust))
    ensures SoundSoFar(env, Consider(env, m, id, i), id)
  {
    var r := Consider(env, m, id, i);
    if r != m {
      SoundUpdate(env, m, id, r[id]);
    }
  }

  lemma {:induction false} EvaluateAllSound(env: Env, m: Keys, order: seq<uint64>)
    requires Sound(env, m) && forall k :: k in order ==> k in m
    ensures Sound(env, EvaluateAll(env, m, order))
  {
    if order != [] {
      EvaluateSound(env, m, order[0]);
      EvaluateAllSound(env, Evaluate(env, m, order[0]), order[1..]);
    }
  }

  /**
   * On every signer graph, cyclic or not, each key a recomputation leaves trusted has a finite
   * repetition-free chain of verified certificates, through trusted keys only, to an anchor.
   */
  lemma RecomputeSound(env: Env, m: Keys, order: seq<uint64>)
    requires forall k :: k in order ==> k in m
    ensures Sound(env, Recompute(env, m, order))
  {
    EvaluateAllSound(env, Forget(m), order);
  }

  // ---------- what a chain says about authority and expiry ----------

  ghost predicate RootsUnlimited(m: Keys) {
    forall k :: k in m && m[k].trust == Hardcoded ==> m[k].scope == ALL_SCOPE
  }

  /** Every key on the chain but a compiled-in root stands on a certificate satisfying `ok`. */
  ghost predicate AllOnChain(m: Keys, p: seq<uint64>, ok: Cert -> bool) {
    forall k :: k in p && k in m && m[k].trust != Hardcoded ==> 0 <= m[k].newest < |m[k].certs| && ok(Chosen(m, k))
  }

  lemma ChainTail(env: Env, m: Keys, p: seq<uint64>, ok: Cert -> bool)
    requires IsChain(env, m, p) && |p| > 1
    ensures IsChain(env, m, p[1..])
    ensures Link(env, m, p[0], p[1]) && p[0] != p[1]
    ensures AllOnChain(m, p, ok) <==> ok(Chosen(m, p[0])) && AllOnChain(m, p[1..], ok)
  {
    assert Link(env, m, p[0], p[1]);
    var t := p[1..];
    forall i | 0 <= i < |t| - 1 ensures Link(env, m, t[i], t[i + 1]) {
      assert Link(env, m, p[i + 1], p[i + 2]);
    }
    assert p == [p[0]] + t;
    assert p[0] in p;
  }

  /** A trusted key's expiry has not passed exactly when no certificate on its chain has expired. */
  lemma {:induction false} ChainUnexpired(env: Env, m: Keys, p: seq<uint64>, now: int)
    requires IsChain(env, m, p) && RootsUnlimited(m) && now <= TIME_MAX
    ensures p[0] in m
    ensures now <= m[p[0]].scope.expiry <==> AllOnChain(m, p, (c: Cert) => now <= c.scope.expiry)
  {
    if |p| > 1 {
      ChainTail(env, m, p, (c: Cert) => now <= c.scope.expiry);
      ChainUnexpired(env, m, p[1..], now);
    } else {
      assert p[0] in p;
    }
  }

  /** What one link makes of the lists it meets, for one item. */
  lemma LinkItems(a: Items, b: Items, x: int)
    requires Sorted(a) && Sorted(b) && x != RESERVED_ITEM
    ensures Sorted(Meet(a, b)) && (HasItem(a, x) && HasItem(b, x) ==> HasItem(Meet(a, b), x))
    ensures Unmixed(a) && Unmixed(b) ==>
      Unmixed(Meet(a, b)) && (HasItem(Meet(a, b), x) ==> HasItem(a, x) && HasItem(b, x))
  {
    SharedItemsCorrect(a, b);
    if HasItem(a, x) && HasItem(b, x) {
      MeetAllows(a, b, x);
    }
    if Unmixed(a) && Unmixed(b) {
      MeetUnmixed(a, b);
    }
  }

  /**
   * A trusted key may act for an app if every certificate on its chain allows it; and, when these hold the
   * reserved item only as the mark for all, only then.
   */
  lemma {:induction false} ChainApps(env: Env, m: Keys, p: seq<uint64>, app: int)
    requires IsChain(env, m, p) && RootsUnlimited(m) && app != RESERVED_ITEM
    requires AllOnChain(m, p, (c: Cert) => Sorted(c.scope.apps))
    ensures p[0] in m && Sorted(m[p[0]].scope.apps)
    ensures AllOnChain(m, p, (c: Cert) => HasItem(c.scope.apps, app)) ==> HasItem(m[p[0]].scope.apps, app)
    ensures AllOnChain(m, p, (c: Cert) => Unmixed(c.scope.apps)) ==>
      && Unmixed(m[p[0]].scope.apps)
      && (HasItem(m[p[0]].scope.apps, app) ==> AllOnChain(m, p, (c: Cert) => HasItem(c.scope.apps, app)))
  {
    if |p| > 1 {
      ChainTail(env, m, p, (c: Cert) => Sorted(c.scope.apps));
      ChainTail(env, m, p, (c: Cert) => Unmixed(c.scope.apps));
      ChainTail(env, m, p, (c: Cert) => HasItem(c.scope.apps, app));
      ChainApps(env, m, p[1..], app);
      LinkItems(m[p[1]].scope.apps, Chosen(m, p[0]).scope.apps, app);
    } else {
      assert p[0] in p;
    }
  }

  /** The same for data centres. */
  lemma {:induction false} ChainPops(env: Env, m: Keys, p: seq<uint64>, pop: int)
    requires IsChain(env, m, p) && RootsUnlimited(m) && pop != RESERVED_ITEM
    requires AllOnChain(m, p, (c: Cert) => Sorted(c.scope.pops))
    ensures p[0] in m && Sorted(m[p[0]].scope.pops)
    ensures AllOnChain(m, p, (c: Cert) => HasItem(c.scope.pops, pop)) ==> HasItem(m[p[0]].scope.pops, pop)
    ensures AllOnChain(m, p, (c: Cert) => Unmixed(c.scope.pops)) ==>
      && Unmixed(m[p[0]].scope.pops)
      && (HasItem(m[p[0]].scope.pops, pop) ==> AllOnChain(m, p, (c: Cert) => HasItem(c.scope.pops, pop)))
  {
    if |p| > 1 {
      ChainTail(env, m, p, (c: Cert) => Sorted(c.scope.pops));
      ChainTail(env, m, p, (c: Cert) => Unmixed(c.scope.pops));
      ChainTail(env, m, p, (c: Cert) => HasItem(c.scope.pops, pop));
      ChainPops(env, m, p[1..], pop);
      LinkItems(m[p[1]].scope.pops, Chosen(m, p[0]).scope.pops, pop);
    } else {
      assert p[0] in p;
    }
  }

  /** The authority along a chain: the last key's own, met with each certificate's on the way up. */
  ghost function ChainScope(m: Keys, p: seq<uint64>): Scope
    requires p != [] && forall k :: k in p ==> k in m
    requires forall i :: 0 <= i < |p| - 1 ==> 0 <= m[p[i]].newest < |m[p[i]].certs|
  {
    if |p| == 1 then AnchorScope(m, p[0]) else MeetScope(ChainScope(m, p[1..]), Chosen(m, p[0]).scope)
  }

  /** Everything for a compiled-in root; what its own certificate says for a self-signed one. */
  ghost function AnchorScope(m: Keys, k: uint64): Scope
    requires k in m
  {
    if m[k].trust != Hardcoded && 0 <= m[k].newest < |m[k].certs| then Chosen(m, k).scope else ALL_SCOPE
  }

  lemma ChainInTable(env: Env, m: Keys, p: seq<uint64>)
    requires IsChain(env, m, p)
    ensures forall k :: k in p ==> k in m
    ensures forall i :: 0 <= i < |p| - 1 ==> 0 <= m[p[i]].newest < |m[p[i]].certs|
  {
    forall i | 0 <= i < |p| - 1 ensures p[i] in m && 0 <= m[p[i]].newest < |m[p[i]].certs| {
      assert Link(env, m, p[i], p[i + 1]);
    }
  }

  /** The effective authority of a key is the intersection of the authorities along its chain. */
  lemma {:induction false} ScopeIsIntersection(env: Env, m: Keys, p: seq<uint64>)
    requires IsChain(env, m, p) && RootsUnlimited(m)
    ensures (forall k :: k in p ==> k in m) && forall i :: 0 <= i < |p| - 1 ==> 0 <= m[p[i]].newest < |m[p[i]].certs|
    ensures m[p[0]].scope == ChainScope(m, p)
  {
    ChainInTable(env, m, p);
    if |p| > 1 {
      ChainTail(env, m, p, (c: Cert) => true);
      ScopeIsIntersection(env, m, p[1..]);
    }
  }
}
