/** What holds of the certificate store over whole runs of operations from an empty store. */
module StoreRuns {
  import opened Common
  import opened AuthScope
  import opened Trust
  import opened TrustChains
  import opened TrustOrder
  import opened TrustCache
  import opened StoreModel
  import opened StoreInvariant

  /** One call. Every query begins by bringing trust up to date and changes nothing else. */
  datatype Op = ResetOp | RevokeOp(id: uint64) | AddOp(msg: Option<SignedCert>) | QueryOp

  function Step(env: Env, s: Store, op: Op): Store
    requires Inv(env, s)
  {
    match op
    case ResetOp => EMPTY_STORE
    case RevokeOp(id) => AddKeyRevocation(s, id)
    case AddOp(msg) => AddCert(env, s, msg).0
    case QueryOp => EnsureKeeps(env, s); EnsureTrustValid(env, s)
  }

  lemma StepKeeps(env: Env, s: Store, op: Op)
    requires Inv(env, s)
    ensures Inv(env, Step(env, s, op))
  {
    match op
    case ResetOp =>
    case RevokeOp(id) => RevocationKeeps(env, s, id);
    case AddOp(msg) => AddCertKeeps(env, s, msg);
    case QueryOp => EnsureKeeps(env, s);
  }

  function Run(env: Env, s: Store, ops: seq<Op>): (r: Store)
    requires Inv(env, s)
    ensures Inv(env, r)
    decreases |ops|
  {
    if ops == [] then s
    else
      StepKeeps(env, s, ops[0]);
      Run(env, Step(env, s, ops[0]), ops[1..])
  }

  ghost predicate Reachable(env: Env, s: Store) {
    Inv(env, EMPTY_STORE) && exists ops :: s == Run(env, EMPTY_STORE, ops)
  }

  /**
   * In every reachable state marked as up to date, the stored trust, choice and authority of every
   * key are what a recomputation would give; and for keys no signing cycle reaches, what a
   * recomputation in any other order would give.
   */
  lemma CacheIsFresh(env: Env, s: Store, order: seq<uint64>)
    requires Reachable(env, s) && s.valid && Covers(order, s.keys)
    ensures Listed(s) && Recompute(env, s.keys, s.order) == s.keys
    ensures forall k :: k in s.keys && Grounded(s.keys, k) ==> Recompute(env, s.keys, order)[k] == s.keys[k]
  {
    KeysOkPopulated(env, s.keys);
    forall k | k in s.keys && Grounded(s.keys, k) ensures Recompute(env, s.keys, order)[k] == s.keys[k] {
      OrderIndependent(env, s.keys, order, s.order, k);
    }
  }

  /** When a query answers, every trusted key has a chain and every key a verdict. */
  lemma QueriedSound(env: Env, s: Store)
    requires Inv(env, s) && s.valid
    ensures Sound(env, s.keys) && RootsUnlimited(s.keys)
    ensures forall k :: k in s.keys ==> IsDecided(s.keys[k].trust)
  {
    RecomputeSound(env, s.keys, s.order);
    RecomputeShape(env, s.keys, s.order);
    forall k | k in s.keys && s.keys[k].trust == Hardcoded ensures s.keys[k].scope == ALL_SCOPE {
      assert KeyOk(env, k, s.keys[k]);
    }
  }

  ghost predicate Unexpired(env: Env, m: Keys, p: seq<uint64>, now: int) {
    IsChain(env, m, p) && AllOnChain(m, p, (c: Cert) => now <= c.scope.expiry)
  }

  /** The certificates chosen for the key and its signers form a chain to an anchor; none has expired. */
  ghost predicate HasUnexpiredChain(env: Env, m: Keys, id: uint64, now: int) {
    exists p :: Unexpired(env, m, p, now) && p[0] == id
  }

  lemma ChainOf(env: Env, s: Store, id: uint64) returns (p: seq<uint64>)
    requires Inv(env, s) && s.valid && id in s.keys && IsTrusted(s.keys[id].trust)
    ensures IsChain(env, s.keys, p) && p[0] == id
  {
    QueriedSound(env, s);
    if s.keys[id].trust == Hardcoded {
      p := [id];
    } else {
      p :| IsChain(env, s.keys, p) && p[0] == id;
    }
  }

  /** Trust comes with such a chain, and lasts as long as the certificates on it. */
  lemma TrustedIffUnexpiredChain(env: Env, s: Store, id: uint64, now: int)
    requires Inv(env, s) && s.valid && id in s.keys && now <= TIME_MAX
    ensures (IsTrusted(s.keys[id].trust) && now <= s.keys[id].scope.expiry) <==> HasUnexpiredChain(env, s.keys, id, now)
  {
    QueriedSound(env, s);
    if IsTrusted(s.keys[id].trust) {
      var p := ChainOf(env, s, id);
      ChainUnexpired(env, s.keys, p, now);
    }
    if p :| Unexpired(env, s.keys, p, now) && p[0] == id {
      ChainIsTrusted(env, s.keys, p);
      ChainUnexpired(env, s.keys, p, now);
      assert p[0] in p;
    }
  }

  lemma VerdictsUnfolded(env: Env, m: Keys, data: Bytes, id: uint64, signature: Bytes, now: int)
    ensures CASignatureVerdict(env, m, data, id, signature, now).Ok? <==>
      && data != [] && |signature| == SIGNATURE_SIZE && id != 0 && id in m
      && m[id].pub.Some? && env.verify(m[id].pub.value, data, signature)
      && IsTrusted(m[id].trust) && now <= m[id].scope.expiry
    ensures PublicKeyVerdict(m, id, now).Ok? <==> id in m && IsTrusted(m[id].trust) && now <= m[id].scope.expiry
  {
  }

  /**
   * A signature is accepted exactly when it verifies under the CA key's public key and the certificates
   * chosen for the CA key and its signers form a chain, none expired, to a root the build trusts.
   */
  lemma CASignatureAccepted(env: Env, s: Store, data: Bytes, caKeyId: uint64, signature: Bytes, now: int)
    requires Inv(env, s) && s.valid && now <= TIME_MAX
    ensures CASignatureVerdict(env, s.keys, data, caKeyId, signature, now).Ok? <==>
      && data != [] && |signature| == SIGNATURE_SIZE
      && caKeyId != 0 && caKeyId in s.keys
      && s.keys[caKeyId].pub.Some? && env.verify(s.keys[caKeyId].pub.value, data, signature)
      && HasUnexpiredChain(env, s.keys, caKeyId, now)
  {
    VerdictsUnfolded(env, s.keys, data, caKeyId, signature, now);
    if caKeyId in s.keys {
      TrustedIffUnexpiredChain(env, s, caKeyId, now);
    }
  }

  /** A public key is accepted exactly when it has an unexpired chain. */
  lemma PublicKeyAccepted(env: Env, s: Store, id: uint64, now: int)
    requires Inv(env, s) && s.valid && now <= TIME_MAX
    ensures PublicKeyVerdict(s.keys, id, now).Ok? <==> id in s.keys && HasUnexpiredChain(env, s.keys, id, now)
  {
    VerdictsUnfolded(env, s.keys, [], id, [], now);
    if id in s.keys {
      TrustedIffUnexpiredChain(env, s, id, now);
    }
  }

  /** A certificate is accepted exactly when its signature is and its own key is usable and not revoked. */
  lemma CertAccepted(env: Env, s: Store, msg: SignedCert, now: int)
    requires Inv(env, s) && s.valid
    ensures CertVerdict(env, s.keys, msg, now).Ok? <==>
      && CASignatureVerdict(env, s.keys, msg.cert, msg.caKeyId, msg.caSignature, now).Ok?
      && env.parse(msg.cert).Some?
      && var body := env.parse(msg.cert).value;
         body.ed25519 && now <= body.expiry && env.keyId(body.keyData) != 0 && !IsRevoked(s, env.keyId(body.keyData))
  {
    DecidedKinds(env, s);
  }

  lemma DecidedKinds(env: Env, s: Store)
    requires Inv(env, s) && s.valid
    ensures forall k :: k in s.keys ==> IsTrusted(s.keys[k].trust) || s.keys[k].trust in {NotTrusted, Revoked}
  {
    RecomputeShape(env, s.keys, s.order);
  }

  // ---------- revocation ----------

  lemma EnsureSameGraph(env: Env, s: Store)
    requires Covers(s.order, s.keys) && |s.keys| > 0
    ensures Listed(s) && SameGraph(s.keys, EnsureTrustValid(env, s).keys)
  {
    RecomputeShape(env, s.keys, s.order);
  }

  ghost predicate IsRevoked(s: Store, id: uint64) {
    id in s.keys && s.keys[id].trust == Revoked
  }

  lemma QueryKeepsRevoked(env: Env, s: Store, id: uint64)
    requires Inv(env, s) && IsRevoked(s, id)
    ensures Listed(s) && IsRevoked(EnsureTrustValid(env, s), id)
  {
    EnsureSameGraph(env, s);
    assert SameNode(s.keys[id], EnsureTrustValid(env, s).keys[id]);
  }

  lemma AddKeepsRevoked(env: Env, s: Store, msg: Option<SignedCert>, id: uint64)
    requires IsRevoked(s, id)
    ensures IsRevoked(AddCert(env, s, msg).0, id)
  {
    assert |s.keys| > 0;
    assert OneTimeInit(env, s) == s;
  }

  lemma StepStaysRevoked(env: Env, s: Store, op: Op, id: uint64)
    requires Inv(env, s) && op != ResetOp && IsRevoked(s, id)
    ensures IsRevoked(Step(env, s, op), id)
  {
    match op
    case RevokeOp(_) =>
    case AddOp(msg) => AddKeepsRevoked(env, s, msg, id);
    case QueryOp => QueryKeepsRevoked(env, s, id);
  }

  /** A revoked key stays revoked until the store is reset. */
  lemma {:induction false} StaysRevoked(env: Env, s: Store, ops: seq<Op>, id: uint64)
    requires Inv(env, s) && ResetOp !in ops && IsRevoked(s, id)
    ensures IsRevoked(Run(env, s, ops), id)
    decreases |ops|
  {
    if ops != [] {
      StepStaysRevoked(env, s, ops[0], id);
      StepKeeps(env, s, ops[0]);
      StaysRevoked(env, Step(env, s, ops[0]), ops[1..], id);
    }
  }

  /** After a revocation, and until a reset, no accepted chain runs through the revoked key. */
  lemma RevokedOnNoChain(env: Env, s: Store, id: uint64, ops: seq<Op>, p: seq<uint64>)
    requires Inv(env, s) && ResetOp !in ops
    ensures Inv(env, AddKeyRevocation(s, id))
    ensures IsChain(env, Run(env, AddKeyRevocation(s, id), ops).keys, p) ==> id !in p
  {
    RevocationKeeps(env, s, id);
    StaysRevoked(env, AddKeyRevocation(s, id), ops, id);
    var m := Run(env, AddKeyRevocation(s, id), ops).keys;
    if IsChain(env, m, p) {
      ChainIsTrusted(env, m, p);
    }
  }

  // ---------- the compiled-in root ----------

  ghost predicate RootTrusted(env: Env, s: Store)
    requires env.root.Some?
  {
    var id := env.keyId(env.root.value);
    id in s.keys && s.keys[id].trust == Hardcoded
  }

  lemma QueryRoot(env: Env, s: Store)
    requires env.root.Some? && Covers(s.order, s.keys) && |s.keys| > 0
    ensures Listed(s) && |EnsureTrustValid(env, s).keys| > 0
    ensures RootTrusted(env, EnsureTrustValid(env, s)) <==> RootTrusted(env, s)
  {
    EnsureSameGraph(env, s);
    SameGraphRoot(env, s, EnsureTrustValid(env, s));
  }

  lemma SameGraphRoot(env: Env, s: Store, r: Store)
    requires env.root.Some? && SameGraph(s.keys, r.keys) && |s.keys| > 0
    ensures |r.keys| > 0 && (RootTrusted(env, r) <==> RootTrusted(env, s))
  {
    var k :| k in s.keys;
    var id := env.keyId(env.root.value);
    assert k in r.keys;
    assert id in s.keys ==> SameNode(s.keys[id], r.keys[id]);
  }

  lemma RevokeRoot(env: Env, s: Store, id: uint64)
    requires env.root.Some?
    ensures |AddKeyRevocation(s, id).keys| > 0
    ensures RootTrusted(env, AddKeyRevocation(s, id)) <==> RootTrusted(env, s) && id != env.keyId(env.root.value)
  {
    assert id in AddKeyRevocation(s, id).keys;
  }

  lemma AddRoot(env: Env, s: Store, msg: Option<SignedCert>)
    requires env.root.Some? && |s.keys| > 0
    ensures |AddCert(env, s, msg).0.keys| > 0
    ensures RootTrusted(env, AddCert(env, s, msg).0) <==> RootTrusted(env, s)
  {
    var k :| k in s.keys;
    AddKeepsHardcoded(env, s, msg, env.keyId(env.root.value));
    assert k in AddCert(env, s, msg).0.keys;
  }

  lemma StepRoot(env: Env, s: Store, op: Op)
    requires env.root.Some? && Inv(env, s) && |s.keys| > 0 && op != ResetOp
    ensures |Step(env, s, op).keys| > 0
    ensures RootTrusted(env, Step(env, s, op)) <==>
      RootTrusted(env, s) && op != RevokeOp(env.keyId(env.root.value))
  {
    if op.QueryOp? {
      QueryRoot(env, s);
    } else if op.RevokeOp? {
      RevokeRoot(env, s, op.id);
    } else {
      AddRoot(env, s, op.msg);
    }
  }

  /** Adding a certificate makes no key a compiled-in root, nor takes that from one. */
  lemma AddKeepsHardcoded(env: Env, s: Store, msg: Option<SignedCert>, id: uint64)
    requires |s.keys| > 0
    ensures var r := AddCert(env, s, msg).0;
      && s.keys.Keys <= r.keys.Keys
      && ((id in r.keys && r.keys[id].trust == Hardcoded) <==> (id in s.keys && s.keys[id].trust == Hardcoded))
  {
  }

  lemma {:induction false} RunRoot(env: Env, s: Store, ops: seq<Op>)
    requires env.root.Some? && Inv(env, s) && |s.keys| > 0 && ResetOp !in ops
    ensures RootTrusted(env, Run(env, s, ops)) <==>
      RootTrusted(env, s) && RevokeOp(env.keyId(env.root.value)) !in ops
    decreases |ops|
  {
    if ops != [] {
      StepKeeps(env, s, ops[0]);
      var t := Step(env, s, ops[0]);
      var revoke := RevokeOp(env.keyId(env.root.value));
      assert RootTrusted(env, Run(env, t, ops[1..])) <==>
        RootTrusted(env, s) && ops[0] != revoke && revoke !in ops[1..] by {
        StepRoot(env, s, ops[0]);
        RunRoot(env, t, ops[1..]);
      }
      InFirstOrRest(ops, revoke);
    }
  }

  lemma InFirstOrRest(ops: seq<Op>, op: Op)
    requires ops != []
    ensures op in ops <==> op == ops[0] || op in ops[1..]
  {
    assert ops == [ops[0]] + ops[1..];
  }

  /**
   * In a build with a compiled-in root, the root is trusted after a run exactly when the run did
   * not start with a revocation, which fills the table before the root is put in, nor revoke the root.
   */
  lemma RootTrustedIff(env: Env, ops: seq<Op>)
    requires env.root.Some? && ops != [] && ResetOp !in ops
    ensures Inv(env, EMPTY_STORE)
    ensures RootTrusted(env, Run(env, EMPTY_STORE, ops)) <==>
      !ops[0].RevokeOp? && RevokeOp(env.keyId(env.root.value)) !in ops
  {
    var s := Step(env, EMPTY_STORE, ops[0]);
    StepKeeps(env, EMPTY_STORE, ops[0]);
    FirstStepRoot(env, ops[0]);
    RunRoot(env, s, ops[1..]);
    InFirstOrRest(ops, RevokeOp(env.keyId(env.root.value)));
  }

  lemma RootPutIn(env: Env)
    requires env.root.Some?
    ensures Inv(env, EMPTY_STORE) && Inv(env, OneTimeInit(env, EMPTY_STORE))
    ensures RootTrusted(env, OneTimeInit(env, EMPTY_STORE)) && |OneTimeInit(env, EMPTY_STORE).keys| > 0
  {
    OneTimeInitKeeps(env, EMPTY_STORE);
  }

  lemma FirstEnsureRoot(env: Env)
    requires env.root.Some?
    ensures Listed(EMPTY_STORE) && |EnsureTrustValid(env, EMPTY_STORE).keys| > 0
    ensures RootTrusted(env, EnsureTrustValid(env, EMPTY_STORE))
  {
    var s := OneTimeInit(env, EMPTY_STORE);
    assert env.keyId(env.root.value) in s.keys.Keys;
    assert RootTrusted(env, s) && |s.keys| > 0 && OneTimeInit(env, s) == s;
    QueryRoot(env, s);
  }

  lemma FirstQueryRoot(env: Env)
    requires env.root.Some?
    ensures Inv(env, EMPTY_STORE)
    ensures |Step(env, EMPTY_STORE, QueryOp).keys| > 0 && RootTrusted(env, Step(env, EMPTY_STORE, QueryOp))
  {
    FirstEnsureRoot(env);
  }

  lemma FirstAddRoot(env: Env, msg: Option<SignedCert>)
    requires env.root.Some?
    ensures Inv(env, EMPTY_STORE)
    ensures |Step(env, EMPTY_STORE, AddOp(msg)).keys| > 0 && RootTrusted(env, Step(env, EMPTY_STORE, AddOp(msg)))
  {
    var s := OneTimeInit(env, EMPTY_STORE);
    RootPutIn(env);
    assert OneTimeInit(env, s) == s;
    assert AddCert(env, EMPTY_STORE, msg) == AddCert(env, s, msg);
    AddRoot(env, s, msg);
  }

  lemma FirstStepRoot(env: Env, op: Op)
    requires env.root.Some? && op != ResetOp
    ensures Inv(env, EMPTY_STORE)
    ensures |Step(env, EMPTY_STORE, op).keys| > 0
    ensures RootTrusted(env, Step(env, EMPTY_STORE, op)) <==> !op.RevokeOp?
  {
    match op
    case QueryOp => FirstQueryRoot(env);
    case AddOp(msg) => FirstAddRoot(env, msg);
    case RevokeOp(id) => RevokeRoot(env, EMPTY_STORE, id);
  }

  /** Without its compiled-in root such a build trusts no key at all. */
  lemma TrustNeedsRoot(env: Env, s: Store, k: uint64)
    requires env.root.Some? && Inv(env, s) && s.valid && k in s.keys && IsTrusted(s.keys[k].trust)
    ensures RootTrusted(env, s)
  {
    var p := ChainOf(env, s, k);
    AnchorIsRoot(env, s, p[|p| - 1]);
  }

  lemma AnchorIsRoot(env: Env, s: Store, k: uint64)
    requires env.root.Some? && Inv(env, s) && Anchor(env, s.keys, k)
    ensures RootTrusted(env, s)
  {
    assert KeyOk(env, k, s.keys[k]);
  }
}
