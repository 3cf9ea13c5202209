/**
 * Completeness: a key no signing cycle reaches is trusted as soon as certificates lead from it to a
 * root, whether or not they are the ones chosen. The paths here do not mention any verdict of trust.
 */
module TrustComplete {
  import opened Common
  import opened Trust
  import opened TrustChains
  import opened TrustOrder
  import opened StoreModel
  import opened StoreInvariant
  import opened StoreRuns

  /** A certificate of `k` verifies under the key of `signer` and leaves some of that key's authority. */
  ghost predicate Vouches(env: Env, m: Keys, k: uint64, signer: uint64, c: Cert) {
    && k in m && c in m[k].certs && c.signer == signer && signer in m
    && Verifies(env, m[signer].pub, c)
    && LinkScope(m, k, c).apps != [] && LinkScope(m, k, c).pops != []
  }

  ghost predicate VouchedBy(env: Env, m: Keys, k: uint64, signer: uint64) {
    exists c :: Vouches(env, m, k, signer, c)
  }

  /** The root compiled in or, in a build without one, a key that vouches for itself. */
  ghost predicate IsRoot(env: Env, m: Keys, k: uint64) {
    k in m && (m[k].trust == Hardcoded || (env.root.None? && VouchedBy(env, m, k, k)))
  }

  /** Each key is vouched for by the next, the last is a root, and none has been revoked. */
  ghost predicate VouchedPath(env: Env, m: Keys, p: seq<uint64>) {
    && p != []
    && (forall k :: k in p ==> k in m && m[k].trust != Revoked)
    && (forall i :: 0 <= i < |p| - 1 ==> p[i] != p[i + 1] && VouchedBy(env, m, p[i], p[i + 1]))
    && IsRoot(env, m, p[|p| - 1])
  }

  ghost predicate Vouched(env: Env, m: Keys, k: uint64) {
    exists p :: VouchedPath(env, m, p) && p[0] == k
  }

  lemma VouchedTail(env: Env, m: Keys, p: seq<uint64>)
    requires VouchedPath(env, m, p) && |p| > 1
    ensures VouchedPath(env, m, p[1..]) && VouchedBy(env, m, p[0], p[1]) && p[0] != p[1]
  {
    var t := p[1..];
    forall i | 0 <= i < |t| - 1 ensures t[i] != t[i + 1] && VouchedBy(env, m, t[i], t[i + 1]) {
      assert p[i + 1] != p[i + 2] && VouchedBy(env, m, p[i + 1], p[i + 2]);
    }
  }

  /** A certificate of a settled key that vouches for it, with a signer that is trusted, makes it trusted. */
  lemma SettledByVoucher(env: Env, m: Keys, k: uint64, signer: uint64)
    requires VouchedBy(env, m, k, signer) && Settled(env, m, k)
    requires if signer == k then env.root.None? else IsTrusted(m[signer].trust)
    ensures m[k].trust == Trusted
  {
    var c :| Vouches(env, m, k, signer, c);
    var i :| 0 <= i < |m[k].certs| && m[k].certs[i] == c;
    assert ValidCert(env, m, k, m[k].certs[i]);
    SettledMeansTrustedIffValid(env, m, k);
  }

  lemma GroundedSigner(env: Env, m: Keys, k: uint64, signer: uint64)
    requires Grounded(m, k) && VouchedBy(env, m, k, signer) && k != signer && !IsTerminal(m[k].trust)
    ensures Grounded(m, signer)
  {
    var c :| Vouches(env, m, k, signer, c);
    var i :| 0 <= i < |m[k].certs| && m[k].certs[i] == c;
    assert Edge(m, k, signer);
    assert SignerPath(m, [k, signer]);
    GroundedAlong(m, [k, signer]);
  }

  lemma {:induction false} PathIsTrusted(env: Env, m: Keys, p: seq<uint64>)
    requires AllSettled(env, m) && forall k :: k in m ==> IsDecided(m[k].trust)
    requires VouchedPath(env, m, p) && Grounded(m, p[0])
    ensures IsTrusted(m[p[0]].trust)
    decreases |p|
  {
    var k := p[0];
    if !IsTerminal(m[k].trust) {
      assert Settled(env, m, k);
      if |p| == 1 {
        SettledByVoucher(env, m, k, k);
      } else {
        VouchedTail(env, m, p);
        GroundedSigner(env, m, k, p[1]);
        PathIsTrusted(env, m, p[1..]);
        SettledByVoucher(env, m, k, p[1]);
      }
    }
  }

  lemma ValidStoreSettled(env: Env, s: Store)
    requires Inv(env, s) && s.valid
    ensures AllSettled(env, s.keys) && forall k :: k in s.keys ==> IsDecided(s.keys[k].trust)
  {
    KeysOkPopulated(env, s.keys);
    RecomputeSettles(env, s.keys, s.order);
    RecomputeShape(env, s.keys, s.order);
  }

  /** The chosen certificates of a trusted key form such a path. */
  lemma ChainIsVouchedPath(env: Env, m: Keys, p: seq<uint64>)
    requires IsChain(env, m, p)
    ensures VouchedPath(env, m, p)
  {
    ChainIsTrusted(env, m, p);
    forall i | 0 <= i < |p| - 1 ensures p[i] != p[i + 1] && VouchedBy(env, m, p[i], p[i + 1]) {
      assert Link(env, m, p[i], p[i + 1]);
      assert Vouches(env, m, p[i], p[i + 1], Chosen(m, p[i]));
    }
    var last := p[|p| - 1];
    if m[last].trust != Hardcoded {
      assert Vouches(env, m, last, last, Chosen(m, last));
    }
  }

  /**
   * In a store that is up to date every trusted key is vouched for, and a key no cycle reaches is
   * trusted exactly when it is.
   */
  lemma TrustedIffVouched(env: Env, s: Store, k: uint64)
    requires Inv(env, s) && s.valid && k in s.keys
    ensures IsTrusted(s.keys[k].trust) ==> Vouched(env, s.keys, k)
    ensures Grounded(s.keys, k) ==> (IsTrusted(s.keys[k].trust) <==> Vouched(env, s.keys, k))
  {
    if IsTrusted(s.keys[k].trust) {
      var p := ChainOf(env, s, k);
      ChainIsVouchedPath(env, s.keys, p);
    }
    if Grounded(s.keys, k) && Vouched(env, s.keys, k) {
      var p :| VouchedPath(env, s.keys, p) && p[0] == k;
      ValidStoreSettled(env, s);
      PathIsTrusted(env, s.keys, p);
    }
  }

  /**
   * For a key no signing cycle reaches, a signature by it is accepted exactly when it verifies, some
   * certificates lead from the key to a root, and the key's authority has not expired.
   */
  lemma CASignatureAcceptedIffVouched(env: Env, s: Store, data: Bytes, caKeyId: uint64, signature: Bytes, now: int)
    requires Inv(env, s) && s.valid && Grounded(s.keys, caKeyId)
    ensures CASignatureVerdict(env, s.keys, data, caKeyId, signature, now).Ok? <==>
      && data != [] && |signature| == SIGNATURE_SIZE
      && caKeyId != 0 && caKeyId in s.keys
      && s.keys[caKeyId].pub.Some? && env.verify(s.keys[caKeyId].pub.value, data, signature)
      && Vouched(env, s.keys, caKeyId) && now <= s.keys[caKeyId].scope.expiry
  {
    VerdictsUnfolded(env, s.keys, data, caKeyId, signature, now);
    if caKeyId in s.keys {
      TrustedIffVouched(env, s, caKeyId);
    }
  }

  /** And a public key exactly when certificates lead from it to a root and it has not expired. */
  lemma PublicKeyAcceptedIffVouched(env: Env, s: Store, id: uint64, now: int)
    requires Inv(env, s) && s.valid && Grounded(s.keys, id)
    ensures PublicKeyVerdict(s.keys, id, now).Ok? <==>
      id in s.keys && Vouched(env, s.keys, id) && now <= s.keys[id].scope.expiry
  {
    VerdictsUnfolded(env, s.keys, [], id, [], now);
    if id in s.keys {
      TrustedIffVouched(env, s, id);
    }
  }
}
