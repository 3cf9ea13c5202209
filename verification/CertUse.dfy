/** Whether a certificate that was accepted gives permission to access an app or a data centre. */
module CertUse {
  import opened Common
  import opened Sorting
  import opened AuthScope
  import opened Trust
  import opened TrustChains
  import opened StoreModel
  import opened StoreInvariant
  import opened StoreRuns
  import opened StoreAnswers

  // ---------- the checks ----------

  /** A certificate that lists items permits those that its signers' authority grants too, one without a list all. */
  predicate Permitted(listed: Items, granted: Option<Items>, item: int) {
    listed == [] || (item in listed && (granted.Some? ==> HasItem(granted.value, item)))
  }

  /** The check made of an item; without a list it only leaves a message when the authority does not grant it. */
  method CheckItem(listed: Items, granted: Option<Items>, item: int) returns (ok: bool)
    ensures ok <==> Permitted(listed, granted, item)
  {
    if |listed| == 0 {
      return true;
    }
    for i := 0 to |listed|
      invariant item !in listed[..i]
    {
      if listed[i] == item {
        return granted.None? || HasItem(granted.value, item);
      }
    }
    ok := false;
  }

  method CheckCertAppID(body: CertBody, granted: Option<Scope>, app: int) returns (ok: bool)
    ensures granted.None? ==> (ok <==> body.apps == [] || app in body.apps)
    ensures granted.Some? ==> (ok <==> Permitted(body.apps, Some(granted.value.apps), app))
  {
    ok := CheckItem(body.apps, if granted.None? then None else Some(granted.value.apps), app);
  }

  method CheckCertPOPID(body: CertBody, granted: Option<Scope>, pop: int) returns (ok: bool)
    ensures granted.None? ==> (ok <==> body.pops == [] || pop in body.pops)
    ensures granted.Some? ==> (ok <==> Permitted(body.pops, Some(granted.value.pops), pop))
  {
    ok := CheckItem(body.pops, if granted.None? then None else Some(granted.value.pops), pop);
  }

  // ---------- when they exceed the authority granted ----------

  lemma {:induction false} SomeOther(v: Items) returns (x: int)
    ensures x != RESERVED_ITEM && forall y :: y in v ==> y < x
  {
    if v == [] {
      x := RESERVED_ITEM + 1;
    } else {
      assert v == [v[0]] + v[1..];
      x := SomeOther(v[1..]);
      x := if v[0] < x then x else v[0] + 1;
      if x == RESERVED_ITEM {
        x := x + 1;
      }
    }
  }

  /** What is permitted is granted, for every item, exactly if the certificate lists items or everything is granted. */
  lemma PermitsOnlyGrantedIff(listed: Items, granted: Items)
    ensures (forall x :: Permitted(listed, Some(granted), x) ==> HasItem(granted, x)) <==>
      listed != [] || IsAll(granted)
  {
    if listed == [] && !IsAll(granted) {
      var x := SomeOther(granted);
      assert Permitted(listed, Some(granted), x) && !HasItem(granted, x);
    }
  }

  // ---------- permission and the chain ----------

  /** Every certificate of a valid store on a chain holds sorted lists. */
  lemma ChainSorted(env: Env, s: Store, p: seq<uint64>)
    requires Inv(env, s) && IsChain(env, s.keys, p)
    ensures AllOnChain(s.keys, p, (c: Cert) => Sorted(c.scope.apps))
    ensures AllOnChain(s.keys, p, (c: Cert) => Sorted(c.scope.pops))
  {
    forall k | k in p && k in s.keys && s.keys[k].trust != Hardcoded
      ensures 0 <= s.keys[k].newest < |s.keys[k].certs|
      ensures Sorted(Chosen(s.keys, k).scope.apps) && Sorted(Chosen(s.keys, k).scope.pops)
    {
      ChainSaysSo(env, s, p, k);
      assert KeyOk(env, k, s.keys[k]);
      assert CertOk(env, s.keys[k].pub.value, Chosen(s.keys, k));
      ScopeOfUsable(env.parse(Chosen(s.keys, k).signedData).value);
    }
  }

  /** A chain from the key that signed an accepted certificate. */
  ghost predicate Vouches(env: Env, s: Store, msg: SignedCert, now: int, p: seq<uint64>) {
    && Inv(env, s) && s.valid && CertVerdict(env, s.keys, msg, now).Ok? && env.parse(msg.cert).Some?
    && IsChain(env, s.keys, p) && p[0] == msg.caKeyId
  }

  lemma GrantedScope(env: Env, s: Store, msg: SignedCert, now: int)
    requires CertVerdict(env, s.keys, msg, now).Ok?
    ensures msg.caKeyId in s.keys && CertVerdict(env, s.keys, msg, now).value == s.keys[msg.caKeyId].scope
  {
    CertPassesOn(env, s.keys, msg, now);
    AnswersScope(env, s.keys, msg.cert, msg.caKeyId, msg.caSignature, now);
  }

  /**
   * An accepted certificate that lists apps permits one exactly if it lists it and every certificate on
   * the chain that vouches for it allows it, unless one of those mixes the reserved item with others.
   */
  lemma AppPermittedIff(env: Env, s: Store, msg: SignedCert, now: int, p: seq<uint64>, app: int)
    requires Vouches(env, s, msg, now, p) && app != RESERVED_ITEM
    requires env.parse(msg.cert).value.apps != []
    requires AllOnChain(s.keys, p, (c: Cert) => Unmixed(c.scope.apps))
    ensures Permitted(env.parse(msg.cert).value.apps, Some(CertVerdict(env, s.keys, msg, now).value.apps), app) <==>
      app in env.parse(msg.cert).value.apps && AllOnChain(s.keys, p, (c: Cert) => HasItem(c.scope.apps, app))
  {
    QueriedSound(env, s);
    GrantedScope(env, s, msg, now);
    ChainSorted(env, s, p);
    ChainApps(env, s.keys, p, app);
  }

  /** The same for data centres. */
  lemma PopPermittedIff(env: Env, s: Store, msg: SignedCert, now: int, p: seq<uint64>, pop: int)
    requires Vouches(env, s, msg, now, p) && pop != RESERVED_ITEM
    requires env.parse(msg.cert).value.pops != []
    requires AllOnChain(s.keys, p, (c: Cert) => Unmixed(c.scope.pops))
    ensures Permitted(env.parse(msg.cert).value.pops, Some(CertVerdict(env, s.keys, msg, now).value.pops), pop) <==>
      pop in env.parse(msg.cert).value.pops && AllOnChain(s.keys, p, (c: Cert) => HasItem(c.scope.pops, pop))
  {
    QueriedSound(env, s);
    GrantedScope(env, s, msg, now);
    ChainSorted(env, s, p);
    ChainPops(env, s.keys, p, pop);
  }
}
