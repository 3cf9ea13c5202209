/** Branches of trust evaluation that are never taken, in the whole recursion of a pass. */
module TrustBranches {
  import opened Common
  import opened Trust
  import opened TrustOrder
  import opened StoreModel
  import opened StoreInvariant
  import opened StoreRuns

  /**
   * Evaluating `id`, and every evaluation that leads to, is never started on a key being worked on and
   * never finds a key without certificates.
   */
  ghost predicate RunsClean(env: Env, m: Keys, id: uint64)
    requires id in m
    decreases UnknownKeys(m), 0, 0
  {
    && m[id].trust != Working
    && (m[id].trust == Unknown ==>
      && m[id].certs != []
      && var m1 := m[id := m[id].(trust := Working, newest := -1)];
         assert UnknownKeys(m1) == UnknownKeys(m) - {id};
         ScanRunsClean(env, m1, id, 0))
  }

  /** The same for the loop over the certificates of `id`, from index `i` on. */
  ghost predicate ScanRunsClean(env: Env, m: Keys, id: uint64, i: nat)
    requires Scanning(m, id, i)
    decreases UnknownKeys(m), 1, |m[id].certs| - i
  {
    i < |m[id].certs| ==>
      && SignerRunsClean(env, m, id, i)
      && (ScanExtendsUnknown(m, ScanCert(env, m, id, i), id);
          ScanRunsClean(env, ScanCert(env, m, id, i), id, i + 1))
  }

  /** The same for its body, which evaluates the signer unless that is the key itself or being worked on. */
  ghost predicate SignerRunsClean(env: Env, m: Keys, id: uint64, i: nat)
    requires Scanning(m, id, i) && i < |m[id].certs|
    decreases UnknownKeys(m), 1, |m[id].certs| - i, 0
  {
    var signer := m[id].certs[i].signer;
    signer in m && signer != id && m[signer].trust != Working ==> RunsClean(env, m, signer)
  }

  /** And for the pass over all keys. */
  ghost predicate PassRunsClean(env: Env, m: Keys, order: seq<uint64>)
    requires forall k :: k in order ==> k in m
    decreases |order|
  {
    order != [] ==>
      RunsClean(env, m, order[0]) && PassRunsClean(env, Evaluate(env, m, order[0]), order[1..])
  }

  ghost predicate NoneWorking(m: Keys) {
    forall k :: k in m ==> m[k].trust != Working
  }

  lemma {:induction false} EvaluationClean(env: Env, m: Keys, id: uint64)
    requires id in m && Populated(m) && m[id].trust != Working
    ensures RunsClean(env, m, id)
    decreases UnknownKeys(m), 0, 0
  {
    if m[id].trust == Unknown {
      var m1 := m[id := m[id].(trust := Working, newest := -1)];
      assert UnknownKeys(m1) == UnknownKeys(m) - {id};
      ScanClean(env, m1, id, 0);
    }
  }

  lemma {:induction false} ScanClean(env: Env, m: Keys, id: uint64, i: nat)
    requires Scanning(m, id, i) && Populated(m)
    ensures ScanRunsClean(env, m, id, i)
    decreases UnknownKeys(m), 1, |m[id].certs| - i
  {
    if i < |m[id].certs| {
      var signer := m[id].certs[i].signer;
      if signer in m && signer != id && m[signer].trust != Working {
        EvaluationClean(env, m, signer);
      }
      var m' := ScanCert(env, m, id, i);
      ScanExtendsUnknown(m, m', id);
      ScanExtendsSameGraph(m, m', id);
      PopulatedStable(m, m');
      ScanClean(env, m', id, i + 1);
    }
  }

  lemma ExtendsNoneWorking(m: Keys, r: Keys)
    requires Extends(m, r) && NoneWorking(m)
    ensures NoneWorking(r)
  {
    forall k | k in r ensures r[k].trust != Working {
      assert Advances(m[k], r[k]);
    }
  }

  lemma {:induction false} PassClean(env: Env, m: Keys, order: seq<uint64>)
    requires forall k :: k in order ==> k in m
    requires Populated(m) && NoneWorking(m)
    ensures PassRunsClean(env, m, order)
    decreases |order|
  {
    if order != [] {
      var m' := Evaluate(env, m, order[0]);
      EvaluationClean(env, m, order[0]);
      ExtendsNoneWorking(m, m');
      ExtendsSameGraph(m, m');
      PopulatedStable(m, m');
      PassClean(env, m', order[1..]);
    }
  }

  /** The pass a query makes in any reachable state runs clean. */
  lemma ReachablePassClean(env: Env, s: Store)
    requires Reachable(env, s)
    ensures var t := OneTimeInit(env, s); Listed(t) && PassRunsClean(env, Forget(t.keys), t.order)
  {
    OneTimeInitKeeps(env, s);
    var t := OneTimeInit(env, s);
    KeysOkPopulated(env, t.keys);
    ForgetSameGraph(t.keys);
    PopulatedStable(t.keys, Forget(t.keys));
    PassClean(env, Forget(t.keys), t.order);
  }
}
