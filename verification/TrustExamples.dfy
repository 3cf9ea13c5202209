/** Two runs of the store showing what trust evaluation does not promise. */
module TrustExamples {
  import opened Common
  import opened AuthScope
  import opened Trust
  import opened TrustChains
  import opened TrustOrder
  import opened StoreModel
  import opened StoreInvariant
  import opened StoreRuns

  // ---------- three keys and their certificates ----------

  function PubOf(n: byte): Bytes {
    seq(PUBLIC_KEY_SIZE, _ => n)
  }

  /** The signature of key `n` over a certificate about key `subject`. */
  function SigOf(n: byte, subject: byte): Bytes {
    seq(SIGNATURE_SIZE, i => if i == 0 then n else subject)
  }

  /** Keys are named by their first byte, certificates by that of the key they are about; key 3 is compiled in. */
  function ThreeKeys(): Env {
    Env((pub, data, sig) => pub != [] && data != [] && sig == SigOf(pub[0], data[0]),
        pub => if pub == [] then 0 else pub[0],
        data => if |data| == 1 then Some(CertBody(false, true, PubOf(data[0]), 0, 1, [], [])) else None,
        Some(PubOf(3)))
  }

  function Signed(subject: byte, n: byte): SignedCert {
    SignedCert([subject], n, SigOf(n, subject))
  }

  // A certificate without lists grants everything until it expires.
  const GRANTED := Scope([RESERVED_ITEM], [RESERVED_ITEM], 1)

  function Stored(subject: byte, n: byte): Cert {
    Cert([subject], n, SigOf(n, subject), GRANTED, 0)
  }

  function Fresh(n: byte, certs: seq<Cert>): Key {
    Key(Unknown, Some(PubOf(n)), certs, EMPTY_SCOPE, -1)
  }

  // Key 1 is certified by key 2 and by the root, key 3; key 2 is certified by key 1 alone.
  function Cycle(): Keys {
    map[3 := RootKey(PubOf(3)), 1 := Fresh(1, [Stored(1, 2), Stored(1, 3)]), 2 := Fresh(2, [Stored(2, 1)])]
  }

  lemma SetupStored(subject: byte, n: byte)
    ensures SetupCert(ThreeKeys(), Signed(subject, n)) == Ok((Stored(subject, n), PubOf(subject)))
  {
  }

  lemma VerifiesStored(subject: byte, n: byte)
    ensures Verifies(ThreeKeys(), Some(PubOf(n)), Stored(subject, n))
  {
  }

  // ---------- adding the certificates ----------

  function Added(s: Store, subject: byte, n: byte): Store {
    AddCert(ThreeKeys(), s, Some(Signed(subject, n))).0
  }

  /** The first certificate for a key, in a table that is not empty. */
  lemma AddedFirst(s: Store, subject: byte, n: byte)
    requires |s.keys| > 0 && subject !in s.keys
    ensures Added(s, subject, n)
         == Store(s.keys[subject := Fresh(subject, [Stored(subject, n)])], s.order + [subject], false)
  {
    SetupStored(subject, n);
    assert ThreeKeys().keyId(PubOf(subject)) == subject;
    var provided := ProvideKey(s, subject, PubOf(subject));
    assert [] + [Stored(subject, n)] == [Stored(subject, n)];
    assert provided.keys[subject := Fresh(subject, [Stored(subject, n)])]
        == s.keys[subject := Fresh(subject, [Stored(subject, n)])];
  }

  lemma AddedNext(s: Store, subject: byte, n: byte, other: byte)
    requires subject in s.keys && s.keys[subject] == Fresh(subject, [Stored(subject, other)]) && n != other
    ensures Added(s, subject, n)
         == Store(s.keys[subject := Fresh(subject, [Stored(subject, other), Stored(subject, n)])], s.order, false)
  {
    SetupStored(subject, n);
    assert |s.keys| > 0 by {
      assert subject in s.keys.Keys;
    }
    assert ThreeKeys().keyId(PubOf(subject)) == subject;
    assert s.keys[subject := s.keys[subject]] == s.keys;
    assert SigOf(n, subject)[0] != SigOf(other, subject)[0];
    assert [Stored(subject, other)] + [Stored(subject, n)] == [Stored(subject, other), Stored(subject, n)];
  }

  lemma RootPutIn()
    ensures OneTimeInit(ThreeKeys(), EMPTY_STORE) == Store(map[3 := RootKey(PubOf(3))], [3], false)
  {
    assert ThreeKeys().keyId(PubOf(3)) == 3;
    assert EMPTY_STORE.order + [3] == [3];
  }

  lemma AddedToEmpty(subject: byte, n: byte)
    requires subject != 3
    ensures Added(EMPTY_STORE, subject, n)
         == Store(map[3 := RootKey(PubOf(3)), subject := Fresh(subject, [Stored(subject, n)])], [3, subject], false)
  {
    RootPutIn();
    var s := OneTimeInit(ThreeKeys(), EMPTY_STORE);
    assert |s.keys| == 1;
    assert Added(EMPTY_STORE, subject, n) == Added(s, subject, n);
    AddedFirst(s, subject, n);
    assert [3] + [subject] == [3, subject];
  }

  /** In one order the table visits key 1 before key 2. */
  lemma OneBeforeTwo()
    ensures Added(Added(Added(EMPTY_STORE, 1, 2), 1, 3), 2, 1) == Store(Cycle(), [3, 1, 2], false)
  {
    AddedToEmpty(1, 2);
    var s1 := Added(EMPTY_STORE, 1, 2);
    AddedNext(s1, 1, 3, 2);
    var s2 := Added(s1, 1, 3);
    assert 1 in s2.keys.Keys && |s2.keys| == |s2.keys.Keys|;
    AddedFirst(s2, 2, 1);
    assert Added(s2, 2, 1).keys == Cycle();
    assert [3, 1] + [2] == [3, 1, 2];
  }

  /** In another order, key 2 before key 1. */
  lemma TwoBeforeOne()
    ensures Added(Added(Added(EMPTY_STORE, 2, 1), 1, 2), 1, 3) == Store(Cycle(), [3, 2, 1], false)
  {
    AddedToEmpty(2, 1);
    var s1 := Added(EMPTY_STORE, 2, 1);
    assert 2 in s1.keys.Keys && |s1.keys| == |s1.keys.Keys|;
    AddedFirst(s1, 1, 2);
    var s2 := Added(s1, 1, 2);
    AddedNext(s2, 1, 3, 2);
    assert Added(s2, 1, 3).keys == Cycle();
    assert [3, 2] + [1] == [3, 2, 1];
  }

  // ---------- the two passes ----------

  ghost predicate Untouched(m: Keys, id: uint64) {
    id in m && m[id].trust == Unknown && m[id].newest == -1
  }

  function Begun(m: Keys, id: uint64): Keys
    requires id in m
  {
    m[id := m[id].(trust := Working)]
  }

  /** The signer of `c` is trusted, and the certificate carries the full authority. */
  ghost predicate Good(env: Env, m: Keys, c: Cert) {
    && c.signer in m && IsTrusted(m[c.signer].trust)
    && Verifies(env, m[c.signer].pub, c) && MeetScope(m[c.signer].scope, c.scope) == GRANTED
  }

  lemma TakesFirst(env: Env, m: Keys, id: uint64, i: nat)
    requires Scanning(m, id, i) && i < |m[id].certs| && m[id].newest == -1
    requires Good(env, m, m[id].certs[i]) && m[id].certs[i].signer != id
    ensures ScanCert(env, m, id, i) == m[id := m[id].(scope := GRANTED, newest := i)]
  {
  }

  /** The only certificate of a key is passed over while its signer is being worked on. */
  lemma OnlyOnePassedOver(env: Env, m: Keys, id: uint64)
    requires Untouched(m, id) && |m[id].certs| == 1
    requires var s := m[id].certs[0].signer; s in m && s != id && m[s].trust == Working
    ensures Evaluate(env, m, id)[id].trust == NotTrusted
  {
    assert ScanCert(env, Begun(m, id), id, 0) == Begun(m, id);
    ScanCertsStep(env, Begun(m, id), id, 0);
  }

  /** The first of two certificates is passed over; the second is good. */
  lemma SecondOfTwo(env: Env, m: Keys, id: uint64)
    requires Untouched(m, id) && |m[id].certs| == 2
    requires var s := m[id].certs[0].signer; s in m && s != id && m[s].trust == Working
    requires Good(env, m, m[id].certs[1]) && m[id].certs[1].signer != id
    ensures Evaluate(env, m, id) == m[id := m[id].(trust := Trusted, scope := GRANTED, newest := 1)]
  {
    var w := Begun(m, id);
    assert ScanCert(env, w, id, 0) == w;
    ScanCertsStep(env, w, id, 0);
    TakesFirst(env, w, id, 1);
    ScanCertsStep(env, w, id, 1);
  }

  /** The only certificate of a key is good once its signer has been settled. */
  lemma OnlyOneGood(env: Env, m: Keys, id: uint64)
    requires Untouched(m, id) && |m[id].certs| == 1
    requires var s := m[id].certs[0].signer; s in m && s != id && m[s].trust == Unknown
    requires Good(env, Evaluate(env, Begun(m, id), m[id].certs[0].signer), m[id].certs[0])
    ensures Evaluate(env, m, id)[id].trust == Trusted
  {
    var w := Begun(m, id);
    var t := Evaluate(env, w, m[id].certs[0].signer);
    assert Advances(w[id], t[id]);
    TakesFirst(env, t, id, 0);
    assert ScanCert(env, w, id, 0) == ScanCert(env, t, id, 0);
    ScanCertsStep(env, w, id, 0);
  }

  /** Whatever comes of a key, a signer settled on its account stays settled. */
  lemma FirstSignerStays(env: Env, m: Keys, id: uint64)
    requires Untouched(m, id) && m[id].certs != []
    requires var s := m[id].certs[0].signer; s in m && s != id && Evaluate(env, Begun(m, id), s)[s].trust == NotTrusted
    ensures Evaluate(env, m, id)[m[id].certs[0].signer].trust == NotTrusted
  {
    var s := m[id].certs[0].signer;
    var w := Begun(m, id);
    if w[s].trust != Unknown {
      assert Advances(m[s], Evaluate(env, m, id)[s]);
    } else {
      var t := ScanCert(env, w, id, 0);
      assert t[s] == Evaluate(env, w, s)[s];
      ScanCertsStep(env, w, id, 0);
      var r := ScanCerts(env, t, id, 1);
      assert Advances(t[s], r[id := t[id]][s]);
    }
  }

  /** Past a root, what the first key evaluated settles is not touched again. */
  lemma SettledByFirst(env: Env, m: Keys, root: uint64, a: uint64, b: uint64, k: uint64)
    requires root in m && m[root].trust == Hardcoded && a in m && b in m && k in m
    requires Evaluate(env, m, a)[k].trust != Unknown
    ensures EvaluateAll(env, m, [root, a, b])[k] == Evaluate(env, m, a)[k]
  {
    var r := Evaluate(env, m, a);
    assert [root, a, b][1..] == [a, b] && [a, b][1..] == [b];
    assert Advances(r[k], EvaluateAll(env, r, [b])[k]);
  }

  // A pass settles the keys that signed a key's certificates before it settles the key, except those it
  // is already working on. Coming to key 2 from key 1, it gives up the only certificate of key 2.
  lemma KeyOneFirst(m: Keys)
    requires m == Cycle()
    ensures EvaluateAll(ThreeKeys(), m, [3, 1, 2])[2].trust == NotTrusted
  {
    var env := ThreeKeys();
    OnlyOnePassedOver(env, Begun(m, 1), 2);
    FirstSignerStays(env, m, 1);
    SettledByFirst(env, m, 3, 1, 2, 2);
  }

  // Coming to key 1 from key 2, it passes over the certificate key 2 signed and finds the root's.
  lemma KeyTwoFirst(m: Keys)
    requires m == Cycle()
    ensures EvaluateAll(ThreeKeys(), m, [3, 2, 1])[2].trust == Trusted
  {
    var env := ThreeKeys();
    VerifiesStored(1, 3);
    SecondOfTwo(env, Begun(m, 2), 1);
    VerifiesStored(2, 1);
    OnlyOneGood(env, m, 2);
    SettledByFirst(env, m, 3, 2, 1, 2);
  }

  // ---------- two runs of the store ----------

  function Adding(subject: byte, n: byte): Op {
    AddOp(Some(Signed(subject, n)))
  }

  function AboutOneFirst(): seq<Op> {
    [Adding(1, 2), Adding(1, 3), Adding(2, 1), QueryOp]
  }

  function AboutTwoFirst(): seq<Op> {
    [Adding(2, 1), Adding(1, 2), Adding(1, 3), QueryOp]
  }

  lemma RunAdd(env: Env, s: Store, a: SignedCert, rest: seq<Op>)
    requires Inv(env, s)
    ensures Inv(env, AddCert(env, s, Some(a)).0)
    ensures Run(env, s, [AddOp(Some(a))] + rest) == Run(env, AddCert(env, s, Some(a)).0, rest)
  {
    var ops := [AddOp(Some(a))] + rest;
    StepKeeps(env, s, ops[0]);
    assert ops[1..] == rest;
  }

  lemma RunQuery(env: Env, s: Store)
    requires Inv(env, s)
    ensures Listed(s) && Run(env, s, [QueryOp]) == EnsureTrustValid(env, s)
  {
    StepKeeps(env, s, QueryOp);
    assert [QueryOp][1..] == [];
  }

  /** Three certificates added to a store, and a query. */
  lemma RunOfThree(env: Env, s: Store, a: SignedCert, b: SignedCert, c: SignedCert)
    requires Inv(env, s)
    ensures var r := AddCert(env, AddCert(env, AddCert(env, s, Some(a)).0, Some(b)).0, Some(c)).0;
      Listed(r) && Run(env, s, [AddOp(Some(a)), AddOp(Some(b)), AddOp(Some(c)), QueryOp]) == EnsureTrustValid(env, r)
  {
    var x, y, z := AddOp(Some(a)), AddOp(Some(b)), AddOp(Some(c));
    assert [x, y, z, QueryOp] == [x] + [y, z, QueryOp];
    RunAdd(env, s, a, [y, z, QueryOp]);
    var s1 := AddCert(env, s, Some(a)).0;
    assert [y, z, QueryOp] == [y] + [z, QueryOp];
    RunAdd(env, s1, b, [z, QueryOp]);
    var s2 := AddCert(env, s1, Some(b)).0;
    assert [z, QueryOp] == [z] + [QueryOp];
    RunAdd(env, s2, c, [QueryOp]);
    RunQuery(env, AddCert(env, s2, Some(c)).0);
  }

  lemma Queried(order: seq<uint64>)
    requires forall k :: k in order ==> k in Cycle()
    ensures EnsureTrustValid(ThreeKeys(), Store(Cycle(), order, false)).keys == EvaluateAll(ThreeKeys(), Cycle(), order)
  {
    assert 3 in Cycle().Keys;
    assert |Cycle()| > 0;
    assert Forget(Cycle()) == Cycle();
  }

  lemma AboutOneFirstRun()
    ensures var m := Run(ThreeKeys(), EMPTY_STORE, AboutOneFirst()).keys; 2 in m && m[2].trust == NotTrusted
  {
    RunOfThree(ThreeKeys(), EMPTY_STORE, Signed(1, 2), Signed(1, 3), Signed(2, 1));
    OneBeforeTwo();
    Queried([3, 1, 2]);
    KeyOneFirst(Cycle());
  }

  lemma AboutTwoFirstRun()
    ensures var m := Run(ThreeKeys(), EMPTY_STORE, AboutTwoFirst()).keys; 2 in m && m[2].trust == Trusted
  {
    RunOfThree(ThreeKeys(), EMPTY_STORE, Signed(2, 1), Signed(1, 2), Signed(1, 3));
    TwoBeforeOne();
    Queried([3, 2, 1]);
    KeyTwoFirst(Cycle());
  }

  /**
   * When keys sign each other, the verdict depends on the order in which their certificates were
   * added: two runs that add the same three certificates and then ask disagree about key 2.
   */
  lemma CycleOrderMatters()
    ensures multiset(AboutOneFirst()) == multiset(AboutTwoFirst())
    ensures var m := Run(ThreeKeys(), EMPTY_STORE, AboutOneFirst()).keys; 2 in m && m[2].trust == NotTrusted
    ensures var m := Run(ThreeKeys(), EMPTY_STORE, AboutTwoFirst()).keys; 2 in m && m[2].trust == Trusted
  {
    AboutOneFirstRun();
    AboutTwoFirstRun();
  }

  /** The order theorem excludes that table only for its cycle: every key in it holds a certificate. */
  lemma CycleIsNotGrounded()
    ensures Populated(Cycle()) && !Grounded(Cycle(), 2)
  {
    var m := Cycle();
    var p := [2 as uint64, 1, 2];
    assert Edge(m, 2, 1) by {
      assert m[2].certs[0].signer == 1;
    }
    assert Edge(m, 1, 2) by {
      assert m[1].certs[0].signer == 2;
    }
    assert SignerPath(m, p) && p[0] == 2 && p[0] == p[2];
  }
}
