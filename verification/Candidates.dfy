/** Filtering committee candidates: per stake pool the latest valid registration, weighted by stake. */
module Candidates {
  import opened Prelude
  import opened Seed
  import opened KeyCodec
  import opened Ariadne
  import opened AriadneCommittee

  type UtxoRef = nat
  type Message = nat

  datatype OrderingKey = OrderingKey(block: nat, txIndex: nat, outIndex: nat) {
    predicate Le(other: OrderingKey) {
      block < other.block
      || (block == other.block && (txIndex < other.txIndex || (txIndex == other.txIndex && outIndex <= other.outIndex)))
    }
  }

  datatype Registration = Registration(
    registrationUtxo: UtxoRef,
    sidechainSignature: seq<Byte>,
    mainchainSignature: seq<Byte>,
    sidechainPubKey: seq<Byte>,
    keys: seq<CandidateKey>,
    orderingKey: OrderingKey,
    txInputs: seq<UtxoRef>)

  datatype Pool = Pool(pubKey: nat, registrations: seq<Registration>, stake: Option<nat>)

  datatype RegistrationError =
    | InvalidAccountKeys | InvalidSidechainPubKey | InvalidMainchainSignature
    | InvalidSidechainSignature | InvalidTxInput

  datatype StakeError = UnknownStake | InvalidStake

  /** The cryptography, left uninterpreted. */
  datatype Crypto = Crypto(
    message: (UtxoRef, seq<Byte>, UtxoRef) -> Message,
    ed25519: (nat, seq<Byte>, Message) -> bool,
    ecdsa: (seq<Byte>, seq<Byte>, Message) -> bool)

  datatype Identity = Identity(account: seq<Byte>, keys: seq<seq<Byte>>)

  datatype Candidate = Registered(pool: nat, stake: nat, identity: Identity) | Permissioned(identity: Identity)

  /** Everything `validate_registration_data` depends on besides the registration itself. */
  datatype Rules = Rules(crypto: Crypto, specs: seq<KeySpec>, genesis: UtxoRef)

  const NEGATIVE_POINT_SIGN: Byte := 27
  const POSITIVE_POINT_SIGN: Byte := 28

  /** A signature without its recovery byte is valid if some recovery byte makes it so. */
  predicate SidechainSignatureOk(crypto: Crypto, pubKey: seq<Byte>, signature: seq<Byte>, msg: Message) {
    |signature| == 64 &&
    (crypto.ecdsa(pubKey, signature + [NEGATIVE_POINT_SIGN], msg)
     || crypto.ecdsa(pubKey, signature + [POSITIVE_POINT_SIGN], msg))
  }

  /** The search rewrites the last byte of a local buffer. */
  method VerifySidechainSignature(crypto: Crypto, pubKey: seq<Byte>, signature: seq<Byte>, msg: Message)
    returns (r: Result<(), RegistrationError>)
    ensures r == if SidechainSignatureOk(crypto, pubKey, signature, msg) then Ok(()) else Err(InvalidSidechainSignature)
  {
    if |signature| != 64 {
      return Err(InvalidSidechainSignature);
    }
    var withV := new Byte[65](_ => 0);
    forall i | 0 <= i < 64 {
      withV[i] := signature[i];
    }
    var signs := [NEGATIVE_POINT_SIGN, POSITIVE_POINT_SIGN];
    var i := 0;
    while i < |signs|
      invariant 0 <= i <= 2
      invariant withV[..64] == signature
      invariant forall j :: 0 <= j < i ==> !crypto.ecdsa(pubKey, signature + [signs[j]], msg)
    {
      withV[64] := signs[i];
      assert withV[..] == signature + [signs[i]];
      if crypto.ecdsa(pubKey, withV[..], msg) {
        assert SidechainSignatureOk(crypto, pubKey, signature, msg);
        return Ok(());
      }
      i := i + 1;
    }
    assert !crypto.ecdsa(pubKey, signature + [signs[0]], msg) && !crypto.ecdsa(pubKey, signature + [signs[1]], msg);
    return Err(InvalidSidechainSignature);
  }

  function ValidateRegistration(crypto: Crypto, specs: seq<KeySpec>, genesis: UtxoRef, pool: nat, r: Registration)
    : Result<Identity, RegistrationError>
  {
    var keys := MaybeFrom(specs, r.keys);
    var msg := crypto.message(genesis, r.sidechainPubKey, r.registrationUtxo);
    if keys.None? then Err(InvalidAccountKeys)
    else if |r.sidechainPubKey| != 33 then Err(InvalidSidechainPubKey)
    else if |r.mainchainSignature| != 64 || !crypto.ed25519(pool, r.mainchainSignature, msg) then
      Err(InvalidMainchainSignature)
    else if !SidechainSignatureOk(crypto, r.sidechainPubKey, r.sidechainSignature, msg) then
      Err(InvalidSidechainSignature)
    else if r.registrationUtxo !in r.txInputs then Err(InvalidTxInput)
    else Ok(Identity(r.sidechainPubKey, keys.value))
  }

  /** What makes a registration valid, on its fields and the cryptography alone. */
  predicate Acceptable(rules: Rules, pool: nat, r: Registration) {
    var msg := rules.crypto.message(rules.genesis, r.sidechainPubKey, r.registrationUtxo);
    && MaybeFrom(rules.specs, r.keys).Some? && |r.sidechainPubKey| == 33
    && |r.mainchainSignature| == 64 && rules.crypto.ed25519(pool, r.mainchainSignature, msg)
    && |r.sidechainSignature| == 64
    && (exists v: Byte :: (v == 27 || v == 28) && rules.crypto.ecdsa(r.sidechainPubKey, r.sidechainSignature + [v], msg))
    && r.registrationUtxo in r.txInputs
  }

  /** The first check that fails is the one reported. */
  predicate Rejects(rules: Rules, pool: nat, r: Registration, e: RegistrationError) {
    var msg := rules.crypto.message(rules.genesis, r.sidechainPubKey, r.registrationUtxo);
    var keysOk, keyOk := MaybeFrom(rules.specs, r.keys).Some?, |r.sidechainPubKey| == 33;
    var poolOk := |r.mainchainSignature| == 64 && rules.crypto.ed25519(pool, r.mainchainSignature, msg);
    var sideOk := |r.sidechainSignature| == 64
                  && exists v: Byte :: (v == 27 || v == 28) && rules.crypto.ecdsa(r.sidechainPubKey, r.sidechainSignature + [v], msg);
    match e
    case InvalidAccountKeys => !keysOk
    case InvalidSidechainPubKey => keysOk && !keyOk
    case InvalidMainchainSignature => keysOk && keyOk && !poolOk
    case InvalidSidechainSignature => keysOk && keyOk && poolOk && !sideOk
    case InvalidTxInput => keysOk && keyOk && poolOk && sideOk && r.registrationUtxo !in r.txInputs
  }

  lemma ValidationIff(rules: Rules, pool: nat, r: Registration)
    ensures
      var v := ValidateRegistration(rules.crypto, rules.specs, rules.genesis, pool, r);
      && (v.Ok? <==> Acceptable(rules, pool, r))
      && (v.Ok? ==> v.value.account == r.sidechainPubKey && Some(v.value.keys) == MaybeFrom(rules.specs, r.keys))
      && (v.Err? ==> Rejects(rules, pool, r, v.error))
  {
    var msg := rules.crypto.message(rules.genesis, r.sidechainPubKey, r.registrationUtxo);
    var side := (v: Byte) => rules.crypto.ecdsa(r.sidechainPubKey, r.sidechainSignature + [v], msg);
    assert (exists v: Byte :: (v == 27 || v == 28) && side(v)) <==> side(27) || side(28);
  }

  method VerifyStakePoolSignature(crypto: Crypto, pool: nat, signature: seq<Byte>, msg: Message)
    returns (r: Result<(), RegistrationError>)
    ensures r == if |signature| == 64 && crypto.ed25519(pool, signature, msg) then Ok(()) else Err(InvalidMainchainSignature)
  {
    if |signature| != 64 {
      return Err(InvalidMainchainSignature);
    }
    if crypto.ed25519(pool, signature, msg) {
      return Ok(());
    }
    return Err(InvalidMainchainSignature);
  }

  method VerifyTxInputs(r: Registration) returns (ok: Result<(), RegistrationError>)
    ensures ok == if r.registrationUtxo in r.txInputs then Ok(()) else Err(InvalidTxInput)
  {
    if r.registrationUtxo in r.txInputs {
      return Ok(());
    }
    return Err(InvalidTxInput);
  }

  /** The checks one after the other, each ending the validation when it fails. */
  method ValidateRegistrationData(rules: Rules, pool: nat, r: Registration) returns (v: Result<Identity, RegistrationError>)
    ensures v == ValidateRegistration(rules.crypto, rules.specs, rules.genesis, pool, r)
    ensures v.Ok? <==> Acceptable(rules, pool, r)
    ensures v.Ok? ==> v.value.account == r.sidechainPubKey && Some(v.value.keys) == MaybeFrom(rules.specs, r.keys)
    ensures v.Err? ==> Rejects(rules, pool, r, v.error)
  {
    ValidationIff(rules, pool, r);
    var accountKeys := TryMaybeFrom(rules.specs, r.keys);
    if accountKeys.None? {
      return Err(InvalidAccountKeys);
    }
    if |r.sidechainPubKey| != 33 {
      return Err(InvalidSidechainPubKey);
    }
    var msg := rules.crypto.message(rules.genesis, r.sidechainPubKey, r.registrationUtxo);
    var pooled := VerifyStakePoolSignature(rules.crypto, pool, r.mainchainSignature, msg);
    if pooled.Err? {
      return Err(pooled.error);
    }
    var signed := VerifySidechainSignature(rules.crypto, r.sidechainPubKey, r.sidechainSignature, msg);
    if signed.Err? {
      return Err(signed.error);
    }
    var spent := VerifyTxInputs(r);
    if spent.Err? {
      return Err(spent.error);
    }
    return Ok(Identity(r.sidechainPubKey, accountKeys.value));
  }

  function ValidateStake(stake: Option<nat>): (r: Result<nat, StakeError>)
    ensures forall s :: r == Ok(s) <==> 0 < s && stake == Some(s)
    ensures r == Err(InvalidStake) <==> stake == Some(0)
  {
    match stake
    case None => Err(UnknownStake)
    case Some(s) => if s == 0 then Err(InvalidStake) else Ok(s)
  }

  predicate Valid(rules: Rules, pool: nat, r: Registration) {
    ValidateRegistration(rules.crypto, rules.specs, rules.genesis, pool, r).Ok?
  }

  function ValidOnly(rules: Rules, pool: nat, rs: seq<Registration>): seq<Registration> {
    if rs == [] then []
    else (if Valid(rules, pool, rs[0]) then [rs[0]] else []) + ValidOnly(rules, pool, rs[1..])
  }

  /** `max_by_key`: among equal maxima the last one. */
  function LatestOf(rs: seq<Registration>): Registration
    requires rs != []
  {
    if |rs| == 1 then rs[0]
    else
      var best := LatestOf(rs[..|rs| - 1]);
      if best.orderingKey.Le(Last(rs).orderingKey) then Last(rs) else best
  }

  function SelectLatest(rules: Rules, p: Pool): Option<Candidate> {
    var valid := ValidOnly(rules, p.pubKey, p.registrations);
    if ValidateStake(p.stake).Err? || valid == [] then None
    else
      var r := ValidateRegistration(rules.crypto, rules.specs, rules.genesis, p.pubKey, LatestOf(valid));
      if r.Err? then None else Some(Registered(p.pubKey, p.stake.value, r.value))
  }

  function WeightedCandidate(rules: Rules): Pool -> seq<Weighted<Candidate>> {
    (p: Pool) =>
      match SelectLatest(rules, p)
      case None => []
      case Some(c) => [Weighted(c, p.stake.value)]
  }

  function FilterTrustless(rules: Rules, pools: seq<Pool>): seq<Weighted<Candidate>> {
    FlatMap(WeightedCandidate(rules), pools)
  }

  datatype PermissionedData = PermissionedData(sidechainPubKey: seq<Byte>, keys: seq<CandidateKey>)

  /** A 33-byte key and all required keys. */
  predicate Admissible(specs: seq<KeySpec>, p: PermissionedData) {
    |p.sidechainPubKey| == 33 && MaybeFrom(specs, p.keys).Some?
  }

  function PermissionedCandidate(specs: seq<KeySpec>): PermissionedData -> seq<Candidate> {
    (p: PermissionedData) =>
      if |p.sidechainPubKey| != 33 then []
      else match MaybeFrom(specs, p.keys)
        case None => []
        case Some(keys) => [Permissioned(Identity(p.sidechainPubKey, keys))]
  }

  function FilterPermissioned(specs: seq<KeySpec>, ps: seq<PermissionedData>): seq<Candidate> {
    FlatMap(PermissionedCandidate(specs), ps)
  }

  function AdmissibleData(specs: seq<KeySpec>): PermissionedData -> bool {
    (p: PermissionedData) => Admissible(specs, p)
  }

  /** Entry `i` is the candidate of the `i`-th admissible input, under its key and with its decoded keys. */
  lemma FilterPermissionedInOrder(specs: seq<KeySpec>, ps: seq<PermissionedData>)
    ensures
      var ix, out := Hits(AdmissibleData(specs), ps), FilterPermissioned(specs, ps);
      && |out| == |ix|
      && forall i :: 0 <= i < |ix| ==>
           && Admissible(specs, ps[ix[i]])
           && out[i] == Permissioned(Identity(ps[ix[i]].sidechainPubKey, MaybeFrom(specs, ps[ix[i]].keys).value))
  {
    var f := PermissionedCandidate(specs);
    FlatMapInOrder(f, AdmissibleData(specs), ps);
    var ix, out := Hits(AdmissibleData(specs), ps), FilterPermissioned(specs, ps);
    forall i | 0 <= i < |ix|
      ensures out[i] == Permissioned(Identity(ps[ix[i]].sidechainPubKey, MaybeFrom(specs, ps[ix[i]].keys).value))
    {
      assert [out[i]] == f(ps[ix[i]]);
      assert [out[i]][0] == out[i];
    }
  }

  lemma {:induction false} ValidOnlyMembers(rules: Rules, pool: nat, rs: seq<Registration>)
    ensures forall r :: r in ValidOnly(rules, pool, rs) <==> r in rs && Valid(rules, pool, r)
  {
    if rs != [] {
      ValidOnlyMembers(rules, pool, rs[1..]);
      assert forall r :: r in rs <==> r == rs[0] || r in rs[1..];
    }
  }

  /** The registration at `i` is the last of those with the greatest ordering key. */
  ghost predicate IsLatest(rs: seq<Registration>, i: nat) {
    && i < |rs|
    && (forall j :: 0 <= j < |rs| ==> rs[j].orderingKey.Le(rs[i].orderingKey))
    && (forall j :: i < j < |rs| ==> !rs[i].orderingKey.Le(rs[j].orderingKey))
  }

  lemma {:induction false} LatestIsLast(rs: seq<Registration>) returns (i: nat)
    requires rs != []
    ensures IsLatest(rs, i) && LatestOf(rs) == rs[i]
  {
    i := 0;
    if 1 < |rs| {
      var n := |rs| - 1;
      i := LatestIsLast(rs[..n]);
      if rs[i].orderingKey.Le(rs[n].orderingKey) {
        i := n;
      }
    }
  }

  /** Lexicographic order of block, transaction and output. */
  predicate NotAfter(a: OrderingKey, b: OrderingKey) {
    && a.block <= b.block
    && (a.block == b.block ==> a.txIndex <= b.txIndex)
    && (a.block == b.block && a.txIndex == b.txIndex ==> a.outIndex <= b.outIndex)
  }

  /** Registration `i` is acceptable, none that is acceptable comes after it, and of those with the same key
      it is the last listed. */
  ghost predicate LatestAcceptable(rules: Rules, p: Pool, i: nat) {
    && i < |p.registrations| && Acceptable(rules, p.pubKey, p.registrations[i])
    && forall j :: 0 <= j < |p.registrations| && Acceptable(rules, p.pubKey, p.registrations[j]) ==>
         && NotAfter(p.registrations[j].orderingKey, p.registrations[i].orderingKey)
         && (i < j ==> !NotAfter(p.registrations[i].orderingKey, p.registrations[j].orderingKey))
  }

  function ValidFor(rules: Rules, pool: nat): Registration -> bool {
    (r: Registration) => Valid(rules, pool, r)
  }

  lemma {:induction false} ValidOnlyInOrder(rules: Rules, pool: nat, rs: seq<Registration>)
    ensures
      var ix, valid := Hits(ValidFor(rules, pool), rs), ValidOnly(rules, pool, rs);
      |valid| == |ix| && forall i :: 0 <= i < |ix| ==> valid[i] == rs[ix[i]]
  {
    var f: Registration -> seq<Registration> := r => if Valid(rules, pool, r) then [r] else [];
    ValidOnlyFlatMap(rules, pool, rs, f);
    FlatMapInOrder(f, ValidFor(rules, pool), rs);
    var ix, valid := Hits(ValidFor(rules, pool), rs), ValidOnly(rules, pool, rs);
    forall i | 0 <= i < |ix| ensures valid[i] == rs[ix[i]] {
      assert [valid[i]] == f(rs[ix[i]]);
      assert [valid[i]][0] == valid[i];
    }
  }

  lemma {:induction false} ValidOnlyFlatMap(
    rules: Rules, pool: nat, rs: seq<Registration>, f: Registration -> seq<Registration>)
    requires forall r :: f(r) == if Valid(rules, pool, r) then [r] else []
    ensures ValidOnly(rules, pool, rs) == FlatMap(f, rs)
  {
    if rs != [] {
      ValidOnlyFlatMap(rules, pool, rs[1..], f);
    }
  }

  /** The latest of the valid registrations, found again in the original list. */
  lemma LatestOfValid(rules: Rules, p: Pool) returns (n: nat)
    requires ValidOnly(rules, p.pubKey, p.registrations) != []
    ensures LatestAcceptable(rules, p, n)
    ensures p.registrations[n] == LatestOf(ValidOnly(rules, p.pubKey, p.registrations))
  {
    var rs, valid := p.registrations, ValidOnly(rules, p.pubKey, p.registrations);
    var ix := Hits(ValidFor(rules, p.pubKey), rs);
    ValidOnlyInOrder(rules, p.pubKey, rs);
    var i := LatestIsLast(valid);
    n := ix[i];
    ValidationIff(rules, p.pubKey, rs[n]);
    forall j | 0 <= j < |rs| && Acceptable(rules, p.pubKey, rs[j])
      ensures NotAfter(rs[j].orderingKey, rs[n].orderingKey)
      ensures n < j ==> !NotAfter(rs[n].orderingKey, rs[j].orderingKey)
    {
      ValidationIff(rules, p.pubKey, rs[j]);
      assert j in ix;
      var m :| 0 <= m < |ix| && ix[m] == j;
      assert valid[m] == rs[j] && valid[i] == rs[n];
      assert m <= i ==> ix[m] <= ix[i];
    }
  }

  /** A pool yields a candidate exactly if its stake is known and positive and some registration is
      acceptable; the candidate is the pool with its stake, and the public key and decoded keys of the
      latest acceptable registration. */
  lemma SelectLatestIff(rules: Rules, p: Pool)
    ensures SelectLatest(rules, p).Some? <==>
      && p.stake.Some? && 0 < p.stake.value
      && exists i :: 0 <= i < |p.registrations| && Acceptable(rules, p.pubKey, p.registrations[i])
    ensures SelectLatest(rules, p).Some? ==> exists i: nat ::
      && LatestAcceptable(rules, p, i)
      && SelectLatest(rules, p).value == Registered(p.pubKey, p.stake.value,
           Identity(p.registrations[i].sidechainPubKey, MaybeFrom(rules.specs, p.registrations[i].keys).value))
  {
    var valid := ValidOnly(rules, p.pubKey, p.registrations);
    if valid != [] {
      var n := LatestOfValid(rules, p);
      ValidationIff(rules, p.pubKey, p.registrations[n]);
    }
    if i :| 0 <= i < |p.registrations| && Acceptable(rules, p.pubKey, p.registrations[i]) {
      ValidationIff(rules, p.pubKey, p.registrations[i]);
      ValidOnlyMembers(rules, p.pubKey, p.registrations);
      assert p.registrations[i] in valid;
    }
  }

  lemma {:induction false} ValidOnlyIdempotent(rules: Rules, pool: nat, rs: seq<Registration>)
    ensures ValidOnly(rules, pool, ValidOnly(rules, pool, rs)) == ValidOnly(rules, pool, rs)
  {
    if rs != [] {
      ValidOnlyIdempotent(rules, pool, rs[1..]);
      var rest := ValidOnly(rules, pool, rs[1..]);
      if Valid(rules, pool, rs[0]) {
        assert ([rs[0]] + rest)[1..] == rest;
      } else {
        assert [] + rest == rest;
      }
    }
  }

  /** Invalid registrations, wherever they stand, never change the outcome. */
  lemma InvalidRegistrationsDoNotMatter(rules: Rules, p: Pool)
    ensures SelectLatest(rules, p) == SelectLatest(rules, p.(registrations := ValidOnly(rules, p.pubKey, p.registrations)))
  {
    ValidOnlyIdempotent(rules, p.pubKey, p.registrations);
  }

  /** Among the same elements with distinct ordering keys there is one latest, however they are listed. */
  lemma LatestIgnoresOrder(a: seq<Registration>, b: seq<Registration>)
    requires a != [] && b != [] && forall r :: r in a <==> r in b
    requires forall r, r' :: r in a && r' in a && r.orderingKey == r'.orderingKey ==> r == r'
    ensures LatestOf(a) == LatestOf(b)
  {
    var i := LatestIsLast(a);
    var j := LatestIsLast(b);
    assert a[i] in b && b[j] in a;
    var k :| 0 <= k < |b| && b[k] == a[i];
    var l :| 0 <= l < |a| && a[l] == b[j];
    assert a[i].orderingKey == b[j].orderingKey;
  }

  /** With distinct ordering keys the order of registrations does not matter either. */
  lemma RegistrationOrderDoesNotMatter(rules: Rules, p: Pool, rs: seq<Registration>)
    requires forall r :: r in p.registrations <==> r in rs
    requires forall r, r' :: r in rs && r' in rs && r.orderingKey == r'.orderingKey ==> r == r'
    ensures SelectLatest(rules, p) == SelectLatest(rules, p.(registrations := rs))
  {
    var a, b := ValidOnly(rules, p.pubKey, p.registrations), ValidOnly(rules, p.pubKey, rs);
    ValidOnlyMembers(rules, p.pubKey, p.registrations);
    ValidOnlyMembers(rules, p.pubKey, rs);
    SameElementsEmpty(a, b);
    if a != [] {
      LatestIgnoresOrder(a, b);
    }
  }

  lemma SameElementsEmpty(a: seq<Registration>, b: seq<Registration>)
    requires forall r :: r in a <==> r in b
    ensures a == [] <==> b == []
  {
    assert a != [] ==> a[0] in b;
    assert b != [] ==> b[0] in a;
  }

  lemma {:induction false} FilterTrustlessPositive(rules: Rules, pools: seq<Pool>)
    ensures forall c :: c in FilterTrustless(rules, pools) ==> 0 < c.weight
    ensures FilterTrustless(rules, pools) != [] ==> 0 < Total(FilterTrustless(rules, pools))
    ensures |FilterTrustless(rules, pools)| <= |pools|
  {
    if pools != [] {
      FilterTrustlessPositive(rules, pools[1..]);
    }
  }

  predicate Yields(rules: Rules, p: Pool) {
    SelectLatest(rules, p).Some?
  }

  /** The pools that yield a candidate, in input order. */
  function YieldingPools(rules: Rules, pools: seq<Pool>): seq<nat> {
    Hits(p => Yields(rules, p), pools)
  }

  lemma WeightedCandidateOf(rules: Rules, p: Pool)
    ensures |WeightedCandidate(rules)(p)| == if Yields(rules, p) then 1 else 0
    ensures Yields(rules, p) ==>
      p.stake.Some? && WeightedCandidate(rules)(p) == [Weighted(SelectLatest(rules, p).value, p.stake.value)]
  {
  }

  /** One entry for each pool that yields a candidate and in the order of the pools: entry `i` is the
      candidate of the `i`-th such pool, weighted by its stake. */
  lemma FilterTrustlessInOrder(rules: Rules, pools: seq<Pool>)
    ensures
      var ix, out := YieldingPools(rules, pools), FilterTrustless(rules, pools);
      && (forall i, j :: 0 <= i < j < |ix| ==> ix[i] < ix[j])
      && (forall j: nat :: j in ix <==> j < |pools| && Yields(rules, pools[j]))
      && |out| == |ix|
      && forall i :: 0 <= i < |ix| ==>
           && ix[i] < |pools| && pools[ix[i]].stake.Some?
           && Some(out[i].item) == SelectLatest(rules, pools[ix[i]]) && out[i].weight == pools[ix[i]].stake.value
  {
    var f, p := WeightedCandidate(rules), (x: Pool) => Yields(rules, x);
    forall i | 0 <= i < |pools| ensures |f(pools[i])| == if p(pools[i]) then 1 else 0 {
      WeightedCandidateOf(rules, pools[i]);
    }
    FlatMapInOrder(f, p, pools);
    HitsAgree(p, x => Yields(rules, x), pools);
    var ix, out := YieldingPools(rules, pools), FilterTrustless(rules, pools);
    forall i | 0 <= i < |ix|
      ensures pools[ix[i]].stake.Some? && Some(out[i].item) == SelectLatest(rules, pools[ix[i]])
      ensures out[i].weight == pools[ix[i]].stake.value
    {
      WeightedCandidateOf(rules, pools[ix[i]]);
      assert [out[i]] == f(pools[ix[i]]);
      assert [out[i]][0] == out[i];
    }
  }

  lemma {:induction false} HitsAgree(p: Pool -> bool, q: Pool -> bool, s: seq<Pool>)
    requires forall i :: 0 <= i < |s| ==> p(s[i]) == q(s[i])
    ensures Hits(p, s) == Hits(q, s)
  {
    if s != [] {
      HitsAgree(p, q, s[..|s| - 1]);
    }
  }

  /** The committee of the exported function, cut to the maximal number of authorities. */
  function StoredCommittee(
    rules: Rules, pools: seq<Pool>, permissioned: seq<PermissionedData>, rs: nat, ps: nat, max: nat,
    le: (Weighted<Candidate>, Weighted<Candidate>) -> bool, draw: Draws, shuffle: Shuffle<Candidate>)
    : Option<seq<Candidate>>
    requires InBounds(draw)
  {
    var registered, valid := FilterTrustless(rules, pools), FilterPermissioned(rules.specs, permissioned);
    CutCommittee(Committee(le, rs, ps, registered, valid, draw, shuffle), max)
  }

  /** Because weights are positive stakes, the stored committee has the documented size, up to the maximal
      number of authorities, as soon as one candidate passes the filters; with candidates of one kind the
      16-bit sum of seats counts. */
  lemma StoredCommitteeSize(
    rules: Rules, pools: seq<Pool>, permissioned: seq<PermissionedData>, rs: nat, ps: nat, max: nat,
    le: (Weighted<Candidate>, Weighted<Candidate>) -> bool, draw: Draws, shuffle: Shuffle<Candidate>)
    requires InBounds(draw) && Shuffles(shuffle)
    requires FilterTrustless(rules, pools) != [] || FilterPermissioned(rules.specs, permissioned) != []
    ensures
      var both := FilterTrustless(rules, pools) != [] && FilterPermissioned(rules.specs, permissioned) != [];
      var c := StoredCommittee(rules, pools, permissioned, rs, ps, max, le, draw, shuffle);
      c.Some? && |c.value| == Min(if both then rs + ps else (rs + ps) % U16_SPAN, max)
  {
    FilterTrustlessPositive(rules, pools);
    CutCommitteeSize(
      le, rs, ps, FilterTrustless(rules, pools), FilterPermissioned(rules.specs, permissioned), max, draw, shuffle);
  }

  /** Whatever the shuffle, the stored committee keeps a candidate's guaranteed seats, if and only if nothing
      was guaranteed, all seats fit, or its seats beyond the guarantee make up for those that are cut. */
  lemma StoredPromiseKeptIff(
    rules: Rules, pools: seq<Pool>, permissioned: seq<PermissionedData>, rs: nat, ps: nat, max: nat,
    le: (Weighted<Candidate>, Weighted<Candidate>) -> bool, draw: Draws, x: Candidate)
    requires InBounds(draw)
    requires SumFits(rs, ps, FilterTrustless(rules, pools), FilterPermissioned(rules.specs, permissioned))
    requires
      || Seated(le, rs, ps, FilterTrustless(rules, pools), FilterPermissioned(rules.specs, permissioned), draw) != []
      || (ps + rs) % U16_SPAN == 0
    ensures
      var registered, valid := FilterTrustless(rules, pools), FilterPermissioned(rules.specs, permissioned);
      var seated, promised := Seated(le, rs, ps, registered, valid, draw), PromisedSeats(rs, ps, registered, valid, x);
      (forall shuffle: Shuffle<Candidate> :: Shuffles(shuffle) ==>
         Kept(Committee(le, rs, ps, registered, valid, draw, shuffle), max, promised, x))
      <==> CutIsSafe(|seated|, multiset(seated)[x], max, promised)
  {
    var registered, valid := FilterTrustless(rules, pools), FilterPermissioned(rules.specs, permissioned);
    CutCommitteeKeepsPromiseIff(le, rs, ps, registered, valid, max, draw, x);
  }
}
