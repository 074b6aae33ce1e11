/** Block producer metadata: a keyed store whose deposits are held on the owners' accounts. */
module MetadataDeposits {
  import opened Prelude

  type KeyHash = nat
  type AccountId = nat
  type Metadata = nat

  datatype Record = Record(data: Metadata, owner: AccountId, deposit: nat)

  /** Free balance and the part held for metadata deposits. */
  datatype Account = Account(free: nat, held: nat)

  datatype Error =
    | PastValidityTime | InvalidMainchainSignature | NotTheOwner | InsufficientBalance | CurrencyError

  datatype State = State(records: map<KeyHash, Record>, ledger: map<AccountId, Account>)

  /** The surroundings of one call: the clock, the verdict of the signature check, the hold amount
      configured at that time, and whether the currency refuses for reasons of its own. */
  datatype Env = Env(now: nat, validBefore: nat, signatureOk: bool, holdAmount: nat, refuses: bool)

  function AccountOf(st: State, a: AccountId): Account {
    if a in st.ledger then st.ledger[a] else Account(0, 0)
  }

  function Hold(st: State, a: AccountId, amount: nat, refuses: bool): Option<State> {
    var x := AccountOf(st, a);
    if refuses || x.free < amount then None
    else Some(st.(ledger := st.ledger[a := Account(x.free - amount, x.held + amount)]))
  }

  /** Best-effort release: no more than what is held. */
  function Release(st: State, a: AccountId, amount: nat): State {
    var x := AccountOf(st, a);
    var freed := Min(x.held, amount);
    st.(ledger := st.ledger[a := Account(x.free + freed, x.held - freed)])
  }

  function Checks(env: Env): Option<Error> {
    if env.validBefore < env.now then Some(PastValidityTime)
    else if !env.signatureOk then Some(InvalidMainchainSignature)
    else None
  }

  /** Extrinsics are transactional: an error leaves the state as it was. */
  function Upsert(st: State, env: Env, origin: AccountId, key: KeyHash, data: Metadata): (State, Result<(), Error>) {
    if Checks(env).Some? then (st, Err(Checks(env).value))
    else if key !in st.records then
      match Hold(st, origin, env.holdAmount, env.refuses)
      case None => (st, Err(InsufficientBalance))
      case Some(st') => (st'.(records := st'.records[key := Record(data, origin, env.holdAmount)]), Ok(()))
    else
      var r := st.records[key];
      if r.owner != origin then (st, Err(NotTheOwner))
      else (st.(records := st.records[key := Record(data, r.owner, r.deposit)]), Ok(()))
  }

  function Delete(st: State, env: Env, origin: AccountId, key: KeyHash): (State, Result<(), Error>) {
    if Checks(env).Some? then (st, Err(Checks(env).value))
    else if key !in st.records then (st, Ok(()))
    else
      var r := st.records[key];
      if r.owner != origin then (st, Err(NotTheOwner))
      else if env.refuses then (st, Err(CurrencyError))
      else
        var st' := Release(st, r.owner, r.deposit);
        (st'.(records := st'.records - {key}), Ok(()))
  }

  class MetadataPallet {
    var records: map<KeyHash, Record>
    var ledger: map<AccountId, Account>

    function Abs(): State
      reads this
    {
      State(records, ledger)
    }

    constructor (ledger: map<AccountId, Account>)
      ensures Abs() == State(map[], ledger)
    {
      this.records, this.ledger := map[], ledger;
    }

    method UpsertMetadata(env: Env, origin: AccountId, key: KeyHash, data: Metadata) returns (r: Result<(), Error>)
      modifies this
      ensures (Abs(), r) == Upsert(old(Abs()), env, origin, key, data)
    {
      if env.now > env.validBefore {
        return Err(PastValidityTime);
      }
      if !env.signatureOk {
        return Err(InvalidMainchainSignature);
      }
      if key !in records {
        var held := HoldDeposit(origin, env);
        if held.Err? {
          return Err(held.error);
        }
        records := records[key := Record(data, origin, held.value)];
      } else {
        var owner, deposit := records[key].owner, records[key].deposit;
        if owner != origin {
          return Err(NotTheOwner);
        }
        records := records[key := Record(data, owner, deposit)];
      }
      return Ok(());
    }

    method DeleteMetadata(env: Env, origin: AccountId, key: KeyHash) returns (r: Result<(), Error>)
      modifies this
      ensures (Abs(), r) == Delete(old(Abs()), env, origin, key)
    {
      if env.now > env.validBefore {
        return Err(PastValidityTime);
      }
      if !env.signatureOk {
        return Err(InvalidMainchainSignature);
      }
      if key in records {
        var owner, deposit := records[key].owner, records[key].deposit;
        if owner != origin {
          return Err(NotTheOwner);
        }
        if env.refuses {
          return Err(CurrencyError);
        }
        ledger := Release(Abs(), owner, deposit).ledger;
        records := records - {key};
      }
      return Ok(());
    }

    method HoldDeposit(a: AccountId, env: Env) returns (r: Result<nat, Error>)
      modifies this`ledger
      ensures match Hold(old(Abs()), a, env.holdAmount, env.refuses)
              case None => r == Err(InsufficientBalance) && Abs() == old(Abs())
              case Some(st) => r == Ok(env.holdAmount) && Abs() == st
    {
      var held := Hold(Abs(), a, env.holdAmount, env.refuses);
      if held.None? {
        return Err(InsufficientBalance);
      }
      ledger := held.value.ledger;
      return Ok(env.holdAmount);
    }
  }

  // ----- Agreement of store and ledger -----

  function Owed(r: Record, a: AccountId): nat {
    if r.owner == a then r.deposit else 0
  }

  /** Sum of the deposits stored under `keys` for one owner. */
  ghost function Deposits(records: map<KeyHash, Record>, keys: set<KeyHash>, a: AccountId): nat
    requires keys <= records.Keys
  {
    if keys == {} then 0
    else
      var k :| k in keys;
      Owed(records[k], a) + Deposits(records, keys - {k}, a)
  }

  ghost predicate Agree(st: State) {
    forall a :: AccountOf(st, a).held == Deposits(st.records, st.records.Keys, a)
  }

  /** Any key may be counted first. */
  lemma {:induction false} DepositsPick(records: map<KeyHash, Record>, keys: set<KeyHash>, a: AccountId, k: KeyHash)
    requires keys <= records.Keys && k in keys
    ensures Deposits(records, keys, a) == Owed(records[k], a) + Deposits(records, keys - {k}, a)
  {
    var first :| first in keys && Deposits(records, keys, a) == Owed(records[first], a) + Deposits(records, keys - {first}, a);
    if first != k {
      DepositsPick(records, keys - {first}, a, k);
      DepositsPick(records, keys - {k}, a, first);
      assert keys - {first} - {k} == keys - {k} - {first};
    }
  }

  lemma {:induction false} DepositsDependOnRecords(
    records: map<KeyHash, Record>, records': map<KeyHash, Record>, keys: set<KeyHash>, a: AccountId)
    requires keys <= records.Keys && keys <= records'.Keys
    requires forall k :: k in keys ==> Owed(records[k], a) == Owed(records'[k], a)
    ensures Deposits(records, keys, a) == Deposits(records', keys, a)
  {
    if keys != {} {
      var k :| k in keys;
      DepositsDependOnRecords(records, records', keys - {k}, a);
      DepositsPick(records, keys, a, k);
      DepositsPick(records', keys, a, k);
    }
  }

  lemma DepositsAfterInsert(records: map<KeyHash, Record>, key: KeyHash, r: Record, a: AccountId)
    requires key !in records
    ensures
      var records' := records[key := r];
      Deposits(records', records'.Keys, a) == Deposits(records, records.Keys, a) + Owed(r, a)
  {
    var records' := records[key := r];
    DepositsPick(records', records'.Keys, a, key);
    assert records'.Keys - {key} == records.Keys;
    DepositsDependOnRecords(records, records', records.Keys, a);
  }

  lemma DepositsAfterRemove(records: map<KeyHash, Record>, key: KeyHash, a: AccountId)
    requires key in records
    ensures
      var records' := records - {key};
      Deposits(records', records'.Keys, a) + Owed(records[key], a) == Deposits(records, records.Keys, a)
  {
    var records' := records - {key};
    DepositsPick(records, records.Keys, a, key);
    assert records.Keys - {key} == records'.Keys;
    DepositsDependOnRecords(records', records, records'.Keys, a);
  }

  /** What happens on the chain: calls to the pallet, and transfers elsewhere that move free balance. */
  datatype Event =
    | UpsertCall(env: Env, origin: AccountId, key: KeyHash, data: Metadata)
    | DeleteCall(env: Env, origin: AccountId, key: KeyHash)
    | FreeBalanceSet(account: AccountId, free: nat)

  function Step(st: State, e: Event): State {
    match e
    case UpsertCall(env, origin, key, data) => Upsert(st, env, origin, key, data).0
    case DeleteCall(env, origin, key) => Delete(st, env, origin, key).0
    case FreeBalanceSet(a, free) => st.(ledger := st.ledger[a := AccountOf(st, a).(free := free)])
  }

  /** Other activity moves free balances only. */
  lemma OtherActivity(st: State, a: AccountId, free: nat, b: AccountId)
    ensures
      var st' := Step(st, FreeBalanceSet(a, free));
      && st'.records == st.records && AccountOf(st', b).held == AccountOf(st, b).held
      && AccountOf(st', b).free == if a == b then free else AccountOf(st, b).free
  {
  }

  function Run(st: State, events: seq<Event>): State
    decreases |events|
  {
    if events == [] then st else Run(Step(st, events[0]), events[1..])
  }

  lemma UpsertKeepsAgreement(st: State, env: Env, origin: AccountId, key: KeyHash, data: Metadata)
    requires Agree(st)
    ensures Agree(Upsert(st, env, origin, key, data).0)
  {
    var (st', r) := Upsert(st, env, origin, key, data);
    if r.Ok? {
      forall a ensures AccountOf(st', a).held == Deposits(st'.records, st'.records.Keys, a) {
        assert AccountOf(st, a).held == Deposits(st.records, st.records.Keys, a);
        if key !in st.records {
          DepositsAfterInsert(st.records, key, st'.records[key], a);
        } else {
          assert st'.records.Keys == st.records.Keys;
          DepositsDependOnRecords(st.records, st'.records, st.records.Keys, a);
        }
      }
    }
  }

  /** A deletion releases the whole deposit: best effort never falls short. */
  lemma DeleteReleasesAll(st: State, env: Env, origin: AccountId, key: KeyHash)
    requires Agree(st)
    ensures
      var (st', r) := Delete(st, env, origin, key);
      && Agree(st')
      && (r.Ok? && key in st.records ==>
            && key !in st'.records
            && AccountOf(st', origin).free == AccountOf(st, origin).free + st.records[key].deposit
            && AccountOf(st', origin).held == AccountOf(st, origin).held - st.records[key].deposit)
  {
    var (st', r) := Delete(st, env, origin, key);
    if r.Ok? && key in st.records {
      var owner, deposit := st.records[key].owner, st.records[key].deposit;
      DepositsPick(st.records, st.records.Keys, owner, key);
      assert AccountOf(st, owner).held == Deposits(st.records, st.records.Keys, owner);
      assert deposit <= AccountOf(st, owner).held;
      forall a ensures AccountOf(st', a).held == Deposits(st'.records, st'.records.Keys, a) {
        assert AccountOf(st, a).held == Deposits(st.records, st.records.Keys, a);
        DepositsAfterRemove(st.records, key, a);
      }
    }
  }

  lemma StepKeepsAgreement(st: State, e: Event)
    requires Agree(st)
    ensures Agree(Step(st, e))
  {
    match e
    case UpsertCall(env, origin, key, data) => UpsertKeepsAgreement(st, env, origin, key, data);
    case DeleteCall(env, origin, key) => DeleteReleasesAll(st, env, origin, key);
    case FreeBalanceSet(x, free) =>
      forall a ensures AccountOf(Step(st, e), a).held == Deposits(st.records, st.records.Keys, a) {
        assert AccountOf(st, a).held == Deposits(st.records, st.records.Keys, a);
      }
  }

  /** In every reachable state each account's hold is exactly the sum of its stored deposits, also when
      the configured hold amount changes between calls. */
  lemma {:induction false} EveryRunAgrees(st: State, events: seq<Event>)
    requires Agree(st)
    ensures Agree(Run(st, events))
    decreases |events|
  {
    if events != [] {
      StepKeepsAgreement(st, events[0]);
      EveryRunAgrees(Step(st, events[0]), events[1..]);
    }
  }

  /** From the empty store, with nothing held for it yet, this is every run. */
  lemma EveryRunFromEmptyAgrees(ledger: map<AccountId, Account>, events: seq<Event>)
    requires forall a :: a in ledger ==> ledger[a].held == 0
    ensures Agree(Run(State(map[], ledger), events))
  {
    EveryRunAgrees(State(map[], ledger), events);
  }

  // ----- What is accepted and what is stored -----

  /** In time, correctly signed, and by the owner of an existing entry or with the balance for a new one. */
  predicate AcceptsUpsert(st: State, env: Env, origin: AccountId, key: KeyHash) {
    && env.now <= env.validBefore && env.signatureOk
    && if key in st.records then st.records[key].owner == origin
       else !env.refuses && env.holdAmount <= AccountOf(st, origin).free
  }

  /** In time, correctly signed, and by the owner if there is an entry to release. */
  predicate AcceptsDelete(st: State, env: Env, origin: AccountId, key: KeyHash) {
    && env.now <= env.validBefore && env.signatureOk
    && (key in st.records ==> st.records[key].owner == origin && !env.refuses)
  }

  /** The first requirement that is not met is the one reported. */
  predicate Refusal(st: State, env: Env, origin: AccountId, key: KeyHash, e: Error) {
    match e
    case PastValidityTime => env.now > env.validBefore
    case InvalidMainchainSignature => env.now <= env.validBefore && !env.signatureOk
    case NotTheOwner =>
      env.now <= env.validBefore && env.signatureOk && key in st.records && st.records[key].owner != origin
    case InsufficientBalance =>
      && env.now <= env.validBefore && env.signatureOk && key !in st.records
      && (env.refuses || AccountOf(st, origin).free < env.holdAmount)
    case CurrencyError =>
      && env.now <= env.validBefore && env.signatureOk && key in st.records && st.records[key].owner == origin
      && env.refuses
  }

  ghost predicate OthersKeep(st: State, st': State, key: KeyHash, a: AccountId) {
    && (forall k :: k != key ==> (k in st'.records <==> k in st.records))
    && (forall k :: k != key && k in st.records ==> st'.records[k] == st.records[k])
    && (forall b :: b != a ==> AccountOf(st', b) == AccountOf(st, b))
  }

  /** An upsert is accepted exactly under these requirements; then the data of the call is stored for its
      origin, and a new entry's deposit is held. Nothing else changes, and nothing at all on an error. */
  lemma UpsertStores(st: State, env: Env, origin: AccountId, key: KeyHash, data: Metadata)
    ensures
      var (st', r) := Upsert(st, env, origin, key, data);
      && (r.Ok? <==> AcceptsUpsert(st, env, origin, key)) && OthersKeep(st, st', key, origin)
      && (r.Err? ==> st' == st && Refusal(st, env, origin, key, r.error))
      && (r.Ok? ==> key in st'.records && st'.records[key].data == data && st'.records[key].owner == origin)
      && (r.Ok? && key in st.records ==> st'.records[key].deposit == st.records[key].deposit && st'.ledger == st.ledger)
      && (r.Ok? && key !in st.records ==>
            && st'.records[key].deposit == env.holdAmount
            && AccountOf(st', origin).free == AccountOf(st, origin).free - env.holdAmount
            && AccountOf(st', origin).held == AccountOf(st, origin).held + env.holdAmount)
  {
  }

  /** A deletion is accepted exactly under these requirements, and then the entry is gone. */
  lemma DeleteRemoves(st: State, env: Env, origin: AccountId, key: KeyHash)
    ensures
      var (st', r) := Delete(st, env, origin, key);
      && (r.Ok? <==> AcceptsDelete(st, env, origin, key)) && OthersKeep(st, st', key, origin)
      && (r.Err? ==> st' == st && Refusal(st, env, origin, key, r.error))
      && (r.Ok? ==> key !in st'.records)
      && (r.Ok? && key !in st.records ==> st' == st)
  {
  }

  datatype Written = Written(data: Metadata, owner: AccountId)

  /** Scanning the events backwards: what the last accepted upsert of the key wrote, unless a deletion was
      accepted since. */
  function LastWritten(st: State, events: seq<Event>, key: KeyHash): Option<Written>
    decreases |events|
  {
    if events == [] then
      (if key in st.records then Some(Written(st.records[key].data, st.records[key].owner)) else None)
    else
      var init := events[..|events| - 1];
      match Last(events)
      case UpsertCall(env, origin, k, data) =>
        if k == key && AcceptsUpsert(Run(st, init), env, origin, key) then Some(Written(data, origin))
        else LastWritten(st, init, key)
      case DeleteCall(env, origin, k) =>
        if k == key && AcceptsDelete(Run(st, init), env, origin, key) then None else LastWritten(st, init, key)
      case FreeBalanceSet(_, _) => LastWritten(st, init, key)
  }

  lemma {:induction false} RunSnoc(st: State, events: seq<Event>, e: Event)
    ensures Run(st, events + [e]) == Step(Run(st, events), e)
    decreases |events|
  {
    if events == [] {
      assert events + [e] == [e];
      assert [e][1..] == [];
    } else {
      RunSnoc(Step(st, events[0]), events[1..], e);
      assert (events + [e])[1..] == events[1..] + [e];
    }
  }

  /** In every run a key is stored exactly if its last accepted upsert was not followed by an accepted
      deletion, with the data and origin of that upsert. */
  lemma {:induction false} StoredIsLastWritten(st: State, events: seq<Event>, key: KeyHash)
    ensures
      var records, w := Run(st, events).records, LastWritten(st, events, key);
      && (key in records <==> w.Some?)
      && (key in records ==> records[key].data == w.value.data && records[key].owner == w.value.owner)
    decreases |events|
  {
    if events != [] {
      var init, e := events[..|events| - 1], Last(events);
      assert events == init + [e];
      RunSnoc(st, init, e);
      StoredIsLastWritten(st, init, key);
      match e
      case UpsertCall(env, origin, k, data) => UpsertStores(Run(st, init), env, origin, k, data);
      case DeleteCall(env, origin, k) => DeleteRemoves(Run(st, init), env, origin, k);
      case FreeBalanceSet(_, _) =>
    }
  }

  function Wealth(st: State, a: AccountId): nat {
    AccountOf(st, a).free + AccountOf(st, a).held
  }

  /** The pallet only ever moves tokens between the free and the held part of one account. */
  lemma PalletConservesWealth(st: State, e: Event, a: AccountId)
    requires !e.FreeBalanceSet?
    ensures Wealth(Step(st, e), a) == Wealth(st, a)
  {
  }

  predicate Deletes(e: Event, key: KeyHash, owner: AccountId) {
    e.DeleteCall? && e.key == key && e.origin == owner
  }

  /** A timely, correctly signed upsert by the owner. */
  predicate Rewrites(e: Event, key: KeyHash, owner: AccountId, data: Metadata) {
    e.UpsertCall? && e.key == key && e.origin == owner && e.data == data
    && e.env.signatureOk && e.env.now <= e.env.validBefore
  }

  /** Owner and deposit of an entry stay fixed until its owner deletes it, and its data only ever changes
      to what its owner wrote with a valid signature in time. */
  lemma {:induction false} EntryFixedUntilDeleted(st: State, events: seq<Event>, key: KeyHash)
    requires key in st.records
    requires forall i :: 0 <= i < |events| ==> !Deletes(events[i], key, st.records[key].owner)
    ensures key in Run(st, events).records
    ensures Run(st, events).records[key].owner == st.records[key].owner
    ensures Run(st, events).records[key].deposit == st.records[key].deposit
    ensures Run(st, events).records[key].data != st.records[key].data ==>
      exists i :: 0 <= i < |events| && Rewrites(events[i], key, st.records[key].owner, Run(st, events).records[key].data)
    decreases |events|
  {
    if events != [] {
      var st' := Step(st, events[0]);
      assert key in st'.records && st'.records[key].owner == st.records[key].owner
             && st'.records[key].deposit == st.records[key].deposit by {
        assert !Deletes(events[0], key, st.records[key].owner);
      }
      EntryFixedUntilDeleted(st', events[1..], key);
      if Run(st, events).records[key].data != st'.records[key].data {
        var i :| 0 <= i < |events[1..]| && Rewrites(events[1..][i], key, st.records[key].owner, Run(st, events).records[key].data);
        assert events[i + 1] == events[1..][i];
      } else if st'.records[key].data != st.records[key].data {
        assert Rewrites(events[0], key, st.records[key].owner, st'.records[key].data);
      }
    }
  }
}
