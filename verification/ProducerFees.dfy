/** Margin fees of block producers with a bounded history per account. */
module ProducerFees {
  import opened Prelude

  type AccountId = nat

  datatype FeeChange = FeeChange(slot: nat, fee: nat)

  datatype FeeCall = FeeCall(account: AccountId, slot: nat, fee: nat)

  type Fees = map<AccountId, seq<FeeChange>>

  const MAX_FEE := 10000

  function Log(fees: Fees, a: AccountId): seq<FeeChange> {
    if a in fees then fees[a] else []
  }

  /** Newest first; the oldest goes when more than `history` changes are stored already. */
  function Push(log: seq<FeeChange>, history: nat, change: FeeChange): seq<FeeChange> {
    [change] + if |log| > history then log[..|log| - 1] else log
  }

  function SetFee(fees: Fees, history: nat, call: FeeCall): Fees {
    if call.fee > MAX_FEE then fees
    else fees[call.account := Push(Log(fees, call.account), history, FeeChange(call.slot, call.fee))]
  }

  class FeesPallet {
    const history: nat
    var fees: Fees

    constructor (history: nat)
      ensures this.history == history && fees == map[]
    {
      this.history, fees := history, map[];
    }

    method Set(account: AccountId, slot: nat, fee: nat) returns (r: Result<(), string>)
      modifies this
      ensures r.Ok? <==> fee <= 10000
      ensures fees == SetFee(old(fees), history, FeeCall(account, slot, fee))
    {
      if fee > 10000 {
        return Err("fee numerator must be in range from 0 to 10000");
      }
      var log := if account in fees then fees[account] else [];
      if |log| > history {
        log := log[..|log| - 1];
      }
      log := [FeeChange(slot, fee)] + log;
      fees := fees[account := log];
      return Ok(());
    }

    method GetLatest(account: AccountId) returns (r: Option<FeeChange>)
      ensures r == if Log(fees, account) == [] then None else Some(Log(fees, account)[0])
    {
      if account in fees && |fees[account]| > 0 {
        return Some(fees[account][0]);
      }
      return None;
    }

    /** Needs the property that no stored log is empty. */
    method GetAllLatest() returns (r: map<AccountId, FeeChange>)
      requires forall a :: a in fees ==> fees[a] != []
      ensures r.Keys == fees.Keys && forall a :: a in fees ==> r[a] == fees[a][0]
    {
      r := map a | a in fees :: fees[a][0];
    }
  }

  function Run(fees: Fees, history: nat, calls: seq<FeeCall>): Fees {
    if calls == [] then fees else SetFee(Run(fees, history, calls[..|calls| - 1]), history, Last(calls))
  }

  /** All accepted changes of one account, newest first. */
  function Accepted(calls: seq<FeeCall>, a: AccountId): seq<FeeChange> {
    if calls == [] then []
    else
      var c := Last(calls);
      (if c.account == a && c.fee <= 10000 then [FeeChange(c.slot, c.fee)] else []) + Accepted(calls[..|calls| - 1], a)
  }

  /** After any calls an account's log is exactly its newest `history + 1` accepted changes, and an
      account is stored exactly if it has one. */
  lemma {:induction false} LogIsRecentWindow(history: nat, calls: seq<FeeCall>, a: AccountId)
    ensures Log(Run(map[], history, calls), a) == Limit(Accepted(calls, a), history + 1)
    ensures a in Run(map[], history, calls) <==> Accepted(calls, a) != []
  {
    if calls != [] {
      var init := calls[..|calls| - 1];
      LogIsRecentWindow(history, init, a);
      var c := Last(calls);
      if c.account == a && c.fee <= MAX_FEE {
        var before := Accepted(init, a);
        assert Limit([FeeChange(c.slot, c.fee)] + before, history + 1) == [FeeChange(c.slot, c.fee)] + Limit(before, history);
      } else {
        assert Accepted(calls, a) == Accepted(init, a);
      }
    }
  }

  /** Stored logs are never empty, their fees are in range, and with a clock that does not go back their
      slots are non-increasing. */
  lemma {:induction false} AcceptedShape(calls: seq<FeeCall>, a: AccountId)
    ensures forall i :: 0 <= i < |Accepted(calls, a)| ==> Accepted(calls, a)[i].fee <= MAX_FEE
    ensures (forall i, j :: 0 <= i < j < |calls| ==> calls[i].slot <= calls[j].slot) ==>
      forall i, j :: 0 <= i < j < |Accepted(calls, a)| ==> Accepted(calls, a)[j].slot <= Accepted(calls, a)[i].slot
  {
    if calls != [] {
      var init := calls[..|calls| - 1];
      AcceptedShape(init, a);
      AcceptedBounded(init, a, Last(calls).slot);
    }
  }

  lemma {:induction false} AcceptedBounded(calls: seq<FeeCall>, a: AccountId, slot: nat)
    ensures (forall i :: 0 <= i < |calls| ==> calls[i].slot <= slot) ==>
      forall i :: 0 <= i < |Accepted(calls, a)| ==> Accepted(calls, a)[i].slot <= slot
  {
    if calls != [] {
      AcceptedBounded(calls[..|calls| - 1], a, slot);
    }
  }

  lemma StoredLogsWellFormed(history: nat, calls: seq<FeeCall>, a: AccountId)
    requires a in Run(map[], history, calls)
    requires forall i, j :: 0 <= i < j < |calls| ==> calls[i].slot <= calls[j].slot
    ensures
      var log := Run(map[], history, calls)[a];
      && log != [] && |log| <= history + 1
      && (forall i :: 0 <= i < |log| ==> log[i].fee <= MAX_FEE)
      && (forall i, j :: 0 <= i < j < |log| ==> log[j].slot <= log[i].slot)
  {
    LogIsRecentWindow(history, calls, a);
    AcceptedShape(calls, a);
  }
}
