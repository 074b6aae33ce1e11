/** The partner-chains session pallet: rotation, the disabled list and account provider references. */
module Session {
  import opened Prelude

  type ValidatorId = nat
  type Keys = nat
  type AccountId = nat

  datatype Validator = Validator(id: ValidatorId, keys: Keys)

  /** Calls made to the session manager and the session handler. */
  datatype Event =
    | BeforeEnding
    | EndSession(index: nat)
    | NewSession(index: nat)
    | StartSession(index: nat)
    | OnGenesisSession(validators: seq<Validator>)
    | OnNewSession(changed: bool, validators: seq<Validator>)
    | OnDisabled(index: nat)

  datatype AccountInfo = AccountInfo(providers: nat, consumers: nat)

  type Accounts = map<AccountId, AccountInfo>

  function Ids(vs: seq<Validator>): (r: seq<ValidatorId>)
    ensures |r| == |vs| && forall i :: 0 <= i < |vs| ==> r[i] == vs[i].id
  {
    seq(|vs|, i requires 0 <= i < |vs| => vs[i].id)
  }

  // ----- Provider references -----

  function Providers(accounts: Accounts, a: AccountId): nat {
    if a in accounts then accounts[a].providers else 0
  }

  function IncProvider(accounts: Accounts, a: AccountId): Accounts {
    accounts[a := if a in accounts then accounts[a].(providers := accounts[a].providers + 1) else AccountInfo(1, 0)]
  }

  /** The last reference to an account cannot be dropped while something consumes it. */
  predicate Pinned(accounts: Accounts, a: AccountId) {
    a in accounts && accounts[a].providers <= 1 && 0 < accounts[a].consumers
  }

  function DecProvider(accounts: Accounts, a: AccountId): Accounts {
    if a !in accounts then accounts
    else if accounts[a].providers <= 1 then accounts - {a}
    else accounts[a := accounts[a].(providers := accounts[a].providers - 1)]
  }

  function Consumers(accounts: Accounts, a: AccountId): nat {
    if a in accounts then accounts[a].consumers else 0
  }

  /** Provider count of one account after the change. */
  function ProvidersAfter(accounts: Accounts, newIds: seq<AccountId>, oldIds: seq<AccountId>, a: AccountId): nat {
    var p := Providers(accounts, a);
    if a in newIds && a !in oldIds then p + 1
    else if a in oldIds && a !in newIds && 0 < p then p - 1
    else p
  }

  /** What changing the provider references leaves behind; None stands for the panic of a failing
      decrement. */
  ghost predicate ProvidersChanged(
    accounts: Accounts, newIds: seq<AccountId>, oldIds: seq<AccountId>, r: Option<Accounts>)
  {
    && (r.None? <==> exists a :: a in oldIds && a !in newIds && Pinned(accounts, a))
    && (r.Some? ==> forall a :: Providers(r.value, a) == ProvidersAfter(accounts, newIds, oldIds, a))
    && (r.Some? ==> forall a :: Consumers(r.value, a) == Consumers(accounts, a))
  }

  /** The lists may hold repeats; the two set
      differences are visited in an arbitrary order. */
  method ChangeAccountProviders(accounts: Accounts, newIds: seq<AccountId>, oldIds: seq<AccountId>)
    returns (r: Option<Accounts>)
    ensures ProvidersChanged(accounts, newIds, oldIds, r)
    ensures newIds == oldIds ==> r == Some(accounts)
  {
    var news, olds := set a | a in newIds, set a | a in oldIds;
    var toInc, toDec := news - olds, olds - news;
    var current := accounts;
    var todo := toInc;
    while todo != {}
      invariant todo <= toInc
      invariant forall a :: a in toInc - todo ==> Providers(current, a) == Providers(accounts, a) + 1
      invariant forall a :: a !in toInc - todo ==> Same(current, accounts, a)
      invariant forall a :: Consumers(current, a) == Consumers(accounts, a)
      invariant toInc == {} ==> current == accounts
    {
      var a :| a in todo;
      assert Same(current, accounts, a);
      assert toInc - (todo - {a}) == (toInc - todo) + {a};
      ghost var before := current;
      current := IncProvider(current, a);
      assert forall b :: b != a ==> Same(current, before, b);
      todo := todo - {a};
    }
    todo := toDec;
    while todo != {}
      invariant todo <= toDec
      invariant forall a :: a in toInc ==> Providers(current, a) == Providers(accounts, a) + 1
      invariant forall a :: a in toDec - todo ==>
        !Pinned(accounts, a) && Providers(current, a) == ProvidersAfter(accounts, newIds, oldIds, a)
      invariant forall a :: a !in toInc && a !in toDec - todo ==> Same(current, accounts, a)
      invariant forall a :: Consumers(current, a) == Consumers(accounts, a)
      invariant toInc == {} && toDec == {} ==> current == accounts
    {
      var a :| a in todo;
      if Pinned(current, a) {
        return None;
      }
      current := DecProvider(current, a);
      todo := todo - {a};
    }
    r := Some(current);
  }

  ghost predicate Same(m: Accounts, m': Accounts, a: AccountId) {
    (a in m <==> a in m') && (a in m ==> m[a] == m'[a])
  }

  /** If every old account holds one reference on top of its base count, then either an account only in the
      old list has no other provider and is in use, and the change panics, or no decrement fails and
      exactly the new accounts hold one reference on top of their base count. */
  lemma ReferencesTransferred(
    accounts: Accounts, base: AccountId -> nat, newIds: seq<AccountId>, oldIds: seq<AccountId>, r: Option<Accounts>)
    requires ProvidersChanged(accounts, newIds, oldIds, r)
    requires forall a :: Providers(accounts, a) == base(a) + if a in oldIds then 1 else 0
    ensures r.None? <==>
      exists a :: a in oldIds && a !in newIds && base(a) == 0 && a in accounts && 0 < accounts[a].consumers
    ensures r.Some? ==> forall a :: Providers(r.value, a) == base(a) + if a in newIds then 1 else 0
  {
    forall a | a in oldIds
      ensures Pinned(accounts, a) <==> base(a) == 0 && a in accounts && 0 < accounts[a].consumers
    {
      assert Providers(accounts, a) == base(a) + 1;
    }
  }

  // ----- The disabled list -----

  ghost predicate Increasing(s: seq<nat>) {
    forall i, j :: 0 <= i < j < |s| ==> s[i] < s[j]
  }

  /** Position of `x` in an increasing list, or where it belongs. */
  method BinarySearch(s: seq<nat>, x: nat) returns (found: bool, pos: nat)
    requires Increasing(s)
    ensures found <==> x in s
    ensures pos <= |s| && (found ==> pos < |s| && s[pos] == x)
    ensures forall i :: 0 <= i < pos ==> s[i] < x
    ensures forall i :: pos <= i < |s| ==> x <= s[i]
  {
    var lo, hi := 0, |s|;
    while lo < hi
      invariant 0 <= lo <= hi <= |s|
      invariant forall i :: 0 <= i < lo ==> s[i] < x
      invariant forall i :: hi <= i < |s| ==> x <= s[i]
    {
      var mid := lo + (hi - lo) / 2;
      if s[mid] < x {
        lo := mid + 1;
      } else {
        hi := mid;
      }
    }
    pos := lo;
    found := pos < |s| && s[pos] == x;
  }

  function InsertSorted(s: seq<nat>, x: nat): seq<nat> {
    if s == [] || x <= s[0] then [x] + s else [s[0]] + InsertSorted(s[1..], x)
  }

  lemma {:induction false} InsertSortedAt(s: seq<nat>, x: nat, pos: nat)
    requires pos <= |s|
    requires forall i :: 0 <= i < pos ==> s[i] < x
    requires forall i :: pos <= i < |s| ==> x <= s[i]
    ensures InsertSorted(s, x) == s[..pos] + [x] + s[pos..]
  {
    if s != [] && s[0] < x {
      InsertSortedAt(s[1..], x, pos - 1);
      assert s[..pos] == [s[0]] + s[1..][..pos - 1];
    }
  }

  lemma {:induction false} InsertKeepsIncreasing(s: seq<nat>, x: nat)
    requires Increasing(s) && x !in s
    ensures Increasing(InsertSorted(s, x))
    ensures forall y :: y in InsertSorted(s, x) <==> y == x || y in s
  {
    if s != [] && s[0] < x {
      InsertKeepsIncreasing(s[1..], x);
      var t := InsertSorted(s[1..], x);
      forall j | 0 <= j < |t| ensures s[0] < t[j] {
        assert t[j] in t;
      }
    }
  }

  // ----- The pallet -----

  datatype State = State(
    validatorsAndKeys: seq<Validator>,
    validators: seq<ValidatorId>,
    currentIndex: nat,
    disabled: seq<nat>,
    accounts: Accounts,
    trace: seq<Event>)

  /** `compat` is the feature that also writes the plain list of validator ids. */
  function RotateValidators(st: State, compat: bool, vs: seq<Validator>): State {
    st.(validatorsAndKeys := vs, validators := if compat then Ids(vs) else st.validators, disabled := [])
  }

  function RotationTrace(trace: seq<Event>, i: nat, changed: bool, vs: seq<Validator>): seq<Event>
    requires 0 < i
  {
    trace + [BeforeEnding] + [EndSession(i - 1)] + [NewSession(i)] + [StartSession(i)] + [OnNewSession(changed, vs)]
  }

  function RotateSession(st: State, compat: bool, offer: Option<seq<Validator>>): State {
    var i := st.currentIndex + 1;
    var st' := if offer.Some? then RotateValidators(st, compat, offer.value) else st;
    st'.(currentIndex := i,
         trace := RotationTrace(st.trace, i, offer.Some?, st'.validatorsAndKeys))
  }

  predicate CanDisable(st: State, i: nat) {
    i < |st.validators| && i !in st.disabled
  }

  function DisableIndex(st: State, i: nat): State {
    if CanDisable(st, i) then st.(disabled := InsertSorted(st.disabled, i), trace := st.trace + [OnDisabled(i)]) else st
  }

  function PositionOf(vs: seq<Validator>, id: ValidatorId): Option<nat> {
    if vs == [] then None
    else if vs[0].id == id then Some(0)
    else (match PositionOf(vs[1..], id) case None => None case Some(i) => Some(i + 1))
  }

  /** The first validator with the id. */
  lemma {:induction false} PositionOfIff(vs: seq<Validator>, id: ValidatorId, i: nat)
    ensures PositionOf(vs, id) == Some(i) <==> i < |vs| && vs[i].id == id && forall j :: 0 <= j < i ==> vs[j].id != id
    ensures PositionOf(vs, id) == None <==> forall j :: 0 <= j < |vs| ==> vs[j].id != id
  {
    if vs != [] && vs[0].id != id {
      PositionOfIff(vs[1..], id, if i == 0 then 0 else i - 1);
      assert forall j :: 0 < j < |vs| ==> vs[j] == vs[1..][j - 1];
      assert forall j :: 0 <= j < |vs| - 1 ==> vs[1..][j] == vs[j + 1];
    }
  }

  function Disable(st: State, id: ValidatorId): State {
    match PositionOf(st.validatorsAndKeys, id)
    case None => st
    case Some(i) => DisableIndex(st, i)
  }

  function GenesisState(compat: bool, accounts: Accounts, offer: Option<seq<Validator>>, configured: seq<Validator>): State {
    var vs := if offer.Some? then offer.value else configured;
    State(vs, if compat then Ids(vs) else [], 0, [], accounts,
          [NewSession(0)] + [OnGenesisSession(vs)] + [StartSession(0)])
  }

  function AccIds(account: ValidatorId -> AccountId, vs: seq<Validator>): (ids: seq<AccountId>)
    ensures |ids| == |vs| && forall i :: 0 <= i < |vs| ==> ids[i] == account(vs[i].id)
  {
    if vs == [] then [] else [account(vs[0].id)] + AccIds(account, vs[1..])
  }

  class SessionPallet {
    const compat: bool
    const account: ValidatorId -> AccountId
    var validatorsAndKeys: seq<Validator>
    var validators: seq<ValidatorId>
    var currentIndex: nat
    var disabled: seq<nat>
    var accounts: Accounts
    var trace: seq<Event>

    function Abs(): State
      reads this
    {
      State(validatorsAndKeys, validators, currentIndex, disabled, accounts, trace)
    }

    constructor Genesis(
      compat: bool, account: ValidatorId -> AccountId, accounts: Accounts, offer: Option<seq<Validator>>,
      configured: seq<Validator>)
      ensures Abs() == GenesisState(compat, accounts, offer, configured) && this.compat == compat
      ensures this.account == account
    {
      this.compat, this.account := compat, account;
      this.validatorsAndKeys, this.validators, this.currentIndex, this.disabled := [], [], 0, [];
      this.accounts, this.trace := accounts, [NewSession(0)];
      new;
      var initial := if offer.Some? then offer.value else configured;
      StoreValidators(initial);
      trace := trace + [OnGenesisSession(initial)];
      trace := trace + [StartSession(0)];
    }

    /** Stores the new set first and then passes the stored set as the old one, so the provider counts
        never change. */
    method StoreValidators(vs: seq<Validator>)
      modifies this
      ensures Abs() == RotateValidators(old(Abs()), compat, vs)
    {
      validatorsAndKeys := vs;
      if compat {
        validators := Ids(vs);
      }
      var changed := ChangeAccountProviders(accounts, AccIds(account, vs), AccIds(account, validatorsAndKeys));
      accounts := changed.value;
      disabled := [];
    }

    method Rotate(offer: Option<seq<Validator>>)
      modifies this
      ensures Abs() == RotateSession(old(Abs()), compat, offer)
    {
      var index := currentIndex;
      trace := trace + [BeforeEnding];
      trace := trace + [EndSession(index)];
      index := index + 1;
      currentIndex := index;
      trace := trace + [NewSession(index)];
      var vs, changed;
      if offer.Some? {
        StoreValidators(offer.value);
        vs, changed := offer.value, true;
      } else {
        vs, changed := validatorsAndKeys, false;
      }
      trace := trace + [StartSession(index)];
      trace := trace + [OnNewSession(changed, vs)];
    }

    method DisableAt(i: nat) returns (done: bool)
      requires Increasing(disabled)
      modifies this
      ensures done == CanDisable(old(Abs()), i)
      ensures Abs() == DisableIndex(old(Abs()), i)
    {
      if i >= |validators| {
        return false;
      }
      var found, index := BinarySearch(disabled, i);
      if found {
        return false;
      }
      InsertSortedAt(disabled, i, index);
      disabled := disabled[..index] + [i] + disabled[index..];
      trace := trace + [OnDisabled(i)];
      return true;
    }

    method DisableId(id: ValidatorId) returns (done: bool)
      requires Increasing(disabled)
      modifies this
      ensures Abs() == Disable(old(Abs()), id)
      ensures done == (PositionOf(old(validatorsAndKeys), id).Some?
                       && CanDisable(old(Abs()), PositionOf(old(validatorsAndKeys), id).value))
    {
      var position := PositionOf(validatorsAndKeys, id);
      if position.None? {
        return false;
      }
      done := DisableAt(position.value);
    }

    method IsDisabled(i: nat) returns (r: bool)
      requires Increasing(disabled)
      ensures r <==> i in disabled
    {
      var pos;
      r, pos := BinarySearch(disabled, i);
    }
  }

  // ----- Runs -----

  datatype Op = RotateOp(offer: Option<seq<Validator>>) | DisableIndexOp(index: nat) | DisableIdOp(id: ValidatorId)

  /** A state with the indices successfully disabled since the last new set. */
  datatype History = History(state: State, since: set<nat>)

  function Apply(compat: bool, h: History, op: Op): History {
    match op
    case RotateOp(offer) =>
      History(RotateSession(h.state, compat, offer), if offer.Some? then {} else h.since)
    case DisableIndexOp(i) =>
      History(DisableIndex(h.state, i), if CanDisable(h.state, i) then h.since + {i} else h.since)
    case DisableIdOp(id) =>
      var at := PositionOf(h.state.validatorsAndKeys, id);
      History(Disable(h.state, id),
              if at.Some? && CanDisable(h.state, at.value) then h.since + {at.value} else h.since)
  }

  function Run(compat: bool, h: History, ops: seq<Op>): History
    decreases |ops|
  {
    if ops == [] then h else Run(compat, Apply(compat, h, ops[0]), ops[1..])
  }

  ghost predicate Inv(compat: bool, h: History) {
    && Increasing(h.state.disabled)
    && (forall i :: i in h.state.disabled <==> i in h.since)
    && (forall i :: i in h.since ==> i < |h.state.validatorsAndKeys|)
    && h.state.validators == if compat then Ids(h.state.validatorsAndKeys) else []
  }

  lemma ApplyKeepsInv(compat: bool, h: History, op: Op)
    requires Inv(compat, h)
    ensures Inv(compat, Apply(compat, h, op))
    ensures Apply(compat, h, op).state.accounts == h.state.accounts
  {
    var target :=
      match op
      case RotateOp(_) => None
      case DisableIndexOp(i) => Some(i)
      case DisableIdOp(id) => PositionOf(h.state.validatorsAndKeys, id);
    if target.Some? && CanDisable(h.state, target.value) {
      InsertKeepsIncreasing(h.state.disabled, target.value);
    }
  }

  /** Over every interleaving of rotations and disabling: the list is strictly increasing, in range and
      holds exactly the indices disabled since the last new set, and provider counts never change.
      Without the compatibility feature nothing can be disabled at all. */
  lemma {:induction false} EveryRunKeepsInv(compat: bool, h: History, ops: seq<Op>)
    requires Inv(compat, h)
    ensures Inv(compat, Run(compat, h, ops))
    ensures Run(compat, h, ops).state.accounts == h.state.accounts
    ensures !compat && h.since == {} ==> Run(compat, h, ops).state.disabled == []
    decreases |ops|
  {
    if ops != [] {
      ApplyKeepsInv(compat, h, ops[0]);
      EveryRunKeepsInv(compat, Apply(compat, h, ops[0]), ops[1..]);
    } else if h.state.disabled != [] {
      assert h.state.disabled[0] in h.state.disabled;
    }
  }

  lemma GenesisInv(compat: bool, accounts: Accounts, offer: Option<seq<Validator>>, configured: seq<Validator>)
    ensures Inv(compat, History(GenesisState(compat, accounts, offer, configured), {}))
  {
  }

  predicate ToManager(e: Event) {
    e.EndSession? || e.NewSession? || e.StartSession?
  }

  /** The calls made to the session manager, in order. */
  function ManagerCalls(trace: seq<Event>): seq<Event> {
    if trace == [] then []
    else
      var before := ManagerCalls(trace[..|trace| - 1]);
      if ToManager(Last(trace)) then before + [Last(trace)] else before
  }

  /** Genesis followed by `n` complete hand-overs. */
  function Handovers(n: nat): seq<Event> {
    if n == 0 then [NewSession(0)] + [StartSession(0)]
    else Handovers(n - 1) + [EndSession(n - 1)] + [NewSession(n)] + [StartSession(n)]
  }

  function Rotations(ops: seq<Op>): nat {
    if ops == [] then 0 else (if ops[0].RotateOp? then 1 else 0) + Rotations(ops[1..])
  }

  lemma ManagerCallsSnoc(trace: seq<Event>, e: Event)
    ensures ManagerCalls(trace + [e]) == if ToManager(e) then ManagerCalls(trace) + [e] else ManagerCalls(trace)
  {
    assert (trace + [e])[..|trace|] == trace;
  }

  lemma RotationCalls(trace: seq<Event>, i: nat, changed: bool, vs: seq<Validator>)
    requires 0 < i
    ensures ManagerCalls(RotationTrace(trace, i, changed, vs))
            == ManagerCalls(trace) + [EndSession(i - 1)] + [NewSession(i)] + [StartSession(i)]
  {
    var t1 := trace + [BeforeEnding];
    var t2 := t1 + [EndSession(i - 1)];
    var t3 := t2 + [NewSession(i)];
    var t4 := t3 + [StartSession(i)];
    ManagerCallsSnoc(trace, BeforeEnding);
    ManagerCallsSnoc(t1, EndSession(i - 1));
    ManagerCallsSnoc(t2, NewSession(i));
    ManagerCallsSnoc(t3, StartSession(i));
    ManagerCallsSnoc(t4, OnNewSession(changed, vs));
  }

  lemma ApplyTrace(compat: bool, h: History, op: Op)
    requires ManagerCalls(h.state.trace) == Handovers(h.state.currentIndex)
    ensures
      var st := Apply(compat, h, op).state;
      && st.currentIndex == h.state.currentIndex + (if op.RotateOp? then 1 else 0)
      && ManagerCalls(st.trace) == Handovers(st.currentIndex)
  {
    match op
    case RotateOp(offer) =>
      var st := Apply(compat, h, op).state;
      RotationCalls(h.state.trace, h.state.currentIndex + 1, offer.Some?, st.validatorsAndKeys);
    case DisableIndexOp(i) => ManagerCallsSnoc(h.state.trace, OnDisabled(i));
    case DisableIdOp(id) =>
      var at := PositionOf(h.state.validatorsAndKeys, id);
      if at.Some? {
        ManagerCallsSnoc(h.state.trace, OnDisabled(at.value));
      }
  }

  /** For every run the manager sees: end of session i, plan of i+1, start of i+1, and so on without a
      gap, and the current index counts the rotations. */
  lemma {:induction false} TraceShape(compat: bool, h: History, ops: seq<Op>)
    requires ManagerCalls(h.state.trace) == Handovers(h.state.currentIndex)
    ensures
      var st := Run(compat, h, ops).state;
      && st.currentIndex == h.state.currentIndex + Rotations(ops)
      && ManagerCalls(st.trace) == Handovers(st.currentIndex)
    decreases |ops|
  {
    if ops != [] {
      ApplyTrace(compat, h, ops[0]);
      TraceShape(compat, Apply(compat, h, ops[0]), ops[1..]);
    }
  }

  lemma GenesisTrace(compat: bool, accounts: Accounts, offer: Option<seq<Validator>>, configured: seq<Validator>)
    ensures ManagerCalls(GenesisState(compat, accounts, offer, configured).trace) == Handovers(0)
  {
    var vs := if offer.Some? then offer.value else configured;
    var none: seq<Event> := [];
    assert none + [NewSession(0)] == [NewSession(0)];
    ManagerCallsSnoc(none, NewSession(0));
    ManagerCallsSnoc([NewSession(0)], OnGenesisSession(vs));
    ManagerCallsSnoc([NewSession(0)] + [OnGenesisSession(vs)], StartSession(0));
  }

  /** The set last announced to the session handler. */
  function Announced(trace: seq<Event>): Option<seq<Validator>> {
    if trace == [] then None
    else
      var e := Last(trace);
      if e.OnGenesisSession? || e.OnNewSession? then Some(e.validators) else Announced(trace[..|trace| - 1])
  }

  /** The `changed` flags passed to the session handler, in order. */
  function ChangedFlags(trace: seq<Event>): seq<bool> {
    if trace == [] then []
    else
      var before := ChangedFlags(trace[..|trace| - 1]);
      if Last(trace).OnNewSession? then before + [Last(trace).changed] else before
  }

  /** For every rotation whether the manager supplied a set. */
  function Offered(ops: seq<Op>): seq<bool> {
    if ops == [] then []
    else if ops[0].RotateOp? then [ops[0].offer.Some?] + Offered(ops[1..])
    else Offered(ops[1..])
  }

  /** Indices the session handler was told about since it was last given a changed set. */
  function ToldDisabled(trace: seq<Event>): seq<nat> {
    if trace == [] then []
    else
      var before, e := ToldDisabled(trace[..|trace| - 1]), Last(trace);
      if e.OnDisabled? then before + [e.index] else if e.OnNewSession? && e.changed then [] else before
  }

  lemma {:induction false} InsertedOnce(s: seq<nat>, x: nat)
    ensures multiset(InsertSorted(s, x)) == multiset(s) + multiset{x}
  {
    if s != [] && s[0] < x {
      InsertedOnce(s[1..], x);
      assert s == [s[0]] + s[1..];
    }
  }

  lemma HandlerViewSnoc(trace: seq<Event>, e: Event)
    ensures ToldDisabled(trace + [e]) ==
            if e.OnDisabled? then ToldDisabled(trace) + [e.index]
            else if e.OnNewSession? && e.changed then [] else ToldDisabled(trace)
    ensures Announced(trace + [e]) == if e.OnGenesisSession? || e.OnNewSession? then Some(e.validators) else Announced(trace)
    ensures ChangedFlags(trace + [e]) == if e.OnNewSession? then ChangedFlags(trace) + [e.changed] else ChangedFlags(trace)
  {
    assert (trace + [e])[..|trace|] == trace;
  }

  lemma RotationAnnounces(trace: seq<Event>, i: nat, changed: bool, vs: seq<Validator>)
    requires 0 < i
    ensures Announced(RotationTrace(trace, i, changed, vs)) == Some(vs)
    ensures ChangedFlags(RotationTrace(trace, i, changed, vs)) == ChangedFlags(trace) + [changed]
    ensures ToldDisabled(RotationTrace(trace, i, changed, vs)) == if changed then [] else ToldDisabled(trace)
  {
    var t1 := trace + [BeforeEnding];
    var t2 := t1 + [EndSession(i - 1)];
    var t3 := t2 + [NewSession(i)];
    var t4 := t3 + [StartSession(i)];
    HandlerViewSnoc(trace, BeforeEnding);
    HandlerViewSnoc(t1, EndSession(i - 1));
    HandlerViewSnoc(t2, NewSession(i));
    HandlerViewSnoc(t3, StartSession(i));
    HandlerViewSnoc(t4, OnNewSession(changed, vs));
  }

  /** The handler was last told the stored set, and since then each disabled index once. */
  ghost predicate HandlerKnows(st: State) {
    && Announced(st.trace) == Some(st.validatorsAndKeys)
    && multiset(ToldDisabled(st.trace)) == multiset(st.disabled)
  }

  lemma DisableAnnounces(st: State, i: nat)
    requires HandlerKnows(st)
    ensures HandlerKnows(DisableIndex(st, i)) && ChangedFlags(DisableIndex(st, i).trace) == ChangedFlags(st.trace)
  {
    HandlerViewSnoc(st.trace, OnDisabled(i));
    InsertedOnce(st.disabled, i);
  }

  lemma ApplyAnnounces(compat: bool, h: History, op: Op)
    requires HandlerKnows(h.state)
    ensures
      var st := Apply(compat, h, op).state;
      && HandlerKnows(st)
      && ChangedFlags(st.trace) ==
         if op.RotateOp? then ChangedFlags(h.state.trace) + [op.offer.Some?] else ChangedFlags(h.state.trace)
  {
    match op
    case RotateOp(offer) =>
      var st := Apply(compat, h, op).state;
      RotationAnnounces(h.state.trace, h.state.currentIndex + 1, offer.Some?, st.validatorsAndKeys);
    case DisableIndexOp(i) => DisableAnnounces(h.state, i);
    case DisableIdOp(id) =>
      var at := PositionOf(h.state.validatorsAndKeys, id);
      if at.Some? {
        DisableAnnounces(h.state, at.value);
      }
  }

  /** In every run the handler was last told exactly the stored set and every index disabled in it once, and
      each rotation was flagged as a change exactly if the manager supplied a set. */
  lemma {:induction false} HandlerKnowsValidators(compat: bool, h: History, ops: seq<Op>)
    requires HandlerKnows(h.state)
    ensures
      var st := Run(compat, h, ops).state;
      && HandlerKnows(st)
      && ChangedFlags(st.trace) == ChangedFlags(h.state.trace) + Offered(ops)
    decreases |ops|
  {
    if ops != [] {
      ApplyAnnounces(compat, h, ops[0]);
      if ops[0].RotateOp? {
        ConcatAssoc(ChangedFlags(h.state.trace), [ops[0].offer.Some?], Offered(ops[1..]));
      }
      HandlerKnowsValidators(compat, Apply(compat, h, ops[0]), ops[1..]);
    }
  }

  lemma GenesisAnnounced(compat: bool, accounts: Accounts, offer: Option<seq<Validator>>, configured: seq<Validator>)
    ensures
      var st := GenesisState(compat, accounts, offer, configured);
      HandlerKnows(st) && ChangedFlags(st.trace) == []
  {
    var vs := if offer.Some? then offer.value else configured;
    var none: seq<Event> := [];
    assert none + [NewSession(0)] == [NewSession(0)];
    HandlerViewSnoc(none, NewSession(0));
    HandlerViewSnoc([NewSession(0)], OnGenesisSession(vs));
    HandlerViewSnoc([NewSession(0)] + [OnGenesisSession(vs)], StartSession(0));
  }

  /** Scanning backwards: the set last supplied by the manager. */
  function LastOffer(initial: seq<Validator>, ops: seq<Op>): seq<Validator> {
    if ops == [] then initial
    else if Last(ops).RotateOp? && Last(ops).offer.Some? then Last(ops).offer.value
    else LastOffer(initial, ops[..|ops| - 1])
  }

  lemma {:induction false} RunSnoc(compat: bool, h: History, ops: seq<Op>, op: Op)
    ensures Run(compat, h, ops + [op]) == Apply(compat, Run(compat, h, ops), op)
    decreases |ops|
  {
    if ops == [] {
      assert ops + [op] == [op];
      assert [op][1..] == [];
    } else {
      RunSnoc(compat, Apply(compat, h, ops[0]), ops[1..], op);
      assert (ops + [op])[1..] == ops[1..] + [op];
    }
  }

  /** In every run the stored set is the one the manager supplied last. */
  lemma {:induction false} StoredIsLastOffer(compat: bool, h: History, ops: seq<Op>)
    ensures Run(compat, h, ops).state.validatorsAndKeys == LastOffer(h.state.validatorsAndKeys, ops)
    decreases |ops|
  {
    if ops != [] {
      var init := ops[..|ops| - 1];
      assert ops == init + [Last(ops)];
      RunSnoc(compat, h, init, Last(ops));
      StoredIsLastOffer(compat, h, init);
    }
  }

  /** All of this for every run from genesis: the disabled list, the provider counts, the calls to the
      manager and what the handler knows. */
  lemma GenesisRuns(
    compat: bool, accounts: Accounts, offer: Option<seq<Validator>>, configured: seq<Validator>, ops: seq<Op>)
    ensures
      var h := Run(compat, History(GenesisState(compat, accounts, offer, configured), {}), ops);
      && Inv(compat, h) && h.state.accounts == accounts && (!compat ==> h.state.disabled == [])
      && h.state.currentIndex == Rotations(ops) && ManagerCalls(h.state.trace) == Handovers(Rotations(ops))
      && HandlerKnows(h.state) && ChangedFlags(h.state.trace) == Offered(ops)
      && h.state.validatorsAndKeys == LastOffer(if offer.Some? then offer.value else configured, ops)
  {
    var h := History(GenesisState(compat, accounts, offer, configured), {});
    GenesisInv(compat, accounts, offer, configured);
    GenesisTrace(compat, accounts, offer, configured);
    GenesisAnnounced(compat, accounts, offer, configured);
    EveryRunKeepsInv(compat, h, ops);
    TraceShape(compat, h, ops);
    HandlerKnowsValidators(compat, h, ops);
    StoredIsLastOffer(compat, h, ops);
  }
}
