/** Committee rotation: the committee pallet as session manager of the session pallet. */
module CommitteeSessions {
  import opened Prelude
  import Session

  type Member = Session.Validator

  datatype CommitteeInfo = CommitteeInfo(epoch: nat, committee: seq<Member>)

  datatype State = State(current: CommitteeInfo, next: Option<CommitteeInfo>, session: Session.State)

  datatype SetCall = SetCall(validators: seq<Member>, forEpoch: nat)

  datatype SetError = InvalidEpoch | NextCommitteeAlreadySet

  predicate ShouldEndSession(st: State, epochNow: nat) {
    st.current.epoch < epochNow && st.next.Some?
  }

  /** None stands for the panic of `new_session` when no next committee is stored. */
  function NewSession(st: State): Option<(State, seq<Member>)> {
    match st.next
    case None => None
    case Some(info) => Some((st.(current := info, next := None), info.committee))
  }

  /** Block start: the first block moves the genesis committee to the running epoch, then the session
      pallet rotates if the manager says so. None is a panic. */
  function OnInitialize(st: State, compat: bool, first: bool, epochNow: nat): Option<State> {
    var st1 := if first then st.(current := st.current.(epoch := epochNow)) else st;
    if !ShouldEndSession(st1, epochNow) then Some(st1)
    else match NewSession(st1)
      case None => None
      case Some((st2, vs)) => Some(st2.(session := Session.RotateSession(st2.session, compat, Some(vs))))
  }

  /** The proposer's inherent, created on the initialised block; `select` is the selection algorithm. */
  function CreateInherent(st: State, select: nat -> Option<seq<Member>>): Option<SetCall> {
    if st.next.Some? then None
    else
      var epoch := st.current.epoch + 1;
      match select(epoch)
      case Some(vs) => Some(SetCall(vs, epoch))
      case None => Some(SetCall(st.current.committee, epoch))
  }

  /** The verifier's check, made on the parent state. */
  predicate CheckInherent(parent: State, call: SetCall, select: nat -> Option<seq<Member>>) {
    var fallback := if parent.next.Some? then parent.next.value.committee else parent.current.committee;
    var expected := match select(call.forEpoch) case Some(vs) => vs case None => fallback;
    call.validators == expected
  }

  function Set(st: State, call: SetCall): Result<State, SetError> {
    if call.forEpoch != st.current.epoch + 1 then Err(InvalidEpoch)
    else if st.next.Some? then Err(NextCommitteeAlreadySet)
    else Ok(st.(next := Some(CommitteeInfo(call.forEpoch, call.validators))))
  }

  /** A committee is accepted exactly for the epoch after the current one, and once: from then on every
      call fails, for the wrong epoch first. */
  lemma SetOnce(st: State, call: SetCall, again: SetCall)
    ensures Set(st, call).Ok? <==> call.forEpoch == st.current.epoch + 1 && st.next.None?
    ensures Set(st, call).Ok? ==>
      var st' := Set(st, call).value;
      && st'.current == st.current && st'.session == st.session
      && st'.next.Some? && st'.next.value.committee == call.validators && st'.next.value.epoch == call.forEpoch
      && Set(st', again) == Err(if again.forEpoch == call.forEpoch then NextCommitteeAlreadySet else InvalidEpoch)
  {
  }

  /** Outcome of one block with its mandatory inherent; None if anything panics or fails. */
  function ExecBlock(st: State, compat: bool, first: bool, epochNow: nat, select: nat -> Option<seq<Member>>): Option<State> {
    match OnInitialize(st, compat, first, epochNow)
    case None => None
    case Some(st1) =>
      match CreateInherent(st1, select)
      case None => Some(st1)
      case Some(call) => (match Set(st1, call) case Ok(st2) => Some(st2) case Err(_) => None)
  }

  class CommitteePallet {
    var current: CommitteeInfo
    var next: Option<CommitteeInfo>

    constructor (initialAuthorities: seq<Member>)
      ensures current == CommitteeInfo(0, initialAuthorities) && next == None
    {
      current, next := CommitteeInfo(0, initialAuthorities), None;
    }

    method SetNext(call: SetCall) returns (r: Result<(), SetError>)
      modifies this
      ensures current == old(current)
      ensures r == if call.forEpoch != current.epoch + 1 then Err(InvalidEpoch)
                   else if old(next).Some? then Err(NextCommitteeAlreadySet) else Ok(())
      ensures next == if r.Ok? then Some(CommitteeInfo(call.forEpoch, call.validators)) else old(next)
    {
      if call.forEpoch != current.epoch + 1 {
        return Err(InvalidEpoch);
      }
      if next.Some? {
        return Err(NextCommitteeAlreadySet);
      }
      next := Some(CommitteeInfo(call.forEpoch, call.validators));
      return Ok(());
    }

    /** The session manager's source of validators. */
    method RotateToNextEpoch() returns (r: Option<seq<Member>>)
      modifies this
      ensures r.Some? <==> old(next).Some?
      ensures r.Some? ==> current == old(next).value && next == None && r.value == current.committee
      ensures r.None? ==> current == old(current) && next == None
    {
      if next.None? {
        return None;
      }
      current := next.value;
      next := None;
      return Some(current.committee);
    }
  }

  /** One block executed on the two pallets; false stands for a panic or an invalid block. */
  method RunBlock(
    pallet: CommitteePallet, session: Session.SessionPallet, first: bool, epochNow: nat,
    select: nat -> Option<seq<Member>>) returns (ok: bool)
    modifies pallet, session
    ensures
      var before := State(old(pallet.current), old(pallet.next), old(session.Abs()));
      var after := ExecBlock(before, session.compat, first, epochNow, select);
      ok == after.Some? && (ok ==> after.value == State(pallet.current, pallet.next, session.Abs()))
  {
    if first {
      pallet.current := pallet.current.(epoch := epochNow);
    }
    if pallet.current.epoch < epochNow && pallet.next.Some? {
      var vs := pallet.RotateToNextEpoch();
      session.Rotate(vs);
    }
    var call := CreateInherent(State(pallet.current, pallet.next, session.Abs()), select);
    if call.Some? {
      var r := pallet.SetNext(call.value);
      return r.Ok?;
    }
    return true;
  }

  /** Between blocks: the next committee is stored one epoch ahead and the session pallet validates with
      the current committee. */
  ghost predicate Settled(st: State) {
    && st.next.Some? && st.next.value.epoch == st.current.epoch + 1
    && st.session.validatorsAndKeys == st.current.committee
  }

  ghost predicate Genesis(st: State) {
    st.next.None? && st.session.validatorsAndKeys == st.current.committee
  }

  /** The verifier accepts the proposer's call although it falls back on another committee slot, because
      it looks at the state before the rotation. */
  lemma VerifierAcceptsProposal(
    st: State, compat: bool, first: bool, epochNow: nat, select: nat -> Option<seq<Member>>, call: SetCall)
    requires OnInitialize(st, compat, first, epochNow).Some?
    requires CreateInherent(OnInitialize(st, compat, first, epochNow).value, select).Some?
    requires call.forEpoch == CreateInherent(OnInitialize(st, compat, first, epochNow).value, select).value.forEpoch
    ensures CheckInherent(st, call, select)
            <==> call == CreateInherent(OnInitialize(st, compat, first, epochNow).value, select).value
  {
  }

  /** No block panics or fails, and every block leaves the chain settled; the committee's epoch moves by
      at most one, and only when the running epoch is ahead of it. A block that rotates puts the stored
      committee in charge and stores the one selected for the epoch after, or the same one if none is. */
  lemma BlockSettles(st: State, compat: bool, first: bool, epochNow: nat, select: nat -> Option<seq<Member>>)
    requires if first then Genesis(st) else Settled(st)
    ensures
      var r := ExecBlock(st, compat, first, epochNow, select);
      && r.Some? && Settled(r.value)
      && r.value.current.epoch == (if first then epochNow else Min(st.current.epoch + 1, if st.current.epoch < epochNow then epochNow else st.current.epoch))
      && var rotated, epoch := !first && st.current.epoch < epochNow, r.value.current.epoch;
         && r.value.current.committee == (if rotated then st.next.value.committee else st.current.committee)
         && r.value.next ==
            if !first && !rotated then st.next
            else match select(epoch + 1)
              case Some(vs) => Some(CommitteeInfo(epoch + 1, vs))
              case None => Some(CommitteeInfo(epoch + 1, r.value.current.committee))
  {
  }

  datatype Tick = Tick(epochNow: nat, select: nat -> Option<seq<Member>>)

  function Run(st: State, compat: bool, ticks: seq<Tick>): Option<State>
    decreases |ticks|
  {
    if ticks == [] then Some(st)
    else match ExecBlock(st, compat, false, ticks[0].epochNow, ticks[0].select)
      case None => None
      case Some(st') => Run(st', compat, ticks[1..])
  }

  /** Over every run: nothing panics, the validating set is always the current committee, and its epoch
      never gets ahead of the running epoch. */
  lemma {:induction false} EveryRunSettles(st: State, compat: bool, ticks: seq<Tick>)
    requires Settled(st)
    requires forall i :: 0 <= i < |ticks| ==> st.current.epoch <= ticks[i].epochNow
    requires forall i, j :: 0 <= i < j < |ticks| ==> ticks[i].epochNow <= ticks[j].epochNow
    ensures Run(st, compat, ticks).Some? && Settled(Run(st, compat, ticks).value)
    ensures st.current.epoch <= Run(st, compat, ticks).value.current.epoch
    ensures ticks != [] ==> Run(st, compat, ticks).value.current.epoch <= Last(ticks).epochNow
    decreases |ticks|
  {
    if ticks != [] {
      BlockSettles(st, compat, false, ticks[0].epochNow, ticks[0].select);
      var st' := ExecBlock(st, compat, false, ticks[0].epochNow, ticks[0].select).value;
      EveryRunSettles(st', compat, ticks[1..]);
    }
  }

  /** A chain that fell behind catches up by one committee per block. */
  lemma {:induction false} CatchesUp(st: State, compat: bool, ticks: seq<Tick>, epochNow: nat)
    requires Settled(st) && st.current.epoch <= epochNow
    requires forall i :: 0 <= i < |ticks| ==> ticks[i].epochNow == epochNow
    ensures Run(st, compat, ticks).Some?
    ensures Run(st, compat, ticks).value.current.epoch == Min(epochNow, st.current.epoch + |ticks|)
    decreases |ticks|
  {
    if ticks != [] {
      BlockSettles(st, compat, false, epochNow, ticks[0].select);
      CatchesUp(ExecBlock(st, compat, false, epochNow, ticks[0].select).value, compat, ticks[1..], epochNow);
    }
  }
}
