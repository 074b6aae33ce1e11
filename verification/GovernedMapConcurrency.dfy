/** Concurrent use of the caching governed map source, which holds its lock for single operations only. */
module GovernedMapConcurrency {
  import opened Prelude
  import opened GovernedMapChain
  import opened GovernedMapCache

  datatype Query = Query(scripts: Scripts, since: Option<nat>, upTo: nat)

  /** How far one call has come; on a miss it answers from the changes it found itself. */
  datatype Stage =
    | Begin
    | Scripted
    | Missed
    | Loaded(found: seq<Change>, to: nat)
    | Done(report: seq<Update>)

  datatype Call = Call(query: Query, stage: Stage)

  datatype System = System(cache: Cache, calls: seq<Call>)

  datatype Action = Submit(query: Query) | Advance(call: nat, cacheSize: nat, latest: Option<nat>)

  type Streams = Scripts -> seq<Change>

  function StepCall(k: Cache, streams: Streams, x: Call, cacheSize: nat, latest: Option<nat>): (Cache, Stage) {
    var q := x.query;
    match x.stage
    case Begin => (SetScripts(k, q.scripts), Scripted)
    case Scripted =>
      if Serves(k, q.since, q.upTo) then (k, Done(Updates(InRange(k.changes, q.since, q.upTo)))) else (k, Missed)
    case Missed =>
      var to := SearchEnd(q.since, q.upTo, cacheSize, latest);
      (k, Loaded(InRange(streams(q.scripts), q.since, to), to))
    case Loaded(found, _) => (Store(k, found), Done(Updates(InRange(found, q.since, q.upTo))))
    case Done(_) => (k, x.stage)
  }

  function Next(s: System, streams: Streams, a: Action): System {
    match a
    case Submit(q) => s.(calls := s.calls + [Call(q, Begin)])
    case Advance(i, cacheSize, latest) =>
      if i >= |s.calls| then s
      else
        var (k, stage) := StepCall(s.cache, streams, s.calls[i], cacheSize, latest);
        System(k, s.calls[i := s.calls[i].(stage := stage)])
  }

  function Run(s: System, streams: Streams, acts: seq<Action>): System
    decreases |acts|
  {
    if acts == [] then s else Run(Next(s, streams, acts[0]), streams, acts[1..])
  }

  function Submitted(acts: seq<Action>): seq<Query> {
    if acts == [] then [] else (if acts[0].Submit? then [acts[0].query] else []) + Submitted(acts[1..])
  }

  /** After every run the calls are the submitted queries in order. */
  lemma {:induction false} RunShape(s: System, streams: Streams, acts: seq<Action>)
    ensures
      var calls, queries := Run(s, streams, acts).calls, Submitted(acts);
      && |calls| == |s.calls| + |queries|
      && (forall i :: 0 <= i < |s.calls| ==> calls[i].query == s.calls[i].query)
      && (forall i :: 0 <= i < |queries| ==> calls[|s.calls| + i].query == queries[i])
    decreases |acts|
  {
    if acts != [] {
      RunShape(Next(s, streams, acts[0]), streams, acts[1..]);
    }
  }

  /** Steps of one call with nobody in between. */
  function Undisturbed(k: Cache, streams: Streams, x: Call, cacheSize: nat, latest: Option<nat>, steps: nat): (Cache, Stage)
    decreases steps
  {
    if steps == 0 then (k, x.stage)
    else
      var (k', stage) := StepCall(k, streams, x, cacheSize, latest);
      Undisturbed(k', streams, x.(stage := stage), cacheSize, latest, steps - 1)
  }

  /** The atomic steps taken one after the other are the call made in one go. */
  lemma UndisturbedIsAsk(k: Cache, streams: Streams, q: Query, cacheSize: nat, latest: Option<nat>)
    ensures
      var (report, k') := Ask(SetScripts(k, q.scripts), streams(q.scripts), q.since, q.upTo, cacheSize, latest);
      Undisturbed(k, streams, Call(q, Begin), cacheSize, latest, 4) == (k', Done(report))
  {
    var k1 := SetScripts(k, q.scripts);
    var (k2, stage2) := StepCall(k1, streams, Call(q, Scripted), cacheSize, latest);
    var (k3, stage3) := StepCall(k2, streams, Call(q, stage2), cacheSize, latest);
    var (k4, stage4) := StepCall(k3, streams, Call(q, stage3), cacheSize, latest);
    assert Undisturbed(k3, streams, Call(q, stage3), cacheSize, latest, 1) == (k4, stage4);
    assert Undisturbed(k2, streams, Call(q, stage2), cacheSize, latest, 2) == (k4, stage4);
    assert Undisturbed(k1, streams, Call(q, Scripted), cacheSize, latest, 3) == (k4, stage4);
  }

  /** The search whose changes are cached: whose stream, after which block and up to which. */
  datatype Search = Search(scripts: Scripts, from: Option<nat>, to: nat)

  /** Stored by a call that missed; setting other scripts empties the cache. Its scripts need not be those
      the cache is labelled with. */
  function SearchBy(s: System, search: Search, a: Action): Search {
    if a.Advance? && a.call < |s.calls| && s.calls[a.call].stage.Loaded?
    then Search(s.calls[a.call].query.scripts, s.calls[a.call].query.since, s.calls[a.call].stage.to)
    else search
  }

  function LastSearch(s: System, streams: Streams, acts: seq<Action>, search: Search): Search
    decreases |acts|
  {
    if acts == [] then search
    else LastSearch(Next(s, streams, acts[0]), streams, acts[1..], SearchBy(s, search, acts[0]))
  }

  ghost predicate CallOk(streams: Streams, x: Call) {
    x.stage.Loaded? ==> x.stage.found == InRange(streams(x.query.scripts), x.query.since, x.stage.to)
  }

  ghost predicate Inv(s: System, streams: Streams, search: Search) {
    && Holds(s.cache, streams(search.scripts), search.from, search.to)
    && forall i :: 0 <= i < |s.calls| ==> CallOk(streams, s.calls[i])
  }

  lemma NextKeepsInv(s: System, streams: Streams, search: Search, a: Action)
    requires Inv(s, streams, search)
    ensures Inv(Next(s, streams, a), streams, SearchBy(s, search, a))
  {
  }

  lemma {:induction false} RunKeepsInv(s: System, streams: Streams, search: Search, acts: seq<Action>)
    requires Inv(s, streams, search)
    ensures Inv(Run(s, streams, acts), streams, LastSearch(s, streams, acts, search))
    decreases |acts|
  {
    if acts != [] {
      NextKeepsInv(s, streams, search, acts[0]);
      RunKeepsInv(Next(s, streams, acts[0]), streams, SearchBy(s, search, acts[0]), acts[1..]);
    }
  }

  /** After every run, for any scripts: a call that is answered next reports what the last search stored
      found, if it is a hit, and what its own search found otherwise. A hit is right and complete exactly if
      that search, of whichever scripts, has the same changes of the window as the call's own stream. */
  lemma AnsweredFromSearch(
    s: System, streams: Streams, search: Search, acts: seq<Action>, i: nat, cacheSize: nat, latest: Option<nat>)
    requires Inv(s, streams, search) && i < |Run(s, streams, acts).calls|
    requires
      var t := Run(s, streams, acts);
      !t.calls[i].stage.Done? && Next(t, streams, Advance(i, cacheSize, latest)).calls[i].stage.Done?
    ensures
      var t, last := Run(s, streams, acts), LastSearch(s, streams, acts, search);
      var x, report := t.calls[i], Next(t, streams, Advance(i, cacheSize, latest)).calls[i].stage.report;
      var own := if x.stage.Loaded? then Search(x.query.scripts, x.query.since, x.stage.to) else last;
      report == Updates(InRange(InRange(streams(own.scripts), own.from, own.to), x.query.since, x.query.upTo))
  {
    RunKeepsInv(s, streams, search, acts);
    var t := Run(s, streams, acts);
    assert CallOk(streams, t.calls[i]);
  }

  ghost predicate Reachable(s: System, streams: Streams, t: System) {
    exists acts :: Run(s, streams, acts) == t
  }

  lemma {:induction false} RunSnoc(s: System, streams: Streams, acts: seq<Action>, a: Action)
    ensures Run(s, streams, acts + [a]) == Next(Run(s, streams, acts), streams, a)
    decreases |acts|
  {
    if acts == [] {
      assert acts + [a] == [a];
      assert [a][1..] == [];
    } else {
      RunSnoc(Next(s, streams, acts[0]), streams, acts[1..], a);
      assert (acts + [a])[1..] == acts[1..] + [a];
    }
  }

  lemma ReachNext(s: System, streams: Streams, t: System, a: Action)
    requires Reachable(s, streams, t)
    ensures Reachable(s, streams, Next(t, streams, a))
  {
    var acts :| Run(s, streams, acts) == t;
    RunSnoc(s, streams, acts, a);
  }

  /** Call `i` makes a step. */
  lemma StepAt(s: System, streams: Streams, k: Cache, xs: seq<Call>, i: nat)
    requires i < |xs| && Reachable(s, streams, System(k, xs))
    ensures
      var (k', stage) := StepCall(k, streams, xs[i], 0, None);
      Reachable(s, streams, System(k', xs[i := xs[i].(stage := stage)]))
  {
    ReachNext(s, streams, System(k, xs), Advance(i, 0, None));
  }

  /** Changes stored late stay under the wrong label: call 0 finds changes up to its reference, call 1 sets
      other scripts, call 0 stores, and call 1 is told the changes of the scripts of call 0. */
  lemma LateChangesMislabelled(k: Cache, streams: Streams, a: Scripts, b: Scripts, upTo: nat)
    requires a != b && !Serves(SetScripts(k, a), None, upTo)
    requires InRange(streams(a), None, upTo) != [] && Last(InRange(streams(a), None, upTo)).block == upTo
    ensures exists t ::
      && Reachable(System(k, [Call(Query(a, None, upTo), Begin), Call(Query(b, None, upTo), Begin)]), streams, t)
      && |t.calls| == 2
      && t.calls[1] == Call(Query(b, None, upTo), Done(Updates(InRange(InRange(streams(a), None, upTo), None, upTo))))
  {
    var p, q, found := Query(a, None, upTo), Query(b, None, upTo), InRange(streams(a), None, upTo);
    var ka := SetScripts(k, a);
    var kb := SetScripts(ka, b);
    var xs := [Call(p, Begin), Call(q, Begin)];
    var s := System(k, xs);
    assert Run(s, streams, []) == s;
    StepAt(s, streams, k, xs, 0);
    xs := xs[0 := Call(p, Scripted)];
    StepAt(s, streams, ka, xs, 0);
    xs := xs[0 := Call(p, Missed)];
    StepAt(s, streams, ka, xs, 0);
    xs := xs[0 := Call(p, Loaded(found, upTo))];
    StepAt(s, streams, ka, xs, 1);
    xs := xs[1 := Call(q, Scripted)];
    StepAt(s, streams, kb, xs, 0);
    xs := xs[0 := Call(p, Done(Updates(InRange(found, None, upTo))))];
    StepAt(s, streams, Store(kb, found), xs, 1);
  }
}
