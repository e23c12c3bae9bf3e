/** The per-request queue of executions (apps/api/src/approvals/approval-execution.service.ts, `serialised`). */
module SerialQueue {

  // Each call is chained on the tail of the call before it, and a map holds the tail of each request's last call.
  // Calls are numbered in arrival order. A call waits for the one it is chained on, runs, settles (its tail settles
  // with it, whatever the outcome) and, one turn later, returns through its `finally`.
  // Calls for different ids share the map and nothing else.

  import opened Wrappers

  datatype Phase = Waiting | Running | Settled | Returned

  datatype Call = Call(id: string, previous: Option<nat>, phase: Phase)

  datatype State = State(calls: seq<Call>, running: map<string, nat>)

  datatype Event = Arrive(id: string) | Start(n: nat) | Settle(n: nat, fulfilled: bool) | Return(n: nat)

  const Init := State([], map[])

  predicate Over(c: Call) {
    c.phase == Settled || c.phase == Returned
  }

  predicate Enabled(s: State, e: Event) {
    match e
    case Arrive(_) => true
    case Start(n) => n < |s.calls| && s.calls[n].phase == Waiting
        && (s.calls[n].previous.Some? ==> s.calls[n].previous.value < |s.calls| && Over(s.calls[s.calls[n].previous.value]))
    case Settle(n, _) => n < |s.calls| && s.calls[n].phase == Running
    case Return(n) => n < |s.calls| && s.calls[n].phase == Settled
  }

  function Step(s: State, e: Event): State {
    if !Enabled(s, e) then s else
      match e
      case Arrive(id) =>
        State(s.calls + [Call(id, if id in s.running then Some(s.running[id]) else None, Waiting)],
              s.running[id := |s.calls|])
      case Start(n) => s.(calls := s.calls[n := s.calls[n].(phase := Running)])
      case Settle(n, _) => s.(calls := s.calls[n := s.calls[n].(phase := Settled)])
      case Return(n) =>
        var id := s.calls[n].id;
        State(s.calls[n := s.calls[n].(phase := Returned)],
              if id in s.running && s.running[id] == n then s.running - {id} else s.running)
  }

  function Run(events: seq<Event>): State {
    if events == [] then Init else Step(Run(events[..|events|-1]), events[|events|-1])
  }

  // ---------------------------------------------------------------------------------------------
  // The invariant
  // ---------------------------------------------------------------------------------------------

  /** The map holds the last call of each id it holds, and one that has not returned. */
  ghost predicate TailsOk(s: State) {
    && (forall id :: id in s.running ==>
          s.running[id] < |s.calls| && s.calls[s.running[id]].id == id && s.calls[s.running[id]].phase != Returned)
    && (forall n :: 0 <= n < |s.calls| && s.calls[n].id in s.running ==> n <= s.running[s.calls[n].id])
    && (forall n :: 0 <= n < |s.calls| && s.calls[n].id !in s.running ==> Over(s.calls[n]))
  }

  /** A call is chained on the one before it for its id; with nothing to chain on, everything before it was over. */
  ghost predicate ChainsOk(s: State) {
    forall m, n :: 0 <= m < n < |s.calls| && s.calls[m].id == s.calls[n].id ==>
      match s.calls[n].previous
      case None => Over(s.calls[m])
      case Some(p) => m <= p < n && s.calls[p].id == s.calls[n].id
  }

  ghost predicate PreviousOk(s: State) {
    forall n :: 0 <= n < |s.calls| && s.calls[n].previous.Some? ==>
      s.calls[n].previous.value < n && s.calls[s.calls[n].previous.value].id == s.calls[n].id
  }

  /** What has started had everything before it over. */
  ghost predicate InOrder(s: State) {
    forall m, n :: 0 <= m < n < |s.calls| && s.calls[m].id == s.calls[n].id && s.calls[n].phase != Waiting ==> Over(s.calls[m])
  }

  ghost predicate Inv(s: State) {
    TailsOk(s) && ChainsOk(s) && PreviousOk(s) && InOrder(s)
  }

  /** t is s with one more call at the end. */
  ghost predicate Arrives(s: State, t: State, id: string) {
    && |t.calls| == |s.calls| + 1
    && (forall n :: 0 <= n < |s.calls| ==> t.calls[n] == s.calls[n])
    && t.calls[|s.calls|] == Call(id, if id in s.running then Some(s.running[id]) else None, Waiting)
    && t.running == s.running[id := |s.calls|]
  }

  /** t is s with call n in another phase. */
  ghost predicate Turns(s: State, t: State, n: nat, phase: Phase) {
    && n < |s.calls| == |t.calls|
    && (forall k :: 0 <= k < |s.calls| ==> t.calls[k].id == s.calls[k].id && t.calls[k].previous == s.calls[k].previous)
    && (forall k :: 0 <= k < |s.calls| ==> t.calls[k].phase == if k == n then phase else s.calls[k].phase)
  }

  lemma ArriveKeeps(s: State, t: State, id: string)
    requires Inv(s) && Arrives(s, t, id)
    ensures Inv(t)
  {
    hide TailsOk, ChainsOk, PreviousOk, InOrder;
    ArriveChains(s, t, id);
    ArriveTails(s, t, id);
    ArrivePrevious(s, t, id);
    ArriveOrder(s, t, id);
  }

  lemma ArrivePrevious(s: State, t: State, id: string)
    requires TailsOk(s) && PreviousOk(s) && Arrives(s, t, id)
    ensures PreviousOk(t)
  {
    TailHeld(s, id);
    hide TailsOk;
    forall n | 0 <= n < |t.calls| && t.calls[n].previous.Some?
      ensures t.calls[n].previous.value < n && t.calls[t.calls[n].previous.value].id == t.calls[n].id
    {
      if n < |s.calls| { assert t.calls[n] == s.calls[n]; }
    }
  }

  /** The call held for an id is a call of that id. */
  lemma TailHeld(s: State, id: string)
    requires TailsOk(s)
    ensures id in s.running ==> s.running[id] < |s.calls| && s.calls[s.running[id]].id == id
  {
  }

  lemma ArriveOrder(s: State, t: State, id: string)
    requires InOrder(s) && Arrives(s, t, id)
    ensures InOrder(t)
  {
  }

  lemma ArriveTails(s: State, t: State, id: string)
    requires TailsOk(s) && Arrives(s, t, id)
    ensures TailsOk(t)
  {
  }

  lemma ArriveChains(s: State, t: State, id: string)
    requires TailsOk(s) && ChainsOk(s) && Arrives(s, t, id)
    ensures ChainsOk(t)
  {
  }

  /** A call that may start has everything before it over. */
  lemma ReadyIsNext(s: State, n: nat)
    requires Inv(s) && Enabled(s, Start(n))
    ensures forall m :: 0 <= m < n && s.calls[m].id == s.calls[n].id ==> Over(s.calls[m])
  {
    hide TailsOk;
    forall m | 0 <= m < n && s.calls[m].id == s.calls[n].id ensures Over(s.calls[m]) {
      if s.calls[n].previous.Some? {
        var p := s.calls[n].previous.value;
        assert m <= p && s.calls[p].id == s.calls[n].id;
        assert s.calls[p].phase != Waiting;
      }
    }
  }

  /** What one call's turn keeps, given that what was over stays over. */
  lemma TurnKeeps(s: State, t: State, n: nat, phase: Phase)
    requires Inv(s) && Turns(s, t, n, phase) && (Over(s.calls[n]) ==> phase == Returned)
    requires phase != Waiting ==> forall m :: 0 <= m < n && s.calls[m].id == s.calls[n].id ==> Over(s.calls[m])
    ensures ChainsOk(t) && PreviousOk(t) && InOrder(t)
  {
    hide TailsOk;
    assert forall k :: 0 <= k < |s.calls| && Over(s.calls[k]) ==> Over(t.calls[k]);
  }

  lemma TurnTails(s: State, t: State, n: nat, phase: Phase)
    requires TailsOk(s) && Turns(s, t, n, phase) && (Over(s.calls[n]) ==> phase == Returned)
    requires phase == Running ==> s.calls[n].phase == Waiting
    requires phase != Returned && t.running == s.running
    ensures TailsOk(t)
  {
  }

  lemma ReturnTails(s: State, t: State, n: nat)
    requires TailsOk(s) && Turns(s, t, n, Returned) && s.calls[n].phase == Settled
    requires forall m :: 0 <= m < n && s.calls[m].id == s.calls[n].id ==> Over(s.calls[m])
    requires t.running ==
      if s.calls[n].id in s.running && s.running[s.calls[n].id] == n then s.running - {s.calls[n].id} else s.running
    ensures TailsOk(t)
  {
  }

  lemma StepKeeps(s: State, e: Event)
    requires Inv(s) && Enabled(s, e)
    ensures Inv(Step(s, e))
  {
    var t := Step(s, e);
    match e
    case Arrive(id) =>
      assert Arrives(s, t, id);
      hide Inv, Step;
      ArriveKeeps(s, t, id);
    case Start(n) =>
      ReadyIsNext(s, n);
      assert Turns(s, t, n, Running);
      hide TailsOk, ChainsOk, PreviousOk, InOrder, Step;
      TurnKeeps(s, t, n, Running);
      TurnTails(s, t, n, Running);
    case _ => EndKeeps(s, e);
  }

  lemma EndKeeps(s: State, e: Event)
    requires Inv(s) && Enabled(s, e) && (e.Settle? || e.Return?)
    ensures Inv(Step(s, e))
  {
    var t := Step(s, e);
    var phase := if e.Settle? then Settled else Returned;
    assert Turns(s, t, e.n, phase);
    assert forall m :: 0 <= m < e.n && s.calls[m].id == s.calls[e.n].id ==> Over(s.calls[m]);
    hide TailsOk, ChainsOk, PreviousOk, InOrder;
    TurnKeeps(s, t, e.n, phase);
    if e.Settle? { TurnTails(s, t, e.n, Settled); } else { ReturnTails(s, t, e.n); }
  }

  lemma {:induction false} RunKeeps(events: seq<Event>)
    ensures Inv(Run(events))
    decreases |events|
  {
    if events != [] {
      var before, e := Run(events[..|events|-1]), events[|events|-1];
      RunKeeps(events[..|events|-1]);
      hide Inv;
      if Enabled(before, e) { StepKeeps(before, e); }
    }
  }

  // ---------------------------------------------------------------------------------------------
  // What callers rely on
  // ---------------------------------------------------------------------------------------------

  /** Calls for one id run one at a time, in arrival order, whatever each one's outcome. */
  lemma OneAtATimeInOrder(events: seq<Event>, m: nat, n: nat)
    requires var s := Run(events);
      m < n < |s.calls| && s.calls[m].id == s.calls[n].id && s.calls[n].phase != Waiting
    ensures Over(Run(events).calls[m])
  {
    RunKeeps(events);
  }

  /**
   Nothing but earlier calls for the same id holds a call back: among the calls for an id that are not over, the
   first is running or can start at once.
   */
  lemma OnlySameIdBlocks(events: seq<Event>, n: nat)
    requires var s := Run(events);
      n < |s.calls| && !Over(s.calls[n])
      && forall m :: 0 <= m < n && s.calls[m].id == s.calls[n].id ==> Over(s.calls[m])
    ensures Run(events).calls[n].phase == Running || Enabled(Run(events), Start(n))
  {
    RunKeeps(events);
  }

  /** The map holds an id only while a call for it has not returned. */
  lemma MapHoldsOnlyUnfinished(events: seq<Event>, id: string)
    ensures id in Run(events).running ==>
      exists n :: 0 <= n < |Run(events).calls| && Run(events).calls[n].id == id && Run(events).calls[n].phase != Returned
  {
    RunKeeps(events);
  }

  // ---------------------------------------------------------------------------------------------
  // The queue itself
  // ---------------------------------------------------------------------------------------------

  class Queue {
    var running: map<string, nat>
    var calls: seq<Call>

    function Now(): State
      reads this
    {
      State(calls, running)
    }

    constructor ()
      ensures Now() == Init
    {
      running, calls := map[], [];
    }

    /** A call arrives: it takes the tail it finds, and its own tail replaces it at once. */
    method Serialise(id: string) returns (n: nat)
      modifies this
      ensures n == |old(calls)| && Now() == Step(old(Now()), Arrive(id))
    {
      var previous := if id in running then Some(running[id]) else None;
      n := |calls|;
      calls := calls + [Call(id, previous, Waiting)];
      running := running[id := n];
    }

    /** The `finally` of a settled call: it clears the map only if no later call has replaced its tail. */
    method Finally(n: nat)
      requires Enabled(Now(), Return(n))
      modifies this
      ensures Now() == Step(old(Now()), Return(n))
    {
      var id := calls[n].id;
      if id in running && running[id] == n { running := running - {id}; }
      calls := calls[n := calls[n].(phase := Returned)];
    }
  }
}
