/** The reconnecting event stream of a project (apps/web/lib/project-event-stream.ts): one event source, recovered
    through a session refresh and a backoff timer, with a window of accepted event ids. */
module EventStream {

  // What is outside the stream is part of the state: the event sources not closed yet, the refreshes in progress
  // and the armed timers. A closed event source fires nothing, a cleared timer does not fire, and a refresh always
  // gives an outcome.

  import opened Wrappers

  datatype Outcome = Ok | Unavailable | Unauthorized | Unknown

  const MAX_TERMINAL_FAILURES := 5
  const BACKOFF_CAP_MS := 30000
  const DEDUPE_WINDOW := 200

  function Pow2(n: nat): (p: nat)
    ensures p >= 1
  {
    if n == 0 then 1 else 2 * Pow2(n - 1)
  }

  function BackoffMs(attempt: nat): nat {
    var ms := 1000 * Pow2(attempt);
    if ms < BACKOFF_CAP_MS then ms else BACKOFF_CAP_MS
  }

  lemma {:induction false} Pow2Grows(n: nat)
    requires n >= 5
    ensures Pow2(n) >= 32
  {
    if n > 5 { Pow2Grows(n - 1); } else { assert Pow2(5) == 2 * Pow2(4) && Pow2(4) == 2 * Pow2(3) && Pow2(3) == 2 * Pow2(2); }
  }

  /** The wait doubles from one second on until the cap, which it reaches at the sixth attempt and never leaves. */
  lemma BackoffDoubles(attempt: nat)
    ensures BackoffMs(0) == 1000 && 1000 <= BackoffMs(attempt) <= BACKOFF_CAP_MS
    ensures BackoffMs(attempt + 1) == if attempt < 4 then 2 * BackoffMs(attempt) else BACKOFF_CAP_MS
  {
    if attempt >= 5 {
      Pow2Grows(attempt);
    } else {
      assert Pow2(1) == 2 && Pow2(2) == 4 && Pow2(3) == 8 && Pow2(4) == 16 && Pow2(5) == 32;
    }
  }

  // ---------------------------------------------------------------------------------------------
  // The steps
  // ---------------------------------------------------------------------------------------------

  datatype State = State(
    source: Option<nat>, timer: Option<nat>, stopped: bool, hadError: bool, failures: nat, authedFailures: nat, seen: seq<string>,
    alive: set<nat>, refreshes: map<nat, nat>, armed: map<nat, nat>, made: nat, delivered: seq<string>, resyncs: nat)

  datatype Event =
    | Opened(source: nat)
    | Message(source: nat, id: string)
    | Failed(source: nat, closed: bool)
    | Answered(refresh: nat, outcome: Outcome)
    | Fires(timer: nat)
    | Close

  predicate Enabled(s: State, ev: Event) {
    match ev
    case Opened(e) => e in s.alive
    case Message(e, _) => e in s.alive
    case Failed(e, _) => e in s.alive
    case Answered(r, _) => r in s.refreshes
    case Fires(t) => t in s.armed
    case Close => true
  }

  /** A new event source, unless the stream has stopped. */
  function Open(s: State): State {
    if s.stopped then s else s.(source := Some(s.made), alive := s.alive + {s.made}, made := s.made + 1)
  }

  /** The session is refreshed, or the stream gives up. */
  function Recover(s: State): State {
    if s.authedFailures >= MAX_TERMINAL_FAILURES then s.(stopped := true)
    else s.(failures := s.failures + 1, refreshes := s.refreshes[s.made := BackoffMs(s.failures)], made := s.made + 1)
  }

  function LastOf(ids: seq<string>, n: nat): (r: seq<string>)
    ensures |r| == if |ids| <= n then |ids| else n
  {
    if |ids| <= n then ids else ids[|ids|-n..]
  }

  function Next(s: State, ev: Event): State {
    match ev
    case Opened(_) =>
      s.(failures := 0, authedFailures := 0, hadError := false, resyncs := if s.hadError then s.resyncs + 1 else s.resyncs)
    case Message(_, id) =>
      if id in s.seen then s else s.(seen := LastOf(s.seen + [id], DEDUPE_WINDOW), delivered := s.delivered + [id])
    case Failed(e, closed) =>
      if s.stopped || !closed then s.(hadError := true)
      else Recover(s.(hadError := true, alive := s.alive - {e}, source := None))
    case Answered(r, outcome) =>
      var rest := s.(refreshes := s.refreshes - {r});
      if s.stopped || r !in s.refreshes then rest
      else if outcome.Unauthorized? || outcome.Unknown? then rest.(stopped := true)
      else rest.(authedFailures := if outcome.Ok? then s.authedFailures + 1 else s.authedFailures,
                 timer := Some(s.made), armed := s.armed[s.made := s.refreshes[r]], made := s.made + 1)
    case Fires(t) => Open(s.(armed := s.armed - {t}, timer := None))
    case Close =>
      s.(stopped := true,
         armed := if s.timer.Some? then s.armed - {s.timer.value} else s.armed, timer := None,
         alive := if s.source.Some? then s.alive - {s.source.value} else s.alive, source := None)
  }

  function Start(): State { Open(State(None, None, false, false, 0, 0, [], {}, map[], map[], 0, [], 0)) }

  /** The state after a run from the start. */
  function Run(trace: seq<Event>): State {
    if trace == [] then Start() else Next(Run(trace[..|trace|-1]), trace[|trace|-1])
  }

  /** Every step of the run could happen when it did. */
  ghost predicate Legal(trace: seq<Event>) {
    trace == [] || (Legal(trace[..|trace|-1]) && Enabled(Run(trace[..|trace|-1]), trace[|trace|-1]))
  }

  // ---------------------------------------------------------------------------------------------
  // One thing at a time
  // ---------------------------------------------------------------------------------------------

  /** An open source, a refresh in progress and an armed timer exclude one another, and one of them is there until the stream stops. */
  ghost predicate OneAtATime(s: State) {
    && s.alive == (if s.source.Some? then {s.source.value} else {})
    && s.armed.Keys == (if s.timer.Some? then {s.timer.value} else {})
    && |s.refreshes| <= 1
    && !(s.source.Some? && s.timer.Some?) && (s.refreshes != map[] ==> s.source.None? && s.timer.None?)
    && (s.stopped ==> s.source.None? && s.timer.None?)
    && (!s.stopped ==> s.source.Some? || s.timer.Some? || s.refreshes != map[])
  }

  lemma OneKey(m: map<nat, nat>, k: nat)
    requires |m| <= 1 && k in m
    ensures m - {k} == map[] && m.Keys == {k}
  {
    if j :| j in m && j != k {
      assert {j, k} <= m.Keys;
      CardWithin({j, k}, m.Keys);
    }
  }

  lemma CardWithin(s: set<nat>, t: set<nat>)
    requires s <= t
    ensures |s| <= |t|
  {
    assert t == s + (t - s);
  }

  lemma FailedKeepsOne(s: State, e: nat, closed: bool)
    requires OneAtATime(s) && e in s.alive
    ensures OneAtATime(Next(s, Failed(e, closed)))
  {
    assert s.refreshes == map[] && s.alive - {e} == {};
  }

  lemma AnsweredKeepsOne(s: State, r: nat, outcome: Outcome)
    requires OneAtATime(s) && r in s.refreshes
    ensures OneAtATime(Next(s, Answered(r, outcome)))
  {
    OneKey(s.refreshes, r);
    assert s.armed == map[] && s.alive == {};
  }

  lemma FiresKeepsOne(s: State, t: nat)
    requires OneAtATime(s) && t in s.armed
    ensures OneAtATime(Next(s, Fires(t)))
  {
    assert s.armed - {t} == map[] && s.refreshes == map[] && s.alive == {};
  }

  lemma CloseKeepsOne(s: State)
    requires OneAtATime(s)
    ensures OneAtATime(Next(s, Close))
  {
    assert s.timer.Some? ==> s.armed - {s.timer.value} == map[];
    assert s.source.Some? ==> s.alive - {s.source.value} == {};
  }

  lemma NextKeepsOne(s: State, ev: Event)
    requires OneAtATime(s) && Enabled(s, ev)
    ensures OneAtATime(Next(s, ev))
  {
    match ev
    case Opened(_) =>
    case Message(_, _) =>
    case Failed(e, closed) => FailedKeepsOne(s, e, closed);
    case Answered(r, outcome) => AnsweredKeepsOne(s, r, outcome);
    case Fires(t) => FiresKeepsOne(s, t);
    case Close => CloseKeepsOne(s);
  }

  lemma {:induction false} RunKeepsOne(trace: seq<Event>)
    requires Legal(trace)
    ensures OneAtATime(Run(trace))
  {
    if trace != [] {
      RunKeepsOne(trace[..|trace|-1]);
      NextKeepsOne(Run(trace[..|trace|-1]), trace[|trace|-1]);
    }
  }

  /** In every run there is at most one of an open source, a refresh in progress and an armed timer, and exactly one while the stream has not stopped. */
  lemma AtMostOne(trace: seq<Event>)
    requires Legal(trace)
    ensures var s := Run(trace);
      && |s.alive| + |s.refreshes| + |s.armed| <= 1
      && (!s.stopped ==> |s.alive| + |s.refreshes| + |s.armed| == 1)
      && (s.stopped ==> s.alive == {} && s.armed == map[])
  {
    RunKeepsOne(trace);
    var s := Run(trace);
    hide Run;
    assert |s.armed| == |s.armed.Keys|;
    assert s.refreshes != map[] ==> |s.refreshes| > 0;
  }

  // ---------------------------------------------------------------------------------------------
  // Why it stops
  // ---------------------------------------------------------------------------------------------

  /** The refreshes that found a live session since the last time a source opened. */
  ghost function AuthorisedSinceOpen(trace: seq<Event>): nat {
    if trace == [] then 0
    else
      var before, ev := trace[..|trace|-1], trace[|trace|-1];
      if ev.Opened? then 0
      else if ev.Answered? && ev.outcome.Ok? && !Run(before).stopped then AuthorisedSinceOpen(before) + 1
      else AuthorisedSinceOpen(before)
  }

  /** The recoveries begun since the last time a source opened. */
  ghost function FailuresSinceOpen(trace: seq<Event>): nat {
    if trace == [] then 0
    else
      var before, ev := trace[..|trace|-1], trace[|trace|-1];
      if ev.Opened? then 0
      else if ev.Failed? && ev.closed && !Run(before).stopped && AuthorisedSinceOpen(before) < MAX_TERMINAL_FAILURES
      then FailuresSinceOpen(before) + 1
      else FailuresSinceOpen(before)
  }

  lemma {:induction false} CountsAgree(trace: seq<Event>)
    requires Legal(trace)
    ensures Run(trace).authedFailures == AuthorisedSinceOpen(trace) && Run(trace).failures == FailuresSinceOpen(trace)
  {
    if trace != [] { CountsAgree(trace[..|trace|-1]); }
  }

  /** The step ends a stream that had not stopped: it is closed, the refresh was not allowed, or five allowed ones did not help. */
  ghost predicate Ends(before: seq<Event>, ev: Event) {
    Ending(ev, AuthorisedSinceOpen(before))
  }

  predicate Ending(ev: Event, authorised: nat) {
    || ev.Close?
    || (ev.Answered? && (ev.outcome.Unauthorized? || ev.outcome.Unknown?))
    || (ev.Failed? && ev.closed && authorised >= MAX_TERMINAL_FAILURES)
  }

  ghost predicate EndsAt(trace: seq<Event>, k: nat) {
    k < |trace| && Ends(trace[..k], trace[k])
  }

  /** A stream has stopped exactly when one of these steps has happened; an outage never ends it. */
  lemma {:induction false} StoppedExactlyWhen(trace: seq<Event>)
    requires Legal(trace)
    ensures Run(trace).stopped <==> exists k :: EndsAt(trace, k)
  {
    if trace != [] {
      var before, ev := trace[..|trace|-1], trace[|trace|-1];
      StoppedExactlyWhen(before);
      CountsAgree(before);
      assert Ends(before, ev) <==> EndsAt(trace, |before|);
      forall k: nat | k < |before| ensures EndsAt(trace, k) <==> EndsAt(before, k) { assert trace[..k] == before[..k]; }
      hide Run, Legal, Ends, AuthorisedSinceOpen;
      if Run(trace).stopped {
        if Run(before).stopped {
          var k :| EndsAt(before, k);
          assert EndsAt(trace, k);
        } else {
          assert EndsAt(trace, |before|);
        }
      }
      if k: nat :| EndsAt(trace, k) && k < |before| { assert EndsAt(before, k); }
    }
  }

  /** Once stopped the stream makes nothing more. */
  lemma StoppedMakesNothing(trace: seq<Event>, ev: Event)
    requires Legal(trace + [ev]) && Run(trace).stopped
    ensures var s, t := Run(trace), Run(trace + [ev]);
      t.stopped && t.made == s.made && t.delivered == s.delivered && t.resyncs == s.resyncs
  {
    assert (trace + [ev])[..|trace|] == trace;
    RunKeepsOne(trace);
  }

  /** Every wait, asked for or armed, is the backoff of the failure before it. */
  ghost predicate WaitsAs(s: State) {
    && (forall r :: r in s.refreshes ==> s.stopped || (s.failures > 0 && s.refreshes[r] == BackoffMs(s.failures - 1)))
    && (forall t :: t in s.armed ==> s.failures > 0 && s.armed[t] == BackoffMs(s.failures - 1))
  }

  lemma WaitStep(s: State, ev: Event)
    requires OneAtATime(s) && Enabled(s, ev) && WaitsAs(s)
    ensures WaitsAs(Next(s, ev))
  {
    hide BackoffMs;
    if s.refreshes != map[] && ev.Answered? { OneKey(s.refreshes, ev.refresh); }
  }

  lemma {:induction false} RunWaits(trace: seq<Event>)
    requires Legal(trace)
    ensures WaitsAs(Run(trace))
  {
    if trace == [] {
      assert Run(trace).armed == map[] && Run(trace).refreshes == map[];
    } else {
      var before, ev := trace[..|trace|-1], trace[|trace|-1];
      assert Run(trace) == Next(Run(before), ev) && Legal(before) && Enabled(Run(before), ev);
      hide *;
      RunWaits(before);
      RunKeepsOne(before);
      WaitStep(Run(before), ev);
    }
  }

  /** An armed timer waits for the backoff of the recoveries begun since the last open. */
  lemma WaitIsBackoff(trace: seq<Event>, t: nat)
    requires Legal(trace) && t in Run(trace).armed
    ensures FailuresSinceOpen(trace) > 0 && Run(trace).armed[t] == BackoffMs(FailuresSinceOpen(trace) - 1)
  {
    RunWaits(trace);
    CountsAgree(trace);
    hide Run, Legal, FailuresSinceOpen, BackoffMs;
  }

  // ---------------------------------------------------------------------------------------------
  // When the page is told to reload
  // ---------------------------------------------------------------------------------------------

  /** A source has failed, for good or not, since the last time one opened. */
  predicate FailedSinceOpen(trace: seq<Event>) {
    trace != [] && (trace[|trace|-1].Failed? || (!trace[|trace|-1].Opened? && FailedSinceOpen(trace[..|trace|-1])))
  }

  /** How often a source opened after such a failure. */
  function Reopenings(trace: seq<Event>): nat {
    if trace == [] then 0
    else
      var before := trace[..|trace|-1];
      Reopenings(before) + (if trace[|trace|-1].Opened? && FailedSinceOpen(before) then 1 else 0)
  }

  /** The page resyncs once for each opening that follows a failure, and at no other time. */
  lemma {:induction false} ResyncsAreReopenings(trace: seq<Event>)
    requires Legal(trace)
    ensures Run(trace).resyncs == Reopenings(trace) && Run(trace).hadError == FailedSinceOpen(trace)
  {
    if trace != [] { ResyncsAreReopenings(trace[..|trace|-1]); }
  }

  // ---------------------------------------------------------------------------------------------
  // No event twice
  // ---------------------------------------------------------------------------------------------

  ghost predicate NoneTwice(ids: seq<string>) {
    forall j, k :: 0 <= j < k < |ids| && k - j <= DEDUPE_WINDOW ==> ids[j] != ids[k]
  }

  lemma SeenStep(s: State, ev: Event)
    requires s.seen == LastOf(s.delivered, DEDUPE_WINDOW) && NoneTwice(s.delivered)
    ensures Next(s, ev).seen == LastOf(Next(s, ev).delivered, DEDUPE_WINDOW) && NoneTwice(Next(s, ev).delivered)
  {
    if ev.Message? && ev.id !in s.seen {
      hide LastOf, NoneTwice;
    }
  }

  lemma {:induction false} SeenIsWindow(trace: seq<Event>)
    requires Legal(trace)
    ensures Run(trace).seen == LastOf(Run(trace).delivered, DEDUPE_WINDOW) && NoneTwice(Run(trace).delivered)
  {
    if trace != [] {
      var before, ev := trace[..|trace|-1], trace[|trace|-1];
      assert Run(trace) == Next(Run(before), ev) && Legal(before);
      hide Run, Legal, Next, NoneTwice, LastOf;
      SeenIsWindow(before);
      SeenStep(Run(before), ev);
    } else {
      assert Run(trace).seen == [] && Run(trace).delivered == [];
    }
  }

  /** An event is delivered exactly when its id is not among the last accepted ones, so no id comes twice within the window. */
  lemma DeliveredExactlyWhen(trace: seq<Event>, source: nat, id: string)
    requires Legal(trace + [Message(source, id)])
    ensures var d := Run(trace).delivered;
      Run(trace + [Message(source, id)]).delivered
        == if exists k :: |d| - DEDUPE_WINDOW <= k < |d| && 0 <= k && d[k] == id then d else d + [id]
    ensures NoneTwice(Run(trace + [Message(source, id)]).delivered)
  {
    assert (trace + [Message(source, id)])[..|trace|] == trace;
    SeenIsWindow(trace);
    SeenIsWindow(trace + [Message(source, id)]);
  }

  // ---------------------------------------------------------------------------------------------
  // The stream itself
  // ---------------------------------------------------------------------------------------------

  class ProjectEventStream {
    var source: Option<nat>
    var timer: Option<nat>
    var stopped: bool
    var hadError: bool
    var failures: nat
    var authedFailures: nat
    var seen: seq<string>

    // What the stream has made and not given back, and what its handlers were told.
    var alive: set<nat>
    var refreshes: map<nat, nat>
    var armed: map<nat, nat>
    var made: nat
    var delivered: seq<string>
    var resyncs: nat

    function Now(): State
      reads this
    {
      State(source, timer, stopped, hadError, failures, authedFailures, seen, alive, refreshes, armed, made, delivered, resyncs)
    }

    constructor ()
      ensures Now() == Start()
    {
      source, timer, stopped, hadError, failures, authedFailures, seen := None, None, false, false, 0, 0, [];
      alive, refreshes, armed, made, delivered, resyncs := {}, map[], map[], 0, [], 0;
      new;
      OpenSource();
    }

    method OpenSource()
      modifies this
      ensures Now() == Open(old(Now()))
    {
      if stopped { return; }
      var es := made;
      made := made + 1;
      alive := alive + {es};
      source := Some(es);
    }

    method OnOpen(es: nat)
      requires es in alive
      modifies this
      ensures Now() == Next(old(Now()), Opened(es))
    {
      failures := 0;
      authedFailures := 0;
      if hadError {
        hadError := false;
        resyncs := resyncs + 1;
      }
    }

    method IsNew(id: string) returns (isNew: bool)
      modifies this`seen
      ensures isNew == (id !in old(seen))
      ensures seen == if isNew then LastOf(old(seen) + [id], DEDUPE_WINDOW) else old(seen)
    {
      if id in seen { return false; }
      seen := LastOf(seen + [id], DEDUPE_WINDOW);
      return true;
    }

    method OnMessage(es: nat, id: string)
      requires es in alive
      modifies this
      ensures Now() == Next(old(Now()), Message(es, id))
    {
      var accepted := IsNew(id);
      if accepted { delivered := delivered + [id]; }
    }

    method OnError(es: nat, closed: bool)
      requires es in alive
      modifies this
      ensures Now() == Next(old(Now()), Failed(es, closed))
    {
      hadError := true;
      if stopped || !closed { return; }
      alive := alive - {es};
      source := None;
      BeginRecovery();
    }

    /** The recovery up to the wait for the refresh. */
    method BeginRecovery()
      modifies this
      ensures Now() == Recover(old(Now()))
    {
      if authedFailures >= MAX_TERMINAL_FAILURES {
        stopped := true;
        return;
      }
      var delay := BackoffMs(failures);
      failures := failures + 1;
      refreshes := refreshes[made := delay];
      made := made + 1;
    }

    /** The recovery from the answer of the refresh on. */
    method OnRefreshed(refresh: nat, outcome: Outcome)
      requires refresh in refreshes
      modifies this
      ensures Now() == Next(old(Now()), Answered(refresh, outcome))
    {
      hide Open, Recover, LastOf;
      var delay := refreshes[refresh];
      refreshes := refreshes - {refresh};
      if stopped { return; }
      if outcome.Unauthorized? {
        stopped := true;
        return;
      }
      if outcome.Ok? {
        authedFailures := authedFailures + 1;
      } else if !outcome.Unavailable? {
        stopped := true;
        return;
      }
      armed := armed[made := delay];
      timer := Some(made);
      made := made + 1;
    }

    method OnTimer(handle: nat)
      requires handle in armed
      modifies this
      ensures Now() == Next(old(Now()), Fires(handle))
    {
      armed := armed - {handle};
      timer := None;
      OpenSource();
    }

    method CloseStream()
      modifies this
      ensures Now() == Next(old(Now()), Close)
    {
      stopped := true;
      if timer.Some? { armed := armed - {timer.value}; }
      timer := None;
      if source.Some? { alive := alive - {source.value}; }
      source := None;
    }
  }
}
