/** The two lock orders around approval requests (apps/api/src/approvals/approval-ask.service.ts, `close`). */
module LockOrder {

  // Deciders and executions hold requests and then wait for the job; a close holds the job and never waits for a
  // request.
  // An execution holds its own request; when its command decides another request it locks that one too, inside the
  // same transaction. The request a command decides was there before the request that asked for the command, so the
  // order in which requests were raised, backwards, is one that every engine keeps to.

  import opened Wrappers

  /** A decide or an execution: it takes its requests, the outer before the inner, then the job its command may need. */
  datatype EnginePc = WantRows(next: nat) | WantJob | Working | EngineDone

  /** A fleet transaction that ends a job and closes the requests it asked for, one after the other. */
  datatype CloserPc = CloserWantJob | Closing(next: nat) | CloserDone

  datatype Party =
    | Engine(rows: seq<nat>, job: Option<nat>, at: EnginePc)
    | Closer(ownJob: nat, rows: seq<nat>, pc: CloserPc)

  /** Who holds each locked row and each locked job. */
  datatype State = State(parties: seq<Party>, rowOf: map<nat, nat>, jobOf: map<nat, nat>)

  predicate Finished(p: Party) {
    match p
    case Engine(_, _, at) => at == EngineDone
    case Closer(_, _, pc) => pc == CloserDone
  }

  /** Nobody else holds it. */
  predicate IsFree(locks: map<nat, nat>, k: nat, p: nat) {
    k in locks ==> locks[k] == p
  }

  /**
   Whether p can take its next step. `skips` is how `close` takes a row: with it a held row is passed over,
   without it the closer waits for the row like everyone else.
   */
  predicate CanStep(skips: bool, s: State, p: nat) {
    p < |s.parties|
    && match s.parties[p]
       case Engine(rows, job, at) =>
         (match at
          case WantRows(next) => next >= |rows| || IsFree(s.rowOf, rows[next], p)
          case WantJob => job.Some? && job.value !in s.jobOf
          case Working => true
          case EngineDone => false)
       case Closer(ownJob, rows, pc) =>
         (match pc
          case CloserWantJob => ownJob !in s.jobOf
          case Closing(next) => next >= |rows| || skips || IsFree(s.rowOf, rows[next], p)
          case CloserDone => false)
  }

  function Free(locks: map<nat, nat>, p: nat): map<nat, nat> {
    map k | k in locks && locks[k] != p :: locks[k]
  }

  function Step(skips: bool, s: State, p: nat): State
    requires CanStep(skips, s, p)
  {
    match s.parties[p]
    case Engine(rows, job, at) =>
      (match at
       case WantRows(next) =>
         if next >= |rows| then s.(parties := s.parties[p := Engine(rows, job, if job.Some? then WantJob else Working)])
         else s.(parties := s.parties[p := Engine(rows, job, WantRows(next + 1))], rowOf := s.rowOf[rows[next] := p])
       case WantJob =>
         s.(parties := s.parties[p := Engine(rows, job, Working)], jobOf := s.jobOf[job.value := p])
       case Working =>
         State(s.parties[p := Engine(rows, job, EngineDone)], Free(s.rowOf, p), Free(s.jobOf, p))
       case EngineDone => s)
    case Closer(ownJob, rows, pc) =>
      (match pc
       case CloserWantJob =>
         s.(parties := s.parties[p := Closer(ownJob, rows, Closing(0))], jobOf := s.jobOf[ownJob := p])
       case Closing(next) =>
         if next >= |rows| then
           State(s.parties[p := Closer(ownJob, rows, CloserDone)], Free(s.rowOf, p), Free(s.jobOf, p))
         else
           s.(parties := s.parties[p := Closer(ownJob, rows, Closing(next + 1))],
              rowOf := if rows[next] in s.rowOf then s.rowOf else s.rowOf[rows[next] := p])
       case CloserDone => s)
  }

  ghost predicate Fresh(s: State) {
    && s.rowOf == map[] && s.jobOf == map[]
    && forall p :: 0 <= p < |s.parties| ==>
         match s.parties[p]
         case Engine(_, _, at) => at == WantRows(0)
         case Closer(_, _, pc) => pc == CloserWantJob
  }

  /** Where an order of steps leads; a party that cannot step is passed over. */
  function Run(skips: bool, from: State, steps: seq<nat>): State {
    if steps == [] then from else
      var s := Run(skips, from, steps[..|steps|-1]);
      if CanStep(skips, s, steps[|steps|-1]) then Step(skips, s, steps[|steps|-1]) else s
  }

  /** A row is held by a party past that row lock; a job by an engine at work or a closer under way. */
  ghost predicate Inv(s: State) {
    && RowsHeld(s) && JobsHeld(s)
    && (forall p :: 0 <= p < |s.parties| && s.parties[p].Engine? && s.parties[p].at == WantJob ==> s.parties[p].job.Some?)
  }

  ghost predicate RowsHeld(s: State) {
    forall r :: r in s.rowOf ==> s.rowOf[r] < |s.parties| && MayHoldRow(s.parties[s.rowOf[r]], r)
  }

  ghost predicate JobsHeld(s: State) {
    forall j :: j in s.jobOf ==> s.jobOf[j] < |s.parties| && MayHoldJob(s.parties[s.jobOf[j]], j)
  }

  predicate MayHoldRow(p: Party, r: nat) {
    match p
    case Engine(rows, _, at) => if at.WantRows? then at.next <= |rows| && r in rows[..at.next] else r in rows && !at.EngineDone?
    case Closer(_, _, pc) => pc.Closing?
  }

  predicate MayHoldJob(p: Party, j: nat) {
    match p
    case Engine(_, job, at) => job == Some(j) && at == Working
    case Closer(ownJob, _, pc) => ownJob == j && pc.Closing?
  }

  lemma StepKeeps(skips: bool, s: State, p: nat)
    requires Inv(s) && CanStep(skips, s, p)
    ensures Inv(Step(skips, s, p))
  {
    RowsStay(skips, s, p);
    JobsStay(skips, s, p);
    hide RowsHeld, JobsHeld;
  }

  lemma RowsStay(skips: bool, s: State, p: nat)
    requires RowsHeld(s) && CanStep(skips, s, p)
    ensures RowsHeld(Step(skips, s, p))
  {
    var t := Step(skips, s, p);
    forall r | r in t.rowOf ensures t.rowOf[r] < |t.parties| && MayHoldRow(t.parties[t.rowOf[r]], r) {
      if t.rowOf[r] != p { assert r in s.rowOf && s.rowOf[r] == t.rowOf[r]; }
    }
  }

  lemma JobsStay(skips: bool, s: State, p: nat)
    requires JobsHeld(s) && CanStep(skips, s, p)
    ensures JobsHeld(Step(skips, s, p))
  {
    var t := Step(skips, s, p);
    forall j | j in t.jobOf ensures t.jobOf[j] < |t.parties| && MayHoldJob(t.parties[t.jobOf[j]], j) {
      if t.jobOf[j] != p { assert j in s.jobOf && s.jobOf[j] == t.jobOf[j]; }
    }
  }

  lemma {:induction false} RunKeeps(skips: bool, from: State, steps: seq<nat>)
    requires Fresh(from)
    ensures Inv(Run(skips, from, steps))
    decreases |steps|
  {
    if steps != [] {
      RunKeeps(skips, from, steps[..|steps|-1]);
      var s := Run(skips, from, steps[..|steps|-1]);
      if CanStep(skips, s, steps[|steps|-1]) { StepKeeps(skips, s, steps[|steps|-1]); }
    }
  }

  /** Every engine takes its requests in one order. */
  ghost predicate Ordered(parties: seq<Party>, order: nat -> nat) {
    forall p, i, j :: 0 <= p < |parties| && parties[p].Engine? && 0 <= i < j < |parties[p].rows| ==>
      order(parties[p].rows[i]) < order(parties[p].rows[j])
  }

  lemma {:induction false} RunKeepsOrder(skips: bool, from: State, steps: seq<nat>, order: nat -> nat)
    requires Ordered(from.parties, order)
    ensures Ordered(Run(skips, from, steps).parties, order) && |Run(skips, from, steps).parties| == |from.parties|
    decreases |steps|
  {
    if steps != [] { RunKeepsOrder(skips, from, steps[..|steps|-1], order); }
  }

  /** The held requests that come no earlier in the order. */
  ghost function HeldFrom(s: State, order: nat -> nat, least: nat): set<nat> {
    set r | r in s.rowOf && order(r) >= least
  }

  /** Behind an engine that waits for a request there is, request by request, one that does not. */
  lemma {:induction false} NotWaitingForRow(s: State, order: nat -> nat, p: nat) returns (q: nat)
    requires Inv(s) && Ordered(s.parties, order) && p < |s.parties| && !Finished(s.parties[p])
    ensures q < |s.parties| && !Finished(s.parties[q])
    ensures CanStep(true, s, q) || !(s.parties[q].Engine? && s.parties[q].at.WantRows?)
    decreases if s.parties[p].Engine? && s.parties[p].at.WantRows? && s.parties[p].at.next < |s.parties[p].rows|
              then 1 + |HeldFrom(s, order, order(s.parties[p].rows[s.parties[p].at.next]))| else 0
  {
    q := p;
    if !CanStep(true, s, p) && s.parties[p].Engine? && s.parties[p].at.WantRows? {
      var row := s.parties[p].rows[s.parties[p].at.next];
      var holder := s.rowOf[row];
      assert MayHoldRow(s.parties[holder], row);
      HolderComesLater(s, order, row);
      q := NotWaitingForRow(s, order, holder);
    }
  }

  lemma HolderComesLater(s: State, order: nat -> nat, row: nat)
    requires Inv(s) && Ordered(s.parties, order) && row in s.rowOf
    ensures var h := s.parties[s.rowOf[row]];
      h.Engine? && h.at.WantRows? && h.at.next < |h.rows| ==>
        |HeldFrom(s, order, order(h.rows[h.at.next]))| < |HeldFrom(s, order, order(row))|
  {
    var h := s.parties[s.rowOf[row]];
    if h.Engine? && h.at.WantRows? && h.at.next < |h.rows| {
      var wanted := h.rows[h.at.next];
      var i :| 0 <= i < h.at.next && h.rows[..h.at.next][i] == row;
      assert order(h.rows[i]) < order(h.rows[h.at.next]);
      assert row in HeldFrom(s, order, order(row)) && row !in HeldFrom(s, order, order(wanted));
      Fewer(HeldFrom(s, order, order(wanted)), HeldFrom(s, order, order(row)));
    }
  }

  lemma Fewer(a: set<nat>, b: set<nat>)
    requires a < b
    ensures |a| < |b|
  {
    assert b == a + (b - a) && b - a != {};
  }

  /** With the skip, some unfinished party can always step: the two lock orders never deadlock. */
  lemma NeverStuck(from: State, steps: seq<nat>, order: nat -> nat, unfinished: nat) returns (p: nat)
    requires Fresh(from) && Ordered(from.parties, order)
    requires var s := Run(true, from, steps); unfinished < |s.parties| && !Finished(s.parties[unfinished])
    ensures CanStep(true, Run(true, from, steps), p) && !Finished(Run(true, from, steps).parties[p])
  {
    var s := Run(true, from, steps);
    RunKeeps(true, from, steps);
    RunKeepsOrder(true, from, steps, order);
    hide Run;
    p := NotWaitingForRow(s, order, unfinished);
    // Whoever holds a job is at work or closing, and waits for nothing.
    if !CanStep(true, s, p) {
      var job := if s.parties[p].Engine? then s.parties[p].job.value else s.parties[p].ownJob;
      p := s.jobOf[job];
    }
  }

  function Left(p: Party): nat {
    match p
    case Engine(rows, _, at) =>
      (match at
       case WantRows(next) => if next < |rows| then |rows| - next + 3 else 3
       case WantJob => 2
       case Working => 1
       case EngineDone => 0)
    case Closer(_, rows, pc) =>
      (match pc
       case CloserWantJob => |rows| + 2
       case Closing(next) => if next < |rows| then |rows| - next + 1 else 1
       case CloserDone => 0)
  }

  function Work(parties: seq<Party>): nat {
    if parties == [] then 0 else Work(parties[..|parties|-1]) + Left(parties[|parties|-1])
  }

  lemma {:induction false} WorkUpdate(parties: seq<Party>, p: nat, x: Party)
    requires p < |parties|
    ensures Work(parties[p := x]) == Work(parties) - Left(parties[p]) + Left(x)
    decreases |parties|
  {
    var n := |parties| - 1;
    if p < n {
      WorkUpdate(parties[..n], p, x);
      assert parties[p := x][..n] == parties[..n][p := x];
    } else {
      assert parties[p := x][..n] == parties[..n];
    }
  }

  /** And every step leaves less to do, so every order of steps ends with everyone finished. */
  lemma EveryStepIsProgress(skips: bool, s: State, p: nat)
    requires CanStep(skips, s, p)
    ensures Work(Step(skips, s, p).parties) < Work(s.parties)
  {
    var t := Step(skips, s, p);
    WorkUpdate(s.parties, p, t.parties[p]);
    assert t.parties == s.parties[p := t.parties[p]];
  }

  /** Were the close to wait for the row, one decider and one closer could wait for each other. */
  lemma WaitingCloseCanDeadlock() returns (from: State, steps: seq<nat>)
    ensures Fresh(from) && Ordered(from.parties, r => r)
    ensures var s := Run(false, from, steps);
      && |s.parties| == 2 && !Finished(s.parties[0]) && !Finished(s.parties[1])
      && !CanStep(false, s, 0) && !CanStep(false, s, 1)
  {
    from := Crossing(WantRows(0), CloserWantJob, map[], map[]);
    assert Run(false, from, []) == from;
    CrossingSteps();
    hide Run, Step;
    Then(false, from, [], 0);
    Then(false, from, [] + [0], 0);
    Then(false, from, [] + [0] + [0], 1);
    steps := [] + [0] + [0] + [1];
    hide Fresh, Free;
  }

  /** A decider of request 7 that needs job 5, and a closer of that job that closes the request. */
  function Crossing(at: EnginePc, pc: CloserPc, rowOf: map<nat, nat>, jobOf: map<nat, nat>): State {
    State([Engine([7], Some(5), at), Closer(5, [7], pc)], rowOf, jobOf)
  }

  lemma CrossingSteps()
    ensures Step(false, Crossing(WantRows(0), CloserWantJob, map[], map[]), 0) == Crossing(WantRows(1), CloserWantJob, map[7 := 0], map[])
    ensures Step(false, Crossing(WantRows(1), CloserWantJob, map[7 := 0], map[]), 0) == Crossing(WantJob, CloserWantJob, map[7 := 0], map[])
    ensures Step(false, Crossing(WantJob, CloserWantJob, map[7 := 0], map[]), 1) == Crossing(WantJob, Closing(0), map[7 := 0], map[5 := 1])
  {
  }

  lemma Then(skips: bool, from: State, steps: seq<nat>, p: nat)
    ensures Run(skips, from, steps + [p])
      == var s := Run(skips, from, steps); if CanStep(skips, s, p) then Step(skips, s, p) else s
  {
    assert (steps + [p])[..|steps|] == steps;
    hide Step, CanStep;
  }

  /** The order is needed: two engines that take two requests crosswise wait for each other. */
  lemma CrossedRowsDeadlock() returns (from: State, steps: seq<nat>)
    ensures Fresh(from) && forall order :: !Ordered(from.parties, order)
    ensures var s := Run(true, from, steps);
      && |s.parties| == 2 && !Finished(s.parties[0]) && !Finished(s.parties[1])
      && !CanStep(true, s, 0) && !CanStep(true, s, 1)
  {
    from := State([Engine([7, 8], None, WantRows(0)), Engine([8, 7], None, WantRows(0))], map[], map[]);
    steps := [0, 1];
    assert steps[..1] == [0] && [0][..0] == [];
    assert Run(true, from, []) == from;
    assert Run(true, from, [0]) == State([Engine([7, 8], None, WantRows(1)), Engine([8, 7], None, WantRows(0))], map[7 := 0], map[]);
    assert Run(true, from, steps)
      == State([Engine([7, 8], None, WantRows(1)), Engine([8, 7], None, WantRows(1))], map[7 := 0, 8 := 1], map[]);
    var x, y := from.parties[0].rows, from.parties[1].rows;
    forall order ensures Ordered(from.parties, order) ==> order(x[0]) < order(x[1]) && order(y[0]) < order(y[1]) { }
  }
}
