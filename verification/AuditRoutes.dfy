/** Where noted work goes in every run: what is lost, buffered or counted, and by which step. */
module AuditRoutes {

  // It is said without the functions that move the work.

  import opened Wrappers
  import opened AuditModel
  import opened AuditTheorems

  // ---------------------------------------------------------------------------------------------
  // Scopes around a scope
  // ---------------------------------------------------------------------------------------------

  /** A walk from s up to target, each step to the parent. */
  ghost predicate IsWalk(scopes: seq<Scope>, walk: seq<nat>, s: nat, target: nat)
    decreases |walk|
  {
    && walk != [] && walk[0] == s
    && if |walk| == 1 then s == target
       else s < |scopes| && scopes[s].parent == Some(walk[1]) && IsWalk(scopes, walk[1..], walk[1], target)
  }

  ghost predicate Around(scopes: seq<Scope>, s: nat, target: nat) {
    exists walk :: IsWalk(scopes, walk, s, target)
  }

  lemma {:induction false} WithinWalks(scopes: seq<Scope>, s: nat, target: nat) returns (walk: seq<nat>)
    requires IsWithin(scopes, s, target)
    ensures IsWalk(scopes, walk, s, target)
    decreases s
  {
    if s == target {
      walk := [s];
    } else {
      var rest := WithinWalks(scopes, scopes[s].parent.value, target);
      walk := [s] + rest;
      assert walk[1..] == rest;
    }
  }

  lemma {:induction false} WalksWithin(st: State, walk: seq<nat>, s: nat, target: nat)
    requires Shaped(st) && IsWalk(st.scopes, walk, s, target)
    ensures IsWithin(st.scopes, s, target)
    decreases |walk|
  {
    if |walk| > 1 { WalksWithin(st, walk[1..], walk[1], target); }
  }

  /** The scopes a scope is in are those its parents lead to. */
  lemma AroundExactly(st: State, s: nat, target: nat)
    requires Shaped(st)
    ensures Around(st.scopes, s, target) <==> IsWithin(st.scopes, s, target)
  {
    hide Shaped, IsWithin, IsWalk;
    if IsWithin(st.scopes, s, target) { var walk := WithinWalks(st.scopes, s, target); }
    if walk :| IsWalk(st.scopes, walk, s, target) { WalksWithin(st, walk, s, target); }
  }

  // ---------------------------------------------------------------------------------------------
  // What was opened
  // ---------------------------------------------------------------------------------------------

  /** The openings of scopes, in the order they took place. */
  ghost function Openings(events: seq<Event>): seq<Event> {
    if events == [] then []
    else
      var before, e := events[..|events|-1], events[|events|-1];
      if e.OpenScope? && Enabled(Run(before), e) then Openings(before) + [e] else Openings(before)
  }

  ghost function TallyOpenings(events: seq<Event>): seq<Event> {
    if events == [] then []
    else
      var before, e := events[..|events|-1], events[|events|-1];
      if e.OpenTally? && Enabled(Run(before), e) then TallyOpenings(before) + [e] else TallyOpenings(before)
  }

  /** Each scope and each tally is as it was opened. */
  ghost predicate AsOpened(st: State, scopes: seq<Event>, tallies: seq<Event>) {
    && |scopes| == |st.scopes| && |tallies| == |st.tallies|
    && (forall s :: 0 <= s < |scopes| ==> scopes[s].OpenScope? && ScopeAsOpened(st.scopes[s], scopes[s]))
    && (forall t :: 0 <= t < |tallies| ==> tallies[t].OpenTally? && TallyAsOpened(st.tallies[t], tallies[t]))
  }

  predicate ScopeAsOpened(scope: Scope, e: Event)
    requires e.OpenScope?
  {
    scope.surface == e.surface && scope.parent == if e.detach then None else e.ctx.scope
  }

  predicate TallyAsOpened(tally: Tally, e: Event)
    requires e.OpenTally?
  {
    tally.scope == e.ctx.scope && tally.parent == e.ctx.tally
  }

  /** s or a scope around it was opened detached. */
  ghost predicate InDetached(scopes: seq<Scope>, openings: seq<Event>, s: nat) {
    exists r: nat :: r < |openings| && Around(scopes, s, r) && openings[r].OpenScope? && openings[r].detach
  }

  lemma StepAsOpened(st: State, e: Event, scopes: seq<Event>, tallies: seq<Event>)
    requires Shaped(st) && AsOpened(st, scopes, tallies)
    ensures AsOpened(Step(st, e), if e.OpenScope? && Enabled(st, e) then scopes + [e] else scopes,
                     if e.OpenTally? && Enabled(st, e) then tallies + [e] else tallies)
  {
    StepShaped(st, e);
    if Enabled(st, e) { TalliesKept(st, e); }
    var next := Step(st, e);
    hide Shaped, Step;
  }

  /** A step keeps what scopes and tallies were opened as; an opening adds one. */
  lemma TalliesKept(st: State, e: Event)
    requires Shaped(st) && Enabled(st, e)
    ensures var next := Step(st, e);
      && |next.scopes| == |st.scopes| + (if e.OpenScope? then 1 else 0)
      && |next.tallies| == |st.tallies| + (if e.OpenTally? then 1 else 0)
      && (e.OpenScope? ==> ScopeAsOpened(next.scopes[|st.scopes|], e))
      && (e.OpenTally? ==> TallyAsOpened(next.tallies[|st.tallies|], e))
      && forall t :: 0 <= t < |st.tallies| ==>
           next.tallies[t].scope == st.tallies[t].scope && next.tallies[t].parent == st.tallies[t].parent
  {
    if SentBy(st, e).Sent? {
      SentMoves(st, e);
      SendingHolds(st, e);
      hide Step, Sending, Shaped, PlaceBy, Around;
    } else {
      hide Shaped;
    }
  }

  lemma {:induction false} RunAsOpened(events: seq<Event>)
    ensures AsOpened(Run(events), Openings(events), TallyOpenings(events))
    decreases |events|
  {
    if events != [] {
      var before := events[..|events|-1];
      RunAsOpened(before);
      hide AsOpened, Step, Enabled, Shaped;
      StepAsOpened(Run(before), events[|events|-1], Openings(before), TallyOpenings(before));
    }
  }

  /** A scope is detached if it was opened so, or its parent is. */
  ghost predicate Bounded(st: State, openings: seq<Event>) {
    |openings| == |st.scopes|
    && forall s :: 0 <= s < |openings| ==> openings[s].OpenScope? && st.scopes[s].detached == IsBounded(st.scopes, openings[s], s)
  }

  predicate IsBounded(scopes: seq<Scope>, e: Event, s: nat)
    requires s < |scopes| && e.OpenScope?
  {
    e.detach || (scopes[s].parent.Some? && scopes[s].parent.value < s && scopes[scopes[s].parent.value].detached)
  }

  lemma StepBounded(st: State, e: Event, openings: seq<Event>)
    requires Shaped(st) && Bounded(st, openings)
    ensures Bounded(Step(st, e), if e.OpenScope? && Enabled(st, e) then openings + [e] else openings)
  {
    var next := Step(st, e);
    StepShaped(st, e);
    if Enabled(st, e) {
      TalliesKept(st, e);
      if e.OpenScope? { OpeningBounds(st, e); }
    }
    hide Shaped, Step;
    forall s | 0 <= s < |openings| ensures next.scopes[s].detached == IsBounded(next.scopes, openings[s], s) {
      assert st.scopes[s].detached == IsBounded(st.scopes, openings[s], s);
    }
  }

  lemma OpeningBounds(st: State, e: Event)
    requires Shaped(st) && e.OpenScope? && Enabled(st, e)
    ensures var next := Step(st, e); |next.scopes| == |st.scopes| + 1 && next.scopes[|st.scopes|].detached == IsBounded(next.scopes, e, |st.scopes|)
  { }

  lemma {:induction false} RunBounded(events: seq<Event>)
    ensures Bounded(Run(events), Openings(events))
    decreases |events|
  {
    if events != [] {
      var before := events[..|events|-1];
      RunBounded(before);
      hide Bounded, Step, Enabled, Shaped;
      StepBounded(Run(before), events[|events|-1], Openings(before));
    }
  }

  /** A scope is detached exactly when it, or a scope it was opened in, was opened detached. */
  lemma DetachedExactlyWhen(events: seq<Event>, s: nat)
    requires s < |Run(events).scopes|
    ensures Run(events).scopes[s].detached <==> InDetached(Run(events).scopes, Openings(events), s)
  {
    var st := Run(events);
    RunBounded(events);
    hide Run;
    DetachedWalk(st, Openings(events), s);
    forall r: nat ensures Around(st.scopes, s, r) <==> IsWithin(st.scopes, s, r) { AroundExactly(st, s, r); }
    hide Shaped, Bounded, IsWithin, Around;
  }

  lemma {:induction false} DetachedWalk(st: State, openings: seq<Event>, s: nat)
    requires Shaped(st) && Bounded(st, openings) && s < |st.scopes|
    ensures st.scopes[s].detached <==>
      exists r: nat :: r < |openings| && IsWithin(st.scopes, s, r) && openings[r].OpenScope? && openings[r].detach
    decreases s
  {
    assert IsWithin(st.scopes, s, s);
    assert st.scopes[s].detached == IsBounded(st.scopes, openings[s], s);
    if st.scopes[s].parent.Some? {
      var p := st.scopes[s].parent.value;
      DetachedWalk(st, openings, p);
      assert forall r: nat :: r != s ==> (IsWithin(st.scopes, s, r) <==> IsWithin(st.scopes, p, r));
    } else {
      assert forall r: nat :: r != s ==> !IsWithin(st.scopes, s, r);
    }
    hide Shaped, Bounded;
  }

  // ---------------------------------------------------------------------------------------------
  // Where work goes
  // ---------------------------------------------------------------------------------------------

  datatype Place = Nowhere | ToTally(tally: nat) | ToScope(scope: nat)

  /** A transaction opened in `tallyScope` owns work of `scope`: work outside all scopes if it is outside too, work of
      the scopes in its own one, or, outside all scopes, whatever is not detached. */
  ghost predicate Owns(scopes: seq<Scope>, tallyScope: Option<nat>, scope: Option<nat>) {
    match (tallyScope, scope)
    case (None, None) => true
    case (Some(_), None) => false
    case (None, Some(s)) => s < |scopes| && !scopes[s].detached
    case (Some(t), Some(s)) => Around(scopes, s, t)
  }

  /** Where work of a scope goes that comes to a tally, if any: the tally if that owns it, else the scope, unless it is closed. */
  ghost function Route(st: State, scope: Option<nat>, tally: Option<nat>): Place
    requires InScopes(st.scopes, scope) && (tally.Some? ==> tally.value < |st.tallies|)
  {
    if scope.Some? && st.scopes[scope.value].closed then Nowhere
    else if tally.Some? && Owns(st.scopes, st.tallies[tally.value].scope, scope) then ToTally(tally.value)
    else if scope.Some? then ToScope(scope.value) else Nowhere
  }

  /** The work has gone to its place, and nothing else has moved. What comes to a settled tally is lost all the same. */
  ghost predicate Moved(st: State, next: State, place: Place, writes: seq<Write>, entries: seq<nat>) {
    && next == st.(scopes := next.scopes, tallies := next.tallies, discarded := next.discarded)
    && match place
       case Nowhere => next == st.(discarded := st.discarded + writes)
       case ToTally(t) =>
         && t < |st.tallies| && next.scopes == st.scopes
         && next.tallies == st.tallies[t := st.tallies[t].(writes := st.tallies[t].writes + writes, entries := st.tallies[t].entries + entries)]
         && next.discarded == st.discarded + (if st.tallies[t].settled then writes else [])
       case ToScope(s) =>
         && s < |st.scopes| == |next.scopes| && next.tallies == st.tallies && next.discarded == st.discarded
         && forall i :: 0 <= i < |st.scopes| ==>
              next.scopes[i] == st.scopes[i].(
                writes := st.scopes[i].writes + (if i == s then writes else []),
                entries := st.scopes[i].entries + (if Around(st.scopes, s, i) && !st.scopes[i].closed then entries else []))
  }

  lemma OwnsExactly(st: State, tallyScope: Option<nat>, scope: Option<nat>)
    requires Shaped(st) && InScopes(st.scopes, scope)
    ensures Owns(st.scopes, tallyScope, scope) <==> HoldsScope(st.scopes, tallyScope, scope)
  {
    if tallyScope.Some? && scope.Some? { AroundExactly(st, scope.value, tallyScope.value); }
    hide Shaped, Around, IsWithin;
  }

  lemma IntoScopeMoves(st: State, s: nat, writes: seq<Write>, entries: seq<nat>)
    requires Shaped(st) && s < |st.scopes|
    ensures Moved(st, IntoScope(st, s, writes, entries), ToScope(s), writes, entries)
  {
    IntoScopeAt(st, s, writes, entries);
    IntoScopeShaped(st, s, writes, entries);
    forall i: nat ensures Around(st.scopes, s, i) <==> IsWithin(st.scopes, s, i) { AroundExactly(st, s, i); }
    hide IntoScope, Shaped, Around, IsWithin;
  }

  /** A note goes where its scope and its tally say. */
  lemma DeliveredMoves(st: State, ctx: Context, writes: seq<Write>, entries: seq<nat>)
    requires Shaped(st) && InContext(st, ctx)
    ensures Moved(st, Delivered(st, ctx, writes, entries), Route(st, ctx.scope, ctx.tally), writes, entries)
  {
    if ctx.tally.Some? { OwnsExactly(st, st.tallies[ctx.tally.value].scope, ctx.scope); }
    if ctx.scope.Some? { IntoScopeMoves(st, ctx.scope.value, writes, entries); }
    hide Shaped, Owns, HoldsScope, IntoScope, Around;
  }

  /** A fulfilled tally's work goes where the tally's own scope and the tally around it say. */
  lemma FlushedMoves(st: State, t: nat)
    requires Shaped(st) && t < |st.tallies| && !st.tallies[t].settled
    ensures InScopes(st.scopes, st.tallies[t].scope) && (st.tallies[t].parent.Some? ==> st.tallies[t].parent.value < |st.tallies|)
    ensures var tally := st.tallies[t];
      Moved(Settled(st, t), Flushed(st, t), Route(st, tally.scope, tally.parent), tally.writes, tally.entries)
  {
    var tally := st.tallies[t];
    var done := Settled(st, t);
    SettledShaped(st, t);
    assert InScopes(st.scopes, tally.scope) && done.scopes == st.scopes && |done.tallies| == |st.tallies|;
    if tally.parent.Some? { assert done.tallies[tally.parent.value].scope == st.tallies[tally.parent.value].scope; }
    hide Shaped, SameForest, Settled;
    if tally.parent.Some? { OwnsExactly(st, st.tallies[tally.parent.value].scope, tally.scope); }
    if tally.scope.Some? { IntoScopeMoves(done, tally.scope.value, tally.writes, tally.entries); }
    hide Owns, HoldsScope, IntoScope, Around;
  }

  // ---------------------------------------------------------------------------------------------
  // Over every run
  // ---------------------------------------------------------------------------------------------

  /** The event sends these writes and entries on their way, from a scope and towards a tally. */
  datatype Sent = Nothing | Sent(scope: Option<nat>, tally: Option<nat>, writes: seq<Write>, entries: seq<nat>)

  function SentBy(st: State, e: Event): Sent {
    if !Enabled(st, e) then Nothing else
      match e
      case NoteWrite(ctx, what) => if ctx.bookkeeping then Nothing else Sent(ctx.scope, ctx.tally, [Write(what, |st.noted|)], [])
      case NoteEntry(ctx) => Sent(ctx.scope, ctx.tally, [], [|st.entriesFrom|])
      case Fulfil(t) => Sent(st.tallies[t].scope, st.tallies[t].parent, st.tallies[t].writes, st.tallies[t].entries)
      case _ => Nothing
  }

  /** Where the event sends its work. */
  ghost function PlaceBy(st: State, e: Event): Place
    requires Shaped(st)
  {
    var sent := SentBy(st, e);
    if sent.Nothing? then Nowhere else Route(st, sent.scope, sent.tally)
  }

  /** The event loses the write: it goes nowhere, to a settled tally, or was held by a rejected one. */
  ghost predicate Loses(st: State, e: Event, w: Write)
    requires Shaped(st)
  {
    var sent := SentBy(st, e);
    || (sent.Sent? && w in sent.writes
        && (PlaceBy(st, e).Nowhere? || (PlaceBy(st, e).ToTally? && st.tallies[PlaceBy(st, e).tally].settled)))
    || (e.Reject? && Enabled(st, e) && w in st.tallies[e.tally].writes)
  }

  /** The event counts the write in the scope. */
  ghost predicate Lands(st: State, e: Event, s: nat, w: Write)
    requires Shaped(st)
  {
    SentBy(st, e).Sent? && w in SentBy(st, e).writes && PlaceBy(st, e) == ToScope(s)
  }

  /** The event counts the entry in the scope: it goes to the scope or to one inside it, and the scope is open. */
  ghost predicate Counts(st: State, e: Event, s: nat, n: nat)
    requires Shaped(st)
  {
    SentBy(st, e).Sent? && n in SentBy(st, e).entries && PlaceBy(st, e).ToScope?
    && s < |st.scopes| && Around(st.scopes, PlaceBy(st, e).scope, s) && !st.scopes[s].closed
  }

  /** The event hands the write to the tally. */
  ghost predicate Buffers(st: State, e: Event, t: nat, w: Write)
    requires Shaped(st)
  {
    SentBy(st, e).Sent? && w in SentBy(st, e).writes && PlaceBy(st, e) == ToTally(t)
  }

  predicate InScope(st: State, s: nat, w: Write) { s < |st.scopes| && w in st.scopes[s].writes }

  predicate EntryIn(st: State, s: nat, n: nat) { s < |st.scopes| && n in st.scopes[s].entries }

  predicate InTally(st: State, t: nat, w: Write) { t < |st.tallies| && w in st.tallies[t].writes }

  /** The state the work is sent in: the note is on record, or the tally has settled. */
  function Sending(st: State, e: Event): State
    requires Shaped(st) && SentBy(st, e).Sent?
  {
    match e
    case NoteWrite(ctx, what) => WriteOnRecord(st, ctx, what)
    case NoteEntry(ctx) => EntryOnRecord(st, ctx)
    case Fulfil(t) => Settled(st, t)
    case _ => st
  }

  lemma SentMoves(st: State, e: Event)
    requires Shaped(st) && SentBy(st, e).Sent?
    ensures Moved(Sending(st, e), Step(st, e), PlaceBy(st, e), SentBy(st, e).writes, SentBy(st, e).entries)
  {
    match e
    case NoteWrite(ctx, what) =>
      OnRecordShaped(st, ctx, what);
      DeliveredMoves(WriteOnRecord(st, ctx, what), ctx, [Write(what, |st.noted|)], []);
      hide Shaped, Moved, Owns;
    case NoteEntry(ctx) =>
      OnRecordShaped(st, ctx, "");
      DeliveredMoves(EntryOnRecord(st, ctx), ctx, [], [|st.entriesFrom|]);
      hide Shaped, Moved, Owns;
    case Fulfil(t) => FlushedMoves(st, t);
      hide Shaped, Moved, Owns;
  }

  /** What work is sent in differs from the state before in nothing held: only the tally that ends has settled. */
  lemma SendingHolds(st: State, e: Event)
    requires Shaped(st) && SentBy(st, e).Sent?
    ensures var on := Sending(st, e);
      && on.scopes == st.scopes && on.discarded == st.discarded && |on.tallies| == |st.tallies|
      && (forall t :: 0 <= t < |st.tallies| ==>
            && on.tallies[t].writes == st.tallies[t].writes
            && on.tallies[t].scope == st.tallies[t].scope && on.tallies[t].parent == st.tallies[t].parent)
      && var place := PlaceBy(st, e);
         (place.ToTally? ==> place.tally < |st.tallies| && on.tallies[place.tally].settled == st.tallies[place.tally].settled)
  {
    hide Owns;
  }

  /** A step that sends nothing holds on to what there is, but for the writes a rejection loses. */
  lemma QuietStep(st: State, e: Event)
    requires Shaped(st) && SentBy(st, e).Nothing?
    ensures var next := Step(st, e);
      && next.discarded == st.discarded + (if e.Reject? && Enabled(st, e) then st.tallies[e.tally].writes else [])
      && |st.scopes| <= |next.scopes| && |st.tallies| <= |next.tallies|
      && (forall s :: 0 <= s < |next.scopes| ==>
            if s < |st.scopes| then next.scopes[s].writes == st.scopes[s].writes && next.scopes[s].entries == st.scopes[s].entries
            else next.scopes[s].writes == [] && next.scopes[s].entries == [])
      && (forall t :: 0 <= t < |next.tallies| ==> next.tallies[t].writes == if t < |st.tallies| then st.tallies[t].writes else [])
      && (forall s :: 0 <= s < |next.scopes| ==>
            next.scopes[s].closed == (s < |st.scopes| && (st.scopes[s].closed || e == CloseScope(s))))
      && (forall t :: 0 <= t < |next.tallies| ==>
            next.tallies[t].settled == (t < |st.tallies| && (st.tallies[t].settled || e == Reject(t))))
  {
    hide Shaped;
  }

  lemma DiscardedStep(st: State, e: Event, w: Write)
    requires Shaped(st)
    ensures w in Step(st, e).discarded <==> w in st.discarded || Loses(st, e, w)
  {
    if SentBy(st, e).Sent? {
      SentMoves(st, e);
      SendingHolds(st, e);
    } else {
      QuietStep(st, e);
    }
    hide Shaped, Step, Sending, PlaceBy;
  }

  lemma ScopeStep(st: State, e: Event, s: nat, w: Write)
    requires Shaped(st)
    ensures InScope(Step(st, e), s, w) <==> InScope(st, s, w) || Lands(st, e, s, w)
  {
    if SentBy(st, e).Sent? {
      SentMoves(st, e);
      SendingHolds(st, e);
    } else {
      QuietStep(st, e);
    }
    hide Shaped, Step, Sending, PlaceBy;
  }

  lemma EntryStep(st: State, e: Event, s: nat, n: nat)
    requires Shaped(st)
    ensures EntryIn(Step(st, e), s, n) <==> EntryIn(st, s, n) || Counts(st, e, s, n)
  {
    if SentBy(st, e).Sent? {
      SentMoves(st, e);
      SendingHolds(st, e);
    } else {
      QuietStep(st, e);
    }
    hide Shaped, Step, Sending, PlaceBy, Around;
  }

  lemma TallyStep(st: State, e: Event, t: nat, w: Write)
    requires Shaped(st)
    ensures InTally(Step(st, e), t, w) <==> InTally(st, t, w) || Buffers(st, e, t, w)
  {
    if SentBy(st, e).Sent? {
      SentMoves(st, e);
      SendingHolds(st, e);
    } else {
      QuietStep(st, e);
    }
    hide Shaped, Step, Sending, PlaceBy;
  }

  ghost predicate LosesAt(events: seq<Event>, k: nat, w: Write) { k < |events| && Loses(Run(events[..k]), events[k], w) }

  ghost predicate LandsAt(events: seq<Event>, k: nat, s: nat, w: Write) { k < |events| && Lands(Run(events[..k]), events[k], s, w) }

  ghost predicate CountsAt(events: seq<Event>, k: nat, s: nat, n: nat) { k < |events| && Counts(Run(events[..k]), events[k], s, n) }

  ghost predicate BuffersAt(events: seq<Event>, k: nat, t: nat, w: Write) { k < |events| && Buffers(Run(events[..k]), events[k], t, w) }

  lemma RunLast(events: seq<Event>)
    requires events != []
    ensures Run(events) == Step(Run(events[..|events|-1]), events[|events|-1])
  {
    hide Step, Shaped;
  }

  lemma LosesAtLast(events: seq<Event>, w: Write)
    requires events != []
    ensures var n := |events| - 1;
      (exists k :: LosesAt(events, k, w)) <==>
        (exists k :: LosesAt(events[..n], k, w)) || Loses(Run(events[..n]), events[n], w)
  {
    hide Run, Loses, Shaped;
    var n := |events| - 1;
    forall k: nat | k < n ensures LosesAt(events, k, w) <==> LosesAt(events[..n], k, w) { assert events[..n][..k] == events[..k]; }
    assert LosesAt(events, n, w) <==> Loses(Run(events[..n]), events[n], w);
    if k: nat :| LosesAt(events, k, w) && k != n { assert LosesAt(events[..n], k, w); }
    if k: nat :| LosesAt(events[..n], k, w) { assert LosesAt(events, k, w); }
  }

  /** In every run a write is lost exactly if an event lost it: its scope was closed when it was noted or flushed, it belonged
      nowhere, it came to a settled tally, or its tally was rejected. */
  lemma {:induction false} LostExactlyWhen(events: seq<Event>, w: Write)
    ensures w in Run(events).discarded <==> exists k :: LosesAt(events, k, w)
    decreases |events|
  {
    if events != [] {
      RunLast(events);
      LosesAtLast(events, w);
      hide Run, Step, Loses, LosesAt, Shaped;
      LostExactlyWhen(events[..|events|-1], w);
      DiscardedStep(Run(events[..|events|-1]), events[|events|-1], w);
    }
  }

  lemma LandsAtLast(events: seq<Event>, s: nat, w: Write)
    requires events != []
    ensures var n := |events| - 1;
      (exists k :: LandsAt(events, k, s, w)) <==>
        (exists k :: LandsAt(events[..n], k, s, w)) || Lands(Run(events[..n]), events[n], s, w)
  {
    hide Run, Lands, Shaped;
    var n := |events| - 1;
    forall k: nat | k < n ensures LandsAt(events, k, s, w) <==> LandsAt(events[..n], k, s, w) { assert events[..n][..k] == events[..k]; }
    assert LandsAt(events, n, s, w) <==> Lands(Run(events[..n]), events[n], s, w);
    if k: nat :| LandsAt(events, k, s, w) && k != n { assert LandsAt(events[..n], k, s, w); }
    if k: nat :| LandsAt(events[..n], k, s, w) { assert LandsAt(events, k, s, w); }
  }

  /** In every run a scope holds a write exactly if an event sent it there. */
  lemma {:induction false} LandedExactlyWhen(events: seq<Event>, s: nat, w: Write)
    ensures InScope(Run(events), s, w) <==> exists k :: LandsAt(events, k, s, w)
    decreases |events|
  {
    if events != [] {
      RunLast(events);
      LandsAtLast(events, s, w);
      hide Run, Step, Lands, LandsAt, Shaped;
      LandedExactlyWhen(events[..|events|-1], s, w);
      ScopeStep(Run(events[..|events|-1]), events[|events|-1], s, w);
    }
  }

  lemma CountsAtLast(events: seq<Event>, s: nat, n: nat)
    requires events != []
    ensures var m := |events| - 1;
      (exists k :: CountsAt(events, k, s, n)) <==>
        (exists k :: CountsAt(events[..m], k, s, n)) || Counts(Run(events[..m]), events[m], s, n)
  {
    hide Run, Counts, Shaped;
    var m := |events| - 1;
    forall k: nat | k < m ensures CountsAt(events, k, s, n) <==> CountsAt(events[..m], k, s, n) { assert events[..m][..k] == events[..k]; }
    assert CountsAt(events, m, s, n) <==> Counts(Run(events[..m]), events[m], s, n);
    if k: nat :| CountsAt(events, k, s, n) && k != m { assert CountsAt(events[..m], k, s, n); }
    if k: nat :| CountsAt(events[..m], k, s, n) { assert CountsAt(events, k, s, n); }
  }

  /** In every run a scope counts an entry exactly if an event sent it to the scope, or to one inside it, while the scope was open. */
  lemma {:induction false} CountedExactlyWhen(events: seq<Event>, s: nat, n: nat)
    ensures EntryIn(Run(events), s, n) <==> exists k :: CountsAt(events, k, s, n)
    decreases |events|
  {
    if events != [] {
      RunLast(events);
      CountsAtLast(events, s, n);
      hide Run, Step, Counts, CountsAt, Shaped;
      CountedExactlyWhen(events[..|events|-1], s, n);
      EntryStep(Run(events[..|events|-1]), events[|events|-1], s, n);
    }
  }

  lemma BuffersAtLast(events: seq<Event>, t: nat, w: Write)
    requires events != []
    ensures var n := |events| - 1;
      (exists k :: BuffersAt(events, k, t, w)) <==>
        (exists k :: BuffersAt(events[..n], k, t, w)) || Buffers(Run(events[..n]), events[n], t, w)
  {
    hide Run, Buffers, Shaped;
    var n := |events| - 1;
    forall k: nat | k < n ensures BuffersAt(events, k, t, w) <==> BuffersAt(events[..n], k, t, w) { assert events[..n][..k] == events[..k]; }
    assert BuffersAt(events, n, t, w) <==> Buffers(Run(events[..n]), events[n], t, w);
    if k: nat :| BuffersAt(events, k, t, w) && k != n { assert BuffersAt(events[..n], k, t, w); }
    if k: nat :| BuffersAt(events[..n], k, t, w) { assert BuffersAt(events, k, t, w); }
  }

  /** In every run a tally holds a write exactly if an event handed it over. */
  lemma {:induction false} BufferedExactlyWhen(events: seq<Event>, t: nat, w: Write)
    ensures InTally(Run(events), t, w) <==> exists k :: BuffersAt(events, k, t, w)
    decreases |events|
  {
    if events != [] {
      RunLast(events);
      BuffersAtLast(events, t, w);
      hide Run, Step, Buffers, BuffersAt, Shaped;
      BufferedExactlyWhen(events[..|events|-1], t, w);
      TallyStep(Run(events[..|events|-1]), events[|events|-1], t, w);
    }
  }

  // ---------------------------------------------------------------------------------------------
  // What is closed, settled and checked
  // ---------------------------------------------------------------------------------------------

  ghost predicate ClosesAt(events: seq<Event>, k: nat, s: nat) {
    k < |events| && events[k] == CloseScope(s) && s < |Run(events[..k]).scopes|
  }

  ghost predicate EndsAt(events: seq<Event>, k: nat, t: nat) {
    k < |events| && (events[k] == Fulfil(t) || events[k] == Reject(t)) && t < |Run(events[..k]).tallies|
  }

  predicate IsClosed(st: State, s: nat) { s < |st.scopes| && st.scopes[s].closed }

  predicate IsSettled(st: State, t: nat) { t < |st.tallies| && st.tallies[t].settled }

  lemma ClosedStep(st: State, e: Event, s: nat)
    requires Shaped(st)
    ensures IsClosed(Step(st, e), s) <==> IsClosed(st, s) || (e == CloseScope(s) && s < |st.scopes|)
  {
    if SentBy(st, e).Sent? {
      SentMoves(st, e);
      SendingHolds(st, e);
    } else {
      QuietStep(st, e);
    }
    hide Shaped, Step, Sending, PlaceBy, Around;
  }

  lemma SettledStep(st: State, e: Event, t: nat)
    requires Shaped(st)
    ensures IsSettled(Step(st, e), t) <==> IsSettled(st, t) || ((e == Fulfil(t) || e == Reject(t)) && t < |st.tallies|)
  {
    if SentBy(st, e).Sent? {
      SentMoves(st, e);
      SendingHolds(st, e);
      assert Sending(st, e).tallies == if e.Fulfil? then Settled(st, e.tally).tallies else st.tallies;
    } else {
      QuietStep(st, e);
    }
    hide Shaped, Step, Sending, PlaceBy, Around;
  }

  lemma ClosesAtLast(events: seq<Event>, s: nat)
    requires events != []
    ensures var n := |events| - 1;
      (exists k :: ClosesAt(events, k, s)) <==> (exists k :: ClosesAt(events[..n], k, s)) || (events[n] == CloseScope(s) && s < |Run(events[..n]).scopes|)
  {
    hide Run, Shaped;
    var n := |events| - 1;
    forall k: nat | k < n ensures ClosesAt(events, k, s) <==> ClosesAt(events[..n], k, s) { assert events[..n][..k] == events[..k]; }
    assert ClosesAt(events, n, s) <==> (events[n] == CloseScope(s) && s < |Run(events[..n]).scopes|);
    if k: nat :| ClosesAt(events, k, s) && k != n { assert ClosesAt(events[..n], k, s); }
    if k: nat :| ClosesAt(events[..n], k, s) { assert ClosesAt(events, k, s); }
  }

  /** In every run a scope is closed exactly if an event closed it. */
  lemma {:induction false} ClosedExactlyWhen(events: seq<Event>, s: nat)
    ensures IsClosed(Run(events), s) <==> exists k :: ClosesAt(events, k, s)
    decreases |events|
  {
    if events != [] {
      RunLast(events);
      ClosesAtLast(events, s);
      hide Run, Step, ClosesAt, Shaped;
      ClosedExactlyWhen(events[..|events|-1], s);
      ClosedStep(Run(events[..|events|-1]), events[|events|-1], s);
    }
  }

  lemma EndsAtLast(events: seq<Event>, t: nat)
    requires events != []
    ensures var n := |events| - 1;
      (exists k :: EndsAt(events, k, t)) <==> (exists k :: EndsAt(events[..n], k, t)) || ((events[n] == Fulfil(t) || events[n] == Reject(t)) && t < |Run(events[..n]).tallies|)
  {
    hide Run, Shaped;
    var n := |events| - 1;
    forall k: nat | k < n ensures EndsAt(events, k, t) <==> EndsAt(events[..n], k, t) { assert events[..n][..k] == events[..k]; }
    assert EndsAt(events, n, t) <==> ((events[n] == Fulfil(t) || events[n] == Reject(t)) && t < |Run(events[..n]).tallies|);
    if k: nat :| EndsAt(events, k, t) && k != n { assert EndsAt(events[..n], k, t); }
    if k: nat :| EndsAt(events[..n], k, t) { assert EndsAt(events, k, t); }
  }

  /** In every run a tally has settled exactly if its callback fulfilled or rejected. */
  lemma {:induction false} SettledExactlyWhen(events: seq<Event>, t: nat)
    ensures IsSettled(Run(events), t) <==> exists k :: EndsAt(events, k, t)
    decreases |events|
  {
    if events != [] {
      RunLast(events);
      EndsAtLast(events, t);
      hide Run, Step, EndsAt, Shaped;
      SettledExactlyWhen(events[..|events|-1], t);
      SettledStep(Run(events[..|events|-1]), events[|events|-1], t);
    }
  }

  /** The check fails exactly when a write was counted in the scope, no entry was, and the scope's surface is not exempt. */
  lemma FailsExactlyWhen(events: seq<Event>, s: nat, unaudited: set<string>)
    requires s < |Run(events).scopes|
    ensures !Audited(Run(events).scopes[s], unaudited) <==>
      && (exists k, w :: LandsAt(events, k, s, w)) && !(exists k, n :: CountsAt(events, k, s, n))
      && Run(events).scopes[s].surface !in unaudited
  {
    SomeLanded(events, s);
    SomeCounted(events, s);
    hide Run, LandsAt, CountsAt;
  }

  lemma SomeLanded(events: seq<Event>, s: nat)
    requires s < |Run(events).scopes|
    ensures Run(events).scopes[s].writes != [] <==> exists k, w :: LandsAt(events, k, s, w)
  {
    hide Run, LandsAt;
    var writes := Run(events).scopes[s].writes;
    if writes != [] {
      LandedExactlyWhen(events, s, writes[0]);
      var k :| LandsAt(events, k, s, writes[0]);
    }
    if k, w :| LandsAt(events, k, s, w) { LandedExactlyWhen(events, s, w); }
  }

  lemma SomeCounted(events: seq<Event>, s: nat)
    requires s < |Run(events).scopes|
    ensures Run(events).scopes[s].entries != [] <==> exists k, n :: CountsAt(events, k, s, n)
  {
    hide Run, CountsAt;
    var entries := Run(events).scopes[s].entries;
    if entries != [] {
      CountedExactlyWhen(events, s, entries[0]);
      var k :| CountsAt(events, k, s, entries[0]);
    }
    if k, n :| CountsAt(events, k, s, n) { CountedExactlyWhen(events, s, n); }
  }
}
