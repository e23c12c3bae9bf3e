/**
 Audit scopes and transaction tallies (apps/api/src/action-context/audit-coverage.ts) as a step machine over
 values. Scopes and tallies are numbered in the order they are opened; an async context is the triple
 (scope, tally, bookkeeping) that a note or an opening happens under, in any combination.

 Each noted write and entry carries the number of its note, so that where it ends up can be followed.
 */
module AuditModel {
  import opened Wrappers

  datatype Write = Write(what: string, note: nat)

  datatype Scope = Scope(
    surface: string,
    parent: Option<nat>,
    writes: seq<Write>,
    entries: seq<nat>,
    closed: bool,
    detached: bool)

  datatype Tally = Tally(scope: Option<nat>, parent: Option<nat>, writes: seq<Write>, entries: seq<nat>, settled: bool)

  datatype Context = Context(scope: Option<nat>, tally: Option<nat>, bookkeeping: bool)

  /** `writesFrom` and `entriesFrom` are the scopes the notes were made in; `discarded` holds the writes that were lost. */
  datatype State = State(
    scopes: seq<Scope>,
    tallies: seq<Tally>,
    noted: seq<Write>,
    writesFrom: seq<Option<nat>>,
    entriesFrom: seq<Option<nat>>,
    discarded: seq<Write>)

  datatype Event =
    | OpenScope(ctx: Context, surface: string, detach: bool)
    | CloseScope(scope: nat)
    | OpenTally(ctx: Context)
    | Fulfil(tally: nat)
    | Reject(tally: nat)
    | NoteWrite(ctx: Context, what: string)
    | NoteEntry(ctx: Context)

  const Init := State([], [], [], [], [], [])

  predicate InScopes(scopes: seq<Scope>, s: Option<nat>) {
    s.Some? ==> s.value < |scopes|
  }

  predicate InContext(st: State, ctx: Context) {
    InScopes(st.scopes, ctx.scope) && (ctx.tally.Some? ==> ctx.tally.value < |st.tallies|)
  }

  /** A tally settles once; everything else may happen at any time, late callbacks included. */
  predicate Enabled(st: State, e: Event) {
    match e
    case OpenScope(ctx, _, _) => InContext(st, ctx)
    case CloseScope(s) => s < |st.scopes|
    case OpenTally(ctx) => InContext(st, ctx)
    case Fulfil(t) => t < |st.tallies| && !st.tallies[t].settled
    case Reject(t) => t < |st.tallies| && !st.tallies[t].settled
    case NoteWrite(ctx, _) => InContext(st, ctx)
    case NoteEntry(ctx) => InContext(st, ctx)
  }

  // ---------------------------------------------------------------------------------------------
  // The scope forest
  // ---------------------------------------------------------------------------------------------

  /** Whether s is target or one of its descendants. */
  predicate IsWithin(scopes: seq<Scope>, s: nat, target: nat)
    decreases s
  {
    s == target
    || (s < |scopes| && scopes[s].parent.Some? && scopes[s].parent.value < s
        && IsWithin(scopes, scopes[s].parent.value, target))
  }

  predicate IsDetached(scopes: seq<Scope>, s: nat) {
    s < |scopes| && scopes[s].detached
  }

  /** Whether a tally opened in `tallyScope` holds the work noted in `scope`. */
  predicate HoldsScope(scopes: seq<Scope>, tallyScope: Option<nat>, scope: Option<nat>) {
    if scope.None? then tallyScope.None?
    else if tallyScope.None? then !IsDetached(scopes, scope.value)
    else IsWithin(scopes, scope.value, tallyScope.value)
  }

  /** The entries counted in s and in every scope around it, as far as each is open. */
  function Bubbled(scopes: seq<Scope>, s: nat, entries: seq<nat>): (r: seq<Scope>)
    ensures |r| == |scopes|
    ensures forall i :: 0 <= i < |r| ==>
      r[i] == if IsWithin(scopes, s, i) && !scopes[i].closed
              then scopes[i].(entries := scopes[i].entries + entries) else scopes[i]
  {
    seq(|scopes|, i requires 0 <= i < |scopes| =>
      if IsWithin(scopes, s, i) && !scopes[i].closed
      then scopes[i].(entries := scopes[i].entries + entries) else scopes[i])
  }

  // ---------------------------------------------------------------------------------------------
  // The steps
  // ---------------------------------------------------------------------------------------------

  function Opened(st: State, ctx: Context, surface: string, detach: bool): State
    requires InContext(st, ctx)
  {
    var parent := if detach then None else ctx.scope;
    st.(scopes := st.scopes + [Scope(surface, parent, [], [], false,
                                     detach || (parent.Some? && st.scopes[parent.value].detached))])
  }

  function Closed(st: State, s: nat): State
    requires s < |st.scopes|
  {
    st.(scopes := st.scopes[s := st.scopes[s].(closed := true)])
  }

  function TallyOpened(st: State, ctx: Context): State {
    st.(tallies := st.tallies + [Tally(ctx.scope, ctx.tally, [], [], false)])
  }

  function Settled(st: State, t: nat): State
    requires t < |st.tallies|
  {
    st.(tallies := st.tallies[t := st.tallies[t].(settled := true)])
  }

  function Lost(st: State, writes: seq<Write>): State {
    st.(discarded := st.discarded + writes)
  }

  /** Work handed to a tally; one that has settled already never hands it on. */
  function IntoTally(st: State, t: nat, writes: seq<Write>, entries: seq<nat>): State
    requires t < |st.tallies|
  {
    var tally := st.tallies[t];
    var held := st.(tallies := st.tallies[t := tally.(writes := tally.writes + writes, entries := tally.entries + entries)]);
    if tally.settled then Lost(held, writes) else held
  }

  function IntoScope(st: State, s: nat, writes: seq<Write>, entries: seq<nat>): State
    requires s < |st.scopes|
  {
    var written := st.scopes[s := st.scopes[s].(writes := st.scopes[s].writes + writes)];
    st.(scopes := Bubbled(written, s, entries))
  }

  /** Where a fulfilled tally's work goes. */
  function Flushed(st: State, t: nat): State
    requires t < |st.tallies| && InScopes(st.scopes, st.tallies[t].scope)
    requires st.tallies[t].parent.Some? ==> st.tallies[t].parent.value < |st.tallies|
  {
    var tally := st.tallies[t];
    var done := Settled(st, t);
    if tally.scope.Some? && st.scopes[tally.scope.value].closed then Lost(done, tally.writes)
    else if tally.parent.Some? && HoldsScope(st.scopes, st.tallies[tally.parent.value].scope, tally.scope) then
      IntoTally(done, tally.parent.value, tally.writes, tally.entries)
    else if tally.scope.None? then Lost(done, tally.writes)
    else IntoScope(done, tally.scope.value, tally.writes, tally.entries)
  }

  /** The state a note is handled in: the note is on record, nothing else has happened. */
  function WriteOnRecord(st: State, ctx: Context, what: string): State {
    st.(noted := st.noted + [Write(what, |st.noted|)], writesFrom := st.writesFrom + [ctx.scope])
  }

  function EntryOnRecord(st: State, ctx: Context): State {
    st.(entriesFrom := st.entriesFrom + [ctx.scope])
  }

  /** Where the work of one note goes. */
  function Delivered(st: State, ctx: Context, writes: seq<Write>, entries: seq<nat>): State
    requires InContext(st, ctx)
  {
    if ctx.scope.Some? && st.scopes[ctx.scope.value].closed then Lost(st, writes)
    else if ctx.tally.Some? && HoldsScope(st.scopes, st.tallies[ctx.tally.value].scope, ctx.scope) then
      IntoTally(st, ctx.tally.value, writes, entries)
    else if ctx.scope.None? then Lost(st, writes)
    else IntoScope(st, ctx.scope.value, writes, entries)
  }

  function WriteNoted(st: State, ctx: Context, what: string): State
    requires InContext(st, ctx)
  {
    if ctx.bookkeeping then st
    else Delivered(WriteOnRecord(st, ctx, what), ctx, [Write(what, |st.noted|)], [])
  }

  function EntryNoted(st: State, ctx: Context): State
    requires InContext(st, ctx)
  {
    Delivered(EntryOnRecord(st, ctx), ctx, [], [|st.entriesFrom|])
  }

  /** One event; an event that cannot happen changes nothing. */
  function Step(st: State, e: Event): State
    requires Shaped(st)
  {
    if !Enabled(st, e) then st else
      match e
      case OpenScope(ctx, surface, detach) => Opened(st, ctx, surface, detach)
      case CloseScope(s) => Closed(st, s)
      case OpenTally(ctx) => TallyOpened(st, ctx)
      case Fulfil(t) => Flushed(st, t)
      case Reject(t) => Lost(Settled(st, t), st.tallies[t].writes)
      case NoteWrite(ctx, what) => WriteNoted(st, ctx, what)
      case NoteEntry(ctx) => EntryNoted(st, ctx)
  }

  /** Parents and captured scopes were opened earlier; a scope is detached exactly when its boundary is. */
  predicate Shaped(st: State) {
    && (forall s :: 0 <= s < |st.scopes| && st.scopes[s].parent.Some? ==>
          st.scopes[s].parent.value < s && st.scopes[s].detached == st.scopes[st.scopes[s].parent.value].detached)
    && (forall t :: 0 <= t < |st.tallies| ==>
          InScopes(st.scopes, st.tallies[t].scope)
          && (st.tallies[t].parent.Some? ==> st.tallies[t].parent.value < t))
    && |st.noted| == |st.writesFrom|
    && (forall n :: 0 <= n < |st.noted| ==> st.noted[n].note == n)
    && (forall n :: 0 <= n < |st.writesFrom| ==> InScopes(st.scopes, st.writesFrom[n]))
    && (forall n :: 0 <= n < |st.entriesFrom| ==> InScopes(st.scopes, st.entriesFrom[n]))
  }

  /** The scopes of st are still there: same parents and boundaries, closed ones still closed. */
  ghost predicate SameForest(st: State, next: State) {
    && |st.scopes| <= |next.scopes|
    && (forall s :: 0 <= s < |st.scopes| ==>
          && next.scopes[s].parent == st.scopes[s].parent && next.scopes[s].detached == st.scopes[s].detached
          && next.scopes[s].surface == st.scopes[s].surface
          && (st.scopes[s].closed ==> next.scopes[s].closed))
    && st.noted <= next.noted && st.writesFrom <= next.writesFrom && st.entriesFrom <= next.entriesFrom
    && st.discarded <= next.discarded
  }

  lemma SameForestTrans(a: State, b: State, c: State)
    requires SameForest(a, b) && SameForest(b, c)
    ensures SameForest(a, c)
  {
  }

  lemma LostShaped(st: State, writes: seq<Write>)
    requires Shaped(st)
    ensures Shaped(Lost(st, writes)) && SameForest(st, Lost(st, writes))
  {
  }

  lemma SettledShaped(st: State, t: nat)
    requires Shaped(st) && t < |st.tallies|
    ensures Shaped(Settled(st, t)) && SameForest(st, Settled(st, t))
  {
  }

  lemma IntoTallyShaped(st: State, t: nat, writes: seq<Write>, entries: seq<nat>)
    requires Shaped(st) && t < |st.tallies|
    ensures Shaped(IntoTally(st, t, writes, entries)) && SameForest(st, IntoTally(st, t, writes, entries))
  {
  }

  lemma IntoScopeShaped(st: State, s: nat, writes: seq<Write>, entries: seq<nat>)
    requires Shaped(st) && s < |st.scopes|
    ensures Shaped(IntoScope(st, s, writes, entries)) && SameForest(st, IntoScope(st, s, writes, entries))
  {
    var written := st.scopes[s := st.scopes[s].(writes := st.scopes[s].writes + writes)];
    var next := Bubbled(written, s, entries);
    forall i | 0 <= i < |next|
      ensures next[i].parent == st.scopes[i].parent && next[i].detached == st.scopes[i].detached
      ensures next[i].surface == st.scopes[i].surface && next[i].closed == st.scopes[i].closed
    {
      assert next[i] == written[i] || next[i] == written[i].(entries := written[i].entries + entries);
    }
  }

  lemma OnRecordShaped(st: State, ctx: Context, what: string)
    requires Shaped(st) && InContext(st, ctx)
    ensures Shaped(WriteOnRecord(st, ctx, what)) && SameForest(st, WriteOnRecord(st, ctx, what))
    ensures Shaped(EntryOnRecord(st, ctx)) && SameForest(st, EntryOnRecord(st, ctx))
  {
  }

  lemma DeliveredShaped(st: State, ctx: Context, writes: seq<Write>, entries: seq<nat>)
    requires Shaped(st) && InContext(st, ctx)
    ensures Shaped(Delivered(st, ctx, writes, entries)) && SameForest(st, Delivered(st, ctx, writes, entries))
  {
    hide Shaped, SameForest, IntoTally, IntoScope, Lost, HoldsScope;
    LostShaped(st, writes);
    if ctx.tally.Some? { IntoTallyShaped(st, ctx.tally.value, writes, entries); }
    if ctx.scope.Some? { IntoScopeShaped(st, ctx.scope.value, writes, entries); }
  }

  lemma FlushedShaped(st: State, t: nat)
    requires Shaped(st) && t < |st.tallies|
    ensures Shaped(Flushed(st, t)) && SameForest(st, Flushed(st, t))
  {
    var tally := st.tallies[t];
    var done := Settled(st, t);
    SettledShaped(st, t);
    hide Shaped, SameForest, IntoTally, IntoScope, Lost, HoldsScope;
    LostShaped(done, tally.writes);
    if tally.parent.Some? { IntoTallyShaped(done, tally.parent.value, tally.writes, tally.entries); }
    if tally.scope.Some? { IntoScopeShaped(done, tally.scope.value, tally.writes, tally.entries); }
    SameForestTrans(st, done, Flushed(st, t));
  }

  lemma OpenedShaped(st: State, ctx: Context, surface: string, detach: bool)
    requires Shaped(st) && InContext(st, ctx)
    ensures Shaped(Opened(st, ctx, surface, detach)) && SameForest(st, Opened(st, ctx, surface, detach))
  {
  }

  lemma ClosedShaped(st: State, s: nat)
    requires Shaped(st) && s < |st.scopes|
    ensures Shaped(Closed(st, s)) && SameForest(st, Closed(st, s))
  {
  }

  lemma TallyOpenedShaped(st: State, ctx: Context)
    requires Shaped(st) && InContext(st, ctx)
    ensures Shaped(TallyOpened(st, ctx)) && SameForest(st, TallyOpened(st, ctx))
  {
  }

  lemma RejectedShaped(st: State, t: nat)
    requires Shaped(st) && t < |st.tallies|
    ensures Shaped(Lost(Settled(st, t), st.tallies[t].writes)) && SameForest(st, Lost(Settled(st, t), st.tallies[t].writes))
  {
    hide *;
    SettledShaped(st, t);
    LostShaped(Settled(st, t), st.tallies[t].writes);
    SameForestTrans(st, Settled(st, t), Lost(Settled(st, t), st.tallies[t].writes));
  }

  lemma WriteNotedShaped(st: State, ctx: Context, what: string)
    requires Shaped(st) && InContext(st, ctx)
    ensures Shaped(WriteNoted(st, ctx, what)) && SameForest(st, WriteNoted(st, ctx, what))
  {
    if !ctx.bookkeeping {
      var noted := WriteOnRecord(st, ctx, what);
      OnRecordShaped(st, ctx, what);
      hide Shaped, SameForest, Delivered;
      DeliveredShaped(noted, ctx, [Write(what, |st.noted|)], []);
      SameForestTrans(st, noted, WriteNoted(st, ctx, what));
    }
  }

  lemma EntryNotedShaped(st: State, ctx: Context)
    requires Shaped(st) && InContext(st, ctx)
    ensures Shaped(EntryNoted(st, ctx)) && SameForest(st, EntryNoted(st, ctx))
  {
    OnRecordShaped(st, ctx, "");
    hide Shaped, SameForest, Delivered;
    DeliveredShaped(EntryOnRecord(st, ctx), ctx, [], [|st.entriesFrom|]);
    SameForestTrans(st, EntryOnRecord(st, ctx), EntryNoted(st, ctx));
  }

  lemma StepShaped(st: State, e: Event)
    requires Shaped(st)
    ensures Shaped(Step(st, e)) && SameForest(st, Step(st, e))
  {
    SameForestSelf(st);
    hide Shaped, SameForest, Opened, Closed, TallyOpened, Lost, Settled, Flushed, WriteNoted, EntryNoted;
    if Enabled(st, e) {
      match e
      case OpenScope(ctx, surface, detach) => OpenedShaped(st, ctx, surface, detach);
      case CloseScope(s) => ClosedShaped(st, s);
      case OpenTally(ctx) => TallyOpenedShaped(st, ctx);
      case Fulfil(t) => FlushedShaped(st, t);
      case Reject(t) => RejectedShaped(st, t);
      case NoteWrite(ctx, what) => WriteNotedShaped(st, ctx, what);
      case NoteEntry(ctx) => EntryNotedShaped(st, ctx);
    }
  }

  lemma SameForestSelf(st: State)
    ensures SameForest(st, st)
  {
  }

  /** Every sequence of events from nothing. */
  function Run(events: seq<Event>): (st: State)
    ensures Shaped(st)
  {
    if events == [] then Init else
      var before := Run(events[..|events|-1]);
      StepShaped(before, events[|events|-1]);
      Step(before, events[|events|-1])
  }
}
