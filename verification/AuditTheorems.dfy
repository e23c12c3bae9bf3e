/** What holds of audit scopes and tallies over every run: closed scopes are final, rejected work reaches no scope,
    detached work stays inside its boundary, a write is in one place, a nested record satisfies every scope around it. */
module AuditTheorems {
  import opened Wrappers
  import opened AuditModel

  // ---------------------------------------------------------------------------------------------
  // The forest
  // ---------------------------------------------------------------------------------------------

  lemma {:induction false} WithinIsBefore(scopes: seq<Scope>, s: nat, target: nat)
    requires IsWithin(scopes, s, target)
    ensures target <= s
    decreases s
  {
    if s != target { WithinIsBefore(scopes, scopes[s].parent.value, target); }
  }

  lemma {:induction false} WithinTrans(scopes: seq<Scope>, a: nat, b: nat, c: nat)
    requires IsWithin(scopes, a, b) && IsWithin(scopes, b, c)
    ensures IsWithin(scopes, a, c)
    decreases a
  {
    if a != b {
      WithinTrans(scopes, scopes[a].parent.value, b, c);
    }
  }

  /** The scopes around one scope form a chain. */
  lemma {:induction false} AroundIsChain(scopes: seq<Scope>, a: nat, b: nat, c: nat)
    requires IsWithin(scopes, a, b) && IsWithin(scopes, a, c) && c <= b
    ensures IsWithin(scopes, b, c)
    decreases a
  {
    if a != b {
      var p := scopes[a].parent.value;
      WithinIsBefore(scopes, p, b);
      AroundIsChain(scopes, p, b, c);
    }
  }

  lemma {:induction false} WithinStays(st: State, next: State, s: nat, target: nat)
    requires SameForest(st, next) && s < |st.scopes|
    requires Shaped(st)
    ensures IsWithin(next.scopes, s, target) == IsWithin(st.scopes, s, target)
    decreases s
  {
    if s != target && st.scopes[s].parent.Some? {
      WithinStays(st, next, st.scopes[s].parent.value, target);
    }
  }

  /** A scope is on the same side of the detached boundary as every scope around it. */
  lemma {:induction false} SameBoundary(st: State, s: nat, target: nat)
    requires Shaped(st) && s < |st.scopes| && IsWithin(st.scopes, s, target)
    ensures target < |st.scopes| && st.scopes[s].detached == st.scopes[target].detached
    decreases s
  {
    if s != target { SameBoundary(st, st.scopes[s].parent.value, target); }
  }

  lemma HoldsTrans(st: State, outer: Option<nat>, inner: Option<nat>, origin: Option<nat>)
    requires Shaped(st) && InScopes(st.scopes, origin) && InScopes(st.scopes, inner)
    requires HoldsScope(st.scopes, outer, inner) && HoldsScope(st.scopes, inner, origin)
    ensures HoldsScope(st.scopes, outer, origin)
  {
    if inner.Some? {
      if outer.Some? { WithinTrans(st.scopes, origin.value, inner.value, outer.value); }
      SameBoundary(st, origin.value, inner.value);
    }
  }

  lemma HoldsStays(st: State, next: State, holder: Option<nat>, origin: Option<nat>)
    requires Shaped(st) && SameForest(st, next) && InScopes(st.scopes, origin)
    ensures HoldsScope(next.scopes, holder, origin) == HoldsScope(st.scopes, holder, origin)
  {
    if origin.Some? && holder.Some? { WithinStays(st, next, origin.value, holder.value); }
  }

  // ---------------------------------------------------------------------------------------------
  // A closed scope is final
  // ---------------------------------------------------------------------------------------------

  ghost predicate Same(a: Scope, b: Scope) {
    a.writes == b.writes && a.entries == b.entries && a.closed == b.closed
  }

  lemma ClosedIsFinal(st: State, e: Event, s: nat)
    requires Shaped(st) && s < |st.scopes| && st.scopes[s].closed
    ensures s < |Step(st, e).scopes| && Same(Step(st, e).scopes[s], st.scopes[s])
  {
    StepShaped(st, e);
    match e
    case NoteWrite(ctx, what) =>
      if Enabled(st, e) && !ctx.bookkeeping {
        ClosedSurvivesDelivery(WriteOnRecord(st, ctx, what), ctx, [Write(what, |st.noted|)], [], s);
      }
    case NoteEntry(ctx) =>
      if Enabled(st, e) { ClosedSurvivesDelivery(EntryOnRecord(st, ctx), ctx, [], [|st.entriesFrom|], s); }
    case _ =>
  }

  lemma ClosedSurvivesDelivery(st: State, ctx: Context, writes: seq<Write>, entries: seq<nat>, s: nat)
    requires InContext(st, ctx) && s < |st.scopes| && st.scopes[s].closed
    ensures Same(Delivered(st, ctx, writes, entries).scopes[s], st.scopes[s])
  {
  }

  lemma RunOneMore(before: seq<Event>, after: seq<Event>)
    requires after != []
    ensures Run(before + after) == Step(Run(before + after[..|after|-1]), after[|after|-1])
  {
    hide Step, Shaped;
    assert (before + after)[..|before + after|-1] == before + after[..|after|-1];
  }

  /** Over any later run too. */
  lemma {:induction false} ClosedIsFinalForever(before: seq<Event>, after: seq<Event>, s: nat)
    requires s < |Run(before).scopes| && Run(before).scopes[s].closed
    ensures s < |Run(before + after).scopes| && Same(Run(before + after).scopes[s], Run(before).scopes[s])
    decreases |after|
  {
    hide Step, Shaped, Run;
    if after == [] {
      assert before + after == before;
    } else {
      var n := |after| - 1;
      ClosedIsFinalForever(before, after[..n], s);
      RunOneMore(before, after);
      ClosedIsFinal(Run(before + after[..n]), after[n], s);
    }
  }

  // ---------------------------------------------------------------------------------------------
  // Work stays inside the scopes it was noted in
  // ---------------------------------------------------------------------------------------------

  ghost predicate WritesHeld(st: State, holder: Option<nat>, writes: seq<Write>) {
    forall k :: 0 <= k < |writes| ==>
      writes[k].note < |st.writesFrom| && HoldsScope(st.scopes, holder, st.writesFrom[writes[k].note])
  }

  ghost predicate EntriesHeld(st: State, holder: Option<nat>, entries: seq<nat>) {
    forall k :: 0 <= k < |entries| ==>
      entries[k] < |st.entriesFrom| && HoldsScope(st.scopes, holder, st.entriesFrom[entries[k]])
  }

  /** Whatever a scope or a tally holds was noted in a scope it may hold work of. */
  ghost predicate Homed(st: State) {
    && (forall s :: 0 <= s < |st.scopes| ==>
          WritesHeld(st, Some(s), st.scopes[s].writes) && EntriesHeld(st, Some(s), st.scopes[s].entries))
    && (forall t :: 0 <= t < |st.tallies| ==>
          WritesHeld(st, st.tallies[t].scope, st.tallies[t].writes) && EntriesHeld(st, st.tallies[t].scope, st.tallies[t].entries))
  }

  lemma HeldStays(st: State, next: State, holder: Option<nat>, writes: seq<Write>, entries: seq<nat>)
    requires Shaped(st) && SameForest(st, next) && WritesHeld(st, holder, writes) && EntriesHeld(st, holder, entries)
    ensures WritesHeld(next, holder, writes) && EntriesHeld(next, holder, entries)
  {
    forall k | 0 <= k < |writes|
      ensures writes[k].note < |next.writesFrom| && HoldsScope(next.scopes, holder, next.writesFrom[writes[k].note])
    {
      HoldsStays(st, next, holder, st.writesFrom[writes[k].note]);
    }
    forall k | 0 <= k < |entries|
      ensures entries[k] < |next.entriesFrom| && HoldsScope(next.scopes, holder, next.entriesFrom[entries[k]])
    {
      HoldsStays(st, next, holder, st.entriesFrom[entries[k]]);
    }
  }

  lemma HeldOuter(st: State, outer: Option<nat>, inner: Option<nat>, writes: seq<Write>, entries: seq<nat>)
    requires Shaped(st) && InScopes(st.scopes, inner) && HoldsScope(st.scopes, outer, inner)
    requires WritesHeld(st, inner, writes) && EntriesHeld(st, inner, entries)
    ensures WritesHeld(st, outer, writes) && EntriesHeld(st, outer, entries)
  {
    forall k | 0 <= k < |writes| ensures HoldsScope(st.scopes, outer, st.writesFrom[writes[k].note]) {
      HoldsTrans(st, outer, inner, st.writesFrom[writes[k].note]);
    }
    forall k | 0 <= k < |entries| ensures HoldsScope(st.scopes, outer, st.entriesFrom[entries[k]]) {
      HoldsTrans(st, outer, inner, st.entriesFrom[entries[k]]);
    }
  }

  /** Nothing moves in or out of a scope or tally: what was held is held. */
  lemma HomedStays(st: State, next: State)
    requires Shaped(st) && SameForest(st, next) && Homed(st)
    requires forall s :: 0 <= s < |next.scopes| ==>
      if s < |st.scopes| then next.scopes[s].writes == st.scopes[s].writes && next.scopes[s].entries == st.scopes[s].entries
      else next.scopes[s].writes == [] && next.scopes[s].entries == []
    requires forall t :: 0 <= t < |next.tallies| ==>
      if t < |st.tallies| then
        next.tallies[t].scope == st.tallies[t].scope
        && next.tallies[t].writes == st.tallies[t].writes && next.tallies[t].entries == st.tallies[t].entries
      else next.tallies[t].writes == [] && next.tallies[t].entries == []
    ensures Homed(next)
  {
    hide SameForest, Shaped;
    forall s | 0 <= s < |next.scopes|
      ensures WritesHeld(next, Some(s), next.scopes[s].writes) && EntriesHeld(next, Some(s), next.scopes[s].entries)
    {
      if s < |st.scopes| { HeldStays(st, next, Some(s), st.scopes[s].writes, st.scopes[s].entries); }
    }
    forall t | 0 <= t < |next.tallies|
      ensures WritesHeld(next, next.tallies[t].scope, next.tallies[t].writes)
      ensures EntriesHeld(next, next.tallies[t].scope, next.tallies[t].entries)
    {
      if t < |st.tallies| { HeldStays(st, next, st.tallies[t].scope, st.tallies[t].writes, st.tallies[t].entries); }
    }
  }

  lemma IntoTallyHomed(st: State, t: nat, writes: seq<Write>, entries: seq<nat>)
    requires Shaped(st) && Homed(st) && t < |st.tallies|
    requires WritesHeld(st, st.tallies[t].scope, writes) && EntriesHeld(st, st.tallies[t].scope, entries)
    ensures Homed(IntoTally(st, t, writes, entries))
  {
    var next := IntoTally(st, t, writes, entries);
    var tally := st.tallies[t];
    forall u | 0 <= u < |next.tallies|
      ensures WritesHeld(next, next.tallies[u].scope, next.tallies[u].writes)
      ensures EntriesHeld(next, next.tallies[u].scope, next.tallies[u].entries)
    {
      assert WritesHeld(st, st.tallies[u].scope, st.tallies[u].writes);
    }
    forall s | 0 <= s < |next.scopes|
      ensures WritesHeld(next, Some(s), next.scopes[s].writes) && EntriesHeld(next, Some(s), next.scopes[s].entries)
    {
      assert WritesHeld(st, Some(s), st.scopes[s].writes);
    }
  }

  lemma IntoScopeHomed(st: State, s: nat, writes: seq<Write>, entries: seq<nat>)
    requires Shaped(st) && Homed(st) && s < |st.scopes|
    requires WritesHeld(st, Some(s), writes) && EntriesHeld(st, Some(s), entries)
    ensures Homed(IntoScope(st, s, writes, entries))
  {
    var next := IntoScope(st, s, writes, entries);
    IntoScopeShaped(st, s, writes, entries);
    IntoScopeAt(st, s, writes, entries);
    hide IntoScope, SameForest, Shaped;
    forall i | 0 <= i < |next.scopes|
      ensures WritesHeld(next, Some(i), next.scopes[i].writes) && EntriesHeld(next, Some(i), next.scopes[i].entries)
    {
      var w := if i == s then writes else [];
      var es := if IsWithin(st.scopes, s, i) && !st.scopes[i].closed then entries else [];
      if es != [] { HeldOuter(st, Some(i), Some(s), [], entries); }
      HeldStays(st, next, Some(i), st.scopes[i].writes + w, st.scopes[i].entries + es);
    }
    forall t | 0 <= t < |next.tallies|
      ensures WritesHeld(next, next.tallies[t].scope, next.tallies[t].writes)
      ensures EntriesHeld(next, next.tallies[t].scope, next.tallies[t].entries)
    {
      HeldStays(st, next, st.tallies[t].scope, st.tallies[t].writes, st.tallies[t].entries);
    }
  }

  /** What counting work in a scope changes, scope by scope. */
  lemma IntoScopeAt(st: State, s: nat, writes: seq<Write>, entries: seq<nat>)
    requires Shaped(st) && s < |st.scopes|
    ensures var next := IntoScope(st, s, writes, entries);
      && |next.scopes| == |st.scopes| && next == st.(scopes := next.scopes)
      && forall i :: 0 <= i < |st.scopes| ==>
        && next.scopes[i].closed == st.scopes[i].closed && next.scopes[i].parent == st.scopes[i].parent
        && next.scopes[i].writes == st.scopes[i].writes + (if i == s then writes else [])
        && next.scopes[i].entries ==
             st.scopes[i].entries + (if IsWithin(st.scopes, s, i) && !st.scopes[i].closed then entries else [])
  {
    var written := st.scopes[s := st.scopes[s].(writes := st.scopes[s].writes + writes)];
    var middle := st.(scopes := written);
    assert SameForest(st, middle);
    forall i | 0 <= i < |st.scopes| ensures IsWithin(written, s, i) == IsWithin(st.scopes, s, i) {
      WithinStays(st, middle, s, i);
    }
  }

  lemma DeliveredHomed(st: State, ctx: Context, writes: seq<Write>, entries: seq<nat>)
    requires Shaped(st) && Homed(st) && InContext(st, ctx)
    requires WritesHeld(st, ctx.scope, writes) && EntriesHeld(st, ctx.scope, entries)
    ensures Homed(Delivered(st, ctx, writes, entries))
  {
    LostShaped(st, writes);
    HomedStays(st, Lost(st, writes));
    hide Shaped, Homed, IntoTally, IntoScope, Lost, SameForest;
    if ctx.tally.Some? && HoldsScope(st.scopes, st.tallies[ctx.tally.value].scope, ctx.scope) {
      HeldOuter(st, st.tallies[ctx.tally.value].scope, ctx.scope, writes, entries);
      IntoTallyHomed(st, ctx.tally.value, writes, entries);
    }
    if ctx.scope.Some? { IntoScopeHomed(st, ctx.scope.value, writes, entries); }
  }

  lemma FlushedHomed(st: State, t: nat)
    requires Shaped(st) && Homed(st) && t < |st.tallies|
    ensures Homed(Flushed(st, t))
  {
    var tally := st.tallies[t];
    var done := Settled(st, t);
    SettledShaped(st, t);
    HomedStays(st, done);
    LostShaped(done, tally.writes);
    HomedStays(done, Lost(done, tally.writes));
    HeldStays(st, done, tally.scope, tally.writes, tally.entries);
    assert done.tallies[t].scope == tally.scope;
    assert tally.parent.Some? ==> done.tallies[tally.parent.value].scope == st.tallies[tally.parent.value].scope;
    assert InScopes(st.scopes, tally.scope) && done.scopes == st.scopes;
    hide Shaped, Homed, IntoTally, IntoScope, Lost, SameForest, Settled;
    if tally.parent.Some? && HoldsScope(st.scopes, st.tallies[tally.parent.value].scope, tally.scope) {
      HeldOuter(done, st.tallies[tally.parent.value].scope, tally.scope, tally.writes, tally.entries);
      IntoTallyHomed(done, tally.parent.value, tally.writes, tally.entries);
    }
    if tally.scope.Some? { IntoScopeHomed(done, tally.scope.value, tally.writes, tally.entries); }
  }

  lemma HoldsItself(st: State, s: Option<nat>)
    ensures HoldsScope(st.scopes, s, s)
  {
  }

  lemma WriteNotedHomed(st: State, ctx: Context, what: string)
    requires Shaped(st) && Homed(st) && InContext(st, ctx)
    ensures Homed(WriteNoted(st, ctx, what))
  {
    if !ctx.bookkeeping {
      var on := WriteOnRecord(st, ctx, what);
      OnRecordShaped(st, ctx, what);
      HomedStays(st, on);
      HoldsItself(on, ctx.scope);
      hide Shaped, SameForest, Homed, Delivered;
      assert WritesHeld(on, ctx.scope, [Write(what, |st.noted|)]);
      DeliveredHomed(on, ctx, [Write(what, |st.noted|)], []);
    }
  }

  lemma EntryNotedHomed(st: State, ctx: Context)
    requires Shaped(st) && Homed(st) && InContext(st, ctx)
    ensures Homed(EntryNoted(st, ctx))
  {
    var on := EntryOnRecord(st, ctx);
    OnRecordShaped(st, ctx, "");
    HomedStays(st, on);
    HoldsItself(on, ctx.scope);
    hide Shaped, SameForest, Homed, Delivered;
    DeliveredHomed(on, ctx, [], [|st.entriesFrom|]);
  }

  lemma StepHomed(st: State, e: Event)
    requires Shaped(st) && Homed(st)
    ensures Homed(Step(st, e))
  {
    StepShaped(st, e);
    if Enabled(st, e) && (e.Fulfil? || e.NoteWrite? || e.NoteEntry?) {
      hide Shaped, SameForest, Homed, Flushed, WriteNoted, EntryNoted;
      match e
      case Fulfil(t) => FlushedHomed(st, t);
      case NoteWrite(ctx, what) => WriteNotedHomed(st, ctx, what);
      case NoteEntry(ctx) => EntryNotedHomed(st, ctx);
    } else {
      hide Shaped, SameForest, Homed, Flushed, WriteNoted, EntryNoted;
      HomedStays(st, Step(st, e));
    }
  }

  lemma {:induction false} RunHomed(events: seq<Event>)
    ensures Homed(Run(events))
    decreases |events|
  {
    if events != [] {
      RunHomed(events[..|events|-1]);
      StepHomed(Run(events[..|events|-1]), events[|events|-1]);
    }
  }

  /** A detached root and everything opened inside it. */
  ghost predicate DetachedRoot(st: State, r: nat) {
    r < |st.scopes| && st.scopes[r].detached && st.scopes[r].parent.None?
  }

  predicate NotedIn(from: seq<Option<nat>>, n: nat, origin: nat) {
    n < |from| && from[n] == Some(origin)
  }

  /**
   Nothing noted inside a detached scope's subtree is ever counted in a scope outside it, or held by a tally
   opened outside it, however the tallies nest.
   */
  lemma DetachedIsolated(events: seq<Event>, r: nat, s: nat, origin: nat)
    requires var st := Run(events);
      DetachedRoot(st, r) && s < |st.scopes| && origin < |st.scopes| && IsWithin(st.scopes, origin, r)
    ensures var st := Run(events);
      && (forall w :: w in st.scopes[s].writes && NotedIn(st.writesFrom, w.note, origin) ==> IsWithin(st.scopes, s, r))
      && (forall n :: n in st.scopes[s].entries && NotedIn(st.entriesFrom, n, origin) ==> IsWithin(st.scopes, s, r))
      && (forall t, w :: 0 <= t < |st.tallies| && w in st.tallies[t].writes && NotedIn(st.writesFrom, w.note, origin) ==>
            st.tallies[t].scope.Some? && IsWithin(st.scopes, st.tallies[t].scope.value, r))
      && (forall t, n :: 0 <= t < |st.tallies| && n in st.tallies[t].entries && NotedIn(st.entriesFrom, n, origin) ==>
            st.tallies[t].scope.Some? && IsWithin(st.scopes, st.tallies[t].scope.value, r))
  {
    var st := Run(events);
    RunHomed(events);
    forall w | w in st.scopes[s].writes && NotedIn(st.writesFrom, w.note, origin) ensures IsWithin(st.scopes, s, r) {
      var k :| 0 <= k < |st.scopes[s].writes| && st.scopes[s].writes[k] == w;
      assert WritesHeld(st, Some(s), st.scopes[s].writes);
      InsideRoot(st, origin, r, s);
    }
    forall n | n in st.scopes[s].entries && NotedIn(st.entriesFrom, n, origin) ensures IsWithin(st.scopes, s, r) {
      var k :| 0 <= k < |st.scopes[s].entries| && st.scopes[s].entries[k] == n;
      assert EntriesHeld(st, Some(s), st.scopes[s].entries);
      InsideRoot(st, origin, r, s);
    }
    forall t, w | 0 <= t < |st.tallies| && w in st.tallies[t].writes && NotedIn(st.writesFrom, w.note, origin)
      ensures st.tallies[t].scope.Some? && IsWithin(st.scopes, st.tallies[t].scope.value, r)
    {
      var k :| 0 <= k < |st.tallies[t].writes| && st.tallies[t].writes[k] == w;
      assert WritesHeld(st, st.tallies[t].scope, st.tallies[t].writes);
      SameBoundary(st, origin, r);
      InsideRoot(st, origin, r, st.tallies[t].scope.value);
    }
    forall t, n | 0 <= t < |st.tallies| && n in st.tallies[t].entries && NotedIn(st.entriesFrom, n, origin)
      ensures st.tallies[t].scope.Some? && IsWithin(st.scopes, st.tallies[t].scope.value, r)
    {
      var k :| 0 <= k < |st.tallies[t].entries| && st.tallies[t].entries[k] == n;
      assert EntriesHeld(st, st.tallies[t].scope, st.tallies[t].entries);
      SameBoundary(st, origin, r);
      InsideRoot(st, origin, r, st.tallies[t].scope.value);
    }
  }

  /** What is around a scope of the subtree is in the subtree, since its root has no parent. */
  lemma InsideRoot(st: State, origin: nat, r: nat, s: nat)
    requires Shaped(st) && DetachedRoot(st, r) && IsWithin(st.scopes, origin, r) && IsWithin(st.scopes, origin, s)
    ensures IsWithin(st.scopes, s, r)
  {
    if r <= s {
      AroundIsChain(st.scopes, origin, s, r);
    } else {
      AroundIsChain(st.scopes, origin, r, s);
    }
  }

  // ---------------------------------------------------------------------------------------------
  // Every write is in exactly one place
  // ---------------------------------------------------------------------------------------------

  function Times(writes: seq<Write>, w: Write): nat {
    multiset(writes)[w]
  }

  function InScopesTimes(scopes: seq<Scope>, w: Write): nat {
    if scopes == [] then 0 else InScopesTimes(scopes[..|scopes|-1], w) + Times(scopes[|scopes|-1].writes, w)
  }

  function LiveTimes(t: Tally, w: Write): nat {
    if t.settled then 0 else Times(t.writes, w)
  }

  function InTalliesTimes(tallies: seq<Tally>, w: Write): nat {
    if tallies == [] then 0 else InTalliesTimes(tallies[..|tallies|-1], w) + LiveTimes(tallies[|tallies|-1], w)
  }

  /** How often w is in a scope, in a tally that has not settled, or among the discarded ones. */
  function PlacedTimes(st: State, w: Write): nat {
    InScopesTimes(st.scopes, w) + InTalliesTimes(st.tallies, w) + Times(st.discarded, w)
  }

  ghost predicate Conserved(st: State) {
    forall w :: PlacedTimes(st, w) == Times(st.noted, w)
  }

  lemma {:induction false} ScopesUpdate(scopes: seq<Scope>, s: nat, x: Scope, w: Write)
    requires s < |scopes|
    ensures InScopesTimes(scopes[s := x], w) == InScopesTimes(scopes, w) - Times(scopes[s].writes, w) + Times(x.writes, w)
    decreases |scopes|
  {
    var n := |scopes| - 1;
    if s < n {
      ScopesUpdate(scopes[..n], s, x, w);
      assert scopes[s := x][..n] == scopes[..n][s := x];
    } else {
      assert scopes[s := x][..n] == scopes[..n];
    }
  }

  lemma {:induction false} ScopesSame(a: seq<Scope>, b: seq<Scope>, w: Write)
    requires |a| == |b| && forall i :: 0 <= i < |a| ==> a[i].writes == b[i].writes
    ensures InScopesTimes(a, w) == InScopesTimes(b, w)
    decreases |a|
  {
    if a != [] { ScopesSame(a[..|a|-1], b[..|b|-1], w); }
  }

  lemma {:induction false} TalliesUpdate(tallies: seq<Tally>, t: nat, x: Tally, w: Write)
    requires t < |tallies|
    ensures InTalliesTimes(tallies[t := x], w) == InTalliesTimes(tallies, w) - LiveTimes(tallies[t], w) + LiveTimes(x, w)
    decreases |tallies|
  {
    var n := |tallies| - 1;
    if t < n {
      TalliesUpdate(tallies[..n], t, x, w);
      assert tallies[t := x][..n] == tallies[..n][t := x];
    } else {
      assert tallies[t := x][..n] == tallies[..n];
    }
  }

  lemma LostPlaces(st: State, writes: seq<Write>, w: Write)
    ensures PlacedTimes(Lost(st, writes), w) == PlacedTimes(st, w) + Times(writes, w)
  {
  }

  lemma SettledPlaces(st: State, t: nat, w: Write)
    requires t < |st.tallies| && !st.tallies[t].settled
    ensures PlacedTimes(Settled(st, t), w) == PlacedTimes(st, w) - Times(st.tallies[t].writes, w)
  {
    TalliesUpdate(st.tallies, t, st.tallies[t].(settled := true), w);
  }

  lemma IntoTallyPlaces(st: State, t: nat, writes: seq<Write>, entries: seq<nat>, w: Write)
    requires t < |st.tallies|
    ensures PlacedTimes(IntoTally(st, t, writes, entries), w) == PlacedTimes(st, w) + Times(writes, w)
  {
    var tally := st.tallies[t];
    TalliesUpdate(st.tallies, t, tally.(writes := tally.writes + writes, entries := tally.entries + entries), w);
  }

  lemma IntoScopePlaces(st: State, s: nat, writes: seq<Write>, entries: seq<nat>, w: Write)
    requires s < |st.scopes|
    ensures PlacedTimes(IntoScope(st, s, writes, entries), w) == PlacedTimes(st, w) + Times(writes, w)
  {
    var grown := st.scopes[s].(writes := st.scopes[s].writes + writes);
    ScopesUpdate(st.scopes, s, grown, w);
    ScopesSame(st.scopes[s := grown], Bubbled(st.scopes[s := grown], s, entries), w);
  }

  lemma DeliveredPlaces(st: State, ctx: Context, writes: seq<Write>, entries: seq<nat>, w: Write)
    requires InContext(st, ctx)
    ensures PlacedTimes(Delivered(st, ctx, writes, entries), w) == PlacedTimes(st, w) + Times(writes, w)
  {
    hide PlacedTimes, IntoScope, IntoTally, Lost;
    LostPlaces(st, writes, w);
    if ctx.tally.Some? { IntoTallyPlaces(st, ctx.tally.value, writes, entries, w); }
    if ctx.scope.Some? { IntoScopePlaces(st, ctx.scope.value, writes, entries, w); }
  }

  lemma FlushedPlaces(st: State, t: nat, w: Write)
    requires Shaped(st) && t < |st.tallies| && !st.tallies[t].settled
    ensures PlacedTimes(Flushed(st, t), w) == PlacedTimes(st, w)
    ensures Flushed(st, t).noted == st.noted
  {
    var tally := st.tallies[t];
    var done := Settled(st, t);
    SettledPlaces(st, t, w);
    assert InScopes(st.scopes, tally.scope) && done.scopes == st.scopes && |done.tallies| == |st.tallies|;
    hide PlacedTimes, IntoScope, IntoTally, Lost, Settled, HoldsScope;
    LostPlaces(done, tally.writes, w);
    if tally.parent.Some? { IntoTallyPlaces(done, tally.parent.value, tally.writes, tally.entries, w); }
    if tally.scope.Some? { IntoScopePlaces(done, tally.scope.value, tally.writes, tally.entries, w); }
  }

  lemma OpeningPlaces(st: State, e: Event, w: Write)
    requires Shaped(st) && Enabled(st, e) && (e.OpenScope? || e.CloseScope? || e.OpenTally?)
    ensures PlacedTimes(Step(st, e), w) == PlacedTimes(st, w)
  {
    match e
    case OpenScope(ctx, surface, detach) => assert Step(st, e).scopes[..|st.scopes|] == st.scopes;
    case CloseScope(s) => ScopesUpdate(st.scopes, s, st.scopes[s].(closed := true), w);
    case OpenTally(ctx) => assert Step(st, e).tallies[..|st.tallies|] == st.tallies;
  }

  lemma StepConserves(st: State, e: Event)
    requires Shaped(st) && Conserved(st)
    ensures Conserved(Step(st, e))
  {
    if Enabled(st, e) {
      forall w ensures PlacedTimes(Step(st, e), w) == Times(Step(st, e).noted, w) {
        assert PlacedTimes(st, w) == Times(st.noted, w);
        StepMovesOrAdds(st, e, w);
      }
    }
  }

  lemma WriteNotedPlaces(st: State, ctx: Context, what: string, w: Write)
    requires Shaped(st) && InContext(st, ctx)
    ensures var next := WriteNoted(st, ctx, what);
      PlacedTimes(next, w) - PlacedTimes(st, w) == Times(next.noted, w) - Times(st.noted, w)
  {
    hide PlacedTimes;
    if !ctx.bookkeeping {
      var on := WriteOnRecord(st, ctx, what);
      OnRecordPlaces(st, on, w);
      DeliveredPlaces(on, ctx, [Write(what, |st.noted|)], [], w);
    }
  }

  lemma EntryNotedPlaces(st: State, ctx: Context, w: Write)
    requires Shaped(st) && InContext(st, ctx)
    ensures PlacedTimes(EntryNoted(st, ctx), w) == PlacedTimes(st, w) && EntryNoted(st, ctx).noted == st.noted
  {
    hide PlacedTimes;
    OnRecordPlaces(st, EntryOnRecord(st, ctx), w);
    DeliveredPlaces(EntryOnRecord(st, ctx), ctx, [], [|st.entriesFrom|], w);
  }

  lemma RejectedPlaces(st: State, t: nat, w: Write)
    requires Shaped(st) && t < |st.tallies| && !st.tallies[t].settled
    ensures PlacedTimes(Lost(Settled(st, t), st.tallies[t].writes), w) == PlacedTimes(st, w)
  {
    hide PlacedTimes;
    SettledPlaces(st, t, w);
    LostPlaces(Settled(st, t), st.tallies[t].writes, w);
  }

  /** One step moves writes between places, and adds exactly the write it notes. */
  lemma StepMovesOrAdds(st: State, e: Event, w: Write)
    requires Shaped(st) && Enabled(st, e)
    ensures PlacedTimes(Step(st, e), w) - PlacedTimes(st, w) == Times(Step(st, e).noted, w) - Times(st.noted, w)
  {
    hide PlacedTimes, Shaped, Flushed, WriteNoted, EntryNoted;
    match e
    case Fulfil(t) => FlushedPlaces(st, t, w);
    case Reject(t) => RejectedPlaces(st, t, w);
    case NoteWrite(ctx, what) => WriteNotedPlaces(st, ctx, what, w);
    case NoteEntry(ctx) => EntryNotedPlaces(st, ctx, w);
    case _ => OpeningPlaces(st, e, w);
  }

  lemma OnRecordPlaces(st: State, on: State, w: Write)
    requires on.scopes == st.scopes && on.tallies == st.tallies && on.discarded == st.discarded
    ensures PlacedTimes(on, w) == PlacedTimes(st, w)
  {
  }

  /** Over every run: a write is as often in a place as it was noted. */
  lemma {:induction false} RunConserves(events: seq<Event>)
    ensures Conserved(Run(events))
    decreases |events|
  {
    if events != [] {
      RunConserves(events[..|events|-1]);
      hide Conserved, Step;
      StepConserves(Run(events[..|events|-1]), events[|events|-1]);
    }
  }

  lemma {:induction false} NotedOnce(noted: seq<Write>, n: nat)
    requires forall k :: 0 <= k < |noted| ==> noted[k].note == k
    requires n < |noted|
    ensures Times(noted, noted[n]) == 1
    decreases |noted|
  {
    var m := |noted| - 1;
    assert noted == noted[..m] + [noted[m]];
    if n < m {
      assert noted[..m][n] == noted[n];
      NotedOnce(noted[..m], n);
    } else {
      assert forall k :: 0 <= k < m ==> noted[..m][k].note == k;
      assert noted[n] !in noted[..m];
    }
  }

  /** So every noted write is, at all times, in exactly one place, once. */
  lemma EachWriteInOnePlace(events: seq<Event>, n: nat)
    requires n < |Run(events).noted|
    ensures PlacedTimes(Run(events), Run(events).noted[n]) == 1
  {
    RunConserves(events);
    NotedOnce(Run(events).noted, n);
  }

  lemma {:induction false} InScopeIsPlaced(scopes: seq<Scope>, s: nat, w: Write)
    requires s < |scopes| && w in scopes[s].writes
    ensures InScopesTimes(scopes, w) >= 1
    decreases |scopes|
  {
    if s < |scopes| - 1 { InScopeIsPlaced(scopes[..|scopes|-1], s, w); }
  }

  /** A rejected transaction's writes are discarded, and a discarded write is in no other place, in any later state. */
  lemma RejectedWriteReachesNoScope(before: seq<Event>, t: nat, after: seq<Event>, w: Write, s: nat)
    requires var st := Run(before);
      t < |st.tallies| && !st.tallies[t].settled && w in st.tallies[t].writes
    requires s < |Run(before + [Reject(t)] + after).scopes|
    ensures w !in Run(before + [Reject(t)] + after).scopes[s].writes
  {
    var rejected := before + [Reject(t)];
    assert rejected[..|rejected|-1] == before;
    assert w in Run(rejected).discarded;
    DiscardedForever(rejected, after);
    var last := Run(rejected + after);
    RunConserves(rejected + after);
    assert PlacedTimes(last, w) == Times(last.noted, w);
    if w in last.noted {
      var n :| 0 <= n < |last.noted| && last.noted[n] == w;
      NotedOnce(last.noted, n);
    }
    if w in last.scopes[s].writes {
      InScopeIsPlaced(last.scopes, s, w);
    }
  }

  lemma {:induction false} DiscardedForever(before: seq<Event>, after: seq<Event>)
    ensures Run(before).discarded <= Run(before + after).discarded
    decreases |after|
  {
    if after == [] {
      assert before + after == before;
    } else {
      var n := |after| - 1;
      DiscardedForever(before, after[..n]);
      RunOneMore(before, after);
      StepShaped(Run(before + after[..n]), after[n]);
    }
  }

  // ---------------------------------------------------------------------------------------------
  // A nested record satisfies every open scope around it
  // ---------------------------------------------------------------------------------------------

  /** The entries of the scopes opened directly in s, among the first n scopes. */
  function ChildEntries(scopes: seq<Scope>, s: nat, n: nat): nat
    requires n <= |scopes|
  {
    if n == 0 then 0
    else ChildEntries(scopes, s, n - 1) + if scopes[n-1].parent == Some(s) then |scopes[n-1].entries| else 0
  }

  /** An open scope has counted at least what its child scopes counted together, and all that anything inside it did. */
  ghost predicate Covers(st: State) {
    && (forall s :: 0 <= s < |st.scopes| && !st.scopes[s].closed ==>
          ChildEntries(st.scopes, s, |st.scopes|) <= |st.scopes[s].entries|)
    && (forall s, d, n ::
          (0 <= s < |st.scopes| && !st.scopes[s].closed && 0 <= d < |st.scopes|
           && IsWithin(st.scopes, d, s) && n in st.scopes[d].entries)
          ==> n in st.scopes[s].entries)
  }

  lemma {:induction false} ChildEntriesSame(a: seq<Scope>, b: seq<Scope>, s: nat, n: nat)
    requires n <= |a| && n <= |b|
    requires forall i :: 0 <= i < n ==> a[i].parent == b[i].parent && |a[i].entries| == |b[i].entries|
    ensures ChildEntries(a, s, n) == ChildEntries(b, s, n)
    decreases n
  {
    if n > 0 { ChildEntriesSame(a, b, s, n - 1); }
  }

  /** Of the scopes opened directly in s, at most one lies on the way from x up to s. */
  lemma OneChildOnTheWay(st: State, x: nat, s: nat, c: nat, d: nat)
    requires Shaped(st) && c < |st.scopes| && d < |st.scopes|
    requires st.scopes[c].parent == Some(s) && st.scopes[d].parent == Some(s)
    requires IsWithin(st.scopes, x, c) && IsWithin(st.scopes, x, d)
    ensures c == d && IsWithin(st.scopes, x, s) && s < c
  {
    assert IsWithin(st.scopes, s, s) && IsWithin(st.scopes, c, s);
    WithinTrans(st.scopes, x, c, s);
    if c != d {
      var lo, hi := if c < d then c else d, if c < d then d else c;
      AroundIsChain(st.scopes, x, hi, lo);
      assert IsWithin(st.scopes, s, lo);
      WithinIsBefore(st.scopes, s, lo);
    }
  }

  /** Counting k entries in x raises the sum over the children of s by at most k, and not at all unless s is above x. */
  lemma {:induction false} ChildEntriesRise(st: State, next: State, x: nat, s: nat, k: nat, n: nat) returns (up: bool)
    requires Shaped(st) && n <= |st.scopes| == |next.scopes|
    requires forall i :: 0 <= i < |st.scopes| ==>
      next.scopes[i].parent == st.scopes[i].parent
      && |next.scopes[i].entries| <= |st.scopes[i].entries| + (if IsWithin(st.scopes, x, i) then k else 0)
    ensures ChildEntries(next.scopes, s, n) <= ChildEntries(st.scopes, s, n) + (if up then k else 0)
    ensures up ==> exists c :: 0 <= c < n && st.scopes[c].parent == Some(s) && IsWithin(st.scopes, x, c)
    decreases n
  {
    if n == 0 {
      up := false;
    } else {
      up := ChildEntriesRise(st, next, x, s, k, n - 1);
      if st.scopes[n-1].parent == Some(s) && IsWithin(st.scopes, x, n - 1) {
        if up {
          var c :| 0 <= c < n - 1 && st.scopes[c].parent == Some(s) && IsWithin(st.scopes, x, c);
          OneChildOnTheWay(st, x, s, c, n - 1);
        }
        up := true;
      }
    }
  }

  lemma IntoScopeCovers(st: State, x: nat, writes: seq<Write>, entries: seq<nat>)
    requires Shaped(st) && Covers(st) && x < |st.scopes|
    ensures Covers(IntoScope(st, x, writes, entries))
  {
    var next := IntoScope(st, x, writes, entries);
    IntoScopeShaped(st, x, writes, entries);
    IntoScopeAt(st, x, writes, entries);
    hide IntoScope;
    forall s | 0 <= s < |next.scopes| && !next.scopes[s].closed
      ensures ChildEntries(next.scopes, s, |next.scopes|) <= |next.scopes[s].entries|
    {
      var up := ChildEntriesRise(st, next, x, s, |entries|, |st.scopes|);
      if up {
        var c :| 0 <= c < |st.scopes| && st.scopes[c].parent == Some(s) && IsWithin(st.scopes, x, c);
        OneChildOnTheWay(st, x, s, c, c);
      }
    }
    forall s, d, n | 0 <= s < |next.scopes| && !next.scopes[s].closed && 0 <= d < |next.scopes|
        && IsWithin(next.scopes, d, s) && n in next.scopes[d].entries
      ensures n in next.scopes[s].entries
    {
      IntoScopeOuter(st, x, writes, entries, s, d, n);
    }
  }

  /** What a scope inside s counts afterwards, s counts too. */
  lemma IntoScopeOuter(st: State, x: nat, writes: seq<Write>, entries: seq<nat>, s: nat, d: nat, n: nat)
    requires Shaped(st) && Covers(st) && x < |st.scopes| && s < |st.scopes| && d < |st.scopes| && !st.scopes[s].closed
    requires var next := IntoScope(st, x, writes, entries).scopes; IsWithin(next, d, s) && n in next[d].entries
    ensures n in IntoScope(st, x, writes, entries).scopes[s].entries
  {
    var next := IntoScope(st, x, writes, entries);
    IntoScopeShaped(st, x, writes, entries);
    IntoScopeAt(st, x, writes, entries);
    hide IntoScope, IsWithin;
    WithinStays(st, next, d, s);
    hide Shaped, SameForest;
    if n !in st.scopes[d].entries { WithinTrans(st.scopes, x, d, s); }
  }

  /** Steps that count no entry keep the cover. */
  lemma QuietCovers(st: State, next: State)
    requires Shaped(st) && SameForest(st, next) && Covers(st) && |next.scopes| == |st.scopes|
    requires forall i :: 0 <= i < |st.scopes| ==> next.scopes[i].entries == st.scopes[i].entries
    ensures Covers(next)
  {
    forall s | 0 <= s < |next.scopes| && !next.scopes[s].closed
      ensures ChildEntries(next.scopes, s, |next.scopes|) <= |next.scopes[s].entries|
    {
      ChildEntriesSame(next.scopes, st.scopes, s, |st.scopes|);
    }
    forall s, d, n | 0 <= s < |next.scopes| && !next.scopes[s].closed && 0 <= d < |next.scopes|
        && IsWithin(next.scopes, d, s) && n in next.scopes[d].entries
      ensures n in next.scopes[s].entries
    {
      WithinStays(st, next, d, s);
    }
  }

  lemma OpenedCovers(st: State, ctx: Context, surface: string, detach: bool)
    requires Shaped(st) && Covers(st) && InContext(st, ctx)
    ensures Covers(Opened(st, ctx, surface, detach))
  {
    var next := Opened(st, ctx, surface, detach);
    var n := |st.scopes|;
    forall s | 0 <= s < |next.scopes| && !next.scopes[s].closed
      ensures ChildEntries(next.scopes, s, |next.scopes|) <= |next.scopes[s].entries|
    {
      ChildEntriesSame(next.scopes, st.scopes, s, n);
      if s == n { NoChildYet(st, n, n); }
    }
    forall s, d, e | 0 <= s < |next.scopes| && !next.scopes[s].closed && 0 <= d < |next.scopes|
        && IsWithin(next.scopes, d, s) && e in next.scopes[d].entries
      ensures e in next.scopes[s].entries
    {
      WithinStays(st, next, d, s);
      WithinIsBefore(next.scopes, d, s);
    }
  }

  lemma {:induction false} NoChildYet(st: State, s: nat, n: nat)
    requires Shaped(st) && n <= |st.scopes| <= s
    ensures ChildEntries(st.scopes, s, n) == 0
    decreases n
  {
    if n > 0 { NoChildYet(st, s, n - 1); }
  }

  lemma DeliveredCovers(st: State, ctx: Context, writes: seq<Write>, entries: seq<nat>)
    requires Shaped(st) && Covers(st) && InContext(st, ctx)
    ensures Covers(Delivered(st, ctx, writes, entries))
  {
    DeliveredShaped(st, ctx, writes, entries);
    if ctx.scope.Some? { IntoScopeCovers(st, ctx.scope.value, writes, entries); }
    hide Covers, HoldsScope;
    var next := Delivered(st, ctx, writes, entries);
    if next.scopes == st.scopes { QuietCovers(st, next); }
  }

  lemma FlushedCovers(st: State, t: nat)
    requires Shaped(st) && Covers(st) && t < |st.tallies|
    ensures Covers(Flushed(st, t))
  {
    var tally := st.tallies[t];
    var done := Settled(st, t);
    SettledShaped(st, t);
    QuietCovers(st, done);
    FlushedShaped(st, t);
    if tally.scope.Some? { IntoScopeCovers(done, tally.scope.value, tally.writes, tally.entries); }
    hide Covers, HoldsScope;
    var next := Flushed(st, t);
    if next.scopes == st.scopes { QuietCovers(st, next); }
  }

  lemma StepCovers(st: State, e: Event)
    requires Shaped(st) && Covers(st)
    ensures Covers(Step(st, e))
  {
    StepShaped(st, e);
    hide Covers;
    if Enabled(st, e) {
      match e
      case OpenScope(ctx, surface, detach) => OpenedCovers(st, ctx, surface, detach);
      case Fulfil(t) => FlushedCovers(st, t);
      case NoteWrite(ctx, what) =>
        if !ctx.bookkeeping {
          OnRecordShaped(st, ctx, what);
          QuietCovers(st, WriteOnRecord(st, ctx, what));
          DeliveredCovers(WriteOnRecord(st, ctx, what), ctx, [Write(what, |st.noted|)], []);
        }
      case NoteEntry(ctx) =>
        OnRecordShaped(st, ctx, "");
        QuietCovers(st, EntryOnRecord(st, ctx));
        DeliveredCovers(EntryOnRecord(st, ctx), ctx, [], [|st.entriesFrom|]);
      case _ => QuietCovers(st, Step(st, e));
    }
  }

  lemma {:induction false} RunCovers(events: seq<Event>)
    ensures Covers(Run(events))
    decreases |events|
  {
    if events != [] {
      RunCovers(events[..|events|-1]);
      hide Covers, Step;
      StepCovers(Run(events[..|events|-1]), events[|events|-1]);
    }
  }

  // ---------------------------------------------------------------------------------------------
  // The check
  // ---------------------------------------------------------------------------------------------

  /** The check a scope is held to when its work has succeeded. */
  predicate Audited(scope: Scope, unaudited: set<string>) {
    |scope.writes| == 0 || |scope.entries| > 0 || scope.surface in unaudited
  }

  /**
   A scope that wrote and is not exempt passes exactly when an entry was counted in it, and every such entry was
   recorded inside it, on its own side of any detached boundary.
   */
  lemma PassedMeansRecordedInside(events: seq<Event>, s: nat, unaudited: set<string>)
    requires s < |Run(events).scopes|
    requires |Run(events).scopes[s].writes| > 0 && Run(events).scopes[s].surface !in unaudited
    ensures var st := Run(events);
      Audited(st.scopes[s], unaudited) <==>
        exists n, origin :: n in st.scopes[s].entries && NotedIn(st.entriesFrom, n, origin)
          && IsWithin(st.scopes, origin, s) && IsDetached(st.scopes, origin) == IsDetached(st.scopes, s)
  {
    var st := Run(events);
    RunHomed(events);
    if |st.scopes[s].entries| > 0 {
      var n := st.scopes[s].entries[0];
      assert EntriesHeld(st, Some(s), st.scopes[s].entries);
      var origin := st.entriesFrom[n].value;
      SameBoundary(st, origin, s);
      assert n in st.scopes[s].entries && NotedIn(st.entriesFrom, n, origin);
    }
  }

  /** While the entry point is open, whatever was recorded in a scope inside it lets it pass. */
  lemma NestedRecordSatisfies(events: seq<Event>, s: nat, inner: nat, unaudited: set<string>)
    requires var st := Run(events);
      s < |st.scopes| && !st.scopes[s].closed && inner < |st.scopes| && IsWithin(st.scopes, inner, s)
      && |st.scopes[inner].entries| > 0
    ensures Audited(Run(events).scopes[s], unaudited)
  {
    RunCovers(events);
    var st := Run(events);
    hide Run, IsWithin;
    assert st.scopes[inner].entries[0] in st.scopes[inner].entries;
  }
}
