/** Where noted entries go: an entry is buffered in at most one live tally, and in no scope while it is, so what a
    rejected transaction buffered reaches no scope. */
module AuditEntries {
  import opened Wrappers
  import opened AuditModel
  import opened AuditTheorems

  function LiveEntry(t: Tally, n: nat): nat {
    if t.settled then 0 else multiset(t.entries)[n]
  }

  /** How often an entry is buffered in tallies that have not settled. */
  function LiveEntries(tallies: seq<Tally>, n: nat): nat {
    if tallies == [] then 0 else LiveEntries(tallies[..|tallies|-1], n) + LiveEntry(tallies[|tallies|-1], n)
  }

  ghost predicate InAScope(scopes: seq<Scope>, n: nat) {
    exists s :: 0 <= s < |scopes| && n in scopes[s].entries
  }

  /** An entry is buffered once, or counted in scopes, or neither; and it was noted. */
  ghost predicate Apart(st: State, n: nat) {
    && LiveEntries(st.tallies, n) <= 1
    && (LiveEntries(st.tallies, n) > 0 ==> !InAScope(st.scopes, n))
    && (LiveEntries(st.tallies, n) > 0 || InAScope(st.scopes, n) ==> n < |st.entriesFrom|)
  }

  /** A noted entry that is buffered nowhere and counted nowhere. */
  ghost predicate IsGone(st: State, n: nat) {
    n < |st.entriesFrom| && LiveEntries(st.tallies, n) == 0 && !InAScope(st.scopes, n)
  }

  /** The entries es go to one tally, to scopes, or nowhere. */
  ghost predicate Given(st: State, next: State, es: seq<nat>, n: nat) {
    && next.entriesFrom == st.entriesFrom
    && ((LiveEntries(next.tallies, n) == LiveEntries(st.tallies, n) + multiset(es)[n] && (InAScope(next.scopes, n) ==> InAScope(st.scopes, n)))
        || (LiveEntries(next.tallies, n) == LiveEntries(st.tallies, n) && (InAScope(next.scopes, n) ==> InAScope(st.scopes, n) || n in es)))
  }

  lemma {:induction false} LiveUpdate(tallies: seq<Tally>, t: nat, x: Tally, n: nat)
    requires t < |tallies|
    ensures LiveEntries(tallies[t := x], n) == LiveEntries(tallies, n) - LiveEntry(tallies[t], n) + LiveEntry(x, n)
    decreases |tallies|
  {
    var last := |tallies| - 1;
    if t < last {
      LiveUpdate(tallies[..last], t, x, n);
      assert tallies[t := x][..last] == tallies[..last][t := x];
    } else {
      assert tallies[t := x][..last] == tallies[..last];
    }
  }

  lemma {:induction false} LiveAt(tallies: seq<Tally>, t: nat, n: nat)
    requires t < |tallies|
    ensures LiveEntry(tallies[t], n) <= LiveEntries(tallies, n)
    decreases |tallies|
  {
    if t < |tallies| - 1 { LiveAt(tallies[..|tallies|-1], t, n); }
  }

  lemma LostGiven(st: State, writes: seq<Write>, es: seq<nat>, n: nat)
    ensures Given(st, Lost(st, writes), es, n)
  { }

  lemma IntoTallyGiven(st: State, t: nat, writes: seq<Write>, es: seq<nat>, n: nat)
    requires t < |st.tallies|
    ensures Given(st, IntoTally(st, t, writes, es), es, n)
  {
    var tally := st.tallies[t];
    LiveUpdate(st.tallies, t, tally.(writes := tally.writes + writes, entries := tally.entries + es), n);
    hide LiveEntries;
  }

  lemma IntoScopeGiven(st: State, s: nat, writes: seq<Write>, es: seq<nat>, n: nat)
    requires Shaped(st) && s < |st.scopes|
    ensures Given(st, IntoScope(st, s, writes, es), es, n)
  {
    var next := IntoScope(st, s, writes, es);
    IntoScopeAt(st, s, writes, es);
    hide Shaped, IntoScope;
    if InAScope(next.scopes, n) && n !in es {
      var i :| 0 <= i < |next.scopes| && n in next.scopes[i].entries;
      assert n in st.scopes[i].entries;
    }
  }

  lemma DeliveredGiven(st: State, ctx: Context, writes: seq<Write>, es: seq<nat>, n: nat)
    requires Shaped(st) && InContext(st, ctx)
    ensures Given(st, Delivered(st, ctx, writes, es), es, n)
  {
    hide Given, Shaped, IntoScope, IntoTally, Lost, HoldsScope;
    LostGiven(st, writes, es, n);
    if ctx.tally.Some? { IntoTallyGiven(st, ctx.tally.value, writes, es, n); }
    if ctx.scope.Some? { IntoScopeGiven(st, ctx.scope.value, writes, es, n); }
  }

  lemma FlushedGiven(st: State, t: nat, n: nat)
    requires Shaped(st) && t < |st.tallies| && !st.tallies[t].settled
    ensures Given(Settled(st, t), Flushed(st, t), st.tallies[t].entries, n)
  {
    var tally := st.tallies[t];
    var done := Settled(st, t);
    SettledShaped(st, t);
    assert InScopes(st.scopes, tally.scope) && done.scopes == st.scopes && |done.tallies| == |st.tallies|;
    assert tally.parent.Some? ==> tally.parent.value < |done.tallies|;
    hide Given, Shaped, SameForest, IntoScope, IntoTally, Lost, Settled, HoldsScope;
    LostGiven(done, tally.writes, tally.entries, n);
    if tally.parent.Some? { IntoTallyGiven(done, tally.parent.value, tally.writes, tally.entries, n); }
    if tally.scope.Some? { IntoScopeGiven(done, tally.scope.value, tally.writes, tally.entries, n); }
  }

  /** Settling a live tally takes its entries out of the live ones. */
  lemma SettledTakes(st: State, t: nat, n: nat)
    requires t < |st.tallies| && !st.tallies[t].settled
    ensures LiveEntries(Settled(st, t).tallies, n) == LiveEntries(st.tallies, n) - multiset(st.tallies[t].entries)[n]
    ensures multiset(st.tallies[t].entries)[n] <= LiveEntries(st.tallies, n)
    ensures Settled(st, t).scopes == st.scopes && Settled(st, t).entriesFrom == st.entriesFrom
  {
    LiveUpdate(st.tallies, t, st.tallies[t].(settled := true), n);
    LiveAt(st.tallies, t, n);
  }

  lemma FulfilApart(st: State, t: nat, n: nat)
    requires Shaped(st) && t < |st.tallies| && !st.tallies[t].settled && Apart(st, n)
    ensures Apart(Flushed(st, t), n) && (IsGone(st, n) ==> IsGone(Flushed(st, t), n))
  {
    SettledTakes(st, t, n);
    FlushedGiven(st, t, n);
    hide Shaped, Flushed, Settled, InAScope, LiveEntries;
    assert n in st.tallies[t].entries ==> multiset(st.tallies[t].entries)[n] > 0;
  }

  lemma RejectApart(st: State, t: nat, n: nat)
    requires Shaped(st) && t < |st.tallies| && !st.tallies[t].settled && Apart(st, n)
    ensures var next := Step(st, Reject(t));
      && Apart(next, n) && (IsGone(st, n) ==> IsGone(next, n))
      && (n in st.tallies[t].entries ==> IsGone(next, n))
  {
    SettledTakes(st, t, n);
    hide Settled, InAScope, LiveEntries;
    assert n in st.tallies[t].entries ==> multiset(st.tallies[t].entries)[n] > 0;
  }

  lemma NoteApart(st: State, ctx: Context, writes: seq<Write>, es: seq<nat>, on: State, n: nat)
    requires Shaped(on) && InContext(on, ctx) && on.tallies == st.tallies && on.scopes == st.scopes && Apart(st, n)
    requires (es == [] && on.entriesFrom == st.entriesFrom) || (es == [|st.entriesFrom|] && |on.entriesFrom| == |st.entriesFrom| + 1)
    ensures Apart(Delivered(on, ctx, writes, es), n) && (IsGone(st, n) ==> IsGone(Delivered(on, ctx, writes, es), n))
  {
    DeliveredGiven(on, ctx, writes, es, n);
    hide Shaped, Delivered, InAScope, LiveEntries;
    assert multiset(es)[n] == if es == [n] then 1 else 0;
  }

  lemma OpeningApart(st: State, e: Event, n: nat)
    requires Shaped(st) && Enabled(st, e) && (e.OpenScope? || e.CloseScope? || e.OpenTally?) && Apart(st, n)
    ensures Apart(Step(st, e), n) && (IsGone(st, n) ==> IsGone(Step(st, e), n))
  {
    var next := Step(st, e);
    if e.OpenTally? { assert next.tallies[..|st.tallies|] == st.tallies; }
    if InAScope(next.scopes, n) {
      var s :| 0 <= s < |next.scopes| && n in next.scopes[s].entries;
      assert s < |st.scopes| && n in st.scopes[s].entries;
    }
    forall s | 0 <= s < |st.scopes| && n in st.scopes[s].entries ensures InAScope(next.scopes, n) {
      assert n in next.scopes[s].entries;
    }
  }

  /** One step keeps an entry apart, and what is gone stays gone. */
  lemma StepApart(st: State, e: Event, n: nat)
    requires Shaped(st) && Apart(st, n)
    ensures Apart(Step(st, e), n) && (IsGone(st, n) ==> IsGone(Step(st, e), n))
  {
    hide Apart, IsGone, Delivered, Flushed, Opened, Closed, TallyOpened;
    if Enabled(st, e) {
      match e
      case Fulfil(t) => FulfilApart(st, t, n);
      case Reject(t) => RejectApart(st, t, n);
      case NoteWrite(ctx, what) =>
        if !ctx.bookkeeping {
          OnRecordShaped(st, ctx, what);
          NoteApart(st, ctx, [Write(what, |st.noted|)], [], WriteOnRecord(st, ctx, what), n);
        }
      case NoteEntry(ctx) =>
        OnRecordShaped(st, ctx, "");
        NoteApart(st, ctx, [], [|st.entriesFrom|], EntryOnRecord(st, ctx), n);
      case _ => OpeningApart(st, e, n);
    }
  }

  lemma {:induction false} RunApart(events: seq<Event>, n: nat)
    ensures Apart(Run(events), n)
    decreases |events|
  {
    if events != [] {
      RunApart(events[..|events|-1], n);
      hide Apart, Step, IsGone;
      StepApart(Run(events[..|events|-1]), events[|events|-1], n);
    }
  }

  lemma {:induction false} GoneForever(before: seq<Event>, after: seq<Event>, n: nat)
    requires IsGone(Run(before), n)
    ensures IsGone(Run(before + after), n)
    decreases |after|
  {
    if after == [] {
      assert before + after == before;
    } else {
      var m := |after| - 1;
      GoneForever(before, after[..m], n);
      RunApart(before + after[..m], n);
      RunOneMore(before, after);
      hide Apart, Step, IsGone, Run;
      StepApart(Run(before + after[..m]), after[m], n);
    }
  }

  /** An entry buffered in a transaction that rejects is in no scope in any later state. */
  lemma RejectedEntryReachesNoScope(before: seq<Event>, t: nat, after: seq<Event>, n: nat, s: nat)
    requires var st := Run(before); t < |st.tallies| && !st.tallies[t].settled && n in st.tallies[t].entries
    requires s < |Run(before + [Reject(t)] + after).scopes|
    ensures n !in Run(before + [Reject(t)] + after).scopes[s].entries
  {
    var rejected := before + [Reject(t)];
    assert rejected[..|rejected|-1] == before;
    RunApart(before, n);
    RejectApart(Run(before), t, n);
    hide Run, Apart, Step, LiveEntries;
    GoneForever(rejected, after, n);
  }

  /**
   Nothing a rejected transaction buffered reaches a scope: the rejection changes none, and neither a write nor an
   entry of it is in a scope in any later state.
   */
  lemma RejectedReachesNoScope(before: seq<Event>, t: nat, after: seq<Event>, s: nat)
    requires var st := Run(before); t < |st.tallies| && !st.tallies[t].settled
    requires s < |Run(before + [Reject(t)] + after).scopes|
    ensures var st, later := Run(before), Run(before + [Reject(t)] + after);
      && Run(before + [Reject(t)]).scopes == st.scopes
      && (forall w :: w in st.tallies[t].writes ==> w !in later.scopes[s].writes)
      && (forall n :: n in st.tallies[t].entries ==> n !in later.scopes[s].entries)
  {
    var st := Run(before);
    assert (before + [Reject(t)])[..|before|] == before;
    assert Run(before + [Reject(t)]).scopes == st.scopes;
    hide Run;
    forall w | w in st.tallies[t].writes ensures w !in Run(before + [Reject(t)] + after).scopes[s].writes {
      RejectedWriteReachesNoScope(before, t, after, w, s);
    }
    forall n | n in st.tallies[t].entries ensures n !in Run(before + [Reject(t)] + after).scopes[s].entries {
      RejectedEntryReachesNoScope(before, t, after, n, s);
    }
  }
}
