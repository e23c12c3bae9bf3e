/**
 The audit scope module itself (apps/api/src/action-context/audit-coverage.ts): scopes and tallies changed in
 place, with the walks up the parent chain as loops. Every operation is one step of the model.

 A scope or a tally is a record in a growing sequence, named by its index, and changing one reassigns its sequence.
 The async context an operation runs in is a parameter: what the storage holds at that point is the caller's, so any
 context may come with any operation, as it does when callbacks interleave.
 */
module AuditCoverage {
  import opened Wrappers
  import opened AuditModel
  import opened AuditTheorems

  class AuditCoverage {
    var scopes: seq<Scope>
    var tallies: seq<Tally>
    var noted: seq<Write>
    var writesFrom: seq<Option<nat>>
    var entriesFrom: seq<Option<nat>>
    var discarded: seq<Write>

    function Now(): State
      reads this
    {
      State(scopes, tallies, noted, writesFrom, entriesFrom, discarded)
    }

    constructor ()
      ensures Now() == Init
    {
      scopes, tallies, noted, writesFrom, entriesFrom, discarded := [], [], [], [], [], [];
    }

    /** Walks from `scope` to its root, looking for `target`. */
    method IsWithinScope(scope: nat, target: nat) returns (within: bool)
      requires Shaped(Now()) && scope < |scopes|
      ensures within == IsWithin(scopes, scope, target)
    {
      var current: Option<nat> := Some(scope);
      while current.Some?
        invariant current.Some? ==> current.value < |scopes|
        invariant IsWithin(scopes, scope, target) == (current.Some? && IsWithin(scopes, current.value, target))
        decreases current.Some?, if current.Some? then current.value else 0
      {
        if current.value == target { return true; }
        current := scopes[current.value].parent;
      }
      return false;
    }

    method Holds(tallyScope: Option<nat>, scope: Option<nat>) returns (holds: bool)
      requires Shaped(Now()) && InScopes(scopes, scope)
      ensures holds == HoldsScope(scopes, tallyScope, scope)
    {
      if scope.None? { return tallyScope.None?; }
      if tallyScope.None? { return !scopes[scope.value].detached; }
      holds := IsWithinScope(scope.value, tallyScope.value);
    }

    /** Counts the entries in `scope` and in every scope around it that is still open. */
    method CountEntries(scope: nat, entries: seq<nat>)
      requires Shaped(Now()) && scope < |scopes|
      modifies this`scopes
      ensures scopes == Bubbled(old(scopes), scope, entries)
    {
      var before := scopes;
      var destination: Option<nat> := Some(scope);
      forall i | 0 <= i < |before| && IsWithin(before, scope, i) ensures i <= scope { WithinIsBefore(before, scope, i); }
      while destination.Some?
        invariant |scopes| == |before|
        invariant destination.Some? ==> destination.value < |scopes| && IsWithin(before, scope, destination.value)
        invariant forall i :: 0 <= i < |before| ==>
          scopes[i] == if IsWithin(before, scope, i) && !before[i].closed && (destination.Some? ==> i > destination.value)
                       then before[i].(entries := before[i].entries + entries) else before[i]
        decreases destination.Some?, if destination.Some? then destination.value else 0
      {
        var d := destination.value;
        assert scopes[d] == before[d];
        if !scopes[d].closed {
          scopes := scopes[d := scopes[d].(entries := scopes[d].entries + entries)];
        }
        destination := before[d].parent;
        forall i | 0 <= i < |before| && i < d && IsWithin(before, scope, i)
          ensures destination.Some? && i <= destination.value
        {
          AroundIsChain(before, scope, d, i);
          WithinIsBefore(before, destination.value, i);
        }
        if destination.Some? {
          assert IsWithin(before, destination.value, destination.value) && IsWithin(before, d, destination.value);
          WithinTrans(before, scope, d, destination.value);
        }
      }
    }

    method OpenAuditScope(ctx: Context, surface: string, detach: bool) returns (scope: nat)
      requires Shaped(Now()) && InContext(Now(), ctx)
      modifies this
      ensures Now() == Step(old(Now()), OpenScope(ctx, surface, detach)) && Shaped(Now())
      ensures scope == |old(scopes)|
    {
      StepShaped(Now(), OpenScope(ctx, surface, detach));
      var parent := if detach then None else ctx.scope;
      var detached := detach || (parent.Some? && scopes[parent.value].detached);
      scope := |scopes|;
      scopes := scopes + [Scope(surface, parent, [], [], false, detached)];
    }

    method CloseAuditScope(scope: nat)
      requires Shaped(Now()) && scope < |scopes|
      modifies this
      ensures Now() == Step(old(Now()), CloseScope(scope)) && Shaped(Now())
    {
      StepShaped(Now(), CloseScope(scope));
      scopes := scopes[scope := scopes[scope].(closed := true)];
    }

    /** The check and the closing that end an entry point whose work succeeded. */
    method AssertAndClose(scope: nat, unaudited: set<string>) returns (passed: bool)
      requires Shaped(Now()) && scope < |scopes|
      modifies this
      ensures passed == Audited(old(scopes)[scope], unaudited)
      ensures Now() == Step(old(Now()), CloseScope(scope)) && Shaped(Now())
    {
      if |scopes[scope].writes| == 0 || |scopes[scope].entries| > 0 {
        passed := true;
      } else {
        passed := scopes[scope].surface in unaudited;
      }
      CloseAuditScope(scope);
    }

    /** The opening of a transaction tally; its callback runs in the returned tally's context. */
    method OpenTransactionTally(ctx: Context) returns (tally: nat)
      requires Shaped(Now()) && InContext(Now(), ctx)
      modifies this
      ensures Now() == Step(old(Now()), OpenTally(ctx)) && Shaped(Now())
      ensures tally == |old(tallies)|
    {
      StepShaped(Now(), OpenTally(ctx));
      tally := |tallies|;
      tallies := tallies + [Tally(ctx.scope, ctx.tally, [], [], false)];
    }

    method Buffer(tally: nat, writes: seq<Write>, entries: seq<nat>)
      requires tally < |tallies|
      modifies this
      ensures Now() == IntoTally(old(Now()), tally, writes, entries)
    {
      var t := tallies[tally];
      tallies := tallies[tally := t.(writes := t.writes + writes, entries := t.entries + entries)];
      if t.settled { discarded := discarded + writes; }
    }

    /** The transaction's callback fulfilled: its work goes to the enclosing tally, to its scope, or nowhere. */
    method FlushTally(tally: nat)
      requires Shaped(Now()) && tally < |tallies| && !tallies[tally].settled
      modifies this
      ensures Now() == Step(old(Now()), Fulfil(tally)) && Shaped(Now())
    {
      StepShaped(Now(), Fulfil(tally));
      var t := tallies[tally];
      SettledShaped(Now(), tally);
      tallies := tallies[tally := t.(settled := true)];
      if t.scope.Some? && scopes[t.scope.value].closed {
        discarded := discarded + t.writes;
        return;
      }
      if t.parent.Some? {
        var held := Holds(tallies[t.parent.value].scope, t.scope);
        if held {
          Buffer(t.parent.value, t.writes, t.entries);
          return;
        }
      }
      if t.scope.None? {
        discarded := discarded + t.writes;
        return;
      }
      var s := t.scope.value;
      ghost var before := Now();
      scopes := scopes[s := scopes[s].(writes := scopes[s].writes + t.writes)];
      WrittenShaped(before, s, t.writes);
      CountEntries(s, t.entries);
    }

    /** The transaction's callback rejected: whatever it buffered is gone. */
    method RejectTally(tally: nat)
      requires Shaped(Now()) && tally < |tallies| && !tallies[tally].settled
      modifies this
      ensures Now() == Step(old(Now()), Reject(tally)) && Shaped(Now())
      ensures scopes == old(scopes)
    {
      StepShaped(Now(), Reject(tally));
      var t := tallies[tally];
      tallies := tallies[tally := t.(settled := true)];
      discarded := discarded + t.writes;
    }

    method NoteAuditWrite(ctx: Context, what: string)
      requires Shaped(Now()) && InContext(Now(), ctx)
      modifies this
      ensures Now() == Step(old(Now()), NoteWrite(ctx, what)) && Shaped(Now())
    {
      StepShaped(Now(), NoteWrite(ctx, what));
      if ctx.bookkeeping { return; }
      OnRecordShaped(Now(), ctx, what);
      var w := Write(what, |noted|);
      noted, writesFrom := noted + [w], writesFrom + [ctx.scope];
      if ctx.scope.Some? && scopes[ctx.scope.value].closed {
        discarded := discarded + [w];
        return;
      }
      if ctx.tally.Some? {
        var held := Holds(tallies[ctx.tally.value].scope, ctx.scope);
        if held {
          Buffer(ctx.tally.value, [w], []);
          return;
        }
      }
      if ctx.scope.None? {
        discarded := discarded + [w];
        return;
      }
      var s := ctx.scope.value;
      NothingToBubble(scopes[s := scopes[s].(writes := scopes[s].writes + [w])], s);
      scopes := scopes[s := scopes[s].(writes := scopes[s].writes + [w])];
    }

    method NoteAuditEntry(ctx: Context)
      requires Shaped(Now()) && InContext(Now(), ctx)
      modifies this
      ensures Now() == Step(old(Now()), NoteEntry(ctx)) && Shaped(Now())
    {
      StepShaped(Now(), NoteEntry(ctx));
      OnRecordShaped(Now(), ctx, "");
      hide IntoTally, HoldsScope, IsWithin, Bubbled, SameForest;
      var n := |entriesFrom|;
      entriesFrom := entriesFrom + [ctx.scope];
      if ctx.scope.Some? && scopes[ctx.scope.value].closed { return; }
      if ctx.tally.Some? {
        var held := Holds(tallies[ctx.tally.value].scope, ctx.scope);
        if held {
          Buffer(ctx.tally.value, [], [n]);
          return;
        }
      }
      if ctx.scope.Some? {
        var s := ctx.scope.value;
        NothingWritten(scopes, s);
        CountEntries(s, [n]);
      }
    }
  }

  lemma NothingToBubble(scopes: seq<Scope>, s: nat)
    ensures Bubbled(scopes, s, []) == scopes
  {
    forall i | 0 <= i < |scopes| ensures Bubbled(scopes, s, [])[i] == scopes[i] {
      assert scopes[i].entries + [] == scopes[i].entries;
    }
  }

  lemma NothingWritten(scopes: seq<Scope>, s: nat)
    requires s < |scopes|
    ensures scopes[s := scopes[s].(writes := scopes[s].writes + [])] == scopes
  {
    assert scopes[s].writes + [] == scopes[s].writes;
  }

  lemma WrittenShaped(st: State, s: nat, writes: seq<Write>)
    requires Shaped(st) && s < |st.scopes|
    ensures Shaped(st.(scopes := st.scopes[s := st.scopes[s].(writes := st.scopes[s].writes + writes)]))
  {
  }
}
