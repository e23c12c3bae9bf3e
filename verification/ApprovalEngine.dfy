/** The approval engine over one request row (apps/api/src/approvals), as a step machine of any number of parties. */
module ApprovalEngine {

  // Deciders, cancellers, closers, the sweeper, and executions and redemptions on any number of API instances are
  // interleaved in any order. From approval-decision.service.ts, approval-ask.service.ts, approval-execution.service.ts and
  // approval-request-expiry.sweeper.ts.
  //
  // The repository is taken by its contract: `lockById` waits for the row and holds it to the end of the
  // transaction, `lockByIdSkipLocked` never waits, `transition` is a compare-and-set on the status, a transaction's
  // writes appear together at its commit or not at all, and a plain read sees what is committed.

  import opened Wrappers
  import opened ApprovalEligibility

  datatype Status = Pending | Approved | Rejected | Cancelled | Expired | Executed | Failed

  datatype Verdict = Approve | Reject

  /** A recorded decision, with the keys its decider held then, which the row itself does not store. */
  datatype Decision = Decision(decider: Principal, keys: set<string>, verdict: Verdict)

  /** The row as committed; `runs` counts the commits that carried the command's own writes. */
  datatype Row = Row(status: Status, decisions: seq<Decision>, satisfiedBy: Option<Mode>, runs: nat)

  datatype Config = Config(request: Request, redeem: bool, timeoutApproves: bool, skipKeyRecheck: bool)

  /** What a transaction that holds the row has written, still to be committed. */
  datatype Change =
    | Approves(decider: Principal, keys: set<string>, mode: Mode)
    | Rejects(decider: Principal, keys: set<string>)
    | Cancels
    | Closes(outcome: Status)
    | TimesOut(approve: bool)
    | RedeemExpires
    | Executes
    | Revokes
    | Fails

  datatype Task =
    | Decide(decider: Principal, keys: set<string>, verdict: Verdict)
    | Cancel(who: Principal)
    | Close(outcome: Status)
    | Sweep

  datatype Pc =
    | Waiting(task: Task)
    | Locked(task: Task, seen: Status)
    | Entering
    | Queued
    | InSlot
    | Preparing
    | TxWaiting(prepared: bool)
    | TxLocked(prepared: bool, lockedAt: Status)
    | Ran
    | SettleWaiting(slotted: bool)
    | Wrote(change: Change, kept: bool)
    | Finished

  /** A party, on the API instance it runs on. */
  datatype Party = Party(inst: nat, pc: Pc)

  /** `lost` is raised if a compare-and-set ever fails although its transaction holds the row. */
  datatype Sys = Sys(row: Row, lock: Option<nat>, slots: map<nat, nat>, parties: map<nat, Party>, lost: bool)

  datatype Act =
    | Arrive(p: nat, inst: nat, start: Pc)
    | TakeRow(p: nat)
    | Write(p: nat, late: bool, settles: bool)
    | Precheck(p: nat, passes: bool)
    | TakeSlot(p: nat)
    | Reread(p: nat)
    | Prepare(p: nat, prepared: bool, throws: bool)
    | TakeRowToRun(p: nat)
    | Run(p: nat, stillHolds: bool)
    | Throw(p: nat, notPending: bool)
    | Transition(p: nat)
    | Settle(p: nat)
    | Commit(p: nat)
    | Abort(p: nat)

  function Start(cfg: Config): Sys {
    Sys(Row(Pending, [], None, 0), None, map[], map[], false)
  }

  // ---------------------------------------------------------------------------------------------
  // What holds a row or a slot
  // ---------------------------------------------------------------------------------------------

  predicate HoldsRow(pc: Pc) {
    pc.Locked? || pc.TxLocked? || pc.Ran? || pc.Wrote?
  }

  predicate HoldsSlot(pc: Pc) {
    match pc
    case InSlot => true
    case Preparing => true
    case TxWaiting(_) => true
    case TxLocked(_, _) => true
    case Ran => true
    case SettleWaiting(slotted) => slotted
    case Wrote(_, kept) => kept
    case _ => false
  }

  /** A party moves on, giving up the row or the slot it no longer holds. */
  function Move(s: Sys, p: nat, pc: Pc): Sys
    requires p in s.parties
  {
    var before := s.parties[p];
    s.(parties := s.parties[p := Party(before.inst, pc)],
       lock := if HoldsRow(pc) then Some(p) else if HoldsRow(before.pc) then None else s.lock,
       slots := if HoldsSlot(pc) then s.slots[before.inst := p]
                else if HoldsSlot(before.pc) then s.slots - {before.inst} else s.slots)
  }

  // ---------------------------------------------------------------------------------------------
  // The row's changes
  // ---------------------------------------------------------------------------------------------

  /** The status a change's compare-and-set expects. */
  function From(c: Change): Status {
    match c
    case RedeemExpires => Approved
    case Executes => Approved
    case Revokes => Approved
    case Fails => Approved
    case _ => Pending
  }

  function Apply(c: Change, row: Row): Row {
    match c
    case Approves(d, keys, mode) =>
      row.(status := Approved, decisions := row.decisions + [Decision(d, keys, Approve)], satisfiedBy := Some(mode))
    case Rejects(d, keys) => row.(status := Rejected, decisions := row.decisions + [Decision(d, keys, Reject)])
    case Cancels => row.(status := Cancelled)
    case Closes(outcome) => row.(status := outcome)
    case TimesOut(approve) => if approve then row.(status := Approved, satisfiedBy := Some(ModeNone)) else row.(status := Expired)
    case RedeemExpires => row.(status := Expired)
    case Executes => row.(status := Executed, runs := row.runs + 1)
    case Revokes => row.(status := Failed)
    case Fails => row.(status := Failed)
  }

  /** Who may cancel: the principal that asked, or the one the assistant asked for. */
  predicate MayCancel(request: Request, who: Principal) {
    var requester := if request.actor == Principal(System, "assistant") then request.onBehalfOf else Some(request.actor);
    who.kind in {User, Agent} && requester == Some(who)
  }

  /** An ask is raised by a system component other than the assistant. */
  predicate IsAsk(request: Request) {
    request.actor.kind == System && request.actor.id != "assistant"
  }

  /**
   What a task that holds the row writes, or None when it is refused. `late` says whether the deadline has passed;
   `settles` stands for the answers of code that is not modelled (decision params, close reasons, timeout ownership).
   */
  function Wanted(cfg: Config, task: Task, seen: Status, late: bool, settles: bool): Option<Change> {
    match task
    case Decide(decider, keys, verdict) =>
      if seen != Pending || late || !settles then None
      else
        var eligibility := DecideEligibility(cfg.request, decider, keys);
        if eligibility.Refused? then None
        else if verdict == Approve then Some(Approves(decider, keys, eligibility.satisfiedBy))
        else Some(Rejects(decider, keys))
    case Cancel(who) => if seen != Pending || !MayCancel(cfg.request, who) then None else Some(Cancels)
    case Close(outcome) =>
      if seen != Pending || !settles || !IsAsk(cfg.request) || outcome !in {Cancelled, Expired} then None else Some(Closes(outcome))
    case Sweep =>
      if !late then None
      else if seen == Approved && cfg.redeem then Some(RedeemExpires)
      else if seen == Pending && settles then Some(TimesOut(cfg.timeoutApproves))
      else None
  }

  /** After its commit an approval of a request that is not redeemed goes on to execute it. */
  function AfterCommit(cfg: Config, c: Change): Pc {
    if !cfg.redeem && (c.Approves? || (c.TimesOut? && c.approve)) then Entering else Finished
  }

  // ---------------------------------------------------------------------------------------------
  // The steps
  // ---------------------------------------------------------------------------------------------

  predicate CanArrive(pc: Pc) {
    pc.Waiting? || pc.Entering?
  }

  /** One step of one party; a step it cannot take changes nothing. */
  function Step(cfg: Config, s: Sys, a: Act): Sys {
    match a
    case Arrive(p, inst, start) =>
      if p in s.parties || !CanArrive(start) then s else s.(parties := s.parties[p := Party(inst, start)])
    case TakeRow(p) => TakeRowStep(s, p)
    case Write(p, late, settles) => WriteStep(cfg, s, p, late, settles)
    case Precheck(p, passes) =>
      if p in s.parties && s.parties[p].pc.Entering? then
        // A plain read: anything but an approved request ends here.
        if s.row.status != Approved then Move(s, p, Finished)
        else if passes then Move(s, p, Queued)
        else if cfg.redeem then Move(s, p, Finished) else Move(s, p, SettleWaiting(false))
      else s
    case TakeSlot(p) =>
      if p in s.parties && s.parties[p].pc.Queued? && s.parties[p].inst !in s.slots then Move(s, p, InSlot) else s
    case Reread(p) =>
      if p in s.parties && s.parties[p].pc.InSlot? then
        Move(s, p, if s.row.status == Approved then Preparing else Finished)
      else s
    case Prepare(p, prepared, throws) =>
      if p in s.parties && s.parties[p].pc.Preparing? then
        Move(s, p, if throws then SettleWaiting(true) else TxWaiting(prepared))
      else s
    case TakeRowToRun(p) =>
      if p in s.parties && s.parties[p].pc.TxWaiting? && s.lock.None? then
        Move(s, p, TxLocked(s.parties[p].pc.prepared, s.row.status))
      else s
    case Run(p, stillHolds) => RunStep(cfg, s, p, stillHolds)
    case Throw(p, notPending) =>
      // The transaction rolls back; only the engine's own "not pending" is not settled as a failure.
      if p in s.parties && (s.parties[p].pc.TxWaiting? || s.parties[p].pc.TxLocked? || s.parties[p].pc.Ran?) then
        Move(s, p, if notPending then Finished else SettleWaiting(true))
      else s
    case Transition(p) =>
      if p in s.parties && s.parties[p].pc.Ran? then
        if s.row.status == Approved then Move(s, p, Wrote(Executes, true)) else Move(s, p, Finished).(lost := true)
      else s
    case Settle(p) =>
      if p in s.parties && s.parties[p].pc.SettleWaiting? && s.lock.None? then
        Move(s, p, if s.row.status == Approved then Wrote(Fails, s.parties[p].pc.slotted) else Finished)
      else s
    case Commit(p) =>
      if p in s.parties && s.parties[p].pc.Wrote? then
        var c := s.parties[p].pc.change;
        Move(s, p, AfterCommit(cfg, c)).(row := Apply(c, s.row))
      else s
    case Abort(p) =>
      // Rolled back, or thrown before anything was written: the caller gets the error.
      if p in s.parties && !s.parties[p].pc.TxLocked? && !s.parties[p].pc.Ran? then Move(s, p, Finished) else s
  }

  /** The transaction waits for the row; a closer takes it only when it is free, and skips it otherwise. */
  function TakeRowStep(s: Sys, p: nat): Sys {
    if p in s.parties && s.parties[p].pc.Waiting? then
      var task := s.parties[p].pc.task;
      if s.lock.None? then Move(s, p, Locked(task, s.row.status))
      else if task.Close? then Move(s, p, Finished)
      else s
    else s
  }

  function WriteStep(cfg: Config, s: Sys, p: nat, late: bool, settles: bool): Sys {
    if p in s.parties && s.parties[p].pc.Locked? then
      var c := Wanted(cfg, s.parties[p].pc.task, s.parties[p].pc.seen, late, settles);
      if c.None? then Move(s, p, Finished)
      else if s.row.status == From(c.value) then Move(s, p, Wrote(c.value, false))
      else Move(s, p, Finished).(lost := true)
    else s
  }

  /** Under the row lock: refuse what is no longer approved, settle a revoked key, else run the command. */
  function RunStep(cfg: Config, s: Sys, p: nat, stillHolds: bool): Sys {
    if p in s.parties && s.parties[p].pc.TxLocked? then
      var pc := s.parties[p].pc;
      if pc.lockedAt != Approved then Move(s, p, Finished)
      else if pc.prepared && !cfg.skipKeyRecheck && !stillHolds then
        if s.row.status == Approved then Move(s, p, Wrote(Revokes, true)) else Move(s, p, Finished).(lost := true)
      else Move(s, p, Ran)
    else s
  }

  /** Every sequence of steps from a request just opened. */
  function Reach(cfg: Config, acts: seq<Act>): Sys {
    if acts == [] then Start(cfg) else Step(cfg, Reach(cfg, acts[..|acts|-1]), acts[|acts|-1])
  }

  /** Whether the step makes p's command callback run. */
  predicate RunsCommand(cfg: Config, s: Sys, a: Act) {
    a.Run? && a.p in s.parties && !s.parties[a.p].pc.Ran? && Step(cfg, s, a).parties[a.p].pc.Ran?
  }

  // ---------------------------------------------------------------------------------------------
  // The invariant
  // ---------------------------------------------------------------------------------------------

  ghost predicate LockOk(s: Sys) {
    && (forall p :: p in s.parties && HoldsRow(s.parties[p].pc) ==> s.lock == Some(p))
    && (s.lock.Some? ==> s.lock.value in s.parties && HoldsRow(s.parties[s.lock.value].pc))
  }

  ghost predicate SlotsOk(s: Sys) {
    && (forall p :: p in s.parties && HoldsSlot(s.parties[p].pc) ==>
          s.parties[p].inst in s.slots && s.slots[s.parties[p].inst] == p)
    && (forall i :: i in s.slots ==>
          s.slots[i] in s.parties && s.parties[s.slots[i]].inst == i && HoldsSlot(s.parties[s.slots[i]].pc))
  }

  ghost predicate ChangeOk(cfg: Config, c: Change) {
    match c
    case Approves(d, keys, mode) => DecideEligibility(cfg.request, d, keys) == Eligible(mode)
    case Rejects(d, keys) => DecideEligibility(cfg.request, d, keys).Eligible?
    case Closes(outcome) => outcome in {Cancelled, Expired}
    case TimesOut(approve) => approve == cfg.timeoutApproves
    case RedeemExpires => cfg.redeem
    case _ => true
  }

  /** What a party read or wrote under the row lock still fits the committed row. */
  ghost predicate ViewOk(cfg: Config, s: Sys, pc: Pc) {
    match pc
    case Locked(_, seen) => seen == s.row.status
    case TxLocked(_, lockedAt) => lockedAt == s.row.status
    case Ran => s.row.status == Approved
    case Wrote(c, _) => s.row.status == From(c) && ChangeOk(cfg, c)
    case _ => true
  }

  ghost predicate ViewsOk(cfg: Config, s: Sys) {
    forall p :: p in s.parties ==> ViewOk(cfg, s, s.parties[p].pc)
  }

  /** Released by one eligible decider, or by the timeout, which leaves no decision. */
  ghost predicate Released(cfg: Config, row: Row) {
    || (|row.decisions| == 1 && row.decisions[0].verdict == Approve && row.satisfiedBy.Some?
        && DecideEligibility(cfg.request, row.decisions[0].decider, row.decisions[0].keys) == Eligible(row.satisfiedBy.value))
    || (row.decisions == [] && row.satisfiedBy == Some(ModeNone) && cfg.timeoutApproves)
  }

  ghost predicate RowOk(cfg: Config, row: Row) {
    && row.runs == (if row.status == Executed then 1 else 0)
    && match row.status
       case Pending => row.decisions == [] && row.satisfiedBy == None
       case Cancelled => row.decisions == [] && row.satisfiedBy == None
       case Rejected => |row.decisions| == 1 && row.decisions[0].verdict == Reject && row.satisfiedBy == None
           && DecideEligibility(cfg.request, row.decisions[0].decider, row.decisions[0].keys).Eligible?
       case Expired => (row.decisions == [] && row.satisfiedBy == None) || (cfg.redeem && Released(cfg, row))
       case Approved => Released(cfg, row)
       case Executed => Released(cfg, row)
       case Failed => Released(cfg, row)
  }

  ghost predicate Inv(cfg: Config, s: Sys) {
    LockOk(s) && SlotsOk(s) && ViewsOk(cfg, s) && RowOk(cfg, s.row) && !s.lost
  }

  lemma MoveKeepsLocks(s: Sys, p: nat, pc: Pc)
    requires LockOk(s) && SlotsOk(s) && p in s.parties
    requires HoldsRow(pc) ==> s.lock.None? || s.lock == Some(p)
    requires HoldsSlot(pc) ==> s.parties[p].inst !in s.slots || s.slots[s.parties[p].inst] == p
    ensures LockOk(Move(s, p, pc)) && SlotsOk(Move(s, p, pc))
  {
  }

  /** The row itself is not touched by a move, so what others saw still fits. */
  lemma MoveKeepsViews(cfg: Config, s: Sys, p: nat, pc: Pc)
    requires ViewsOk(cfg, s) && p in s.parties && ViewOk(cfg, s, pc)
    ensures ViewsOk(cfg, Move(s, p, pc))
  {
    var t := Move(s, p, pc);
    forall q | q in t.parties ensures ViewOk(cfg, t, t.parties[q].pc) {
      if q != p { assert ViewOk(cfg, s, s.parties[q].pc); }
    }
  }

  lemma MoveKeeps(cfg: Config, s: Sys, p: nat, pc: Pc)
    requires Inv(cfg, s) && p in s.parties && ViewOk(cfg, s, pc)
    requires HoldsRow(pc) ==> s.lock.None? || s.lock == Some(p)
    requires HoldsSlot(pc) ==> s.parties[p].inst !in s.slots || s.slots[s.parties[p].inst] == p
    ensures Inv(cfg, Move(s, p, pc))
  {
    hide LockOk, SlotsOk, ViewsOk, RowOk, ViewOk;
    MoveKeepsLocks(s, p, pc);
    MoveKeepsViews(cfg, s, p, pc);
  }

  lemma ApplyKeepsRow(cfg: Config, c: Change, row: Row)
    requires RowOk(cfg, row) && row.status == From(c) && ChangeOk(cfg, c)
    ensures RowOk(cfg, Apply(c, row))
  {
  }

  /** A commit changes the row, but nobody else has a view of it: only the committer holds the lock. */
  lemma CommitKeeps(cfg: Config, s: Sys, p: nat)
    requires Inv(cfg, s) && p in s.parties && s.parties[p].pc.Wrote?
    ensures Inv(cfg, Step(cfg, s, Commit(p)))
  {
    var c := s.parties[p].pc.change;
    var t := Step(cfg, s, Commit(p));
    assert ViewOk(cfg, s, s.parties[p].pc);
    ApplyKeepsRow(cfg, c, s.row);
    hide RowOk, ChangeOk, Apply, From;
    MoveKeepsLocks(s, p, AfterCommit(cfg, c));
    forall q | q in t.parties ensures ViewOk(cfg, t, t.parties[q].pc) {
      if q != p { assert !HoldsRow(s.parties[q].pc); }
    }
  }

  lemma WantedIsOk(cfg: Config, task: Task, seen: Status, late: bool, settles: bool)
    requires Wanted(cfg, task, seen, late, settles).Some?
    ensures var c := Wanted(cfg, task, seen, late, settles).value;
      ChangeOk(cfg, c) && From(c) == seen
  {
    hide DecideEligibility;
  }

  /** Whatever step is taken, the invariant stays; in particular no compare-and-set under the row lock is ever lost. */
  lemma StepKeeps(cfg: Config, s: Sys, a: Act)
    requires Inv(cfg, s)
    ensures Inv(cfg, Step(cfg, s, a))
  {
    if a.Commit? {
      if a.p in s.parties && s.parties[a.p].pc.Wrote? { CommitKeeps(cfg, s, a.p); }
    } else if !a.Arrive? {
      var t := Step(cfg, s, a);
      if t != s { MovesKeep(cfg, s, a); }
    }
  }

  /** The step is one move of p, to a point whose view fits and for which p has the row and the slot it needs. */
  ghost predicate FitMove(cfg: Config, s: Sys, p: nat, t: Sys) {
    && p in s.parties && p in t.parties
    && var pc := t.parties[p].pc;
       && t == Move(s, p, pc) && ViewOk(cfg, s, pc)
       && (HoldsRow(pc) ==> s.lock.None? || s.lock == Some(p))
       && (HoldsSlot(pc) ==> s.parties[p].inst !in s.slots || s.slots[s.parties[p].inst] == p)
  }

  lemma WriteFits(cfg: Config, s: Sys, p: nat, late: bool, settles: bool)
    requires Inv(cfg, s) && p in s.parties && s.parties[p].pc.Locked?
    ensures FitMove(cfg, s, p, WriteStep(cfg, s, p, late, settles))
  {
    var pc := s.parties[p].pc;
    assert ViewOk(cfg, s, pc);
    var c := Wanted(cfg, pc.task, pc.seen, late, settles);
    if c.Some? { WantedIsOk(cfg, pc.task, pc.seen, late, settles); }
    hide ChangeOk, RowOk, SlotsOk;
  }

  lemma SlotMoveFits(cfg: Config, s: Sys, a: Act)
    requires Inv(cfg, s) && (a.Precheck? || a.TakeSlot? || a.Reread? || a.Prepare?) && Step(cfg, s, a) != s
    ensures FitMove(cfg, s, a.p, Step(cfg, s, a))
  {
    hide RowOk, Wanted, WriteStep, RunStep, TakeRowStep, ViewsOk, LockOk;
  }

  lemma TakeMoveFits(cfg: Config, s: Sys, a: Act)
    requires Inv(cfg, s) && (a.TakeRow? || a.TakeRowToRun? || a.Settle?) && Step(cfg, s, a) != s
    ensures FitMove(cfg, s, a.p, Step(cfg, s, a))
  {
    assert ViewOk(cfg, s, s.parties[a.p].pc);
    hide RowOk, Wanted, WriteStep, RunStep, ViewsOk;
  }

  lemma EndMoveFits(cfg: Config, s: Sys, a: Act)
    requires Inv(cfg, s) && (a.Throw? || a.Transition? || a.Abort?) && Step(cfg, s, a) != s
    ensures FitMove(cfg, s, a.p, Step(cfg, s, a))
  {
    assert ViewOk(cfg, s, s.parties[a.p].pc);
    hide RowOk, Wanted, WriteStep, RunStep, TakeRowStep, ViewsOk;
  }

  /** Every other step is one move, of a party whose view fits. */
  lemma MovesKeep(cfg: Config, s: Sys, a: Act)
    requires Inv(cfg, s) && !a.Commit? && !a.Arrive? && Step(cfg, s, a) != s
    ensures Inv(cfg, Step(cfg, s, a))
  {
    if a.Write? {
      WriteFits(cfg, s, a.p, a.late, a.settles);
    } else if a.Precheck? || a.TakeSlot? || a.Reread? || a.Prepare? {
      SlotMoveFits(cfg, s, a);
    } else if a.TakeRow? || a.TakeRowToRun? || a.Settle? {
      TakeMoveFits(cfg, s, a);
    } else if !a.Run? {
      EndMoveFits(cfg, s, a);
    }
    hide Inv, Step;
    MoveKeeps(cfg, s, a.p, Step(cfg, s, a).parties[a.p].pc);
  }

  lemma {:induction false} ReachKeeps(cfg: Config, acts: seq<Act>)
    ensures Inv(cfg, Reach(cfg, acts))
    decreases |acts|
  {
    if acts != [] {
      ReachKeeps(cfg, acts[..|acts|-1]);
      hide Inv, Step;
      StepKeeps(cfg, Reach(cfg, acts[..|acts|-1]), acts[|acts|-1]);
    }
  }

  // ---------------------------------------------------------------------------------------------
  // What follows for every run
  // ---------------------------------------------------------------------------------------------

  /** The command's writes are committed exactly once if the request is executed, and never otherwise. */
  lemma CommittedOnceIffExecuted(cfg: Config, acts: seq<Act>)
    ensures Reach(cfg, acts).row.runs == if Reach(cfg, acts).row.status == Executed then 1 else 0
  {
    ReachKeeps(cfg, acts);
  }

  /** A compare-and-set made under the row lock is never lost. */
  lemma NoLostTransition(cfg: Config, acts: seq<Act>)
    ensures !Reach(cfg, acts).lost
  {
    ReachKeeps(cfg, acts);
  }

  /** At most one decision is on record, and it agrees with the status. */
  lemma OneDecisionThatAgrees(cfg: Config, acts: seq<Act>)
    ensures var row := Reach(cfg, acts).row;
      && |row.decisions| <= 1
      && (row.status == Rejected <==> row.decisions != [] && row.decisions[0].verdict == Reject)
      && (row.decisions != [] && row.decisions[0].verdict == Approve ==>
            row.status in {Approved, Executed, Failed} || (row.status == Expired && cfg.redeem))
      && (row.status in {Approved, Executed, Failed} && row.decisions == [] ==> cfg.timeoutApproves)
  {
    ReachKeeps(cfg, acts);
  }

  /**
   A request a decider released records a tier that is enough, from a principal that may decide it with the keys it
   held: distinct from the requester where that is required. Only a timeout approval records no decision.
   */
  lemma ReleasedAtSufficientTier(cfg: Config, acts: seq<Act>)
    requires Reach(cfg, acts).row.decisions != [] && Reach(cfg, acts).row.decisions[0].verdict == Approve
    ensures var row := Reach(cfg, acts).row;
      && row.satisfiedBy.Some? && Rank(row.satisfiedBy.value) >= Rank(cfg.request.requiredMode)
      && MayDecide(cfg.request, row.decisions[0].decider, row.decisions[0].keys, row.satisfiedBy.value)
      && (row.satisfiedBy == Some(ModeHuman) ==> row.decisions[0].decider.kind == User && row.decisions[0].decider != cfg.request.actor)
  {
    ReachKeeps(cfg, acts);
    var row := Reach(cfg, acts).row;
    var d := row.decisions[0];
    assert Released(cfg, row);
    hide Reach, DecideEligibility;
    EligibleExactlyWhen(cfg.request, d.decider, d.keys, row.satisfiedBy.value);
  }

  /** A refused request was refused by a principal that may decide it with the keys it held, at some tier. */
  lemma RefusedByEligible(cfg: Config, acts: seq<Act>)
    requires Reach(cfg, acts).row.status == Rejected
    ensures var row := Reach(cfg, acts).row;
      |row.decisions| == 1 && exists mode :: MayDecide(cfg.request, row.decisions[0].decider, row.decisions[0].keys, mode)
  {
    ReachKeeps(cfg, acts);
    var d := Reach(cfg, acts).row.decisions[0];
    var mode := DecideEligibility(cfg.request, d.decider, d.keys).satisfiedBy;
    hide Reach, DecideEligibility;
    EligibleExactlyWhen(cfg.request, d.decider, d.keys, mode);
  }

  /** The moves a status can make. */
  predicate MayBecome(cfg: Config, from: Status, to: Status) {
    || from == to
    || (from == Pending && to in {Approved, Rejected, Cancelled, Expired})
    || (from == Approved && to in {Executed, Failed})
    || (from == Approved && to == Expired && cfg.redeem)
  }

  lemma StatusMoves(cfg: Config, acts: seq<Act>, a: Act)
    ensures MayBecome(cfg, Reach(cfg, acts).row.status, Reach(cfg, acts + [a]).row.status)
  {
    ReachKeeps(cfg, acts);
    assert (acts + [a])[..|acts|] == acts;
    RowStep(cfg, Reach(cfg, acts), a);
  }

  /** Only a commit touches the row, and then as its compare-and-set allows. */
  lemma RowStep(cfg: Config, s: Sys, a: Act)
    requires Inv(cfg, s)
    ensures MayBecome(cfg, s.row.status, Step(cfg, s, a).row.status)
    ensures Step(cfg, s, a).row != s.row ==> a.Commit? && a.p in s.parties && s.parties[a.p].pc.Wrote?
    ensures s.row.status !in {Pending, Approved} ==> Step(cfg, s, a).row == s.row
  {
    if a.Commit? && a.p in s.parties { assert ViewOk(cfg, s, s.parties[a.p].pc); }
    hide RowOk, LockOk, SlotsOk, ViewsOk;
  }

  lemma ReachOneMore(cfg: Config, before: seq<Act>, after: seq<Act>)
    requires after != []
    ensures Reach(cfg, before + after) == Step(cfg, Reach(cfg, before + after[..|after|-1]), after[|after|-1])
  {
    assert (before + after)[..|before + after|-1] == before + after[..|after|-1];
  }

  /** A settled request stays as it is, forever. */
  lemma {:induction false} SettledForever(cfg: Config, before: seq<Act>, after: seq<Act>)
    requires Reach(cfg, before).row.status !in {Pending, Approved}
    ensures Reach(cfg, before + after).row == Reach(cfg, before).row
    decreases |after|
  {
    hide Step, Inv, Reach;
    if after == [] {
      assert before + after == before;
    } else {
      SettledForever(cfg, before, after[..|after|-1]);
      ReachOneMore(cfg, before, after);
      ReachKeeps(cfg, before + after[..|after|-1]);
      RowStep(cfg, Reach(cfg, before + after[..|after|-1]), after[|after|-1]);
    }
  }

  // ---------------------------------------------------------------------------------------------
  // A failed callback and the callers queued behind it
  // ---------------------------------------------------------------------------------------------

  /** The command runs only for a party that holds the row, its instance's slot, and an approved request. */
  lemma RunsUnderLockAndSlot(cfg: Config, acts: seq<Act>, a: Act)
    requires RunsCommand(cfg, Reach(cfg, acts), a)
    ensures var s := Reach(cfg, acts);
      && s.row.status == Approved && s.lock == Some(a.p)
      && s.parties[a.p].inst in s.slots && s.slots[s.parties[a.p].inst] == a.p
  {
    ReachKeeps(cfg, acts);
    var s := Reach(cfg, acts);
    assert ViewOk(cfg, s, s.parties[a.p].pc);
    assert s.parties[a.p].pc.TxLocked?;
  }

  /** p's callback has failed and its failure is not settled yet: it holds its slot throughout. */
  predicate Settling(s: Sys, p: nat) {
    p in s.parties && (s.parties[p].pc == SettleWaiting(true) || s.parties[p].pc == Wrote(Fails, true))
  }

  predicate SameInstance(s: Sys, p: nat, q: nat) {
    p in s.parties && q in s.parties && s.parties[p].inst == s.parties[q].inst
  }

  /** The step is a callback that fails, in preparation or in the transaction. */
  predicate FailsCallback(s: Sys, a: Act) {
    && a.p in s.parties
    && ((a.Prepare? && a.throws && s.parties[a.p].pc.Preparing?)
        || (a.Throw? && !a.notPending && (s.parties[a.p].pc.TxWaiting? || s.parties[a.p].pc.TxLocked? || s.parties[a.p].pc.Ran?)))
  }

  /** It leaves its party settling. */
  lemma FailureSettles(cfg: Config, s: Sys, a: Act)
    requires FailsCallback(s, a)
    ensures Settling(Step(cfg, s, a), a.p)
  {
  }

  /** And settling it stays, whatever the others do, until its own settlement commits or fails. */
  lemma SettlingStays(cfg: Config, acts: seq<Act>, p: nat, a: Act)
    requires Settling(Reach(cfg, acts), p) && a != Commit(p) && a != Abort(p)
    requires a == Settle(p) ==> Reach(cfg, acts).row.status == Approved
    ensures Settling(Reach(cfg, acts + [a]), p)
  {
    assert (acts + [a])[..|acts|] == acts;
    var s := Reach(cfg, acts);
    ReachKeeps(cfg, acts);
    hide Reach, RowOk, LockOk, SlotsOk, ViewsOk, Wanted;
    if a.p != p { OthersStand(cfg, s, a, p); }
    hide RowOk, Move;
  }

  /** A step of one party leaves the others where they are. */
  lemma OthersStand(cfg: Config, s: Sys, a: Act, q: nat)
    requires q in s.parties && q != a.p
    ensures q in Step(cfg, s, a).parties && Step(cfg, s, a).parties[q] == s.parties[q]
  {
    hide Wanted;
  }

  /** While one call on an instance settles its failure, no other call on that instance runs the command. */
  lemma NoRunWhileSettling(cfg: Config, acts: seq<Act>, p: nat, a: Act)
    requires Settling(Reach(cfg, acts), p) && RunsCommand(cfg, Reach(cfg, acts), a)
    ensures !SameInstance(Reach(cfg, acts), a.p, p)
  {
    ReachKeeps(cfg, acts);
    RunsUnderLockAndSlot(cfg, acts, a);
  }

  predicate IsFinished(s: Sys, p: nat) { p in s.parties && s.parties[p].pc == Finished }

  /** From the failure on, a party settles until it is finished, and then it stays finished. */
  lemma SettlesOrEnds(cfg: Config, s: Sys, a: Act, p: nat)
    ensures Settling(s, p) ==> Settling(Step(cfg, s, a), p) || IsFinished(Step(cfg, s, a), p)
    ensures IsFinished(s, p) ==> IsFinished(Step(cfg, s, a), p)
    ensures Settling(s, p) && s.parties[p].pc.Wrote? && Settling(Step(cfg, s, a), p) ==> Step(cfg, s, a).parties[p].pc.Wrote?
  {
    if p in s.parties && a.p != p { OthersStand(cfg, s, a, p); }
    hide Wanted;
  }

  /** A party still settling at the end was settling all along, and what it had written it has still written. */
  lemma {:induction false} SettlingAllAlong(cfg: Config, before: seq<Act>, during: seq<Act>, p: nat)
    requires Settling(Reach(cfg, before), p)
    ensures Settling(Reach(cfg, before + during), p) || IsFinished(Reach(cfg, before + during), p)
    ensures Settling(Reach(cfg, before + during), p) ==> forall k :: 0 <= k <= |during| ==> Settling(Reach(cfg, before + during[..k]), p)
    ensures Settling(Reach(cfg, before + during), p) && Reach(cfg, before).parties[p].pc.Wrote? ==>
      Reach(cfg, before + during).parties[p].pc.Wrote?
    decreases |during|
  {
    hide Step, Reach;
    if during == [] {
      assert before + during == before && before + during[..0] == before;
    } else {
      var n := |during| - 1;
      SettlingAllAlong(cfg, before, during[..n], p);
      ReachOneMore(cfg, before, during);
      SettlesOrEnds(cfg, Reach(cfg, before + during[..n]), during[n], p);
      hide Settling, IsFinished;
      assert during[..|during|] == during;
      assert !(Settling(Reach(cfg, before + during), p) && IsFinished(Reach(cfg, before + during), p));
      forall k | 0 <= k <= n ensures during[..n][..k] == during[..k] { }
    }
  }

  /**
   On one instance a failed callback whose settlement commits is never followed by a second run: none from the failure
   to the commit on that instance, and none at all after it.
   */
  lemma NoSecondRun(cfg: Config, before: seq<Act>, fail: Act, during: seq<Act>, after: seq<Act>, next: Act)
    requires FailsCallback(Reach(cfg, before), fail)
    requires var s := Reach(cfg, before + [fail] + during); fail.p in s.parties && s.parties[fail.p].pc.Wrote?
    ensures forall k :: 0 <= k < |during| && RunsCommand(cfg, Reach(cfg, before + [fail] + during[..k]), during[k]) ==>
      !SameInstance(Reach(cfg, before + [fail] + during[..k]), during[k].p, fail.p)
    ensures !RunsCommand(cfg, Reach(cfg, before + [fail] + during + [Commit(fail.p)] + after), next)
  {
    var p, failed := fail.p, before + [fail];
    Then(cfg, before, fail);
    FailureSettles(cfg, Reach(cfg, before), fail);
    SettlingAllAlong(cfg, failed, during, p);
    hide Reach, Step, RunsCommand;
    assert Settling(Reach(cfg, failed + during), p);
    forall k | 0 <= k < |during| && RunsCommand(cfg, Reach(cfg, failed + during[..k]), during[k])
      ensures !SameInstance(Reach(cfg, failed + during[..k]), during[k].p, p)
    {
      NoRunWhileSettling(cfg, failed + during[..k], p, during[k]);
    }
    SettledByCommit(cfg, failed + during, p);
    var committed := failed + during + [Commit(p)];
    SettledForever(cfg, committed, after);
    if RunsCommand(cfg, Reach(cfg, committed + after), next) {
      RunsUnderLockAndSlot(cfg, committed + after, next);
    }
  }

  lemma SettledByCommit(cfg: Config, acts: seq<Act>, p: nat)
    requires p in Reach(cfg, acts).parties && Reach(cfg, acts).parties[p].pc == Wrote(Fails, true)
    ensures Reach(cfg, acts + [Commit(p)]).row.status == Failed
  {
    assert (acts + [Commit(p)])[..|acts|] == acts;
  }

  /** p's callback has run, or failed, and nothing of p's is settled: it holds its slot. */
  predicate HasRun(s: Sys, p: nat) {
    p in s.parties && match s.parties[p].pc
      case Ran => true
      case SettleWaiting(slotted) => slotted
      case Wrote(c, kept) => kept && (c.Executes? || c.Fails?)
      case _ => false
  }

  /** p ends with nothing settled: its callback failed as "not pending", or a transaction of its own did not commit. */
  predicate GivesUp(s: Sys, p: nat, a: Act) {
    HasRun(s, p) && (if s.parties[p].pc.Ran? then a == Throw(p, true) else a == Abort(p))
  }

  ghost predicate GaveUp(cfg: Config, acts: seq<Act>, p: nat, during: seq<Act>) {
    exists k :: 0 <= k < |during| && GivesUp(Reach(cfg, acts + during[..k]), p, during[k])
  }

  ghost predicate IsSettled(s: Sys) { s.row.status !in {Pending, Approved} }

  lemma HasRunStep(cfg: Config, s: Sys, a: Act, p: nat)
    requires Inv(cfg, s) && PastPending(s) && HasRun(s, p)
    ensures HasRun(Step(cfg, s, a), p) || IsSettled(Step(cfg, s, a)) || GivesUp(s, p, a)
  {
    assert ViewOk(cfg, s, s.parties[p].pc);
    if a.p != p { OthersStand(cfg, s, a, p); }
    hide RowOk, LockOk, SlotsOk, ViewsOk, Wanted, WriteStep, TakeRowStep;
  }

  /** Once its command has run, a party keeps its slot until the request is settled or it gives up. */
  lemma {:induction false} HasRunOrEnded(cfg: Config, acts: seq<Act>, p: nat, during: seq<Act>)
    requires HasRun(Reach(cfg, acts), p)
    ensures HasRun(Reach(cfg, acts + during), p) || IsSettled(Reach(cfg, acts + during)) || GaveUp(cfg, acts, p, during)
    decreases |during|
  {
    hide Step, Reach, HasRun;
    if during == [] {
      assert acts + during == acts;
    } else {
      var n := |during| - 1;
      var s := Reach(cfg, acts + during[..n]);
      HasRunOrEnded(cfg, acts, p, during[..n]);
      ReachOneMore(cfg, acts, during);
      ReachKeeps(cfg, acts + during[..n]);
      ReachKeepsPast(cfg, acts + during[..n]);
      RowStep(cfg, s, during[n]);
      hide Inv, PastPending, GivesUp;
      if GaveUp(cfg, acts, p, during[..n]) {
        var k :| 0 <= k < n && GivesUp(Reach(cfg, acts + during[..n][..k]), p, during[..n][k]);
        assert during[..n][..k] == during[..k];
      } else if HasRun(s, p) {
        HasRunStep(cfg, s, during[n], p);
      }
    }
  }

  /**
   After p has run the command, another run on the same instance means that p gave up: its callback failed as "not
   pending", or a transaction of its own, the execution's or the settlement's, did not commit.
   */
  lemma SecondRunMeansGivenUp(cfg: Config, acts: seq<Act>, p: nat, during: seq<Act>, next: Act)
    requires HasRun(Reach(cfg, acts), p)
    requires RunsCommand(cfg, Reach(cfg, acts + during), next) && SameInstance(Reach(cfg, acts + during), next.p, p)
    ensures GaveUp(cfg, acts, p, during)
  {
    HasRunOrEnded(cfg, acts, p, during);
    RunsUnderLockAndSlot(cfg, acts + during, next);
    ReachKeeps(cfg, acts + during);
    hide Reach, GaveUp;
  }

  lemma GivingUpFreesSlot(cfg: Config, s: Sys, p: nat, a: Act)
    requires GivesUp(s, p, a)
    ensures var t := Step(cfg, s, a);
      && t.row == s.row && p in t.parties && t.parties[p] == Party(s.parties[p].inst, Finished)
      && s.parties[p].inst !in t.slots
  {
    hide WriteStep, RunStep, TakeRowStep, Wanted, AfterCommit, Apply;
  }

  /** And a party that gives up while the request is approved leaves it to a caller on its instance to run it again. */
  lemma GivenUpRunsAgain(cfg: Config, acts: seq<Act>, p: nat, a: Act) returns (after: seq<Act>, next: Act)
    requires Reach(cfg, acts).row.status == Approved && GivesUp(Reach(cfg, acts), p, a)
    ensures var t := Reach(cfg, acts + [a] + after); RunsCommand(cfg, t, next) && SameInstance(t, next.p, p)
  {
    hide Step, Reach, RunsCommand, GivesUp;
    Then(cfg, acts, a);
    GivingUpFreesSlot(cfg, Reach(cfg, acts), p, a);
    var given := Reach(cfg, acts + [a]);
    var freed := RowComesFree(cfg, acts + [a]);
    var more, q := NewcomerRuns(cfg, freed, given.parties[p].inst);
    assert Reach(cfg, more).parties[p] == given.parties[p];
    after, next := more[|acts| + 1..], Run(q, true);
    assert acts + [a] + after == more;
  }

  // ---------------------------------------------------------------------------------------------
  // Why the row changed
  // ---------------------------------------------------------------------------------------------

  /**
   What one party has been through: what it came for, whether the deadline had passed when it wrote, whether it
   saw the request approved inside its slot, whether it prepared, whether its key still held when it took the row to
   run, whether its command ran, whether its callback failed, and whether a check before the run refused it.
   */
  datatype Story = Story(task: Option<Task>, late: Option<bool>, sawApproved: bool, prepared: Option<bool>,
                         held: Option<bool>, ran: bool, failed: bool, refused: bool)

  const NoStory := Story(None, None, false, None, None, false, false, false)

  function NextStory(cfg: Config, s: Sys, a: Act, p: nat, st: Story): Story {
    if a.p != p then st
    else if p !in s.parties then (if a.Arrive? && a.start.Waiting? then st.(task := Some(a.start.task)) else st)
    else
      var pc := s.parties[p].pc;
      match a
      case Write(_, late, _) => if pc.Locked? then st.(late := Some(late)) else st
      case Precheck(_, passes) => if pc.Entering? && s.row.status == Approved && !passes then st.(refused := true) else st
      case Reread(_) => if pc.InSlot? then st.(sawApproved := s.row.status == Approved) else st
      case Prepare(_, prepared, throws) =>
        if !pc.Preparing? then st else if throws then st.(failed := true) else st.(prepared := Some(prepared))
      case Run(_, stillHolds) => if pc.TxLocked? then st.(held := Some(stillHolds), ran := RunsCommand(cfg, s, a)) else st
      case Throw(_, _) => if FailsCallback(s, a) then st.(failed := true) else st
      case _ => st
  }

  function StoryOf(cfg: Config, acts: seq<Act>, p: nat): Story {
    if acts == [] then NoStory
    else
      var before := acts[..|acts|-1];
      NextStory(cfg, Reach(cfg, before), acts[|acts|-1], p, StoryOf(cfg, before, p))
  }

  predicate Unbegun(st: Story) {
    st == NoStory.(task := st.task, late := st.late)
  }

  /** What was prepared may run only with the key it was asked with, unless the command checks keys by itself. */
  predicate KeyHeld(cfg: Config, st: Story) {
    st.prepared == Some(true) ==> cfg.skipKeyRecheck || st.held == Some(true)
  }

  /** The principal that asked, or the one the assistant asked for. */
  predicate IsRequester(request: Request, who: Principal) {
    && (who.kind == User || who.kind == Agent)
    && (if request.actor == Principal(System, "assistant") then request.onBehalfOf == Some(who) else who == request.actor)
  }

  ghost predicate MayDecideSomehow(request: Request, decider: Principal, keys: set<string>) {
    exists mode :: MayDecide(request, decider, keys, mode)
  }

  /** What a party has been through that has written this change. */
  ghost predicate Caused(cfg: Config, c: Change, st: Story) {
    match c
    case Approves(d, keys, mode) =>
      Unbegun(st) && st.task == Some(Decide(d, keys, Approve)) && st.late == Some(false) && MayDecide(cfg.request, d, keys, mode)
    case Rejects(d, keys) =>
      Unbegun(st) && st.task == Some(Decide(d, keys, Reject)) && st.late == Some(false) && MayDecideSomehow(cfg.request, d, keys)
    case Cancels => Unbegun(st) && st.task.Some? && st.task.value.Cancel? && IsRequester(cfg.request, st.task.value.who)
    case Closes(outcome) =>
      Unbegun(st) && st.task == Some(Close(outcome)) && (outcome == Cancelled || outcome == Expired) && IsAsk(cfg.request)
    case TimesOut(approve) => Unbegun(st) && st.task == Some(Sweep) && st.late == Some(true) && approve == cfg.timeoutApproves
    case RedeemExpires => Unbegun(st) && st.task == Some(Sweep) && st.late == Some(true) && cfg.redeem
    case Executes => st.ran && st.sawApproved && KeyHeld(cfg, st)
    case Revokes => !st.ran && st.prepared == Some(true) && st.held == Some(false) && !cfg.skipKeyRecheck
    case Fails => st.failed || (st.refused && !cfg.redeem)
  }

  /** Where a party stands agrees with what it has been through. */
  ghost predicate StoryFits(cfg: Config, pc: Pc, st: Story) {
    match pc
    case Waiting(task) => st == NoStory.(task := Some(task))
    case Locked(task, _) => st == NoStory.(task := Some(task))
    case Entering => Unbegun(st)
    case Queued => Unbegun(st)
    case InSlot => Unbegun(st)
    case Preparing => st.sawApproved && Unbegun(st.(sawApproved := false))
    case TxWaiting(prepared) => st.sawApproved && !st.ran && st.prepared == Some(prepared) && st.held == None
    case TxLocked(prepared, _) => st.sawApproved && !st.ran && st.prepared == Some(prepared) && st.held == None
    case Ran => st.ran && st.sawApproved && KeyHeld(cfg, st)
    case SettleWaiting(slotted) => if slotted then st.failed else st.refused && !cfg.redeem
    case Wrote(c, _) => Caused(cfg, c, st)
    case Finished => true
  }

  ghost predicate StoryOk(cfg: Config, s: Sys, p: nat, st: Story) {
    if p in s.parties then StoryFits(cfg, s.parties[p].pc, st) else st == NoStory
  }

  /** What a write puts down is what its task calls for. */
  lemma WantedIsCaused(cfg: Config, task: Task, seen: Status, late: bool, settles: bool)
    requires Wanted(cfg, task, seen, late, settles).Some?
    ensures Caused(cfg, Wanted(cfg, task, seen, late, settles).value, NoStory.(task := Some(task), late := Some(late)))
  {
    if task.Decide? {
      var mode := DecideEligibility(cfg.request, task.decider, task.keys).satisfiedBy;
      EligibleExactlyWhen(cfg.request, task.decider, task.keys, mode);
    }
    hide DecideEligibility, MayDecide;
  }

  lemma WriteTells(cfg: Config, s: Sys, p: nat, late: bool, settles: bool, st: Story)
    requires p in s.parties && s.parties[p].pc.Locked? && StoryOk(cfg, s, p, st)
    ensures StoryOk(cfg, WriteStep(cfg, s, p, late, settles), p, st.(late := Some(late)))
  {
    var pc := s.parties[p].pc;
    if Wanted(cfg, pc.task, pc.seen, late, settles).Some? { WantedIsCaused(cfg, pc.task, pc.seen, late, settles); }
    hide Wanted, Caused;
  }

  lemma ArriveTells(cfg: Config, s: Sys, a: Act)
    requires a.p !in s.parties
    ensures StoryOk(cfg, Step(cfg, s, a), a.p, NextStory(cfg, s, a, a.p, NoStory))
  {
    hide Wanted, Caused, KeyHeld;
  }

  lemma ChecksTell(cfg: Config, s: Sys, a: Act, st: Story)
    requires a.p in s.parties && StoryOk(cfg, s, a.p, st) && (a.Precheck? || a.Reread? || a.Prepare?)
    ensures StoryOk(cfg, Step(cfg, s, a), a.p, NextStory(cfg, s, a, a.p, st))
  {
    hide Wanted, Caused, KeyHeld;
  }

  lemma RunTells(cfg: Config, s: Sys, p: nat, stillHolds: bool, st: Story)
    requires p in s.parties && StoryOk(cfg, s, p, st) && ViewOk(cfg, s, s.parties[p].pc)
    ensures StoryOk(cfg, Step(cfg, s, Run(p, stillHolds)), p, NextStory(cfg, s, Run(p, stillHolds), p, st))
  {
    hide Wanted, WriteStep, TakeRowStep, AfterCommit, Apply, ChangeOk, MayDecide, MayDecideSomehow;
  }

  lemma ThrowTells(cfg: Config, s: Sys, a: Act, st: Story)
    requires a.p in s.parties && StoryOk(cfg, s, a.p, st) && (a.Throw? || a.Abort? || a.TakeSlot? || a.Arrive?)
    ensures StoryOk(cfg, Step(cfg, s, a), a.p, NextStory(cfg, s, a, a.p, st))
  {
    hide Wanted, Caused, KeyHeld, WriteStep, TakeRowStep, RunStep, AfterCommit, Apply;
  }

  lemma TakingTells(cfg: Config, s: Sys, a: Act, st: Story)
    requires a.p in s.parties && StoryOk(cfg, s, a.p, st) && (a.TakeRow? || a.TakeRowToRun?)
    ensures StoryOk(cfg, Step(cfg, s, a), a.p, NextStory(cfg, s, a, a.p, st))
  {
    hide Wanted, Caused, KeyHeld, WriteStep, RunStep, AfterCommit, Apply;
  }

  lemma EndingTells(cfg: Config, s: Sys, a: Act, st: Story)
    requires a.p in s.parties && StoryOk(cfg, s, a.p, st) && (a.Transition? || a.Settle? || a.Commit?)
    ensures StoryOk(cfg, Step(cfg, s, a), a.p, NextStory(cfg, s, a, a.p, st))
  {
    hide Wanted, KeyHeld, MayDecide, MayDecideSomehow, IsRequester, WriteStep, TakeRowStep, RunStep, Apply;
  }

  /** Each step of a party adds to what it has been through what it does. */
  lemma StoryStep(cfg: Config, s: Sys, a: Act, p: nat, st: Story)
    requires Inv(cfg, s) && StoryOk(cfg, s, p, st)
    ensures StoryOk(cfg, Step(cfg, s, a), p, NextStory(cfg, s, a, p, st))
  {
    hide Step, WriteStep, LockOk, SlotsOk, RowOk, StoryFits, ViewOk;
    if a.p != p {
      if p in s.parties { OthersStand(cfg, s, a, p); } else { StillAbsent(cfg, s, a, p); }
    } else if p !in s.parties {
      ArriveTells(cfg, s, a);
    } else {
      assert ViewOk(cfg, s, s.parties[p].pc);
      hide StoryOk, ViewsOk, NextStory;
      match a
      case Write(_, late, settles) => WriteActTells(cfg, s, p, late, settles, st);
      case Run(_, stillHolds) => RunTells(cfg, s, p, stillHolds, st);
      case Precheck(_, _) => ChecksTell(cfg, s, a, st);
      case Reread(_) => ChecksTell(cfg, s, a, st);
      case Prepare(_, _, _) => ChecksTell(cfg, s, a, st);
      case TakeRow(_) => TakingTells(cfg, s, a, st);
      case TakeRowToRun(_) => TakingTells(cfg, s, a, st);
      case Transition(_) => EndingTells(cfg, s, a, st);
      case Settle(_) => EndingTells(cfg, s, a, st);
      case Commit(_) => EndingTells(cfg, s, a, st);
      case _ => ThrowTells(cfg, s, a, st);
    }
  }

  lemma WriteActTells(cfg: Config, s: Sys, p: nat, late: bool, settles: bool, st: Story)
    requires p in s.parties && StoryOk(cfg, s, p, st)
    ensures StoryOk(cfg, Step(cfg, s, Write(p, late, settles)), p, NextStory(cfg, s, Write(p, late, settles), p, st))
  {
    hide StoryOk, Wanted, TakeRowStep, RunStep, AfterCommit, Apply;
    if s.parties[p].pc.Locked? { WriteTells(cfg, s, p, late, settles, st); }
  }

  lemma StillAbsent(cfg: Config, s: Sys, a: Act, p: nat)
    requires p !in s.parties && a.p != p
    ensures p !in Step(cfg, s, a).parties
  {
    hide Wanted;
  }

  lemma {:induction false} StoriesFit(cfg: Config, acts: seq<Act>, p: nat)
    ensures StoryOk(cfg, Reach(cfg, acts), p, StoryOf(cfg, acts, p))
    decreases |acts|
  {
    if acts != [] {
      var before := acts[..|acts|-1];
      StoriesFit(cfg, before, p);
      ReachKeeps(cfg, before);
      hide Inv, Step, StoryOk, NextStory;
      StoryStep(cfg, Reach(cfg, before), acts[|acts|-1], p, StoryOf(cfg, before, p));
    }
  }

  const Opened := Row(Pending, [], None, 0)

  /** A pending row's change, by what the party that commits it came for. */
  ghost predicate EndsPending(cfg: Config, st: Story, after: Row) {
    Unbegun(st) && st.task.Some? &&
    match st.task.value
    case Decide(d, keys, Approve) =>
      st.late == Some(false)
      && exists mode :: MayDecide(cfg.request, d, keys, mode) && after == Row(Approved, [Decision(d, keys, Approve)], Some(mode), 0)
    case Decide(d, keys, Reject) =>
      st.late == Some(false) && MayDecideSomehow(cfg.request, d, keys)
      && after == Opened.(status := Rejected, decisions := [Decision(d, keys, Reject)])
    case Cancel(who) => IsRequester(cfg.request, who) && after == Opened.(status := Cancelled)
    case Close(outcome) => IsAsk(cfg.request) && outcome in {Cancelled, Expired} && after == Opened.(status := outcome)
    case Sweep =>
      st.late == Some(true)
      && after == if cfg.timeoutApproves then Opened.(status := Approved, satisfiedBy := Some(ModeNone)) else Opened.(status := Expired)
  }

  /** An approved row's change: the command ran, or why it did not and never will. */
  ghost predicate EndsApproved(cfg: Config, st: Story, before: Row, after: Row) {
    match after.status
    case Executed => after == before.(status := Executed, runs := 1) && st.ran && st.sawApproved && KeyHeld(cfg, st)
    case Failed =>
      && after == before.(status := Failed) && before.runs == 0
      && (st.failed || (st.refused && !cfg.redeem)
          || (!st.ran && st.prepared == Some(true) && st.held == Some(false) && !cfg.skipKeyRecheck))
    case Expired =>
      after == before.(status := Expired) && cfg.redeem && Unbegun(st) && st.task == Some(Sweep) && st.late == Some(true)
    case _ => false
  }

  /** Every change of the row is a commit whose party came for just that, and an approval goes on to be executed. */
  lemma WhyItChanged(cfg: Config, acts: seq<Act>, a: Act)
    requires Reach(cfg, acts + [a]).row != Reach(cfg, acts).row
    ensures var before, t, st := Reach(cfg, acts).row, Reach(cfg, acts + [a]), StoryOf(cfg, acts, a.p);
      && a.Commit? && a.p in t.parties
      && (if before.status == Pending then before == Opened && EndsPending(cfg, st, t.row)
          else before.status == Approved && EndsApproved(cfg, st, before, t.row))
      && t.parties[a.p].pc == (if t.row.status == Approved && !cfg.redeem then Entering else Finished)
  {
    var s, st := Reach(cfg, acts), StoryOf(cfg, acts, a.p);
    Then(cfg, acts, a);
    ReachKeeps(cfg, acts);
    RowStep(cfg, s, a);
    StoriesFit(cfg, acts, a.p);
    hide Reach, StoryOf;
    ChangeHasCause(cfg, s, a.p, st);
  }

  lemma ChangeHasCause(cfg: Config, s: Sys, p: nat, st: Story)
    requires Inv(cfg, s) && StoryOk(cfg, s, p, st) && p in s.parties && s.parties[p].pc.Wrote?
    ensures var t := Step(cfg, s, Commit(p));
      && p in t.parties
      && (if s.row.status == Pending then s.row == Opened && EndsPending(cfg, st, t.row)
          else s.row.status == Approved && EndsApproved(cfg, st, s.row, t.row))
      && t.parties[p].pc == (if t.row.status == Approved && !cfg.redeem then Entering else Finished)
  {
    var c := s.parties[p].pc.change;
    assert ViewOk(cfg, s, s.parties[p].pc);
    assert RowOk(cfg, s.row) && Caused(cfg, c, st);
    hide *;
    ChangeFits(cfg, c, st, s.row);
    CommitApplies(cfg, s, p);
  }

  lemma CommitApplies(cfg: Config, s: Sys, p: nat)
    requires p in s.parties && s.parties[p].pc.Wrote?
    ensures var t, c := Step(cfg, s, Commit(p)), s.parties[p].pc.change;
      p in t.parties && t.parties[p].pc == AfterCommit(cfg, c) && t.row == Apply(c, s.row)
  {
    hide Apply, AfterCommit;
  }

  lemma ChangeFits(cfg: Config, c: Change, st: Story, row: Row)
    requires RowOk(cfg, row) && row.status == From(c) && Caused(cfg, c, st)
    ensures if row.status == Pending then row == Opened && EndsPending(cfg, st, Apply(c, row))
            else row.status == Approved && EndsApproved(cfg, st, row, Apply(c, row))
    ensures AfterCommit(cfg, c) == if Apply(c, row).status == Approved && !cfg.redeem then Entering else Finished
  {
    hide MayDecide, MayDecideSomehow, Released, IsRequester, KeyHeld;
  }

  /** A waiting party gets a free row, with the status committed then; a held row it waits for, but a closer ends instead. */
  lemma TakesRowExactlyWhen(cfg: Config, acts: seq<Act>, p: nat)
    requires var s := Reach(cfg, acts); p in s.parties && s.parties[p].pc.Waiting?
    ensures var s, t := Reach(cfg, acts), Reach(cfg, acts + [TakeRow(p)]);
      var task := StoryOf(cfg, acts, p).task;
      && task.Some? && t.row == s.row && p in t.parties
      && (if s.lock == None then t.lock == Some(p) && t.parties[p].pc == Locked(task.value, s.row.status)
          else t.lock == s.lock && t.parties[p].pc == if task.value.Close? then Finished else Waiting(task.value))
  {
    Then(cfg, acts, TakeRow(p));
    ReachKeeps(cfg, acts);
    StoriesFit(cfg, acts, p);
    hide Reach, StoryOf, SlotsOk, ViewsOk, RowOk, WriteStep, RunStep, Wanted;
  }

  /** When a party that holds the row writes at all. */
  ghost predicate MayWrite(cfg: Config, task: Task, status: Status, late: bool, settles: bool) {
    match task
    case Decide(d, keys, _) => status == Pending && !late && settles && MayDecideSomehow(cfg.request, d, keys)
    case Cancel(who) => status == Pending && IsRequester(cfg.request, who)
    case Close(outcome) => status == Pending && settles && IsAsk(cfg.request) && outcome in {Cancelled, Expired}
    case Sweep => late && ((status == Pending && settles) || (status == Approved && cfg.redeem))
  }

  lemma WritesExactlyWhen(cfg: Config, acts: seq<Act>, p: nat, late: bool, settles: bool)
    requires var s := Reach(cfg, acts); p in s.parties && s.parties[p].pc.Locked?
    ensures var s, t := Reach(cfg, acts), Reach(cfg, acts + [Write(p, late, settles)]);
      && StoryOf(cfg, acts, p).task == Some(s.parties[p].pc.task)
      && t.row == s.row && p in t.parties
      && (if MayWrite(cfg, s.parties[p].pc.task, s.row.status, late, settles) then t.parties[p].pc.Wrote? && t.lock == Some(p)
          else t.parties[p].pc == Finished)
  {
    var s := Reach(cfg, acts);
    Then(cfg, acts, Write(p, late, settles));
    ReachKeeps(cfg, acts);
    StoriesFit(cfg, acts, p);
    hide Reach, StoryOf;
    var pc := s.parties[p].pc;
    assert ViewOk(cfg, s, pc);
    hide Inv;
    WantedExactlyWhen(cfg, pc.task, pc.seen, late, settles);
    if Wanted(cfg, pc.task, pc.seen, late, settles).Some? { WantedIsOk(cfg, pc.task, pc.seen, late, settles); }
    hide Wanted, MayWrite, ChangeOk;
  }

  lemma WantedExactlyWhen(cfg: Config, task: Task, seen: Status, late: bool, settles: bool)
    ensures Wanted(cfg, task, seen, late, settles).Some? <==> MayWrite(cfg, task, seen, late, settles)
  {
    if task.Decide? {
      forall mode ensures DecideEligibility(cfg.request, task.decider, task.keys) == Eligible(mode)
        <==> MayDecide(cfg.request, task.decider, task.keys, mode)
      {
        EligibleExactlyWhen(cfg.request, task.decider, task.keys, mode);
      }
      hide DecideEligibility, MayDecide;
    }
  }

  /** Once it has the row, the command runs exactly for an approved request whose key still holds if anything was prepared. */
  lemma RunsExactlyWhen(cfg: Config, acts: seq<Act>, p: nat, stillHolds: bool)
    requires var s := Reach(cfg, acts); p in s.parties && s.parties[p].pc.TxLocked?
    ensures var s, st := Reach(cfg, acts), StoryOf(cfg, acts, p);
      RunsCommand(cfg, s, Run(p, stillHolds)) <==>
        s.row.status == Approved && (st.prepared == Some(true) ==> cfg.skipKeyRecheck || stillHolds)
  {
    ReachKeeps(cfg, acts);
    StoriesFit(cfg, acts, p);
    var s := Reach(cfg, acts);
    assert ViewOk(cfg, s, s.parties[p].pc);
    hide Reach, StoryOf, Inv;
    RunsFromRow(cfg, s, p, stillHolds);
    hide RunsCommand;
  }

  lemma RunsFromRow(cfg: Config, s: Sys, p: nat, stillHolds: bool)
    requires p in s.parties && s.parties[p].pc.TxLocked? && s.parties[p].pc.lockedAt == s.row.status
    ensures RunsCommand(cfg, s, Run(p, stillHolds)) <==>
      s.row.status == Approved && (s.parties[p].pc.prepared ==> cfg.skipKeyRecheck || stillHolds)
  {
    hide WriteStep, TakeRowStep, Wanted, AfterCommit;
  }

  /** In every run the command of a party runs only with the row, and with the key if it prepared. */
  lemma RunsOnlyWithKey(cfg: Config, acts: seq<Act>, a: Act)
    requires RunsCommand(cfg, Reach(cfg, acts), a)
    ensures var st := StoryOf(cfg, acts, a.p);
      st.sawApproved && st.prepared.Some? && (st.prepared.value ==> cfg.skipKeyRecheck || a.stillHolds)
  {
    StoriesFit(cfg, acts, a.p);
    hide Reach, StoryOf;
  }

  /** A party that prepared and has lost its key fails the request by its commit, and nothing was run. */
  lemma RevokedFails(cfg: Config, acts: seq<Act>, p: nat)
    requires var s := Reach(cfg, acts);
      p in s.parties && s.parties[p].pc.TxLocked? && s.row.status == Approved
    requires StoryOf(cfg, acts, p).prepared == Some(true) && !cfg.skipKeyRecheck
    ensures var s, t := Reach(cfg, acts), Reach(cfg, acts + [Run(p, false)] + [Commit(p)]);
      t.row == s.row.(status := Failed) && t.row.runs == 0
  {
    ReachKeeps(cfg, acts);
    StoriesFit(cfg, acts, p);
    Then(cfg, acts, Run(p, false));
    Then(cfg, acts + [Run(p, false)], Commit(p));
    hide Reach, StoryOf, Step, LockOk, SlotsOk;
    assert ViewOk(cfg, Reach(cfg, acts), Reach(cfg, acts).parties[p].pc);
    RevokedStep(cfg, Reach(cfg, acts), p);
  }

  lemma RevokedStep(cfg: Config, s: Sys, p: nat)
    requires p in s.parties && s.parties[p].pc == TxLocked(true, Approved) && s.row.status == Approved && !cfg.skipKeyRecheck
    ensures Step(cfg, Step(cfg, s, Run(p, false)), Commit(p)).row == s.row.(status := Failed)
  {
    hide WriteStep, TakeRowStep, Wanted, AfterCommit;
  }

  // ---------------------------------------------------------------------------------------------
  // Other instances
  // ---------------------------------------------------------------------------------------------

  // The slot belongs to one instance. Across two, the gap between the rollback and the settlement is open.

  /** Some party goes on to run the command while p is still settling its failure. */
  ghost predicate RunsAgain(cfg: Config, acts: seq<Act>, p: nat, after: seq<Act>, next: Act) {
    Settling(Reach(cfg, acts + after), p) && RunsCommand(cfg, Reach(cfg, acts + after), next)
  }

  /** Who is past the check of the status has seen it approved, so it is pending no more. */
  predicate IsPast(pc: Pc) {
    pc.Queued? || pc.InSlot? || pc.Preparing? || pc.TxWaiting? || pc.TxLocked? || pc.Ran? || pc.SettleWaiting?
  }

  ghost predicate PastPending(s: Sys) {
    forall p :: p in s.parties && IsPast(s.parties[p].pc) ==> s.row.status != Pending
  }

  lemma StepKeepsPast(cfg: Config, s: Sys, a: Act)
    requires Inv(cfg, s) && PastPending(s)
    ensures PastPending(Step(cfg, s, a))
  {
    var t := Step(cfg, s, a);
    RowStep(cfg, s, a);
    forall q | q in t.parties && IsPast(t.parties[q].pc) ensures t.row.status != Pending {
      if q != a.p && q in s.parties { OthersStand(cfg, s, a, q); }
      hide Inv, Step;
    }
  }

  lemma {:induction false} ReachKeepsPast(cfg: Config, acts: seq<Act>)
    ensures PastPending(Reach(cfg, acts))
    decreases |acts|
  {
    if acts != [] {
      ReachKeeps(cfg, acts[..|acts|-1]);
      ReachKeepsPast(cfg, acts[..|acts|-1]);
      hide Inv, Step, PastPending;
      StepKeepsPast(cfg, Reach(cfg, acts[..|acts|-1]), acts[|acts|-1]);
    }
  }

  /** The holder of the row gives it up; the row stays, and so do all who do not hold it. */
  lemma RowComesFree(cfg: Config, acts: seq<Act>) returns (more: seq<Act>)
    ensures acts <= more
    ensures var s, t := Reach(cfg, acts), Reach(cfg, more);
      && t.lock == None && t.row == s.row && t.slots.Keys <= s.slots.Keys
      && forall q :: q in s.parties && !HoldsRow(s.parties[q].pc) ==> q in t.parties && t.parties[q] == s.parties[q]
  {
    var s := Reach(cfg, acts);
    ReachKeeps(cfg, acts);
    more := acts;
    if s.lock.Some? {
      var h := s.lock.value;
      var a := if s.parties[h].pc.TxLocked? || s.parties[h].pc.Ran? then Throw(h, true) else Abort(h);
      more := acts + [a];
      Then(cfg, acts, a);
      hide Reach;
      LeavesRow(cfg, s, h);
    }
  }

  lemma LeavesRow(cfg: Config, s: Sys, h: nat)
    requires LockOk(s) && s.lock == Some(h)
    ensures var t := Step(cfg, s, if s.parties[h].pc.TxLocked? || s.parties[h].pc.Ran? then Throw(h, true) else Abort(h));
      && t == Move(s, h, Finished) && t.lock == None && t.slots.Keys <= s.slots.Keys
  {
    hide RunStep, WriteStep, TakeRowStep, Wanted, AfterCommit, Apply;
  }

  lemma {:induction false} NatAbove(s: set<nat>) returns (n: nat)
    ensures forall k :: k in s ==> k < n
    decreases |s|
  {
    if s == {} { return 0; }
    var k :| k in s;
    var m := NatAbove(s - {k});
    n := if k < m then m else k + 1;
    assert forall j :: j in s ==> j == k || j in s - {k};
  }

  /** A new caller comes to an instance whose slot is free and gets ready to take the row. */
  lemma NewcomerGetsReady(cfg: Config, acts: seq<Act>, inst: nat) returns (ready: seq<Act>, q: nat)
    requires Reach(cfg, acts).row.status == Approved && inst !in Reach(cfg, acts).slots
    ensures acts <= ready && q !in Reach(cfg, acts).parties
    ensures var s := Reach(cfg, acts);
      Reach(cfg, ready) == s.(parties := s.parties[q := Party(inst, TxWaiting(false))], slots := s.slots[inst := q])
  {
    var s := Reach(cfg, acts);
    q := NatAbove(s.parties.Keys);
    var came := acts + [Arrive(q, inst, Entering)];
    Then(cfg, acts, Arrive(q, inst, Entering));
    var t := s.(parties := s.parties[q := Party(inst, Entering)]);
    assert Reach(cfg, came) == t;
    hide Reach, Step;
    ready := GetsReady(cfg, came, q, t);
    assert t.parties[q := Party(inst, TxWaiting(false))] == s.parties[q := Party(inst, TxWaiting(false))];
  }

  /** It takes the row and runs the command; nobody else has moved. */
  lemma NewcomerRuns(cfg: Config, acts: seq<Act>, inst: nat) returns (more: seq<Act>, q: nat)
    requires var s := Reach(cfg, acts); s.lock == None && s.row.status == Approved && inst !in s.slots
    ensures acts <= more && RunsCommand(cfg, Reach(cfg, more), Run(q, true))
    ensures q in Reach(cfg, more).parties && Reach(cfg, more).parties[q].inst == inst
    ensures var s, t := Reach(cfg, acts), Reach(cfg, more);
      forall r :: r in s.parties ==> r != q && r in t.parties && t.parties[r] == s.parties[r]
  {
    var s := Reach(cfg, acts);
    var ready, caller := NewcomerGetsReady(cfg, acts, inst);
    q := caller;
    more := ready + [TakeRowToRun(q)];
    Then(cfg, ready, TakeRowToRun(q));
    hide Reach, WriteStep, TakeRowStep, Wanted, AfterCommit;
  }

  /**
   While a failure is being settled the command can run again exactly until the settlement holds the row, or the
   request is no longer approved; and whoever runs it is on another instance.
   */
  lemma RunsAgainExactlyWhen(cfg: Config, acts: seq<Act>, p: nat)
    requires Settling(Reach(cfg, acts), p)
    ensures (exists after, next :: RunsAgain(cfg, acts, p, after, next))
      <==> Reach(cfg, acts).row.status == Approved && Reach(cfg, acts).parties[p].pc.SettleWaiting?
    ensures forall after, next :: RunsAgain(cfg, acts, p, after, next) ==> !SameInstance(Reach(cfg, acts + after), next.p, p)
  {
    var s := Reach(cfg, acts);
    if s.row.status == Approved && s.parties[p].pc.SettleWaiting? {
      var freed := RowComesFree(cfg, acts);
      var inst := NatAbove(Reach(cfg, freed).slots.Keys);
      var more, q := NewcomerRuns(cfg, freed, inst);
      assert Settling(Reach(cfg, more), p);
      assert acts + more[|acts|..] == more;
      assert RunsAgain(cfg, acts, p, more[|acts|..], Run(q, true));
    }
    forall after, next | RunsAgain(cfg, acts, p, after, next)
      ensures s.row.status == Approved && s.parties[p].pc.SettleWaiting? && !SameInstance(Reach(cfg, acts + after), next.p, p)
    {
      RunsAgainOnlyThen(cfg, acts, p, after, next);
    }
    hide RunsAgain, Reach, SameInstance, Settling;
  }

  lemma RunsAgainOnlyThen(cfg: Config, acts: seq<Act>, p: nat, after: seq<Act>, next: Act)
    requires Settling(Reach(cfg, acts), p) && RunsAgain(cfg, acts, p, after, next)
    ensures Reach(cfg, acts).row.status == Approved && Reach(cfg, acts).parties[p].pc.SettleWaiting?
    ensures !SameInstance(Reach(cfg, acts + after), next.p, p)
  {
    hide Reach, Step;
    SettlingAllAlong(cfg, acts, after, p);
    RunsUnderLockAndSlot(cfg, acts + after, next);
    NoRunWhileSettling(cfg, acts + after, p, next);
    ReachKeeps(cfg, acts + after);
    ReachKeepsPast(cfg, acts);
    if Reach(cfg, acts).row.status != Approved { SettledForever(cfg, acts, after); }
    hide SlotsOk, ViewsOk, RowOk;
  }

  lemma Then(cfg: Config, acts: seq<Act>, a: Act)
    ensures Reach(cfg, acts + [a]) == Step(cfg, Reach(cfg, acts), a)
  {
    assert (acts + [a])[..|acts|] == acts;
  }

  const TimeoutConfig := Config(Request("key", Principal(User, "u"), None, ModeSelf, false, false), false, true, false)

  const ApprovedByTimeout := Row(Approved, [], Some(ModeNone), 0)

  /** The request times out into an approval, and its sweeper goes on to execute it. */
  lemma TimedOutRun() returns (acts: seq<Act>)
    ensures Reach(TimeoutConfig, acts) == Sys(ApprovedByTimeout, None, map[], map[0 := Party(0, Entering)], false)
  {
    var cfg := TimeoutConfig;
    var pending := Row(Pending, [], None, 0);
    acts := [];
    assert Reach(cfg, acts) == Sys(pending, None, map[], map[], false);
    hide Reach;
    Then(cfg, acts, Arrive(0, 0, Waiting(Sweep)));
    acts := acts + [Arrive(0, 0, Waiting(Sweep))];
    assert Reach(cfg, acts) == Sys(pending, None, map[], map[0 := Party(0, Waiting(Sweep))], false);
    Then(cfg, acts, TakeRow(0));
    acts := acts + [TakeRow(0)];
    assert Reach(cfg, acts) == Sys(pending, Some(0), map[], map[0 := Party(0, Locked(Sweep, Pending))], false);
    Then(cfg, acts, Write(0, true, true));
    acts := acts + [Write(0, true, true)];
    assert Reach(cfg, acts) == Sys(pending, Some(0), map[], map[0 := Party(0, Wrote(TimesOut(true), false))], false);
    Then(cfg, acts, Commit(0));
    acts := acts + [Commit(0)];
  }

  /** s with p, alone on its instance, further on and holding its slot. */
  function InSlotAt(s: Sys, p: nat, pc: Pc): Sys
    requires p in s.parties
  {
    s.(slots := s.slots[s.parties[p].inst := p], parties := s.parties[p := Party(s.parties[p].inst, pc)])
  }

  lemma EntersSlot(cfg: Config, s: Sys, p: nat)
    requires s.row.status == Approved && p in s.parties && s.parties[p].pc == Entering && s.parties[p].inst !in s.slots
    ensures Step(cfg, Step(cfg, s, Precheck(p, true)), TakeSlot(p)) == InSlotAt(s, p, InSlot)
  {
    hide WriteStep, RunStep, TakeRowStep, Wanted, AfterCommit;
    var queued := Step(cfg, s, Precheck(p, true));
    assert queued == s.(parties := s.parties[p := Party(s.parties[p].inst, Queued)]);
  }

  lemma GoesOnInSlot(cfg: Config, s: Sys, p: nat)
    requires s.row.status == Approved && p in s.parties && s.parties[p].pc == Entering
    ensures Step(cfg, InSlotAt(s, p, InSlot), Reread(p)) == InSlotAt(s, p, Preparing)
    ensures Step(cfg, InSlotAt(s, p, Preparing), Prepare(p, false, false)) == InSlotAt(s, p, TxWaiting(false))
  {
    hide WriteStep, RunStep, TakeRowStep, Wanted, AfterCommit;
  }

  /** A caller alone on its instance gets as far as waiting for the row. */
  lemma GetsReady(cfg: Config, acts: seq<Act>, p: nat, s: Sys) returns (more: seq<Act>)
    requires Reach(cfg, acts) == s && s.row.status == Approved
    requires p in s.parties && s.parties[p].pc == Entering && s.parties[p].inst !in s.slots
    ensures acts <= more && Reach(cfg, more) == InSlotAt(s, p, TxWaiting(false))
  {
    hide Reach, Step;
    EntersSlot(cfg, s, p);
    GoesOnInSlot(cfg, s, p);
    Then(cfg, acts, Precheck(p, true));
    more := acts + [Precheck(p, true)];
    Then(cfg, more, TakeSlot(p));
    more := more + [TakeSlot(p)];
    Then(cfg, more, Reread(p));
    more := more + [Reread(p)];
    Then(cfg, more, Prepare(p, false, false));
    more := more + [Prepare(p, false, false)];
  }

  /** Two callers on two instances, both let through to the row. */
  lemma BothReady() returns (acts: seq<Act>)
    ensures Reach(TimeoutConfig, acts) == TwoCallers(None, TxWaiting(false), TxWaiting(false))
  {
    acts := TimedOutRun();
    var one := Sys(ApprovedByTimeout, None, map[], map[0 := Party(0, Entering)], false);
    acts := GetsReady(TimeoutConfig, acts, 0, one);
    hide Reach;
    Then(TimeoutConfig, acts, Arrive(1, 1, Entering));
    acts := acts + [Arrive(1, 1, Entering)];
    var two := Sys(ApprovedByTimeout, None, map[0 := 0], map[0 := Party(0, TxWaiting(false)), 1 := Party(1, Entering)], false);
    assert Reach(TimeoutConfig, acts) == two;
    acts := GetsReady(TimeoutConfig, acts, 1, two);
  }

  function TwoCallers(lock: Option<nat>, one: Pc, other: Pc): Sys {
    Sys(ApprovedByTimeout, lock, map[0 := 0, 1 := 1], map[0 := Party(0, one), 1 := Party(1, other)], false)
  }

  /** Such a run: a caller on a second instance takes the still approved row in that gap and runs the command again. */
  lemma SecondInstanceRunsAgain() returns (before: seq<Act>, after: seq<Act>)
    ensures RunsCommand(TimeoutConfig, Reach(TimeoutConfig, before), Run(0, true))
    ensures Settling(Reach(TimeoutConfig, before + [Run(0, true)] + after), 0)
    ensures RunsCommand(TimeoutConfig, Reach(TimeoutConfig, before + [Run(0, true)] + after), Run(1, true))
  {
    before := FirstTakesRow();
    after := [Throw(0, false), TakeRowToRun(1)];
    SecondTakesRow(before);
    assert before + [Run(0, true)] + after == before + [Run(0, true)] + [Throw(0, false)] + [TakeRowToRun(1)];
    hide Reach, WriteStep, TakeRowStep, Wanted, AfterCommit;
  }

  lemma FirstTakesRow() returns (before: seq<Act>)
    ensures Reach(TimeoutConfig, before) == TwoCallers(Some(0), TxLocked(false, Approved), TxWaiting(false))
  {
    var ready := BothReady();
    hide Reach, WriteStep, Wanted, AfterCommit;
    Then(TimeoutConfig, ready, TakeRowToRun(0));
    before := ready + [TakeRowToRun(0)];
  }

  lemma SecondTakesRow(before: seq<Act>)
    requires Reach(TimeoutConfig, before) == TwoCallers(Some(0), TxLocked(false, Approved), TxWaiting(false))
    ensures Reach(TimeoutConfig, before + [Run(0, true)] + [Throw(0, false)] + [TakeRowToRun(1)])
      == TwoCallers(Some(1), SettleWaiting(true), TxLocked(false, Approved))
  {
    FirstFails(before);
    hide Reach, WriteStep, Wanted, AfterCommit;
    Then(TimeoutConfig, before + [Run(0, true)] + [Throw(0, false)], TakeRowToRun(1));
  }

  lemma FirstRuns(before: seq<Act>)
    requires Reach(TimeoutConfig, before) == TwoCallers(Some(0), TxLocked(false, Approved), TxWaiting(false))
    ensures Reach(TimeoutConfig, before + [Run(0, true)]) == TwoCallers(Some(0), Ran, TxWaiting(false))
  {
    hide Reach, WriteStep, TakeRowStep, Wanted, AfterCommit;
    Then(TimeoutConfig, before, Run(0, true));
  }

  lemma FirstFails(before: seq<Act>)
    requires Reach(TimeoutConfig, before) == TwoCallers(Some(0), TxLocked(false, Approved), TxWaiting(false))
    ensures Reach(TimeoutConfig, before + [Run(0, true)] + [Throw(0, false)]) == TwoCallers(None, SettleWaiting(true), TxWaiting(false))
  {
    hide Reach, WriteStep, RunStep, TakeRowStep, Wanted, AfterCommit;
    FirstRuns(before);
    Then(TimeoutConfig, before + [Run(0, true)], Throw(0, false));
  }

  // ---------------------------------------------------------------------------------------------
  // An approved request that expires
  // ---------------------------------------------------------------------------------------------

  /** An approved request that is not redeemed is executed or fails, or stays approved. */
  lemma {:induction false} NeverExpires(cfg: Config, acts: seq<Act>, after: seq<Act>)
    requires Reach(cfg, acts).row.status in {Approved, Executed, Failed} && !cfg.redeem
    ensures Reach(cfg, acts + after).row.status in {Approved, Executed, Failed}
    decreases |after|
  {
    hide Step, Inv, Reach;
    if after == [] {
      assert acts + after == acts;
    } else {
      NeverExpires(cfg, acts, after[..|after|-1]);
      ReachOneMore(cfg, acts, after);
      ReachKeeps(cfg, acts + after[..|after|-1]);
      RowStep(cfg, Reach(cfg, acts + after[..|after|-1]), after[|after|-1]);
    }
  }

  /** An approved request can still expire exactly when it is one that is redeemed. */
  lemma ExpiresExactlyWhenRedeemed(cfg: Config, acts: seq<Act>)
    requires Reach(cfg, acts).row.status == Approved
    ensures (exists after :: Reach(cfg, acts + after).row.status == Expired) <==> cfg.redeem
  {
    if cfg.redeem {
      var freed := RowComesFree(cfg, acts);
      var p := NatAbove(Reach(cfg, freed).parties.Keys);
      var more := Swept(cfg, freed, p, Approved, RedeemExpires);
      assert acts + more[|acts|..] == more;
    } else {
      forall after ensures Reach(cfg, acts + after).row.status != Expired { NeverExpires(cfg, acts, after); }
    }
    hide *;
  }

  const RedeemConfig := TimeoutConfig.(redeem := true)

  /** A request to be redeemed that nobody redeems: the sweeper approves it and later lets it expire. */
  lemma ApprovedThenExpired() returns (before: seq<Act>, after: seq<Act>)
    ensures Reach(RedeemConfig, before).row.status == Approved
    ensures Reach(RedeemConfig, before + after).row.status == Expired
  {
    var cfg := RedeemConfig;
    before := Swept(cfg, [], 0, Pending, TimesOut(true));
    var more := Swept(cfg, before, 1, Approved, RedeemExpires);
    after := more[|before|..];
    assert before + after == more;
  }

  /** One sweep from taking the row to its commit. */
  lemma Swept(cfg: Config, acts: seq<Act>, p: nat, seen: Status, c: Change) returns (more: seq<Act>)
    requires var s := Reach(cfg, acts); s.lock == None && p !in s.parties && s.row.status == seen
    requires Wanted(cfg, Sweep, seen, true, true) == Some(c) && AfterCommit(cfg, c) == Finished && From(c) == seen
    ensures acts <= more && Reach(cfg, more).row == Apply(c, Reach(cfg, acts).row)
    ensures Reach(cfg, more).lock == None && Reach(cfg, more).parties.Keys == Reach(cfg, acts).parties.Keys + {p}
  {
    var s := Reach(cfg, acts);
    var locked := SweepTakesRow(cfg, acts, p, seen);
    hide Reach, Apply, Wanted, RunStep;
    var wrote := locked + [Write(p, true, true)];
    Then(cfg, locked, Write(p, true, true));
    SweepWrites(cfg, s, p, c);
    more := wrote + [Commit(p)];
    Then(cfg, wrote, Commit(p));
    hide Step, AfterCommit, From;
  }

  lemma SweepWrites(cfg: Config, s: Sys, p: nat, c: Change)
    requires s.lock == None && p !in s.parties && s.row.status == From(c)
    requires Wanted(cfg, Sweep, From(c), true, true) == Some(c) && AfterCommit(cfg, c) == Finished
    ensures var locked := s.(lock := Some(p), parties := s.parties[p := Party(0, Locked(Sweep, From(c)))]);
      var t := Step(cfg, Step(cfg, locked, Write(p, true, true)), Commit(p));
      t.row == Apply(c, s.row) && t.lock == None && t.parties.Keys == s.parties.Keys + {p}
  {
    hide Apply, Wanted, RunStep, TakeRowStep;
    var locked := s.(lock := Some(p), parties := s.parties[p := Party(0, Locked(Sweep, From(c)))]);
    assert Step(cfg, locked, Write(p, true, true)) == s.(lock := Some(p), parties := s.parties[p := Party(0, Wrote(c, false))]);
  }

  lemma SweepTakesRow(cfg: Config, acts: seq<Act>, p: nat, seen: Status) returns (more: seq<Act>)
    requires var s := Reach(cfg, acts); s.lock == None && p !in s.parties && s.row.status == seen
    ensures acts <= more
    ensures var s := Reach(cfg, acts); Reach(cfg, more) == s.(lock := Some(p), parties := s.parties[p := Party(0, Locked(Sweep, seen))])
  {
    var s := Reach(cfg, acts);
    hide Reach, WriteStep, RunStep;
    Then(cfg, acts, Arrive(p, 0, Waiting(Sweep)));
    var came := acts + [Arrive(p, 0, Waiting(Sweep))];
    Then(cfg, came, TakeRow(p));
    more := came + [TakeRow(p)];
  }
}
