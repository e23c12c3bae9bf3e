/**
 Who may decide an approval request, and the tier that decider contributes
 (apps/api/src/approvals/approval-eligibility.ts).
 */
module ApprovalEligibility {
  import opened Wrappers

  datatype Mode = ModeNone | ModeSelf | ModeAgent | ModeHuman

  function Rank(m: Mode): nat {
    match m
    case ModeNone => 0
    case ModeSelf => 1
    case ModeAgent => 2
    case ModeHuman => 3
  }

  predicate ModeAtLeast(mode: Mode, required: Mode) {
    Rank(mode) >= Rank(required)
  }

  datatype Kind = User | Agent | System | Runner

  datatype Principal = Principal(kind: Kind, id: string)

  datatype Request = Request(
    permissionKey: string,
    actor: Principal,
    onBehalfOf: Option<Principal>,
    requiredMode: Mode,
    approverMustHoldAction: bool,
    requireDistinctApprover: bool)

  datatype Refusal = NotAPrincipal | DistinctApproverRequired | MissingActionPermission | MissingDecidePermission | TierTooLow

  datatype Eligibility = Eligible(satisfiedBy: Mode) | Refused(reason: Refusal)

  const OWN_SUFFIX := ".own"
  const DECIDE_KEY := "approval.decide"
  const DECIDE_PATTERN_PREFIX := "approval.decide@"
  const ANY_SUFFIX := ".*"

  predicate StartsWith(s: string, prefix: string) {
    prefix <= s
  }

  predicate EndsWith(s: string, suffix: string) {
    |suffix| <= |s| && s[|s|-|suffix|..] == suffix
  }

  predicate IsSamePrincipal(one: Principal, other: Option<Principal>) {
    other == Some(one)
  }

  function ContributedMode(decider: Principal, isActor: bool, isOnBehalf: bool): Mode {
    if isOnBehalf && decider.kind == User then ModeHuman
    else if isActor || isOnBehalf then ModeSelf
    else if decider.kind == User then ModeHuman else ModeAgent
  }

  predicate HoldsAction(keys: set<string>, permissionKey: string, isOwnRequest: bool) {
    permissionKey in keys || (isOwnRequest && permissionKey + OWN_SUFFIX in keys)
  }

  predicate MatchesDecidePattern(pattern: string, permissionKey: string) {
    pattern == permissionKey
    || (EndsWith(pattern, ANY_SUFFIX) && StartsWith(permissionKey, pattern[..|pattern|-|ANY_SUFFIX|] + "."))
  }

  predicate HoldsDecide(keys: set<string>, permissionKey: string) {
    DECIDE_KEY in keys
    || exists entry :: entry in keys && StartsWith(entry, DECIDE_PATTERN_PREFIX)
         && MatchesDecidePattern(entry[|DECIDE_PATTERN_PREFIX|..], permissionKey)
  }

  predicate IsOnBehalf(request: Request, decider: Principal) {
    request.actor.kind == System && IsSamePrincipal(decider, request.onBehalfOf)
  }

  predicate IsOwn(request: Request, decider: Principal) {
    decider == request.actor || IsOnBehalf(request, decider)
  }

  function DecideEligibility(request: Request, decider: Principal, keys: set<string>): Eligibility {
    if decider.kind == System || decider.kind == Runner then Refused(NotAPrincipal)
    else
      var isActor := IsSamePrincipal(decider, Some(request.actor));
      var isOnBehalf := request.actor.kind == System && IsSamePrincipal(decider, request.onBehalfOf);
      if request.requireDistinctApprover && (isActor || (isOnBehalf && decider.kind == Agent)) then
        Refused(DistinctApproverRequired)
      else
        var isOwnRequest := isActor || isOnBehalf;
        if (isOwnRequest || request.approverMustHoldAction) && !HoldsAction(keys, request.permissionKey, isOwnRequest) then
          Refused(MissingActionPermission)
        else if !isOwnRequest && !HoldsDecide(keys, request.permissionKey) then Refused(MissingDecidePermission)
        else
          var contributed := ContributedMode(decider, isActor, isOnBehalf);
          if !ModeAtLeast(contributed, request.requiredMode) then Refused(TierTooLow) else Eligible(contributed)
  }

  /**
   What an eligible decider is: a principal, distinct from the requester where that is required (a user confirming
   what was asked on its behalf stays allowed), holding the action or the right to decide, at a tier that is enough.
   */
  ghost predicate MayDecide(request: Request, decider: Principal, keys: set<string>, mode: Mode) {
    && decider.kind in {User, Agent}
    && (request.requireDistinctApprover ==>
          decider != request.actor && (IsOnBehalf(request, decider) ==> decider.kind == User))
    && (if IsOwn(request, decider)
        then request.permissionKey in keys || request.permissionKey + OWN_SUFFIX in keys
        else HoldsDecide(keys, request.permissionKey)
             && (request.approverMustHoldAction ==> request.permissionKey in keys))
    && Rank(mode) >= Rank(request.requiredMode)
    && mode == (if decider.kind == User && (IsOnBehalf(request, decider) || decider != request.actor) then ModeHuman
                else if IsOwn(request, decider) then ModeSelf else ModeAgent)
  }

  lemma EligibleExactlyWhen(request: Request, decider: Principal, keys: set<string>, mode: Mode)
    ensures DecideEligibility(request, decider, keys) == Eligible(mode) <==> MayDecide(request, decider, keys, mode)
  {
  }

  /** Holding more keys never takes a decision away. */
  lemma MoreKeysNeverHurt(request: Request, decider: Principal, keys: set<string>, more: set<string>)
    requires keys <= more && DecideEligibility(request, decider, keys).Eligible?
    ensures DecideEligibility(request, decider, more) == DecideEligibility(request, decider, keys)
  {
    assert HoldsDecide(keys, request.permissionKey) ==> HoldsDecide(more, request.permissionKey);
  }
}
