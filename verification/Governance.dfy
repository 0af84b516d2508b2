// Owner decisions and the denial policy: pure transitions on records.
module Governance {
  import opened Common

  // ----- Owner decisions -----

  datatype Action = Yes | No | Defer | MoreInfo

  datatype Status = Open | Resolved | SupersededStatus

  datatype Authority = L0 | L1 | L2 | L3

  datatype Classification = Classification(authority: Authority, deferAllowed: bool)

  // The fields a decision's life depends on.
  datatype Decision = Decision(
    authority: Authority, classification: Option<Classification>, status: Status, ownerAction: Option<Action>)

  // `apply_owner_action`; Err stands for its GovernanceError.
  function ApplyOwnerAction(record: Decision, classification: Classification, action: Action): Result<Decision, ()> {
    if !record.status.Open? then Err(())
    else if record.authority != classification.authority then Err(())
    else match action
      case Yes => Ok(record.(status := Resolved, ownerAction := Some(action)))
      case No => Ok(record.(status := Resolved, ownerAction := Some(action)))
      case Defer => if classification.deferAllowed then Ok(record.(ownerAction := Some(action))) else Err(())
      case MoreInfo => Ok(record.(ownerAction := Some(action)))
  }

  // The owner-action endpoint: a conflict when the record has no classification or refuses.
  function OwnerActionEndpoint(record: Decision, action: Action): Result<Decision, ()> {
    if record.classification.None? then Err(())
    else ApplyOwnerAction(record, record.classification.value, action)
  }

  // A decision after any number of owner actions; refused ones leave it as it is.
  function AfterActions(record: Decision, actions: seq<Action>): Decision {
    if actions == [] then record
    else
      var before := AfterActions(record, actions[..|actions| - 1]);
      var r := OwnerActionEndpoint(before, actions[|actions| - 1]);
      if r.Ok? then r.value else before
  }

  predicate IsVerdict(action: Action) {
    action.Yes? || action.No?
  }

  // Can the endpoint work on this record at all?
  predicate Actionable(record: Decision) {
    record.classification.Some? && record.classification.value.authority == record.authority
  }

  // The last action that an open decision takes note of.
  function LastNote(record: Decision, actions: seq<Action>): Option<Action> {
    if actions == [] then record.ownerAction
    else
      var last := actions[|actions| - 1];
      if last.Defer? && record.classification.Some? && !record.classification.value.deferAllowed
      then LastNote(record, actions[..|actions| - 1])
      else Some(last)
  }

  // Until a YES or a NO arrives the decision stays open and remembers the last accepted action.
  lemma {:induction false} OpenUntilVerdict(record: Decision, actions: seq<Action>)
    requires record.status.Open? && Actionable(record)
    requires forall i :: 0 <= i < |actions| ==> !IsVerdict(actions[i])
    ensures AfterActions(record, actions) == record.(ownerAction := LastNote(record, actions))
  {
    if actions != [] { OpenUntilVerdict(record, actions[..|actions| - 1]); }
  }

  // The first YES or NO decides, whatever came before it and whatever comes after.
  lemma {:induction false} FirstVerdictStands(record: Decision, actions: seq<Action>, k: nat)
    requires record.status.Open? && Actionable(record)
    requires k < |actions| && IsVerdict(actions[k]) && forall i :: 0 <= i < k ==> !IsVerdict(actions[i])
    ensures AfterActions(record, actions) == record.(status := Resolved, ownerAction := Some(actions[k]))
  {
    var front := actions[..|actions| - 1];
    if k == |front| {
      OpenUntilVerdict(record, front);
    } else {
      FirstVerdictStands(record, front, k);
    }
  }

  // A record without a matching classification never changes.
  lemma {:induction false} NothingWithoutClassification(record: Decision, actions: seq<Action>)
    requires !Actionable(record)
    ensures AfterActions(record, actions) == record
  {
    if actions != [] { NothingWithoutClassification(record, actions[..|actions| - 1]); }
  }

  // ----- The denial policy -----

  type Threshold = n: nat | 1 <= n witness 1

  datatype Policy = Policy(consecutiveBeforeEscalate: Threshold, totalBeforeEscalate: Threshold)

  datatype DenialState = DenialState(consecutive: nat, total: nat, lastReason: Option<string>,
      lastDeniedAt: Option<int>)

  const FRESH := DenialState(0, 0, None, None)

  datatype Directive = RetrySaferAlternative | EscalateHuman

  datatype DenialOutcome = DenialOutcome(state: DenialState, directive: Directive, ownerInterruptRequired: bool)

  // One denial as reported; `at` is None when its timestamp is not timezone-aware.
  datatype Denial = Denial(reason: string, policy: Policy, material: bool, at: Option<int>)

  // `record_policy_denial`; Err stands for its GovernanceError.
  function RecordPolicyDenial(state: DenialState, d: Denial): Result<DenialOutcome, ()> {
    if d.at.None? then Err(())
    else
      var updated := DenialState(state.consecutive + 1, state.total + 1, Some(d.reason), d.at);
      var escalate := d.material
                      || updated.consecutive >= d.policy.consecutiveBeforeEscalate
                      || updated.total >= d.policy.totalBeforeEscalate;
      Ok(DenialOutcome(updated, if escalate then EscalateHuman else RetrySaferAlternative, escalate))
  }

  // `record_safe_alternative_success`.
  function RecordSafeAlternative(state: DenialState): DenialState {
    state.(consecutive := 0, lastReason := None)
  }
}
