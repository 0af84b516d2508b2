// The recurrence counters behind policy denials, kept under concurrent writers.
//
// The table is a map because (project, task, signature) is unique. SELECT ... FOR UPDATE locks an
// existing row until its transaction ends; a missing row cannot be locked, so two first denials can
// both decide to insert, and the unique key lets only one of them.
module DenialStore {
  import opened Common
  import opened Governance

  datatype Scope = Scope(projectId: string, taskId: string, signature: string)

  datatype Operation = Deny(scope: Scope, denial: Denial) | SafeAlternative(scope: Scope)

  // A completed operation, in commit order; a denial with what it told its caller.
  datatype Entry = Denied(scope: Scope, denial: Denial, outcome: DenialOutcome) | Safe(scope: Scope)

  // ----- What the counters mean -----

  function Denials(log: seq<Entry>, scope: Scope): nat {
    if log == [] then 0
    else
      var last := log[|log| - 1];
      Denials(log[..|log| - 1], scope) + (if last.Denied? && last.scope == scope then 1 else 0)
  }

  function DenialsSinceSafe(log: seq<Entry>, scope: Scope): nat {
    if log == [] then 0
    else
      var last := log[|log| - 1];
      var before := DenialsSinceSafe(log[..|log| - 1], scope);
      if last.scope != scope then before else if last.Safe? then 0 else before + 1
  }

  // The reason of the last denial, forgotten at a safe alternative.
  function LastReason(log: seq<Entry>, scope: Scope): Option<string> {
    if log == [] then None
    else
      var last := log[|log| - 1];
      if last.scope != scope then LastReason(log[..|log| - 1], scope)
      else if last.Safe? then None
      else Some(last.denial.reason)
  }

  // When the last denial happened; a safe alternative does not forget it.
  function LastDeniedAt(log: seq<Entry>, scope: Scope): Option<int> {
    if log == [] then None
    else
      var last := log[|log| - 1];
      if last.scope == scope && last.Denied? then last.denial.at else LastDeniedAt(log[..|log| - 1], scope)
  }

  // The whole record of a scope, as its completed operations determine it.
  function Recorded(log: seq<Entry>, scope: Scope): DenialState {
    DenialState(DenialsSinceSafe(log, scope), Denials(log, scope), LastReason(log, scope), LastDeniedAt(log, scope))
  }

  // ----- The concurrent system -----

  datatype Phase =
    | Waiting                          // about to SELECT ... FOR UPDATE
    | HoldsRow(seen: DenialState)      // locked an existing row
    | SawNothing                       // found no row, holds no lock
    | Finished                         // returned to its caller
    | Aborted                          // rolled back: an error of its own, or a crash
    | SecondConflict                   // an integrity error on the retry, raised to the caller

  datatype Call = Call(op: Operation, retried: bool, phase: Phase)

  datatype Row = Row(state: DenialState, lockedBy: Option<nat>)

  datatype System = System(rows: map<Scope, Row>, calls: seq<Call>, log: seq<Entry>)

  datatype Step = Begin(op: Operation) | Select(call: nat) | Commit(call: nat) | Rollback(call: nat)

  const EMPTY := System(map[], [], [])

  function SetPhase(s: System, call: nat, phase: Phase): System
    requires call < |s.calls|
  {
    s.(calls := s.calls[call := s.calls[call].(phase := phase)])
  }

  function SelectForUpdate(s: System, call: nat): System
    requires call < |s.calls|
  {
    var op := s.calls[call].op;
    if op.scope in s.rows then
      var row := s.rows[op.scope];
      if row.lockedBy.Some? then s  // blocked until the lock is released
      else SetPhase(s, call, HoldsRow(row.state)).(rows := s.rows[op.scope := row.(lockedBy := Some(call))])
    else if op.SafeAlternative? then SetPhase(s, call, Finished).(log := s.log + [Safe(op.scope)])
    else SetPhase(s, call, SawNothing)
  }

  // Write back the locked row and release it.
  function Update(s: System, call: nat, seen: DenialState): System
    requires call < |s.calls|
  {
    var op := s.calls[call].op;
    match op
    case SafeAlternative(scope) =>
      SetPhase(s, call, Finished).(
        rows := s.rows[scope := Row(RecordSafeAlternative(seen), None)], log := s.log + [Safe(scope)])
    case Deny(scope, denial) =>
      match RecordPolicyDenial(seen, denial)
      case Err(_) => SetPhase(s, call, Aborted).(rows := s.rows[scope := Row(seen, None)])
      case Ok(outcome) =>
        SetPhase(s, call, Finished).(
          rows := s.rows[scope := Row(outcome.state, None)], log := s.log + [Denied(scope, denial, outcome)])
  }

  // Insert the first row of a scope, unless another writer has done so meanwhile.
  function Insert(s: System, call: nat): System
    requires call < |s.calls| && s.calls[call].op.Deny?
  {
    var Deny(scope, denial) := s.calls[call].op;
    match RecordPolicyDenial(FRESH, denial)
    case Err(_) => SetPhase(s, call, Aborted)
    case Ok(outcome) =>
      if scope !in s.rows then
        SetPhase(s, call, Finished).(
          rows := s.rows[scope := Row(outcome.state, None)], log := s.log + [Denied(scope, denial, outcome)])
      else if !s.calls[call].retried then
        s.(calls := s.calls[call := s.calls[call].(phase := Waiting, retried := true)])
      else SetPhase(s, call, SecondConflict)
  }

  // A step that does not fit the state changes nothing.
  function Apply(s: System, step: Step): System {
    match step
    case Begin(op) => s.(calls := s.calls + [Call(op, false, Waiting)])
    case Select(call) => if call < |s.calls| && s.calls[call].phase.Waiting? then SelectForUpdate(s, call) else s
    case Commit(call) =>
      if call >= |s.calls| then s
      else (match s.calls[call].phase
        case HoldsRow(seen) => Update(s, call, seen)
        case SawNothing => if s.calls[call].op.Deny? then Insert(s, call) else s
        case _ => s)
    case Rollback(call) =>
      if call >= |s.calls| then s
      else (match s.calls[call].phase
        case HoldsRow(seen) =>
          var scope := s.calls[call].op.scope;
          SetPhase(s, call, Aborted).(rows := s.rows[scope := Row(seen, None)])
        case Waiting => SetPhase(s, call, Aborted)
        case SawNothing => SetPhase(s, call, Aborted)
        case _ => s)
  }

  function Run(s: System, steps: seq<Step>): System {
    if steps == [] then s else Apply(Run(s, steps[..|steps| - 1]), steps[|steps| - 1])
  }

  // ----- Invariants -----

  // The row of a scope is what its completed operations determine; without a row nothing was denied.
  ghost predicate Counts(rows: map<Scope, Row>, log: seq<Entry>, scope: Scope) {
    Recorded(log, scope) == if scope in rows then rows[scope].state else FRESH
  }

  ghost predicate AllCounts(rows: map<Scope, Row>, log: seq<Entry>) {
    forall scope :: Counts(rows, log, scope)
  }

  // A row is locked by exactly the call that holds it, and still has the state that call read.
  ghost predicate CallValid(s: System, call: nat)
    requires call < |s.calls|
  {
    var c := s.calls[call];
    && !c.phase.SecondConflict?
    && (c.retried ==> c.op.scope in s.rows && !c.phase.SawNothing?)
    && (c.phase.SawNothing? ==> c.op.Deny?)
    && (c.phase.HoldsRow? ==> c.op.scope in s.rows && s.rows[c.op.scope] == Row(c.phase.seen, Some(call)))
  }

  // Each logged denial interrupted the owner exactly when the policy says so.
  ghost predicate Judged(log: seq<Entry>, k: nat)
    requires k < |log|
  {
    log[k].Denied? ==>
      var upTo := log[..k + 1];
      && log[k].outcome.state.total == Denials(upTo, log[k].scope)
      && log[k].outcome.state.consecutive == DenialsSinceSafe(upTo, log[k].scope)
      && (log[k].outcome.directive.EscalateHuman? <==> log[k].outcome.ownerInterruptRequired)
      && (log[k].outcome.ownerInterruptRequired <==>
            (log[k].denial.material
             || DenialsSinceSafe(upTo, log[k].scope) >= log[k].denial.policy.consecutiveBeforeEscalate
             || Denials(upTo, log[k].scope) >= log[k].denial.policy.totalBeforeEscalate))
  }

  ghost predicate AllJudged(log: seq<Entry>) {
    forall k :: 0 <= k < |log| ==> Judged(log, k)
  }

  ghost predicate Valid(s: System) {
    && AllCounts(s.rows, s.log)
    && (forall call :: 0 <= call < |s.calls| ==> CallValid(s, call))
    && AllJudged(s.log)
  }

  lemma LogSnoc(log: seq<Entry>, e: Entry, scope: Scope)
    ensures Denials(log + [e], scope) == Denials(log, scope) + (if e.Denied? && e.scope == scope then 1 else 0)
    ensures LastReason(log + [e], scope)
         == if e.scope != scope then LastReason(log, scope) else if e.Safe? then None else Some(e.denial.reason)
    ensures LastDeniedAt(log + [e], scope)
         == if e.scope == scope && e.Denied? then e.denial.at else LastDeniedAt(log, scope)
    ensures DenialsSinceSafe(log + [e], scope)
         == if e.scope != scope then DenialsSinceSafe(log, scope)
            else if e.Safe? then 0
            else DenialsSinceSafe(log, scope) + 1
  {
    assert (log + [e])[..|log|] == log;
  }

  // A completed operation, written to the row its entry is about.
  lemma LoggedKeepsCounts(rows: map<Scope, Row>, log: seq<Entry>, e: Entry, row: Row)
    requires AllCounts(rows, log)
    requires AllJudged(log)
    requires var before := if e.scope in rows then rows[e.scope].state else FRESH;
             match e
             case Safe(_) => row.state == RecordSafeAlternative(before)
             case Denied(_, denial, outcome) =>
               RecordPolicyDenial(before, denial) == Ok(outcome) && row.state == outcome.state
    ensures AllCounts(rows[e.scope := row], log + [e])
    ensures AllJudged(log + [e])
  {
    var longer := log + [e];
    var after := rows[e.scope := row];
    forall scope ensures Counts(after, longer, scope) {
      LogSnoc(log, e, scope);
      assert Counts(rows, log, scope);
    }
    forall k | 0 <= k < |longer| ensures Judged(longer, k) {
      if k < |log| {
        assert Judged(log, k) && longer[..k + 1] == log[..k + 1];
      } else {
        assert longer[..k + 1] == longer;
        LogSnoc(log, e, e.scope);
        assert Counts(rows, log, e.scope);
      }
    }
  }

  lemma SelectKeeps(s: System, call: nat)
    requires Valid(s) && call < |s.calls| && s.calls[call].phase.Waiting?
    ensures Valid(SelectForUpdate(s, call))
  {
    var op := s.calls[call].op;
    var s' := SelectForUpdate(s, call);
    hide Denials, DenialsSinceSafe, LastReason, LastDeniedAt, Judged;
    if op.scope in s.rows {
      forall scope ensures Counts(s'.rows, s'.log, scope) { assert Counts(s.rows, s.log, scope); }
      forall k | 0 <= k < |s'.calls| ensures CallValid(s', k) { assert CallValid(s, k); }
    } else if op.SafeAlternative? {
      forall scope ensures Counts(s'.rows, s'.log, scope) {
        assert Counts(s.rows, s.log, scope);
        LogSnoc(s.log, Safe(op.scope), scope);
      }
      SafeEntryKeepsJudged(s.log, op.scope);
      forall k | 0 <= k < |s'.calls| ensures CallValid(s', k) { assert CallValid(s, k); }
    } else {
      forall k | 0 <= k < |s'.calls| ensures CallValid(s', k) { assert CallValid(s, k); }
    }
  }

  lemma SafeEntryKeepsJudged(log: seq<Entry>, scope: Scope)
    requires AllJudged(log)
    ensures AllJudged(log + [Safe(scope)])
  {
    var longer := log + [Safe(scope)];
    forall k | 0 <= k < |log| ensures Judged(longer, k) {
      assert Judged(log, k) && longer[..k + 1] == log[..k + 1];
    }
  }

  lemma CommitKeeps(s: System, call: nat)
    requires Valid(s)
    ensures Valid(Apply(s, Commit(call)))
  {
    hide Recorded, Judged, Counts;
    var s' := Apply(s, Commit(call));
    if call < |s.calls| {
      var c := s.calls[call];
      assert CallValid(s, call);
      forall k | 0 <= k < |s'.calls| ensures CallValid(s', k) { assert CallValid(s, k); }
      if c.phase.HoldsRow? {
        RewriteKeepsCounts(s.rows, s.log, c.op.scope, Row(c.phase.seen, None));
        match c.op
        case SafeAlternative(scope) =>
          LoggedKeepsCounts(s.rows, s.log, Safe(scope), Row(RecordSafeAlternative(c.phase.seen), None));
        case Deny(scope, denial) =>
          var r := RecordPolicyDenial(c.phase.seen, denial);
          if r.Ok? { LoggedKeepsCounts(s.rows, s.log, Denied(scope, denial, r.value), Row(r.value.state, None)); }
      } else if c.phase.SawNothing? {
        var Deny(scope, denial) := c.op;
        var r := RecordPolicyDenial(FRESH, denial);
        if r.Ok? && scope !in s.rows {
          LoggedKeepsCounts(s.rows, s.log, Denied(scope, denial, r.value), Row(r.value.state, None));
        }
      }
    }
  }

  // Locking or unlocking a row does not change what it counts.
  lemma RewriteKeepsCounts(rows: map<Scope, Row>, log: seq<Entry>, scope: Scope, row: Row)
    requires AllCounts(rows, log)
    requires scope in rows && row.state == rows[scope].state
    ensures AllCounts(rows[scope := row], log)
  {
    hide Recorded;
    var after := rows[scope := row];
    forall x ensures Counts(after, log, x) { assert Counts(rows, log, x); }
  }

  lemma RollbackKeeps(s: System, call: nat)
    requires Valid(s)
    ensures Valid(Apply(s, Rollback(call)))
  {
    hide Recorded, Judged, Counts;
    var s' := Apply(s, Rollback(call));
    if call < |s.calls| {
      var c := s.calls[call];
      assert CallValid(s, call);
      forall k | 0 <= k < |s'.calls| ensures CallValid(s', k) { assert CallValid(s, k); }
      if c.phase.HoldsRow? {
        RewriteKeepsCounts(s.rows, s.log, c.op.scope, Row(c.phase.seen, None));
      }
    }
  }

  // A crash at any point before the end aborts the call, releases its lock and changes no counter.
  lemma RollbackLeavesNoTrace(s: System, call: nat)
    requires Valid(s) && call < |s.calls|
    requires var phase := s.calls[call].phase; phase.Waiting? || phase.SawNothing? || phase.HoldsRow?
    ensures var t := Apply(s, Rollback(call));
            && t.log == s.log && t.calls == s.calls[call := s.calls[call].(phase := Aborted)]
            && t.rows.Keys == s.rows.Keys
            && forall scope :: scope in s.rows ==>
                 && t.rows[scope].state == s.rows[scope].state
                 && t.rows[scope].lockedBy == if s.calls[call].phase.HoldsRow? && s.calls[call].op.scope == scope
                                              then None else s.rows[scope].lockedBy
  {
    hide AllCounts, AllJudged;
    assert CallValid(s, call);
  }

  // Every interleaving of denials, safe alternatives, retries and rollbacks: totals count the
  // completed denials, streaks the denials since the last safe alternative, reason and time are the last
  // denial's, the owner is interrupted exactly by the policy, and no retry ever meets a second
  // integrity error.
  lemma {:induction false} EveryInterleavingCounts(steps: seq<Step>)
    ensures Valid(Run(EMPTY, steps))
    ensures forall call :: 0 <= call < |Run(EMPTY, steps).calls| ==>
        !Run(EMPTY, steps).calls[call].phase.SecondConflict?
  {
    hide Denials, DenialsSinceSafe, LastReason, LastDeniedAt, Judged;
    if steps != [] {
      var before := Run(EMPTY, steps[..|steps| - 1]);
      EveryInterleavingCounts(steps[..|steps| - 1]);
      match steps[|steps| - 1]
      case Begin(op) =>
        forall k | 0 <= k < |before.calls| ensures CallValid(Apply(before, Begin(op)), k) {
          assert CallValid(before, k);
        }
      case Select(call) =>
        if call < |before.calls| && before.calls[call].phase.Waiting? { SelectKeeps(before, call); }
      case Commit(call) => CommitKeeps(before, call);
      case Rollback(call) => RollbackKeeps(before, call);
    } else {
      EmptyCounts();
    }
    var s := Run(EMPTY, steps);
    forall call | 0 <= call < |s.calls| ensures !s.calls[call].phase.SecondConflict? {
      assert CallValid(s, call);
    }
  }

  lemma EmptyCounts()
    ensures AllCounts(map[], [])
  {
  }

  // ----- Finished calls and log entries -----

  predicate IsEntryOf(e: Entry, op: Operation) {
    match op
    case Deny(scope, denial) => e.Denied? && e.scope == scope && e.denial == denial
    case SafeAlternative(scope) => e == Safe(scope)
  }

  function Logged(log: seq<Entry>, op: Operation): set<nat> {
    set k: nat | k < |log| && IsEntryOf(log[k], op)
  }

  function FinishedCalls(calls: seq<Call>, op: Operation): set<nat> {
    set k: nat | k < |calls| && calls[k].phase.Finished? && calls[k].op == op
  }

  lemma LoggedSnoc(log: seq<Entry>, e: Entry, op: Operation)
    ensures |Logged(log + [e], op)| == |Logged(log, op)| + if IsEntryOf(e, op) then 1 else 0
  {
    hide IsEntryOf;
    assert Logged(log + [e], op) == Logged(log, op) + if IsEntryOf(e, op) then {|log|} else {};
  }

  lemma CallFinishes(calls: seq<Call>, call: nat, after: Call, op: Operation)
    requires call < |calls| && !calls[call].phase.Finished? && after.op == calls[call].op
    ensures |FinishedCalls(calls[call := after], op)|
         == |FinishedCalls(calls, op)| + if after.phase.Finished? && after.op == op then 1 else 0
  {
    var mine := after.phase.Finished? && after.op == op;
    assert call !in FinishedCalls(calls, op);
    assert FinishedCalls(calls[call := after], op) == FinishedCalls(calls, op) + if mine then {call} else {};
  }

  // One step either leaves the log alone and finishes no call, or appends the entry of the call it finishes.
  ghost predicate LogsItsCall(s: System, t: System, step: Step) {
    if t.log == s.log then
      || t.calls == s.calls
      || (step.Begin? && t.calls == s.calls + [Call(step.op, false, Waiting)])
      || (!step.Begin? && step.call < |s.calls| && !s.calls[step.call].phase.Finished?
          && exists after: Call ::
               t.calls == s.calls[step.call := after] && !after.phase.Finished? && after.op == s.calls[step.call].op)
    else
      && !step.Begin? && step.call < |s.calls| && !s.calls[step.call].phase.Finished?
      && t.calls == s.calls[step.call := s.calls[step.call].(phase := Finished)]
      && |t.log| == |s.log| + 1 && t.log[..|s.log|] == s.log
      && forall op :: IsEntryOf(t.log[|s.log|], op) <==> op == s.calls[step.call].op
  }

  lemma StepLogsItsCall(s: System, step: Step)
    ensures LogsItsCall(s, Apply(s, step), step)
  {
    hide RecordPolicyDenial, RecordSafeAlternative;
    var t := Apply(s, step);
    if !step.Begin? && step.call < |s.calls| && t.calls != s.calls {
      var after := t.calls[step.call];
      assert t.calls == s.calls[step.call := after];
    }
  }

  // Every finished call is in the log exactly once, and nothing else is: for each operation as many
  // entries as finished calls.
  lemma {:induction false} FinishedCallsAreLoggedOnce(steps: seq<Step>, op: Operation)
    ensures |Logged(Run(EMPTY, steps).log, op)| == |FinishedCalls(Run(EMPTY, steps).calls, op)|
  {
    if steps == [] {
      assert Logged([], op) == {} && FinishedCalls([], op) == {};
    } else {
      hide Apply, Logged, FinishedCalls, IsEntryOf;
      var s, step := Run(EMPTY, steps[..|steps| - 1]), steps[|steps| - 1];
      FinishedCallsAreLoggedOnce(steps[..|steps| - 1], op);
      StepLogsItsCall(s, step);
      StepKeepsMatch(s, Apply(s, step), step, op);
    }
  }

  lemma StepKeepsMatch(s: System, t: System, step: Step, op: Operation)
    requires LogsItsCall(s, t, step)
    requires |Logged(s.log, op)| == |FinishedCalls(s.calls, op)|
    ensures |Logged(t.log, op)| == |FinishedCalls(t.calls, op)|
  {
    hide Logged, IsEntryOf;
    if t.log != s.log {
      assert t.log == s.log + [t.log[|s.log|]];
      LoggedSnoc(s.log, t.log[|s.log|], op);
      CallFinishes(s.calls, step.call, s.calls[step.call].(phase := Finished), op);
    } else if step.Begin? {
      assert FinishedCalls(s.calls + [Call(step.op, false, Waiting)], op) == FinishedCalls(s.calls, op);
    } else if t.calls != s.calls {
      var after: Call :|
        t.calls == s.calls[step.call := after] && !after.phase.Finished? && after.op == s.calls[step.call].op;
      CallFinishes(s.calls, step.call, after, op);
    }
  }

  // ----- No call is ever stuck -----

  // Every lock is held by a call that can still let go of it.
  ghost predicate LocksAreHeld(s: System) {
    forall scope :: scope in s.rows && s.rows[scope].lockedBy.Some? ==>
      var holder := s.rows[scope].lockedBy.value;
      holder < |s.calls| && s.calls[holder].phase.HoldsRow? && s.calls[holder].op.scope == scope
  }

  lemma StepKeepsLocks(s: System, step: Step)
    requires LocksAreHeld(s) && Valid(s)
    ensures LocksAreHeld(Apply(s, step))
  {
    hide RecordPolicyDenial, RecordSafeAlternative, AllCounts, AllJudged;
    if !step.Begin? && step.call < |s.calls| { assert CallValid(s, step.call); }
  }

  lemma {:induction false} LocksStayHeld(steps: seq<Step>)
    ensures LocksAreHeld(Run(EMPTY, steps)) && Valid(Run(EMPTY, steps))
  {
    hide Apply, Valid, LocksAreHeld;
    EveryInterleavingCounts(steps);
    if steps == [] {
      NothingIsLocked();
    } else {
      LocksStayHeld(steps[..|steps| - 1]);
      StepKeepsLocks(Run(EMPTY, steps[..|steps| - 1]), steps[|steps| - 1]);
    }
  }

  lemma NothingIsLocked()
    ensures LocksAreHeld(EMPTY)
  {
  }

  predicate Acceptable(op: Operation) {
    op.Deny? ==> op.denial.at.Some?
  }

  lemma {:induction false} RunAppend(s: System, a: seq<Step>, b: seq<Step>)
    ensures Run(s, a + b) == Run(Run(s, a), b)
    decreases |b|
  {
    hide Apply;
    if b == [] {
      assert a + b == a;
    } else {
      assert (a + b)[..|a + b| - 1] == a + b[..|b| - 1];
      RunAppend(s, a, b[..|b| - 1]);
    }
  }

  // What becomes of an operation that is carried through: only a denial without a proper time aborts.
  predicate Through(s: System, call: nat, op: Operation) {
    call < |s.calls| && s.calls[call].op == op
    && if Acceptable(op) then s.calls[call].phase.Finished? else s.calls[call].phase.Aborted?
  }

  lemma UnlockedCallCompletes(s: System, call: nat)
    requires call < |s.calls| && s.calls[call].phase.Waiting?
    requires s.calls[call].op.scope in s.rows ==> s.rows[s.calls[call].op.scope].lockedBy.None?
    ensures Through(Apply(Apply(s, Select(call)), Commit(call)), call, s.calls[call].op)
  {
    hide RecordSafeAlternative;
  }

  lemma HolderUnlocks(s: System, scope: Scope)
    requires LocksAreHeld(s) && scope in s.rows && s.rows[scope].lockedBy.Some?
    ensures var t := Apply(s, Commit(s.rows[scope].lockedBy.value));
            && scope in t.rows && t.rows[scope].lockedBy.None? && |t.calls| == |s.calls|
            && forall k :: 0 <= k < |s.calls| && s.calls[k].phase.Waiting? ==> t.calls[k] == s.calls[k]
  {
    hide RecordSafeAlternative;
  }

  // From every reachable state, and whoever holds the row: an operation that arrives can be carried
  // through by the steps of the lock's holder and its own. No lock is ever orphaned.
  lemma EveryOperationCompletes(steps: seq<Step>, op: Operation) returns (more: seq<Step>)
    ensures |more| <= 4 && more != [] && more[0] == Begin(op)
    ensures Through(Run(EMPTY, steps + more), |Run(EMPTY, steps).calls|, op)
  {
    hide Apply, Through, LocksAreHeld, Valid, Run;
    var s := Run(EMPTY, steps);
    var n := |s.calls|;
    LocksStayHeld(steps + [Begin(op)]);
    RunAppend(EMPTY, steps, [Begin(op)]);
    more := [Begin(op)];
    OneStep(s, Begin(op));
    BeginsWaiting(s, op);
    var t := Apply(s, Begin(op));
    if op.scope in t.rows && t.rows[op.scope].lockedBy.Some? {
      HolderUnlocks(t, op.scope);
      more, t := OneMoreStep(s, more, Commit(t.rows[op.scope].lockedBy.value));
    }
    UnlockedCallCompletes(t, n);
    more, t := OneMoreStep(s, more, Select(n));
    more, t := OneMoreStep(s, more, Commit(n));
    RunAppend(EMPTY, steps, more);
  }

  lemma OneMoreStep(s: System, steps: seq<Step>, step: Step) returns (longer: seq<Step>, t: System)
    ensures longer == steps + [step] && t == Apply(Run(s, steps), step) && Run(s, longer) == t
  {
    longer, t := steps + [step], Apply(Run(s, steps), step);
    assert longer[..|steps|] == steps;
  }

  lemma OneStep(s: System, step: Step)
    ensures Run(s, [step]) == Apply(s, step)
  {
    assert Run(s, [step][..0]) == s;
  }

  lemma BeginsWaiting(s: System, op: Operation)
    ensures var t := Apply(s, Begin(op)); |t.calls| == |s.calls| + 1 && t.calls[|s.calls|] == Call(op, false, Waiting)
  {
  }

  // ----- What a fixed policy guarantees over a run -----

  ghost predicate OnePolicy(log: seq<Entry>, scope: Scope, policy: Policy) {
    forall k :: 0 <= k < |log| && log[k].Denied? && log[k].scope == scope ==> log[k].denial.policy == policy
  }

  // Denials of a scope that passed without interrupting the owner.
  function QuietDenials(log: seq<Entry>, scope: Scope): nat {
    if log == [] then 0
    else
      var last := log[|log| - 1];
      QuietDenials(log[..|log| - 1], scope)
      + (if last.Denied? && last.scope == scope && !last.outcome.ownerInterruptRequired then 1 else 0)
  }

  lemma JudgedPrefix(log: seq<Entry>)
    requires log != [] && AllJudged(log)
    ensures AllJudged(log[..|log| - 1])
  {
    var front := log[..|log| - 1];
    forall k | 0 <= k < |front| ensures Judged(front, k) {
      assert Judged(log, k) && front[..k + 1] == log[..k + 1];
    }
  }

  lemma {:induction false} QuietDenialsAreBounded(log: seq<Entry>, scope: Scope, policy: Policy)
    requires AllJudged(log)
    requires OnePolicy(log, scope, policy)
    ensures QuietDenials(log, scope) <= Denials(log, scope)
    ensures QuietDenials(log, scope) <= policy.totalBeforeEscalate - 1
  {
    if log != [] {
      JudgedPrefix(log);
      QuietDenialsAreBounded(log[..|log| - 1], scope, policy);
      assert Judged(log, |log| - 1);
      assert log[..|log| - 1 + 1] == log;
    }
  }

  // Without a safe alternative in between, the streak is at least the denials of the window.
  lemma {:induction false} StreakCoversWindow(log: seq<Entry>, scope: Scope, i: nat, j: nat)
    requires i <= j <= |log|
    requires forall k :: i <= k < j ==> !(log[k].Safe? && log[k].scope == scope)
    ensures DenialsSinceSafe(log[..j], scope) >= Denials(log[..j], scope) - Denials(log[..i], scope)
    decreases j
  {
    if i < j {
      StreakCoversWindow(log, scope, i, j - 1);
      assert log[..j] == log[..j - 1] + [log[j - 1]];
      LogSnoc(log[..j - 1], log[j - 1], scope);
    }
  }

  // As many denials as the policy allows in a row, with no safe alternative among them, interrupt.
  lemma {:induction false} StreaksInterrupt(log: seq<Entry>, scope: Scope, policy: Policy, i: nat, j: nat)
    requires AllJudged(log)
    requires OnePolicy(log, scope, policy)
    requires i <= j <= |log|
    requires forall k :: i <= k < j ==> !(log[k].Safe? && log[k].scope == scope)
    requires Denials(log[..j], scope) - Denials(log[..i], scope) >= policy.consecutiveBeforeEscalate
    ensures exists k :: i <= k < j && log[k].Denied? && log[k].scope == scope && log[k].outcome.ownerInterruptRequired
    decreases j
  {
    assert i < j;
    var last := j - 1;
    assert log[..j] == log[..last] + [log[last]];
    LogSnoc(log[..last], log[last], scope);
    if log[last].Denied? && log[last].scope == scope {
      StreakCoversWindow(log, scope, i, j);
      assert Judged(log, last) && log[..last + 1] == log[..j];
    } else {
      StreaksInterrupt(log, scope, policy, i, last);
    }
  }

  // Over every run on one scope under one policy: fewer than `totalBeforeEscalate` denials ever pass
  // quietly, and never `consecutiveBeforeEscalate` in a row without a safe alternative.
  lemma OwnerIsInterruptedInTime(steps: seq<Step>, scope: Scope, policy: Policy)
    requires OnePolicy(Run(EMPTY, steps).log, scope, policy)
    ensures QuietDenials(Run(EMPTY, steps).log, scope) <= policy.totalBeforeEscalate - 1
    ensures var log := Run(EMPTY, steps).log;
            forall i, j :: 0 <= i <= j <= |log|
                           && (forall k :: i <= k < j ==> !(log[k].Safe? && log[k].scope == scope))
                           && Denials(log[..j], scope) - Denials(log[..i], scope)
                              >= policy.consecutiveBeforeEscalate ==>
              exists k :: i <= k < j && log[k].Denied? && log[k].scope == scope && log[k].outcome.ownerInterruptRequired
  {
    hide Run, Denials, DenialsSinceSafe, Judged, QuietDenials, OnePolicy;
    EveryInterleavingCounts(steps);
    var log := Run(EMPTY, steps).log;
    QuietDenialsAreBounded(log, scope, policy);
    forall i, j | 0 <= i <= j <= |log|
                  && (forall k :: i <= k < j ==> !(log[k].Safe? && log[k].scope == scope))
                  && Denials(log[..j], scope) - Denials(log[..i], scope) >= policy.consecutiveBeforeEscalate
      ensures exists k :: i <= k < j && log[k].Denied? && log[k].scope == scope && log[k].outcome.ownerInterruptRequired
    {
      StreaksInterrupt(log, scope, policy, i, j);
    }
  }

  // ----- The store's methods, with rival writers in the one unprotected gap -----

  type Table = map<Scope, DenialState>

  function StateOf(rows: Table, scope: Scope): DenialState {
    if scope in rows then rows[scope] else FRESH
  }

  // One operation executed atomically.
  function Perform(rows: Table, op: Operation): Table {
    match op
    case SafeAlternative(scope) => if scope in rows then rows[scope := RecordSafeAlternative(rows[scope])] else rows
    case Deny(scope, denial) =>
      var r := RecordPolicyDenial(StateOf(rows, scope), denial);
      if r.Ok? then rows[scope := r.value.state] else rows
  }

  function PerformAll(rows: Table, ops: seq<Operation>): Table {
    if ops == [] then rows else Perform(PerformAll(rows, ops[..|ops| - 1]), ops[|ops| - 1])
  }

  lemma {:induction false} PerformAllConcat(rows: Table, a: seq<Operation>, b: seq<Operation>)
    ensures PerformAll(rows, a + b) == PerformAll(PerformAll(rows, a), b)
    decreases |b|
  {
    if b == [] {
      assert a + b == a;
    } else {
      assert (a + b)[..|a + b| - 1] == a + b[..|b| - 1];
      PerformAllConcat(rows, a, b[..|b| - 1]);
    }
  }

  lemma {:induction false} RowsAreNeverDeleted(rows: Table, ops: seq<Operation>)
    ensures rows.Keys <= PerformAll(rows, ops).Keys
  {
    if ops != [] { RowsAreNeverDeleted(rows, ops[..|ops| - 1]); }
  }

  datatype DenialError = InvalidTimestamp | IntegrityError

  class GovernanceDenialStore {
    var rows: Table

    constructor ()
      ensures rows == map[]
    {
      rows := map[];
    }

    // Other writers completing their operations.
    method Rivals(ops: seq<Operation>)
      modifies this
      ensures rows == PerformAll(old(rows), ops)
    {
      for i := 0 to |ops|
        invariant rows == PerformAll(old(rows), ops[..i])
      {
        assert ops[..i + 1][..i] == ops[..i];
        match ops[i]
        case SafeAlternative(scope) =>
          if scope in rows { rows := rows[scope := RecordSafeAlternative(rows[scope])]; }
        case Deny(scope, denial) =>
          var r := RecordPolicyDenial(StateOf(rows, scope), denial);
          if r.Ok? { rows := rows[scope := r.value.state]; }
      }
      assert ops[..|ops|] == ops;
    }

    // `_record_denial_once`. A row found is locked, so nobody else runs before it is written; when
    // none is found, `rivals` run between the read and the insert.
    method RecordDenialOnce(scope: Scope, denial: Denial, rivals: seq<Operation>)
      returns (r: Result<DenialOutcome, DenialError>, ran: seq<Operation>)
      modifies this
      ensures ran == if scope in old(rows) || denial.at.None? then [] else rivals
      ensures r.Ok? ==>
                && RecordPolicyDenial(StateOf(PerformAll(old(rows), ran), scope), denial) == Ok(r.value)
                && rows == PerformAll(old(rows), ran + [Deny(scope, denial)])
      ensures r.Err? ==> rows == PerformAll(old(rows), ran)
      ensures r == Err(InvalidTimestamp) <==> denial.at.None?
      ensures r == Err(IntegrityError) ==> scope !in old(rows) && scope in rows
    {
      ran := [];
      var found := scope in rows;
      var computed := RecordPolicyDenial(StateOf(rows, scope), denial);
      if computed.Err? { return Err(InvalidTimestamp), ran; }
      if !found {
        Rivals(rivals);
        ran := rivals;
        if scope in rows { return Err(IntegrityError), ran; }
      }
      assert (ran + [Deny(scope, denial)])[..|ran|] == ran;
      rows := rows[scope := computed.value.state];
      r := Ok(computed.value);
    }

    // `record_denial`: one retry after a lost insert. The retry finds the winner's row, so it never
    // fails the same way, and the whole call is one atomic denial after the rivals that ran.
    method RecordDenial(scope: Scope, denial: Denial, rivals: seq<Operation>, beforeRetry: seq<Operation>)
      returns (r: Result<DenialOutcome, DenialError>, ran: seq<Operation>)
      modifies this
      ensures r != Err(IntegrityError)
      ensures r == Err(InvalidTimestamp) <==> denial.at.None?
      ensures ran <= rivals + beforeRetry
      ensures r.Ok? ==>
                && RecordPolicyDenial(StateOf(PerformAll(old(rows), ran), scope), denial) == Ok(r.value)
                && rows == PerformAll(old(rows), ran + [Deny(scope, denial)])
                && scope in rows && rows[scope] == r.value.state
      ensures r.Err? ==> rows == PerformAll(old(rows), ran)
    {
      r, ran := RecordDenialOnce(scope, denial, rivals);
      if r == Err(IntegrityError) {
        Rivals(beforeRetry);
        RowsAreNeverDeleted(PerformAll(old(rows), ran), beforeRetry);
        PerformAllConcat(old(rows), ran, beforeRetry);
        ran := ran + beforeRetry;
        ghost var atRetry := rows;
        var more;
        r, more := RecordDenialOnce(scope, denial, []);
        assert more == [] && PerformAll(atRetry, []) == atRetry;
        assert [] + [Deny(scope, denial)] == [Deny(scope, denial)];
        PerformAllConcat(old(rows), ran, [Deny(scope, denial)]);
      }
      if r.Ok? {
        assert (ran + [Deny(scope, denial)])[..|ran|] == ran;
      }
    }

    // `record_safe_alternative`.
    method RecordSafe(scope: Scope) returns (state: DenialState)
      modifies this
      ensures rows == Perform(old(rows), SafeAlternative(scope))
      ensures state == StateOf(rows, scope)
      ensures state.consecutive == 0 && state.total == StateOf(old(rows), scope).total
    {
      if scope !in rows { return FRESH; }
      state := RecordSafeAlternative(rows[scope]);
      rows := rows[scope := state];
    }
  }
}
