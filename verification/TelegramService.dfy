// The polling service itself: its handler, poll loop, registration, pruning and restart, each shown
// to be a run of the delivery system, so that everything proved about runs holds of the service.
module TelegramService {
  import opened Common
  import opened Governance
  import opened TelegramDelivery
  import CallbackCodec

  // How one call of the owner-action endpoint ends.
  datatype Outcome = Done | LostRequest | LostResponse

  // How the external calls of one handled update end, and whether the file is written after it.
  datatype Luck = Luck(read: bool, action: Outcome, answer: bool, clear: bool, saved: bool)

  const NO_FAULT := Luck(true, Done, true, true, true)

  // The state and the decisions after a handler that ran to the end.
  function Handled(u: Update, v: Verdict, state: State): State {
    if (v.Refused? || v.Acts?) && HasId(u) then Mark(state, u.callback.value.id.value) else state
  }

  function Decided(v: Verdict, decisions: map<string, Decision>): map<string, Decision> {
    if v.Acts? then Perform(decisions, v.decisionId, v.action) else decisions
  }

  // ----- The batch as it arrives -----

  // One item of a batch; a missing update id is read as -1.
  datatype Received = Received(updateId: int, callback: Option<Callback>)

  predicate IsUsable(x: Received) {
    x.updateId >= 0
  }

  function AsUpdate(x: Received): Update
    requires IsUsable(x)
  {
    Update(x.updateId, x.callback)
  }

  // The items the poll does not skip.
  function Usable(xs: seq<Received>): seq<Update> {
    if xs == [] then []
    else Usable(xs[..|xs| - 1]) + UsableOne(xs[|xs| - 1])
  }

  function UsableOne(x: Received): seq<Update> {
    if IsUsable(x) then [AsUpdate(x)] else []
  }

  function Inserted(xs: seq<Received>, x: Received): seq<Received> {
    if xs == [] || xs[|xs| - 1].updateId <= x.updateId then xs + [x]
    else Inserted(xs[..|xs| - 1], x) + [xs[|xs| - 1]]
  }

  // `sorted(updates, key=update_id)`, which keeps the order of equal keys.
  function SortedById(xs: seq<Received>): seq<Received> {
    if xs == [] then [] else Inserted(SortedById(xs[..|xs| - 1]), xs[|xs| - 1])
  }

  ghost predicate Ascending(us: seq<Update>) {
    forall i, j :: 0 <= i < j < |us| ==> us[i].updateId <= us[j].updateId
  }

  ghost predicate StrictlyAscending(us: seq<Update>) {
    forall i, j :: 0 <= i < j < |us| ==> us[i].updateId < us[j].updateId
  }

  lemma UsableSnoc(xs: seq<Received>, x: Received)
    ensures Usable(xs + [x]) == Usable(xs) + UsableOne(x)
  {
    assert (xs + [x])[..|xs|] == xs;
  }

  // The poll skips exactly the items without a non-negative integer id.
  lemma {:induction false} UsableExactly(xs: seq<Received>, u: Update)
    ensures u in Usable(xs) <==>
              exists x :: x in xs && x.updateId >= 0 && u.updateId == x.updateId && u.callback == x.callback
  {
    if xs != [] {
      var front, last := xs[..|xs| - 1], xs[|xs| - 1];
      UsableExactly(front, u);
      assert forall x :: x in xs <==> x in front || x == last;
    }
  }

  lemma {:induction false} UsablePrefix(xs: seq<Received>, i: nat)
    requires i <= |xs|
    ensures Usable(xs[..i]) <= Usable(xs)
    decreases |xs| - i
  {
    hide Usable;
    if i < |xs| {
      UsablePrefix(xs, i + 1);
      assert xs[..i + 1] == xs[..i] + [xs[i]];
      UsableSnoc(xs[..i], xs[i]);
    } else {
      assert xs[..i] == xs;
    }
  }

  ghost predicate InOrder(xs: seq<Received>) {
    forall i, j :: 0 <= i < j < |xs| ==> xs[i].updateId <= xs[j].updateId
  }

  ghost predicate Bounded(xs: seq<Received>, bound: int) {
    forall i :: 0 <= i < |xs| ==> xs[i].updateId <= bound
  }

  lemma InOrderSnoc(xs: seq<Received>, x: Received)
    requires InOrder(xs) && Bounded(xs, x.updateId)
    ensures InOrder(xs + [x]) && Bounded(xs + [x], x.updateId)
  {
  }

  lemma InOrderFront(xs: seq<Received>)
    requires InOrder(xs) && xs != []
    ensures InOrder(xs[..|xs| - 1]) && Bounded(xs[..|xs| - 1], xs[|xs| - 1].updateId)
        && Bounded(xs, xs[|xs| - 1].updateId)
  {
  }

  lemma {:induction false} InsertedInOrder(xs: seq<Received>, x: Received, bound: int)
    requires InOrder(xs) && Bounded(xs, bound) && x.updateId <= bound
    ensures InOrder(Inserted(xs, x)) && Bounded(Inserted(xs, x), bound)
  {
    if xs != [] {
      var front, last := xs[..|xs| - 1], xs[|xs| - 1];
      InOrderFront(xs);
      if x.updateId < last.updateId {
        InsertedInOrder(front, x, last.updateId);
        InOrderSnoc(Inserted(front, x), last);
      }
    }
  }

  lemma InsertedUnfolds(xs: seq<Received>, x: Received)
    requires xs != [] && x.updateId < xs[|xs| - 1].updateId
    ensures Inserted(xs, x) == Inserted(xs[..|xs| - 1], x) + [xs[|xs| - 1]]
  {
  }

  lemma Exchanged(us: seq<Update>, vs: seq<Update>, a: seq<Update>, b: seq<Update>)
    requires multiset(us) == multiset(vs + a)
    ensures multiset(us + b) == multiset((vs + b) + a)
  {
  }

  lemma {:induction false} InsertedItems(xs: seq<Received>, x: Received)
    ensures multiset(Usable(Inserted(xs, x))) == multiset(Usable(xs + [x]))
  {
    if xs != [] && x.updateId < xs[|xs| - 1].updateId {
      hide Usable, Inserted, UsableOne;
      var front, last := xs[..|xs| - 1], xs[|xs| - 1];
      assert front + [last] == xs;
      InsertedItems(front, x);
      InsertedUnfolds(xs, x);
      UsableSnoc(Inserted(front, x), last);
      UsableSnoc(front, x);
      UsableSnoc(front, last);
      UsableSnoc(xs, x);
      Exchanged(Usable(Inserted(front, x)), Usable(front), UsableOne(x), UsableOne(last));
    }
  }

  ghost predicate AtMost(us: seq<Update>, bound: int) {
    forall i :: 0 <= i < |us| ==> us[i].updateId <= bound
  }

  // Items in order leave updates in order.
  lemma {:induction false} UsableInOrder(xs: seq<Received>, bound: int)
    requires InOrder(xs) && Bounded(xs, bound)
    ensures Ascending(Usable(xs)) && AtMost(Usable(xs), bound)
  {
    if xs != [] {
      InOrderFront(xs);
      UsableInOrder(xs[..|xs| - 1], xs[|xs| - 1].updateId);
      assert xs[|xs| - 1].updateId <= bound;
    }
  }

  lemma SortedUnfolds(front: seq<Received>, last: Received)
    ensures SortedById(front + [last]) == Inserted(SortedById(front), last)
  {
    assert (front + [last])[..|front|] == front;
  }

  lemma SameItemsAnd(us: seq<Update>, vs: seq<Update>, more: seq<Update>)
    requires multiset(us) == multiset(vs)
    ensures multiset(us + more) == multiset(vs + more)
  {
  }

  lemma {:induction false} SortingKeepsItems(xs: seq<Received>)
    ensures InOrder(SortedById(xs)) && multiset(Usable(SortedById(xs))) == multiset(Usable(xs))
  {
    if xs != [] {
      hide *;
      var front, last := xs[..|xs| - 1], xs[|xs| - 1];
      assert front + [last] == xs;
      SortingKeepsItems(front);
      SortedUnfolds(front, last);
      var bound := Highest(SortedById(front), last.updateId);
      InsertedInOrder(SortedById(front), last, bound);
      InsertedItems(SortedById(front), last);
      UsableSnoc(front, last);
      UsableSnoc(SortedById(front), last);
      SameItemsAnd(Usable(SortedById(front)), Usable(front), UsableOne(last));
    } else {
      assert SortedById(xs) == [];
    }
  }

  lemma {:induction false} Highest(xs: seq<Received>, start: int) returns (bound: int)
    ensures Bounded(xs, bound) && start <= bound
  {
    bound := start;
    if xs != [] {
      bound := Highest(xs[..|xs| - 1], start);
      if bound < xs[|xs| - 1].updateId { bound := xs[|xs| - 1].updateId; }
    }
  }

  // Updates in order that are the same items as a strictly ordered sequence end in the same update.
  lemma SameLast(us: seq<Update>, vs: seq<Update>)
    requires Ascending(us) && StrictlyAscending(vs) && multiset(us) == multiset(vs) && us != [] && vs != []
    ensures us[|us| - 1] == vs[|vs| - 1]
  {
    var u, v := us[|us| - 1], vs[|vs| - 1];
    assert u in multiset(us) && v in multiset(vs);
    assert u in vs && v in us;
    var i :| 0 <= i < |vs| && vs[i] == u;
    var j :| 0 <= j < |us| && us[j] == v;
    assert v.updateId <= u.updateId;
    assert i < |vs| - 1 ==> u.updateId < v.updateId;
  }

  lemma FrontItems(us: seq<Update>)
    requires us != []
    ensures multiset(us[..|us| - 1]) == multiset(us) - multiset{us[|us| - 1]}
    ensures Ascending(us) ==> Ascending(us[..|us| - 1])
    ensures StrictlyAscending(us) ==> StrictlyAscending(us[..|us| - 1])
  {
    assert us == us[..|us| - 1] + [us[|us| - 1]];
  }

  lemma {:induction false} OrderIsUnique(us: seq<Update>, vs: seq<Update>)
    requires Ascending(us) && StrictlyAscending(vs) && multiset(us) == multiset(vs)
    ensures us == vs
    decreases |us|
  {
    hide Ascending, StrictlyAscending;
    assert |us| == |multiset(us)| && |vs| == |multiset(vs)|;
    if us != [] {
      SameLast(us, vs);
      FrontItems(us);
      FrontItems(vs);
      OrderIsUnique(us[..|us| - 1], vs[..|vs| - 1]);
      assert us == us[..|us| - 1] + [us[|us| - 1]] && vs == vs[..|vs| - 1] + [vs[|vs| - 1]];
    }
  }

  lemma NothingUsable(xs: seq<Received>)
    requires xs == []
    ensures Usable(xs) == []
  {
  }

  // The updates of a stretch of arrivals.
  function UpdatesOf(arrived: seq<Arrival>): (us: seq<Update>)
    ensures |us| == |arrived|
  {
    seq(|arrived|, i requires 0 <= i < |arrived| => arrived[i].update)
  }

  // A rearranged stretch of the pending updates, with unusable items anywhere between, is sorted and
  // filtered back into the stretch.
  lemma BatchIsRestored(received: seq<Received>, arrived: seq<Arrival>, from: nat, count: nat)
    requires Increasing(arrived) && from + count <= |arrived|
    requires multiset(Usable(received)) == multiset(UpdatesOf(arrived[from..from + count]))
    ensures Usable(SortedById(received)) == UpdatesOf(arrived[from..from + count])
  {
    hide *;
    SortingKeepsItems(received);
    var bound := Highest(SortedById(received), 0);
    UsableInOrder(SortedById(received), bound);
    PendingAscends(arrived, from, count);
    OrderIsUnique(Usable(SortedById(received)), UpdatesOf(arrived[from..from + count]));
  }

  lemma PendingAscends(arrived: seq<Arrival>, from: nat, count: nat)
    requires Increasing(arrived) && from + count <= |arrived|
    ensures StrictlyAscending(UpdatesOf(arrived[from..from + count]))
  {
    var pending := UpdatesOf(arrived[from..from + count]);
    forall i, j | 0 <= i < j < |pending| ensures pending[i].updateId < pending[j].updateId {
      assert pending[i] == arrived[from + i].update && pending[j] == arrived[from + j].update;
    }
  }

  // The i-th item of a sorted batch is skipped, or is the next of the pending updates.
  lemma NextOfBatch(ordered: seq<Received>, i: nat, arrived: seq<Arrival>, from: nat, count: nat)
    requires i < |ordered| && from + count <= |arrived| && Usable(ordered) == UpdatesOf(arrived[from..from + count])
    ensures var k := |Usable(ordered[..i])|;
            if IsUsable(ordered[i])
            then k < count && AsUpdate(ordered[i]) == arrived[from + k].update && |Usable(ordered[..i + 1])| == k + 1
            else |Usable(ordered[..i + 1])| == k
  {
    hide Usable;
    assert ordered[..i + 1] == ordered[..i] + [ordered[i]];
    UsableSnoc(ordered[..i], ordered[i]);
    UsablePrefix(ordered, i + 1);
    var k := |Usable(ordered[..i])|;
    if IsUsable(ordered[i]) { assert Usable(ordered[..i + 1])[k] == Usable(ordered)[k] == AsUpdate(ordered[i]); }
  }

  class TelegramGovernanceService {
    const codec: CallbackCodec.Codec
    var state: State
    var file: State
    var decisions: map<string, Decision>

    // The run of the delivery system that has led here.
    ghost const first: map<string, Decision>
    ghost var history: seq<Step>
    ghost var world: World

    ghost predicate Replays()
      reads this
    {
      world == Run(Start(codec, first), history)
    }

    ghost predicate Follows()
      reads this
    {
      Replays() && world.codec == codec && world.mem == state && world.stored == file && world.decisions == decisions
    }

    constructor (codec: CallbackCodec.Codec, decisions: map<string, Decision>)
      ensures Follows() && world.stage.Idle? && this.codec == codec && this.first == decisions && history == []
    {
      this.codec := codec;
      this.state := FRESH_STATE;
      this.file := FRESH_STATE;
      this.decisions := decisions;
      this.first := decisions;
      this.history := [];
      this.world := Start(codec, decisions);
    }

    ghost method Note(step: Step)
      requires Replays()
      modifies this`world, this`history
      ensures Replays() && world == Apply(old(world), step) && history == old(history) + [step]
    {
      hide Apply;
      history := history + [step];
      world := Apply(world, step);
      assert history[..|history| - 1] == old(history);
    }

    // Telegram queues an update; one it may not send is none of the service's business.
    ghost method Receive(u: Update)
      requires Follows()
      modifies this`world, this`history
      ensures Follows() && world == Apply(old(world), Arrive(u)) && old(history) <= history
      ensures MayArrive(old(world), u) ==>
          |world.arrived| == |old(world.arrived)| + 1 && world.arrived[|old(world.arrived)|].update == u
    {
      Note(Arrive(u));
    }

    // A new process starts from the file.
    method Restart()
      requires Follows()
      modifies this
      ensures Follows() && world.stage.Idle? && old(history) <= history && world.arrived == old(world.arrived)
      ensures state == file == old(file) && decisions == old(decisions)
    {
      state := file;
      Note(Crash);
    }

    // `_mark_callback_processed`
    method MarkProcessed(id: string)
      modifies this`state
      ensures state == Mark(old(state), id)
    {
      var values := state.processed + [id];
      state := state.(processed := if |values| <= MAX_PROCESSED_CALLBACKS then values
          else values[|values| - MAX_PROCESSED_CALLBACKS..]);
    }

    // The handler judges the first pending update.
    ghost method Begin()
      requires Follows() && world.stage.Idle? && Here(world) < |world.arrived|
      modifies this`world, this`history
      ensures Follows() && old(history) <= history && world.arrived == old(world.arrived)
      ensures world.stage == Handling(Judge(codec, world.arrived[Here(world)].update, state, decisions))
    {
      hide Run, Position, Judge;
      Note(Take);
    }

    // An external call failed: the handler raises, and the update will come again.
    ghost method GiveUp()
      requires Follows()
      modifies this`world, this`history
      ensures Follows() && old(history) <= history && world.arrived == old(world.arrived) && world.stage.Idle?
    {
      hide Run;
      Note(Fail);
    }

    // A handler that had nothing to mark.
    ghost method EndUnmarked()
      requires Follows() && Here(world) < |world.arrived|
      requires world.stage.Handling? && (world.stage.verdict.Ignored? || world.stage.verdict.Already?)
      modifies this`world, this`history
      ensures Follows() && old(history) <= history && world.arrived == old(world.arrived) && world.stage.Returned?
    {
      hide Run, Position;
      Note(Finish);
    }

    // Answer the owner, then remember the callback.
    method Refuse(u: Update, answer: bool) returns (ok: bool)
      requires Follows() && world.stage == Handling(Refused) && HasId(u)
      requires Here(world) < |world.arrived| && world.arrived[Here(world)].update == u
      modifies this
      ensures Follows() && old(history) <= history && world.arrived == old(world.arrived)
      ensures ok == answer && file == old(file) && decisions == old(decisions)
      ensures ok ==> world.stage.Returned? && state == Mark(old(state), u.callback.value.id.value)
      ensures !ok ==> world.stage.Idle? && state == old(state)
    {
      hide Run, Position;
      if !answer {
        GiveUp();
        return false;
      }
      MarkProcessed(u.callback.value.id.value);
      Note(Finish);
      return true;
    }

    // The control plane has carried the owner's action out.
    ghost method RecordAction(d: string, action: Action)
      requires Replays() && world.codec == codec && world.mem == state && world.stored == file
      requires world.stage == Handling(Acts(d, action)) && decisions == Perform(world.decisions, d, action)
      modifies this`world, this`history
      ensures Follows() && old(history) <= history && world.arrived == old(world.arrived) && world.stage.Acted?
    {
      hide Run, Position, Perform;
      Note(ApplyAction);
    }

    // `apply_action`: the call may be lost before or after it takes effect. The result says whether
    // the endpoint reported a conflict.
    method CallOwnerAction(d: string, action: Action, outcome: Outcome) returns (ok: bool, conflict: bool)
      requires Follows() && world.stage == Handling(Acts(d, action)) && d in decisions
      modifies this
      ensures Follows() && old(history) <= history && world.arrived == old(world.arrived)
      ensures ok == outcome.Done? && state == old(state) && file == old(file)
      ensures ok ==> world.stage.Acted? && conflict == OwnerActionEndpoint(old(decisions)[d], action).Err?
      ensures !ok ==> world.stage.Idle?
      ensures decisions == if outcome.LostRequest? then old(decisions) else Perform(old(decisions), d, action)
    {
      hide Run, Position, Apply, OwnerActionEndpoint;
      conflict := false;
      if outcome.LostRequest? {
        GiveUp();
        return false, false;
      }
      var r := OwnerActionEndpoint(decisions[d], action);
      if r.Ok? { decisions := decisions[d := r.value]; } else { conflict := true; }
      RecordAction(d, action);
      if outcome.LostResponse? {
        GiveUp();
        return false, conflict;
      }
      return true, conflict;
    }

    // The end of a handler that acted: answer, clear the keyboard where nothing is left to press,
    // remember the callback.
    method FinishAction(u: Update, action: Action, conflict: bool, luck: Luck) returns (ok: bool)
      requires Follows() && world.stage.Acted? && HasId(u)
      requires Here(world) < |world.arrived| && world.arrived[Here(world)].update == u
      modifies this
      ensures Follows() && old(history) <= history && world.arrived == old(world.arrived)
      ensures file == old(file) && decisions == old(decisions)
      ensures ok == (luck.answer && (action.Yes? || action.No? || conflict ==> luck.clear))
      ensures ok ==> world.stage.Returned? && state == Mark(old(state), u.callback.value.id.value)
      ensures !ok ==> world.stage.Idle? && state == old(state)
    {
      hide Run, Position;
      if !luck.answer {
        GiveUp();
        return false;
      }
      if action.Yes? || action.No? || conflict {
        if !luck.clear {
          GiveUp();
          return false;
        }
      }
      MarkProcessed(u.callback.value.id.value);
      Note(Finish);
      return true;
    }

    // `_handle_update`; a false result is its TelegramGovernanceError.
    method HandleUpdate(u: Update, luck: Luck) returns (ok: bool)
      requires Follows() && world.stage.Idle?
      requires Here(world) < |world.arrived| && world.arrived[Here(world)].update == u
      modifies this
      ensures Follows() && old(history) <= history && world.arrived == old(world.arrived)
      ensures file == old(file) && state.offset == old(state.offset)
      ensures ok ==> world.stage.Returned?
      ensures !ok ==> world.stage.Idle?
      ensures var v := Judge(codec, u, old(state), old(decisions));
              && (ok ==> state == Handled(u, v, old(state)) && decisions == Decided(v, old(decisions)))
              && (!ok ==> state == old(state) && decisions in {old(decisions), Decided(v, old(decisions))})
              && (luck.(saved := true) == NO_FAULT ==> ok)
    {
      hide Run, Position, Apply, CallbackCodec.Decode, CallbackCodec.DecisionKey, Perform, JudgeDecision, LastOf;
      Begin();
      if !HasId(u) {
        EndUnmarked();
        return true;
      }
      var c := u.callback.value;
      if c.id.value in state.processed {
        if !luck.answer { GiveUp(); return false; }
        EndUnmarked();
        return true;
      }
      if c.sender != Some(codec.userId) || c.message.None? {
        ok := Refuse(u, luck.answer);
        return;
      }
      if c.message.value.chatId != codec.chatId || !c.message.value.isPrivate || c.data.None? {
        ok := Refuse(u, luck.answer);
        return;
      }
      var decoded := CallbackCodec.Decode(codec, c.data.value);
      if decoded.Err? {
        ok := Refuse(u, luck.answer);
        return;
      }
      var (key, action) := decoded.value;
      var matches := Matches(codec, state.notifications, key);
      if |matches| != 1 {
        ok := Refuse(u, luck.answer);
        return;
      }
      var d := TheOnly(matches);
      ok := HandleDecision(u, d, action, luck);
    }

    // The part of the handler that talks to the control plane.
    method HandleDecision(u: Update, d: string, action: Action, luck: Luck) returns (ok: bool)
      requires Follows() && HasId(u) && d in state.notifications
      requires world.stage == Handling(JudgeDecision(state, decisions, d, action))
      requires Here(world) < |world.arrived| && world.arrived[Here(world)].update == u
      modifies this
      ensures Follows() && old(history) <= history && world.arrived == old(world.arrived)
      ensures file == old(file) && state.offset == old(state.offset)
      ensures ok ==> world.stage.Returned?
      ensures !ok ==> world.stage.Idle?
      ensures var v := JudgeDecision(old(state), old(decisions), d, action);
              && (ok ==> state == Handled(u, v, old(state)) && decisions == Decided(v, old(decisions)))
              && (!ok ==> state == old(state) && decisions in {old(decisions), Decided(v, old(decisions))})
              && (luck.(saved := true) == NO_FAULT ==> ok)
    {
      hide Run, Position, Perform, Apply, LastOf;
      if !state.notifications[d].mobileSafe {
        ok := Refuse(u, luck.answer);
        return;
      }
      if !luck.read {
        GiveUp();
        return false;
      }
      if d !in decisions || !decisions[d].status.Open? {
        ok := Refuse(u, luck.answer);
        return;
      }
      if action.Defer? && (decisions[d].classification.None? || !decisions[d].classification.value.deferAllowed) {
        ok := Refuse(u, luck.answer);
        return;
      }
      var conflict;
      ok, conflict := CallOwnerAction(d, action, luck.action);
      if !ok { return; }
      ok := FinishAction(u, action, conflict, luck);
    }

    // What holds of any history, stated on the service's own fields.
    ghost predicate Safe()
      reads this
    {
      && (forall i :: 0 <= i < |world.arrived| && world.arrived[i].update.updateId < file.offset ==> i in world.handled)
      && (state.offset >= NextId(world.arrived) ==> decisions == CrashFree(first, world.arrived))
    }

    lemma HistoryIsSafe()
      requires Follows()
      ensures Safe() && Increasing(world.arrived)
    {
      hide Run, CrashFree;
      DeliveryIsCrashSafe(codec, first, history);
      RunsStayValid(codec, first, history);
    }

    lemma ConsumedAgrees()
      requires Follows() && Here(world) == |world.arrived|
      ensures decisions == CrashFree(first, world.arrived)
    {
      HistoryIsSafe();
      hide Run, CrashFree;
    }

    // The handler ran to its end: the offset moves past the update, in memory and, if the write
    // succeeds, in the file.
    method AdvanceOffset(u: Update, saved: bool)
      requires Follows() && world.stage.Returned?
      requires Here(world) < |world.arrived| && world.arrived[Here(world)].update == u
      modifies this
      ensures Follows() && world.stage.Idle? && old(history) <= history && world.arrived == old(world.arrived)
      ensures decisions == old(decisions) && file == (if saved then state else old(file))
      ensures Here(world) == old(Here(world)) + 1 && state.offset > u.updateId
    {
      hide Run, Position, CrashFree, Safe;
      HistoryIsSafe();
      PositionAdvances(world.arrived, world.mem.offset);
      state := state.(offset := if state.offset >= u.updateId + 1 then state.offset else u.updateId + 1);
      if saved { file := state; }
      Note(Advance(saved));
    }

    // The loop body of `poll_once`: handle one update, pass it, write the file.
    method PollOne(u: Update, luck: Luck) returns (ok: bool)
      requires Follows() && world.stage.Idle?
      requires Here(world) < |world.arrived| && world.arrived[Here(world)].update == u
      modifies this
      ensures Follows() && world.stage.Idle? && old(history) <= history && world.arrived == old(world.arrived)
      ensures ok ==> Here(world) == old(Here(world)) + 1 && file == state
      ensures !ok ==> old(Here(world)) <= Here(world) <= old(Here(world)) + 1
      ensures luck == NO_FAULT ==> ok
    {
      hide Run, Position, Judge, Handled, Decided;
      ok := HandleUpdate(u, luck);
      if !ok { return; }
      AdvanceOffset(u, luck.saved);
      ok := luck.saved;
    }

    // `poll_once` on a batch that Telegram took from the front of the pending updates, in any order
    // and with items that carry no usable id anywhere in it; `count` is how many are usable, and
    // `luck[i]` goes with the i-th item after sorting. A false result is the exception that ends the poll.
    method PollOnce(received: seq<Received>, luck: seq<Luck>, ghost count: nat) returns (processed: nat, ok: bool)
      requires Follows() && world.stage.Idle? && |luck| == |SortedById(received)|
      requires Here(world) + count <= |world.arrived|
      requires multiset(Usable(received)) == multiset(UpdatesOf(world.arrived[Here(world)..Here(world) + count]))
      modifies this
      ensures Follows() && world.stage.Idle? && old(history) <= history && world.arrived == old(world.arrived)
      ensures Safe()
      ensures processed <= count && old(Here(world)) + processed <= Here(world) <= old(Here(world)) + processed + 1
      ensures ok ==> processed == count && Here(world) == old(Here(world)) + count && (count > 0 ==> file == state)
      ensures (forall i :: 0 <= i < |luck| ==> luck[i] == NO_FAULT) ==> ok
      ensures ok && old(Here(world)) + count == |world.arrived| ==> decisions == CrashFree(first, world.arrived)
    {
      hide Run, Position, CrashFree, Safe, SortedById, Usable, Increasing, UpdatesOf;
      var ordered := SortedById(received);
      HistoryIsSafe();
      BatchIsRestored(received, world.arrived, Here(world), count);
      processed := 0;
      NothingUsable(ordered[..0]);
      for i := 0 to |ordered|
        invariant processed == |Usable(ordered[..i])| <= count
        invariant Follows() && world.stage.Idle? && old(history) <= history && world.arrived == old(world.arrived)
        invariant Here(world) == old(Here(world)) + processed
        invariant processed > 0 ==> file == state
      {
        NextOfBatch(ordered, i, world.arrived, old(Here(world)), count);
        if !IsUsable(ordered[i]) { continue; }
        var u := AsUpdate(ordered[i]);
        ok := PollOne(u, luck[i]);
        if !ok {
          HistoryIsSafe();
          return;
        }
        processed := processed + 1;
      }
      assert ordered[..|ordered|] == ordered;
      ok := true;
      HistoryIsSafe();
      if Here(world) == |world.arrived| { ConsumedAgrees(); }
    }

    // `register_notification`, with the summary already cleaned; None is its TelegramGovernanceError
    // or a failed write.
    method RegisterNotification(d: string, n: Notification, luck: Luck) returns (r: Option<Notification>)
      requires Follows()
      requires forall e :: e in world.policy && e != d ==>
          CallbackCodec.DecisionKey(codec, e) != CallbackCodec.DecisionKey(codec, d)
      modifies this
      ensures Follows() && old(history) <= history && world.arrived == old(world.arrived)
          && world.stage == old(world.stage)
      ensures decisions == old(decisions) && state.offset == old(state.offset)
          && state.processed == old(state.processed)
      ensures r.Some? ==> d in state.notifications && r.value == state.notifications[d] == n
      ensures r.Some? && d !in old(state.notifications) ==>
          d in decisions && decisions[d].status.Open? && Known(world, d)
      ensures state == old(state)
              || (d !in old(state.notifications) && state.notifications == old(state.notifications)[d := n])
      ensures file in {old(file), state} && (d in old(state.notifications) || r.None? ==> file == old(file))
      ensures d in old(state.notifications) && old(state.notifications)[d] != n ==> r.None?
      ensures luck == NO_FAULT ==>
                (r.Some? <==>
                   if d in old(state.notifications) then old(state.notifications)[d] == n
                   else d in decisions && decisions[d].status.Open?)
    {
      hide Run, Position, CallbackCodec.DecisionKey;
      if d in state.notifications {
        return if state.notifications[d] == n then Some(n) else None;
      }
      if !luck.read || d !in decisions || !decisions[d].status.Open? || !luck.answer {
        return None;
      }
      state := state.(notifications := state.notifications[d := n]);
      if luck.saved { file := state; }
      Note(Register(d, n, luck.saved));
      return if luck.saved then Some(n) else None;
    }

    predicate IsOpen(d: string)
      reads this`decisions
    {
      d in decisions && decisions[d].status.Open?
    }

    method DropNotification(d: string)
      requires Follows() && !IsOpen(d)
      modifies this
      ensures Follows() && history == old(history) + [Prune(d, false)]
      ensures world.arrived == old(world.arrived) && world.stage == old(world.stage)
      ensures decisions == old(decisions) && file == old(file)
      ensures state == old(state).(notifications := old(state.notifications) - {d})
    {
      hide Run, Position;
      state := state.(notifications := state.notifications - {d});
      Note(Prune(d, false));
    }

    // `_open_notifications_and_prune`: `readable` are the decisions the control plane can be asked about.
    method OpenNotificationsAndPrune(readable: set<string>, saved: bool) returns (open: Option<set<string>>)
      requires Follows()
      modifies this
      ensures Follows() && old(history) <= history && world.arrived == old(world.arrived)
          && world.stage == old(world.stage)
      ensures decisions == old(decisions) && state.offset == old(state.offset)
          && state.processed == old(state.processed)
      ensures forall d :: d in state.notifications ==>
          d in old(state.notifications) && state.notifications[d] == old(state.notifications)[d]
      ensures forall d :: d in old(state.notifications) && d !in state.notifications ==>
          d !in decisions || !decisions[d].status.Open?
      ensures file in {old(file), state}
      ensures open.Some? ==>
                && open.value == state.notifications.Keys
                && (forall d :: d in open.value ==> d in decisions && decisions[d].status.Open?)
      ensures open.Some? && state != old(state) ==> file == state
      ensures open.None? ==> file == old(file)
      ensures open.Some? <==>
          old(state.notifications.Keys) <= readable
          && (saved || forall d :: d in old(state.notifications) ==> d in decisions && decisions[d].status.Open?)
    {
      hide Run, Position, Start;
      var items, changed, kept := state.notifications.Keys, false, {};
      while items != {}
        invariant Follows() && old(history) <= history && world.arrived == old(world.arrived)
            && world.stage == old(world.stage)
        invariant decisions == old(decisions) && state.offset == old(state.offset)
            && state.processed == old(state.processed)
        invariant file == old(file)
        invariant kept !! items && state.notifications.Keys == kept + items
        invariant items + kept <= old(state.notifications.Keys) && old(state.notifications.Keys) - items <= readable
        invariant forall d :: d in kept ==> IsOpen(d)
        invariant forall d :: d in state.notifications ==>
            d in old(state.notifications) && state.notifications[d] == old(state.notifications)[d]
        invariant forall d :: d in old(state.notifications) && d !in state.notifications ==> !IsOpen(d)
        invariant changed <==> exists d :: d in old(state.notifications) - items && !IsOpen(d)
        invariant !changed ==> state == old(state)
        decreases items
      {
        var d :| d in items;
        items := items - {d};
        if d !in readable {
          return None;
        }
        if !IsOpen(d) {
          DropNotification(d);
          changed := true;
        } else {
          kept := kept + {d};
        }
      }
      if changed {
        if !saved { return None; }
        file := state;
        Note(Save);
      }
      return Some(kept);
    }
  }
}
