// Delivery of owner actions from Telegram: a persisted offset, in-memory processed ids, and
// redelivery of every update at or above the offset, with crashes and failed calls at any point.
module TelegramDelivery {
  import opened Common
  import opened Governance
  import CallbackCodec

  const MAX_PROCESSED_CALLBACKS := 256

  datatype Message = Message(chatId: string, isPrivate: bool)

  // The parts of a callback query the handler inspects; None where the field has the wrong type.
  datatype Callback = Callback(id: Option<string>, sender: Option<string>, message: Option<Message>,
      data: Option<string>)

  datatype Update = Update(updateId: nat, callback: Option<Callback>)

  datatype Notification = Notification(mobileSafe: bool, summary: Option<string>)

  // The persisted state file, and its in-memory copy.
  datatype State = State(offset: nat, notifications: map<string, Notification>, processed: seq<string>)

  const FRESH_STATE := State(0, map[], [])

  // ----- The handler's decision -----

  datatype Verdict =
    | Ignored                                        // no callback or no id: nothing to do
    | Already                                        // answered, not acted on again
    | Refused                                        // answered and marked processed
    | Acts(decisionId: string, action: Action)       // sent to the owner-action endpoint

  // The authenticated key and action of an update from the owner's private chat.
  function Authentic(codec: CallbackCodec.Codec, u: Update): Option<(string, Action)> {
    if u.callback.None? then None
    else
      var c := u.callback.value;
      if c.id.None? || c.sender != Some(codec.userId) || c.message.None? then None
      else if c.message.value.chatId != codec.chatId || !c.message.value.isPrivate || c.data.None? then None
      else
        var r := CallbackCodec.Decode(codec, c.data.value);
        if r.Ok? then Some(r.value) else None
  }

  function Matches(codec: CallbackCodec.Codec, notifications: map<string, Notification>, key: string): set<string> {
    set d | d in notifications && CallbackCodec.DecisionKey(codec, d) == key
  }

  function TheOnly(s: set<string>): string
    requires |s| == 1
  {
    OnlyOne(s);
    var x :| x in s;
    x
  }

  lemma OnlyOne(s: set<string>)
    requires |s| == 1
    ensures exists x :: x in s && forall y :: y in s ==> y == x
  {
    var x :| x in s;
    assert |s - {x}| == 0;
    assert forall y :: y in s ==> y == x || y in s - {x};
  }

  function HasId(u: Update): bool {
    u.callback.Some? && u.callback.value.id.Some?
  }

  // Everything `_handle_update` checks before it calls the owner-action endpoint.
  function Judge(codec: CallbackCodec.Codec, u: Update, mem: State, decisions: map<string, Decision>): Verdict {
    if !HasId(u) then Ignored
    else if u.callback.value.id.value in mem.processed then Already
    else
      var auth := Authentic(codec, u);
      if auth.None? then Refused
      else
        var matches := Matches(codec, mem.notifications, auth.value.0);
        if |matches| != 1 then Refused
        else JudgeDecision(mem, decisions, TheOnly(matches), auth.value.1)
  }

  function JudgeDecision(mem: State, decisions: map<string, Decision>, d: string, action: Action): Verdict
    requires d in mem.notifications
  {
    if !mem.notifications[d].mobileSafe then Refused
    else if d !in decisions || !decisions[d].status.Open? then Refused
    else if action.Defer? && (decisions[d].classification.None? || !decisions[d].classification.value.deferAllowed)
        then Refused
    else Acts(d, action)
  }

  // The owner-action call: one atomic step; a refusal ("already handled") changes nothing.
  function Perform(decisions: map<string, Decision>, d: string, action: Action): map<string, Decision> {
    if d !in decisions then decisions
    else
      var r := OwnerActionEndpoint(decisions[d], action);
      if r.Ok? then decisions[d := r.value] else decisions
  }

  function LastOf(xs: seq<string>, n: nat): seq<string> {
    if |xs| <= n then xs else xs[|xs| - n..]
  }

  function Mark(mem: State, id: string): State {
    mem.(processed := LastOf(mem.processed + [id], MAX_PROCESSED_CALLBACKS))
  }

  // A handled id joins the remembered ones, of which the last 256 are kept, in order.
  lemma MarkRemembersLast(mem: State, id: string)
    ensures var before, after := mem.processed, Mark(mem, id);
            && after.offset == mem.offset && after.notifications == mem.notifications
            && after.processed == (if |before| < 256 then before else before[|before| - 255..]) + [id]
  {
  }

  // ----- Who may act, field by field -----

  // The owner pressed, in the owner's private chat, a button whose text decodes to this key and action.
  predicate PressedByOwner(codec: CallbackCodec.Codec, u: Update, key: string, action: Action) {
    && u.callback.Some?
    && u.callback.value.id.Some?
    && u.callback.value.sender == Some(codec.userId)
    && u.callback.value.message == Some(Message(codec.chatId, true))
    && u.callback.value.data.Some?
    && CallbackCodec.Decode(codec, u.callback.value.data.value) == Ok((key, action))
  }

  lemma AuthenticIsOwner(codec: CallbackCodec.Codec, u: Update, key: string, action: Action)
    ensures Authentic(codec, u) == Some((key, action)) <==> PressedByOwner(codec, u, key, action)
  {
    hide CallbackCodec.Decode;
  }

  lemma SoleMatch(codec: CallbackCodec.Codec, notifications: map<string, Notification>, key: string, d: string)
    ensures |Matches(codec, notifications, key)| == 1 && TheOnly(Matches(codec, notifications, key)) == d <==>
              && d in notifications && CallbackCodec.DecisionKey(codec, d) == key
              && forall e :: e in notifications && CallbackCodec.DecisionKey(codec, e) == key ==> e == d
  {
    hide CallbackCodec.DecisionKey;
    var matches := Matches(codec, notifications, key);
    assert forall e :: e in matches <==> e in notifications && CallbackCodec.DecisionKey(codec, e) == key;
    if |matches| == 1 {
      OnlyOne(matches);
      assert TheOnly(matches) in matches;
    }
    if d in matches {
      if forall e :: e in matches ==> e == d {
        assert matches == {d};
        OnlyOfSingleton(d);
      }
    }
  }

  // The handler acts on a decision exactly when an unprocessed callback of the owner, from the owner's
  // private chat, carries the key of that decision and of no other notification, the decision is safe
  // for mobile and open, and a DEFER is allowed.
  lemma ActsExactly(codec: CallbackCodec.Codec, u: Update, mem: State, decisions: map<string, Decision>, d: string,
                    action: Action)
    ensures Judge(codec, u, mem, decisions) == Acts(d, action) <==>
              && PressedByOwner(codec, u, CallbackCodec.DecisionKey(codec, d), action)
              && u.callback.value.id.value !in mem.processed
              && d in mem.notifications && mem.notifications[d].mobileSafe
              && (forall e :: e in mem.notifications && e != d ==>
                    CallbackCodec.DecisionKey(codec, e) != CallbackCodec.DecisionKey(codec, d))
              && d in decisions && decisions[d].status.Open?
              && (action.Defer? ==> decisions[d].classification.Some? && decisions[d].classification.value.deferAllowed)
  {
    hide CallbackCodec.DecisionKey, Authentic, Matches, PressedByOwner;
    var key := CallbackCodec.DecisionKey(codec, d);
    AuthenticIsOwner(codec, u, key, action);
    OwnerHasId(codec, u, key, action);
    SoleMatch(codec, mem.notifications, key, d);
    var auth := Authentic(codec, u);
    if auth.Some? {
      SoleMatch(codec, mem.notifications, auth.value.0, d);
    }
  }

  lemma OwnerHasId(codec: CallbackCodec.Codec, u: Update, key: string, action: Action)
    ensures PressedByOwner(codec, u, key, action) ==> HasId(u)
  {
    hide CallbackCodec.Decode;
  }

  // Every other update is ignored without an id, answered again with a processed one, or refused.
  lemma OtherwiseExactly(codec: CallbackCodec.Codec, u: Update, mem: State, decisions: map<string, Decision>)
    ensures var v := Judge(codec, u, mem, decisions);
            && (v.Ignored? <==> u.callback.None? || u.callback.value.id.None?)
            && (v.Already? <==>
                  u.callback.Some? && u.callback.value.id.Some? && u.callback.value.id.value in mem.processed)
  {
    hide Authentic, Matches;
  }

  // ----- The system -----

  // An update at Telegram, with the registered decision and action it is about, if any, and whether
  // that decision was registered as safe for mobile.
  datatype Arrival = Arrival(update: Update, subject: Option<(string, Action)>, safe: bool)

  datatype Stage =
    | Idle
    | Handling(verdict: Verdict)   // the first pending update, judged
    | Acted                        // its owner action has been applied
    | Returned                     // its handler has run to the end

  // `frontier` counts the updates that have been handled at least once, `handled` lists them.
  datatype World = World(
    codec: CallbackCodec.Codec, decisions: map<string, Decision>, stored: State, mem: State,
    arrived: seq<Arrival>, stage: Stage, frontier: nat, handled: set<nat>, policy: map<string, bool>)

  datatype Step =
    | Arrive(update: Update)
    | Register(decisionId: string, notification: Notification, saved: bool)
    | Prune(decisionId: string, saved: bool)
    | Save
    | Take
    | ApplyAction
    | Finish
    | Advance(saved: bool)
    | Fail
    | Crash

  function Start(codec: CallbackCodec.Codec, decisions: map<string, Decision>): World {
    World(codec, decisions, FRESH_STATE, FRESH_STATE, [], Idle, 0, {}, map[])
  }

  // How many of the updates lie below an offset.
  function Position(arrived: seq<Arrival>, offset: nat): (p: nat)
    ensures p <= |arrived|
    ensures p < |arrived| ==> arrived[p].update.updateId >= offset
  {
    if arrived == [] then 0
    else if arrived[|arrived| - 1].update.updateId < offset then |arrived|
    else Position(arrived[..|arrived| - 1], offset)
  }

  function NextId(arrived: seq<Arrival>): nat {
    if arrived == [] then 0 else arrived[|arrived| - 1].update.updateId + 1
  }

  function Here(w: World): nat {
    Position(w.arrived, w.mem.offset)
  }

  // The registered decision an authentic update names.
  function Subject(w: World, u: Update): Option<(string, Action)> {
    var auth := Authentic(w.codec, u);
    if auth.None? then None
    else
      var named := set d | d in w.policy && CallbackCodec.DecisionKey(w.codec, d) == auth.value.0;
      if |named| != 1 then None else Some((TheOnly(named), auth.value.1))
  }

  // A registration that completed: in memory and in the file, under its policy.
  predicate Known(w: World, d: string) {
    && d in w.policy
    && d in w.mem.notifications && w.mem.notifications[d].mobileSafe == w.policy[d]
    && d in w.stored.notifications && w.stored.notifications[d].mobileSafe == w.policy[d]
  }

  predicate NotOpen(w: World, d: string) {
    d !in w.decisions || !w.decisions[d].status.Open?
  }

  // Telegram's side of the contract: growing update ids, fresh callback ids, and buttons pressed only
  // after their notification has been registered.
  predicate MayArrive(w: World, u: Update) {
    && u.updateId >= NextId(w.arrived)
    && (HasId(u) ==> forall i :: 0 <= i < |w.arrived| && HasId(w.arrived[i].update) ==>
          w.arrived[i].update.callback.value.id != u.callback.value.id)
    && (Authentic(w.codec, u).Some? ==>
          var s := Subject(w, u);
          s.Some? && (Known(w, s.value.0) || (s.value.0 in w.policy && NotOpen(w, s.value.0))))
  }

  // Decision keys are distinct among registered decisions.
  predicate MayRegister(w: World, d: string) {
    && !NotOpen(w, d)
    && d !in w.mem.notifications
    && forall e :: e in w.policy && e != d ==>
        CallbackCodec.DecisionKey(w.codec, e) != CallbackCodec.DecisionKey(w.codec, d)
  }

  function Persist(w: World, saved: bool): World {
    if saved then w.(stored := w.mem) else w
  }

  // A step that does not fit the state changes nothing.
  function Apply(w: World, step: Step): World {
    match step
    case Arrive(u) =>
      if MayArrive(w, u) then
        var s := Subject(w, u);
        w.(arrived := w.arrived + [Arrival(u, s, s.Some? && s.value.0 in w.policy && w.policy[s.value.0])])
      else w
    case Register(d, n, saved) =>
      if MayRegister(w, d) then
        Persist(w.(mem := w.mem.(notifications := w.mem.notifications[d := n]), policy := w.policy[d := n.mobileSafe]),
            saved)
      else w
    case Prune(d, saved) =>
      if NotOpen(w, d) then Persist(w.(mem := w.mem.(notifications := w.mem.notifications - {d})), saved) else w
    case Save => Persist(w, true)
    case Take =>
      if w.stage.Idle? && Here(w) < |w.arrived| then
        w.(stage := Handling(Judge(w.codec, w.arrived[Here(w)].update, w.mem, w.decisions)))
      else w
    case ApplyAction =>
      if w.stage.Handling? && w.stage.verdict.Acts? then
        w.(decisions := Perform(w.decisions, w.stage.verdict.decisionId, w.stage.verdict.action),
           stage := Acted, frontier := Max(w.frontier, Here(w) + 1))
      else w
    case Finish =>
      if Here(w) == |w.arrived| then w
      else
        var u := w.arrived[Here(w)].update;
        var done := w.(stage := Returned, frontier := Max(w.frontier, Here(w) + 1), handled := w.handled + {Here(w)});
        if w.stage.Handling? && (w.stage.verdict.Ignored? || w.stage.verdict.Already?) then done
        else if (w.stage.Acted? || (w.stage.Handling? && w.stage.verdict.Refused?)) && HasId(u) then
          done.(mem := Mark(w.mem, u.callback.value.id.value))
        else w
    case Advance(saved) =>
      if w.stage.Returned? && Here(w) < |w.arrived| then
        Persist(w.(mem := w.mem.(offset := Max(w.mem.offset, w.arrived[Here(w)].update.updateId + 1)), stage := Idle),
            saved)
      else w
    case Fail => w.(stage := Idle)
    case Crash => w.(mem := w.stored, stage := Idle)
  }

  function Run(w: World, steps: seq<Step>): World {
    if steps == [] then w else Apply(Run(w, steps[..|steps| - 1]), steps[|steps| - 1])
  }

  // ----- The crash-free reference: every update acts once, in order -----

  function Effect(decisions: map<string, Decision>, a: Arrival): map<string, Decision> {
    if a.safe && a.subject.Some? then Perform(decisions, a.subject.value.0, a.subject.value.1) else decisions
  }

  function CrashFree(decisions: map<string, Decision>, arrived: seq<Arrival>): map<string, Decision> {
    if arrived == [] then decisions
    else Effect(CrashFree(decisions, arrived[..|arrived| - 1]), arrived[|arrived| - 1])
  }

  // Would this action be accepted while the decision is open? Its classification never changes.
  predicate Works(record: Decision, action: Action) {
    && record.classification.Some?
    && record.classification.value.authority == record.authority
    && (action.Defer? ==> record.classification.value.deferAllowed)
  }

  predicate ActsOn(a: Arrival, d: string) {
    a.safe && a.subject.Some? && a.subject.value.0 == d
  }

  ghost predicate Touched(first: map<string, Decision>, arrived: seq<Arrival>, d: string, from: nat, to: nat)
    requires d in first && to <= |arrived|
  {
    exists i :: from <= i < to && ActsOn(arrived[i], d) && Works(first[d], arrived[i].subject.value.1)
  }

  ghost predicate SameNature(a: Decision, b: Decision) {
    a.authority == b.authority && a.classification == b.classification
  }

  // Given that the first `upTo` updates have been handled at least once, handling again from `from`
  // can only bring the decisions back to where the crash-free run has them: closed decisions agree
  // already, open ones agree unless an update still to be handled again acts on them.
  ghost predicate Settled(first: map<string, Decision>, decisions: map<string, Decision>, arrived: seq<Arrival>,
                          from: nat, upTo: nat)
    requires upTo <= |arrived|
  {
    var goal := CrashFree(first, arrived[..upTo]);
    && decisions.Keys == first.Keys == goal.Keys
    && forall d :: d in first ==>
         && SameNature(decisions[d], first[d]) && SameNature(goal[d], first[d])
         && (!goal[d].status.Open? ==> decisions[d] == goal[d])
         && (goal[d].status.Open? ==>
             decisions[d].status.Open? && (Touched(first, arrived, d, from, upTo) || decisions[d] == goal[d]))
  }

  lemma PerformKeepsNature(decisions: map<string, Decision>, d: string, action: Action)
    ensures var after := Perform(decisions, d, action);
            && after.Keys == decisions.Keys
            && (forall e :: e in decisions ==>
                SameNature(after[e], decisions[e]) && (e != d ==> after[e] == decisions[e]))
            && (d in decisions ==>
                  after[d] == if decisions[d].status.Open? && Works(decisions[d], action)
                              then decisions[d].(status := if action.Yes? || action.No? then Resolved else Open,
                                                 ownerAction := Some(action))
                              else decisions[d])
  {
  }

  lemma CrashFreeSnoc(first: map<string, Decision>, arrived: seq<Arrival>, k: nat)
    requires k < |arrived|
    ensures CrashFree(first, arrived[..k + 1]) == Effect(CrashFree(first, arrived[..k]), arrived[k])
  {
    assert arrived[..k + 1][..k] == arrived[..k];
  }

  lemma {:induction false} CrashFreeKeepsNature(first: map<string, Decision>, arrived: seq<Arrival>)
    ensures CrashFree(first, arrived).Keys == first.Keys
    ensures forall d :: d in first ==> SameNature(CrashFree(first, arrived)[d], first[d])
  {
    if arrived != [] {
      var front, last := arrived[..|arrived| - 1], arrived[|arrived| - 1];
      CrashFreeKeepsNature(first, front);
      if last.subject.Some? { PerformKeepsNature(CrashFree(first, front), last.subject.value.0, last.subject.value.1); }
    }
  }

  // A decision that is open later was open before.
  lemma {:induction false} OpenBefore(first: map<string, Decision>, arrived: seq<Arrival>, d: string, k: nat, m: nat)
    requires d in first && k <= m <= |arrived|
    ensures d in CrashFree(first, arrived[..k]) && d in CrashFree(first, arrived[..m])
    ensures !CrashFree(first, arrived[..k])[d].status.Open? ==>
        CrashFree(first, arrived[..m])[d] == CrashFree(first, arrived[..k])[d]
    decreases m - k
  {
    hide CrashFree;
    CrashFreeKeepsNature(first, arrived[..k]);
    CrashFreeKeepsNature(first, arrived[..m]);
    if k < m {
      CrashFreeSnoc(first, arrived, k);
      var a := arrived[k];
      if a.subject.Some? { PerformKeepsNature(CrashFree(first, arrived[..k]), a.subject.value.0, a.subject.value.1); }
      OpenBefore(first, arrived, d, k + 1, m);
    }
  }

  // ----- Handling an update once more -----

  // Updates that cannot act on a decision leave it as it is in the crash-free run.
  lemma {:induction false} UntouchedUnchanged(first: map<string, Decision>, arrived: seq<Arrival>, d: string, k: nat,
                                              m: nat)
    requires d in first && k <= m <= |arrived| && !Touched(first, arrived, d, k, m)
    ensures d in CrashFree(first, arrived[..k]) && d in CrashFree(first, arrived[..m])
    ensures CrashFree(first, arrived[..m])[d] == CrashFree(first, arrived[..k])[d]
    decreases m - k
  {
    hide CrashFree;
    CrashFreeKeepsNature(first, arrived[..k]);
    CrashFreeKeepsNature(first, arrived[..m]);
    if k < m {
      CrashFreeSnoc(first, arrived, k);
      var a := arrived[k];
      if a.subject.Some? { PerformKeepsNature(CrashFree(first, arrived[..k]), a.subject.value.0, a.subject.value.1); }
      UntouchedUnchanged(first, arrived, d, k + 1, m);
    }
  }

  lemma SettledEarlier(first: map<string, Decision>, decisions: map<string, Decision>, arrived: seq<Arrival>, from: nat,
                       earlier: nat, upTo: nat)
    requires earlier <= from && upTo <= |arrived| && Settled(first, decisions, arrived, from, upTo)
    ensures Settled(first, decisions, arrived, earlier, upTo)
  {
    hide CrashFree;
    forall d | d in first && Touched(first, arrived, d, from, upTo) ensures Touched(first, arrived, d, earlier, upTo) {
      var i :| from <= i < upTo && ActsOn(arrived[i], d) && Works(first[d], arrived[i].subject.value.1);
    }
  }

  lemma SettledOnMore(first: map<string, Decision>, decisions: map<string, Decision>, arrived: seq<Arrival>,
                      more: Arrival, from: nat, upTo: nat)
    requires upTo <= |arrived| && Settled(first, decisions, arrived, from, upTo)
    ensures Settled(first, decisions, arrived + [more], from, upTo)
  {
    hide CrashFree;
    var longer := arrived + [more];
    assert longer[..upTo] == arrived[..upTo];
    forall d | d in first && Touched(first, arrived, d, from, upTo) ensures Touched(first, longer, d, from, upTo) {
      var i :| from <= i < upTo && ActsOn(arrived[i], d) && Works(first[d], arrived[i].subject.value.1);
      assert longer[i] == arrived[i];
    }
  }

  // With nothing left to handle again, the decisions are the crash-free ones.
  lemma SettledAtFrontier(first: map<string, Decision>, decisions: map<string, Decision>, arrived: seq<Arrival>,
                          from: nat)
    requires from <= |arrived| && Settled(first, decisions, arrived, from, from)
    ensures decisions == CrashFree(first, arrived[..from])
  {
    hide CrashFree;
    forall d | d in first ensures decisions[d] == CrashFree(first, arrived[..from])[d] {
      assert !Touched(first, arrived, d, from, from);
    }
  }

  // The heart of the matter, for one decision: handling an old update again moves the decision to
  // where the crash-free run had it, or leaves it settled.
  lemma RehandlingSettles(first: map<string, Decision>, decisions: map<string, Decision>, arrived: seq<Arrival>, i: nat,
                          upTo: nat, d: string)
    requires i < upTo <= |arrived| && d in first && Settled(first, decisions, arrived, i, upTo)
    ensures var goal, after := CrashFree(first, arrived[..upTo]), Effect(decisions, arrived[i]);
            && d in after && d in goal && SameNature(after[d], first[d])
            && (!goal[d].status.Open? ==> after[d] == goal[d])
            && (goal[d].status.Open? ==>
                after[d].status.Open? && (Touched(first, arrived, d, i + 1, upTo) || after[d] == goal[d]))
  {
    hide CrashFree, Perform;
    var goal, a := CrashFree(first, arrived[..upTo]), arrived[i];
    if a.subject.Some? { PerformKeepsNature(decisions, a.subject.value.0, a.subject.value.1); }
    if !(ActsOn(a, d) && Works(first[d], a.subject.value.1)) {
      assert Touched(first, arrived, d, i, upTo) ==> Touched(first, arrived, d, i + 1, upTo);
    } else if goal[d].status.Open? {
      OpenBefore(first, arrived, d, i, upTo);
      OpenBefore(first, arrived, d, i + 1, upTo);
      CrashFreeSnoc(first, arrived, i);
      CrashFreeKeepsNature(first, arrived[..i]);
      PerformKeepsNature(CrashFree(first, arrived[..i]), d, a.subject.value.1);
      if !Touched(first, arrived, d, i + 1, upTo) {
        UntouchedUnchanged(first, arrived, d, i + 1, upTo);
      }
    }
  }

  lemma EffectSettles(first: map<string, Decision>, decisions: map<string, Decision>, arrived: seq<Arrival>, i: nat,
                      upTo: nat)
    requires i < |arrived| && i <= upTo <= |arrived| && Settled(first, decisions, arrived, i, upTo)
    ensures Settled(first, Effect(decisions, arrived[i]), arrived, i + 1, Max(upTo, i + 1))
  {
    hide CrashFree, Perform;
    var a := arrived[i];
    if a.subject.Some? { PerformKeepsNature(decisions, a.subject.value.0, a.subject.value.1); }
    if i < upTo {
      forall d | d in first
        ensures var goal, after := CrashFree(first, arrived[..upTo]), Effect(decisions, a);
                && d in after && d in goal && SameNature(after[d], first[d])
                && (!goal[d].status.Open? ==> after[d] == goal[d])
                && (goal[d].status.Open? ==>
                    after[d].status.Open? && (Touched(first, arrived, d, i + 1, upTo) || after[d] == goal[d]))
      {
        RehandlingSettles(first, decisions, arrived, i, upTo, d);
      }
    } else {
      SettledAtFrontier(first, decisions, arrived, i);
      CrashFreeSnoc(first, arrived, i);
      CrashFreeKeepsNature(first, arrived[..i + 1]);
    }
  }

  // ----- Positions -----

  ghost predicate Increasing(arrived: seq<Arrival>) {
    forall i, j :: 0 <= i < j < |arrived| ==> arrived[i].update.updateId < arrived[j].update.updateId
  }

  lemma {:induction false} PositionSplits(arrived: seq<Arrival>, offset: nat)
    requires Increasing(arrived)
    ensures forall i :: 0 <= i < |arrived| ==> (i < Position(arrived, offset) <==> arrived[i].update.updateId < offset)
  {
    if arrived != [] && arrived[|arrived| - 1].update.updateId >= offset {
      PositionSplits(arrived[..|arrived| - 1], offset);
    }
  }

  lemma NextIsLater(arrived: seq<Arrival>, p: nat)
    requires Increasing(arrived) && p + 1 < |arrived|
    ensures arrived[p].update.updateId + 1 <= arrived[p + 1].update.updateId
  {
  }

  lemma PositionAdvances(arrived: seq<Arrival>, offset: nat)
    requires Increasing(arrived) && Position(arrived, offset) < |arrived|
    ensures var next := Max(offset, arrived[Position(arrived, offset)].update.updateId + 1);
            && Position(arrived, next) == Position(arrived, offset) + 1
            && offset <= next <= NextId(arrived)
  {
    var p := Position(arrived, offset);
    var next := Max(offset, arrived[p].update.updateId + 1);
    PositionSplits(arrived, offset);
    PositionSplits(arrived, next);
    var q := Position(arrived, next);
    assert p < q;
    assert q <= p + 1 by {
      if q > p + 1 { NextIsLater(arrived, p); }
    }
  }

  lemma PositionMonotone(arrived: seq<Arrival>, low: nat, high: nat)
    requires Increasing(arrived) && low <= high
    ensures Position(arrived, low) <= Position(arrived, high)
  {
    PositionSplits(arrived, low);
    PositionSplits(arrived, high);
  }

  lemma PositionOnMore(arrived: seq<Arrival>, more: Arrival, offset: nat)
    requires Increasing(arrived) && more.update.updateId >= NextId(arrived) && offset <= NextId(arrived)
    ensures Increasing(arrived + [more]) && Position(arrived + [more], offset) == Position(arrived, offset)
    ensures NextId(arrived) <= NextId(arrived + [more])
  {
    var longer := arrived + [more];
    assert longer[..|arrived|] == arrived;
  }

  // ----- The invariant: progress through the updates -----

  predicate IdAt(arrived: seq<Arrival>, i: nat, id: string)
    requires i < |arrived|
  {
    HasId(arrived[i].update) && arrived[i].update.callback.value.id.value == id
  }

  ghost predicate DistinctCallbacks(arrived: seq<Arrival>) {
    forall i, j :: 0 <= i < j < |arrived| && HasId(arrived[i].update) && HasId(arrived[j].update) ==>
      arrived[i].update.callback.value.id != arrived[j].update.callback.value.id
  }

  // The part of a state that says how far it has come.
  datatype Progression = Reached(offset: nat, processed: seq<string>)

  datatype Progress = Progress(
    arrived: seq<Arrival>, decisions: map<string, Decision>, frontier: nat, handled: set<nat>, stage: Stage,
        mem: Progression, stored: Progression)

  function MarkOf(st: State): Progression {
    Reached(st.offset, st.processed)
  }

  function ProgressOf(w: World): Progress {
    Progress(w.arrived, w.decisions, w.frontier, w.handled, w.stage, MarkOf(w.mem), MarkOf(w.stored))
  }

  // Update p has been handled before, and handling may go on after it.
  ghost predicate Past(first: map<string, Decision>, g: Progress, p: nat)
    requires g.frontier <= |g.arrived|
  {
    p < g.frontier && p in g.handled && Settled(first, g.decisions, g.arrived, p + 1, g.frontier)
  }

  // Processed ids belong to updates at or below the offset, and if the one right at the offset is
  // among them, its work is done.
  ghost predicate MarkValid(first: map<string, Decision>, g: Progress, m: Progression)
    requires g.frontier <= |g.arrived|
  {
    var p := Position(g.arrived, m.offset);
    && m.offset <= NextId(g.arrived)
    && (forall id :: id in m.processed ==> exists i :: 0 <= i <= p && i < |g.arrived| && IdAt(g.arrived, i, id))
    && (p < |g.arrived| && HasId(g.arrived[p].update) && g.arrived[p].update.callback.value.id.value in m.processed ==>
        Past(first, g, p))
  }

  ghost predicate StageValid(first: map<string, Decision>, g: Progress)
    requires g.frontier <= |g.arrived|
  {
    var p := Position(g.arrived, g.mem.offset);
    match g.stage
    case Idle => true
    case Handling(v) =>
      && p < |g.arrived|
      && (v.Acts? ==>
          HasId(g.arrived[p].update) && g.arrived[p].safe && g.arrived[p].subject == Some((v.decisionId, v.action)))
      && (v.Refused? ==> HasId(g.arrived[p].update) && Effect(g.decisions, g.arrived[p]) == g.decisions)
      && (v.Ignored? ==> Effect(g.decisions, g.arrived[p]) == g.decisions)
      && (v.Already? ==> Past(first, g, p))
    case Acted =>
      && p < |g.arrived| && HasId(g.arrived[p].update)
      && p < g.frontier && Settled(first, g.decisions, g.arrived, p + 1, g.frontier)
    case Returned => p < |g.arrived| && Past(first, g, p)
  }

  ghost predicate ProgressValid(first: map<string, Decision>, g: Progress) {
    var p := Position(g.arrived, g.mem.offset);
    && Increasing(g.arrived) && DistinctCallbacks(g.arrived)
    && p <= g.frontier <= |g.arrived|
    && g.stored.offset <= g.mem.offset
    && (forall i :: 0 <= i < p ==> i in g.handled)
    && Settled(first, g.decisions, g.arrived, p, g.frontier)
    && MarkValid(first, g, g.mem) && MarkValid(first, g, g.stored)
    && StageValid(first, g)
  }

  // ----- The invariant: registrations -----

  ghost predicate KeysDistinct(w: World) {
    forall d, e :: d in w.policy && e in w.policy && d != e ==>
      CallbackCodec.DecisionKey(w.codec, d) != CallbackCodec.DecisionKey(w.codec, e)
  }

  // An authentic update names a registered decision that is still known, or is not open any more.
  ghost predicate ArrivalValid(w: World, a: Arrival) {
    match a.subject
    case None => Authentic(w.codec, a.update).None? && !a.safe
    case Some(subject) =>
      && Authentic(w.codec, a.update) == Some((CallbackCodec.DecisionKey(w.codec, subject.0), subject.1))
      && subject.0 in w.policy && a.safe == w.policy[subject.0]
      && (Known(w, subject.0) || NotOpen(w, subject.0))
  }

  ghost predicate RegistryValid(w: World) {
    && KeysDistinct(w)
    && (forall d :: d in w.mem.notifications ==> d in w.policy)
    && (forall d :: d in w.stored.notifications ==> d in w.policy)
    && (forall i :: 0 <= i < |w.arrived| ==> ArrivalValid(w, w.arrived[i]))
  }

  ghost predicate Valid(first: map<string, Decision>, w: World) {
    ProgressValid(first, ProgressOf(w)) && RegistryValid(w)
  }

  // ----- Registrations, files, crashes -----

  lemma RegistryStepsKeep(w: World, t: World)
    requires RegistryValid(w)
    requires t.codec == w.codec && t.arrived == w.arrived && t.decisions == w.decisions && t.policy == w.policy
    requires t.mem.notifications in {w.mem.notifications, w.stored.notifications}
    requires t.stored.notifications in {w.mem.notifications, w.stored.notifications}
    ensures RegistryValid(t)
  {
    hide Authentic;
    forall i | 0 <= i < |t.arrived| ensures ArrivalValid(t, t.arrived[i]) { assert ArrivalValid(w, w.arrived[i]); }
  }

  lemma PersistKeeps(first: map<string, Decision>, w: World, saved: bool)
    requires Valid(first, w)
    ensures Valid(first, Persist(w, saved))
  {
    hide Settled, Position, IdAt, Effect, RegistryValid, Increasing, DistinctCallbacks;
    RegistryStepsKeep(w, Persist(w, saved));
  }

  lemma CrashKeeps(first: map<string, Decision>, w: World)
    requires Valid(first, w)
    ensures Valid(first, Apply(w, Crash))
  {
    hide Settled, Position, IdAt, Effect, RegistryValid;
    RegistryStepsKeep(w, Apply(w, Crash));
    PositionMonotone(w.arrived, w.stored.offset, w.mem.offset);
    SettledEarlier(first, w.decisions, w.arrived, Position(w.arrived, w.mem.offset),
        Position(w.arrived, w.stored.offset), w.frontier);
  }

  lemma FailKeeps(first: map<string, Decision>, w: World)
    requires Valid(first, w)
    ensures Valid(first, Apply(w, Fail))
  {
    hide Settled, Position, IdAt, Effect, RegistryValid, MarkValid;
    RegistryStepsKeep(w, Apply(w, Fail));
    SameMarks(first, ProgressOf(w), ProgressOf(Apply(w, Fail)));
  }

  // Marks do not depend on the stage.
  lemma SameMarks(first: map<string, Decision>, g: Progress, h: Progress)
    requires g.frontier <= |g.arrived| && h == g.(stage := h.stage)
    requires MarkValid(first, g, g.mem) && MarkValid(first, g, g.stored)
    ensures MarkValid(first, h, h.mem) && MarkValid(first, h, h.stored)
  {
    hide Settled, Position, IdAt;
  }

  lemma PruneKeeps(first: map<string, Decision>, w: World, d: string, saved: bool)
    requires Valid(first, w)
    ensures Valid(first, Apply(w, Prune(d, saved)))
  {
    hide ProgressValid, RegistryValid, Persist;
    if NotOpen(w, d) {
      var t := w.(mem := w.mem.(notifications := w.mem.notifications - {d}));
      PruningKeepsRegistry(w, t, d);
      assert ProgressOf(t) == ProgressOf(w);
      PersistKeeps(first, t, saved);
    }
  }

  lemma PruningKeepsRegistry(w: World, t: World, d: string)
    requires RegistryValid(w) && NotOpen(w, d)
    requires t == w.(mem := w.mem.(notifications := w.mem.notifications - {d}))
    ensures RegistryValid(t)
  {
    hide Authentic, CallbackCodec.DecisionKey;
    forall i | 0 <= i < |t.arrived| ensures ArrivalValid(t, t.arrived[i]) { assert ArrivalValid(w, w.arrived[i]); }
  }

  lemma RegisterKeeps(first: map<string, Decision>, w: World, d: string, n: Notification, saved: bool)
    requires Valid(first, w)
    ensures Valid(first, Apply(w, Register(d, n, saved)))
  {
    if MayRegister(w, d) {
      var t := w.(mem := w.mem.(notifications := w.mem.notifications[d := n]), policy := w.policy[d := n.mobileSafe]);
      RegistrationKeepsRegistry(w, t, d, n);
      hide ProgressValid, RegistryValid;
      assert ProgressOf(t) == ProgressOf(w);
      PersistKeeps(first, t, saved);
    }
  }

  lemma RegistrationKeepsRegistry(w: World, t: World, d: string, n: Notification)
    requires RegistryValid(w) && MayRegister(w, d)
    requires t == w.(mem := w.mem.(notifications := w.mem.notifications[d := n]), policy := w.policy[d := n.mobileSafe])
    ensures RegistryValid(t)
  {
    hide Authentic;
    forall i | 0 <= i < |t.arrived| ensures ArrivalValid(t, t.arrived[i]) { assert ArrivalValid(w, w.arrived[i]); }
  }

  // ----- Arrival -----

  lemma SubjectIsNamed(w: World, u: Update)
    requires KeysDistinct(w)
    ensures var s := Subject(w, u);
            && (s.Some? ==> s.value.0 in w.policy
                            && Authentic(w.codec, u) == Some((CallbackCodec.DecisionKey(w.codec, s.value.0),
                                s.value.1)))
            && (Authentic(w.codec, u).None? ==> s.None?)
  {
    var auth := Authentic(w.codec, u);
    if auth.Some? {
      var named := set d | d in w.policy && CallbackCodec.DecisionKey(w.codec, d) == auth.value.0;
      if |named| == 1 {
        assert TheOnly(named) in named;
      }
    }
  }

  lemma ArriveKeeps(first: map<string, Decision>, w: World, u: Update)
    requires Valid(first, w)
    ensures Valid(first, Apply(w, Arrive(u)))
  {
    hide ProgressValid, RegistryValid, Subject, Authentic, NextId;
    if MayArrive(w, u) {
      var s := Subject(w, u);
      var a := Arrival(u, s, s.Some? && s.value.0 in w.policy && w.policy[s.value.0]);
      ArrivalKeepsRegistry(w, a);
      ProgressOnMore(first, ProgressOf(w), a);
    }
  }

  lemma ArrivalKeepsRegistry(w: World, a: Arrival)
    requires RegistryValid(w) && MayArrive(w, a.update) && a.subject == Subject(w, a.update)
    requires a.safe == (a.subject.Some? && a.subject.value.0 in w.policy && w.policy[a.subject.value.0])
    ensures RegistryValid(w.(arrived := w.arrived + [a]))
  {
    hide Authentic, Subject, CallbackCodec.DecisionKey, NextId;
    SubjectIsNamed(w, a.update);
    var t := w.(arrived := w.arrived + [a]);
    forall i | 0 <= i < |t.arrived| ensures ArrivalValid(t, t.arrived[i]) {
      if i < |w.arrived| { assert ArrivalValid(w, w.arrived[i]); }
    }
  }

  lemma ProgressOnMore(first: map<string, Decision>, g: Progress, a: Arrival)
    requires ProgressValid(first, g)
    requires a.update.updateId >= NextId(g.arrived)
    requires HasId(a.update) ==> forall i :: 0 <= i < |g.arrived| && HasId(g.arrived[i].update) ==>
               g.arrived[i].update.callback.value.id != a.update.callback.value.id
    ensures ProgressValid(first, g.(arrived := g.arrived + [a]))
  {
    var h := g.(arrived := g.arrived + [a]);
    var p := Position(g.arrived, g.mem.offset);
    PositionOnMore(g.arrived, a, g.mem.offset);
    PositionOnMore(g.arrived, a, g.stored.offset);
    SettledOnMore(first, g.decisions, g.arrived, a, p, g.frontier);
    hide Settled, Position, Effect, Increasing;
    MarkOnMore(first, g, a, g.mem);
    MarkOnMore(first, g, a, g.stored);
    StageOnMore(first, g, a);
  }

  lemma PastOnMore(first: map<string, Decision>, g: Progress, a: Arrival, p: nat)
    requires g.frontier <= |g.arrived| && Past(first, g, p)
    ensures Past(first, g.(arrived := g.arrived + [a]), p)
  {
    SettledOnMore(first, g.decisions, g.arrived, a, p + 1, g.frontier);
  }

  lemma MarkOnMore(first: map<string, Decision>, g: Progress, a: Arrival, m: Progression)
    requires g.frontier <= |g.arrived| && Increasing(g.arrived) && MarkValid(first, g, m)
    requires a.update.updateId >= NextId(g.arrived)
    requires HasId(a.update) ==> forall i :: 0 <= i < |g.arrived| && HasId(g.arrived[i].update) ==>
               g.arrived[i].update.callback.value.id != a.update.callback.value.id
    ensures MarkValid(first, g.(arrived := g.arrived + [a]), m)
  {
    var h := g.(arrived := g.arrived + [a]);
    var p := Position(g.arrived, m.offset);
    PositionOnMore(g.arrived, a, m.offset);
    hide Position, Past, Increasing;
    forall id | id in m.processed ensures exists i :: 0 <= i <= p && i < |h.arrived| && IdAt(h.arrived, i, id) {
      var i :| 0 <= i <= p && i < |g.arrived| && IdAt(g.arrived, i, id);
      assert IdAt(h.arrived, i, id);
    }
    if p < |g.arrived| {
      if HasId(g.arrived[p].update) && g.arrived[p].update.callback.value.id.value in m.processed {
        PastOnMore(first, g, a, p);
      }
    }
  }

  lemma StageOnMore(first: map<string, Decision>, g: Progress, a: Arrival)
    requires g.frontier <= |g.arrived| && Increasing(g.arrived) && StageValid(first, g)
    requires g.mem.offset <= NextId(g.arrived) && a.update.updateId >= NextId(g.arrived)
    ensures StageValid(first, g.(arrived := g.arrived + [a]))
  {
    PositionOnMore(g.arrived, a, g.mem.offset);
    var p := Position(g.arrived, g.mem.offset);
    hide Position, Settled, Increasing, Effect;
    if g.stage.Acted? { SettledOnMore(first, g.decisions, g.arrived, a, p + 1, g.frontier); }
    if g.stage.Returned? || (g.stage.Handling? && g.stage.verdict.Already?) { PastOnMore(first, g, a, p); }
  }

  // ----- Handling the first pending update -----

  lemma NotOpenIsNoEffect(decisions: map<string, Decision>, d: string, action: Action)
    requires d !in decisions || !decisions[d].status.Open?
    ensures Perform(decisions, d, action) == decisions
  {
  }

  // A registered and still known decision is the only match of its own key.
  lemma KnownIsOnlyMatch(w: World, d: string)
    requires RegistryValid(w) && Known(w, d)
    ensures Matches(w.codec, w.mem.notifications, CallbackCodec.DecisionKey(w.codec, d)) == {d}
  {
    hide CallbackCodec.DecisionKey, Authentic;
  }

  lemma OnlyOfSingleton(d: string)
    ensures TheOnly({d}) == d
  {
    assert TheOnly({d}) in {d};
  }

  // What a verdict says about the update it was passed on.
  lemma VerdictIsSound(w: World, a: Arrival)
    requires RegistryValid(w) && ArrivalValid(w, a)
    ensures var v := Judge(w.codec, a.update, w.mem, w.decisions);
            && (v.Ignored? ==> Effect(w.decisions, a) == w.decisions)
            && (v.Refused? ==> HasId(a.update) && Effect(w.decisions, a) == w.decisions)
            && (v.Acts? ==> HasId(a.update) && a.safe && a.subject == Some((v.decisionId, v.action)))
            && (v.Already? ==> HasId(a.update) && a.update.callback.value.id.value in w.mem.processed)
  {
    var v := Judge(w.codec, a.update, w.mem, w.decisions);
    if v.Refused? { RefusalIsSound(w, a); }
    if v.Acts? { ActionIsSound(w, a); }
  }

  lemma RefusalIsSound(w: World, a: Arrival)
    requires RegistryValid(w) && ArrivalValid(w, a)
    requires Judge(w.codec, a.update, w.mem, w.decisions).Refused?
    ensures Effect(w.decisions, a) == w.decisions
  {
    hide CallbackCodec.DecisionKey, Authentic, RegistryValid, Matches;
    if a.safe && a.subject.Some? {
      var (d, action) := a.subject.value;
      if NotOpen(w, d) {
        NotOpenIsNoEffect(w.decisions, d, action);
      } else {
        KnownIsOnlyMatch(w, d);
        OnlyOfSingleton(d);
      }
    }
  }

  lemma ActionIsSound(w: World, a: Arrival)
    requires RegistryValid(w) && ArrivalValid(w, a)
    requires Judge(w.codec, a.update, w.mem, w.decisions).Acts?
    ensures var v := Judge(w.codec, a.update, w.mem, w.decisions);
            a.safe && a.subject == Some((v.decisionId, v.action))
  {
    hide CallbackCodec.DecisionKey, Authentic;
    var v := Judge(w.codec, a.update, w.mem, w.decisions);
    var key := Authentic(w.codec, a.update).value.0;
    var matches := Matches(w.codec, w.mem.notifications, key);
    assert v.decisionId == TheOnly(matches) && TheOnly(matches) in matches;
    assert v.decisionId in w.policy && CallbackCodec.DecisionKey(w.codec, v.decisionId) == key;
  }

  lemma TakeKeeps(first: map<string, Decision>, w: World)
    requires Valid(first, w)
    ensures Valid(first, Apply(w, Take))
  {
    if w.stage.Idle? && Here(w) < |w.arrived| {
      var a, t := w.arrived[Here(w)], Apply(w, Take);
      VerdictIsSound(w, a);
      RegistryStepsKeep(w, t);
      hide Judge, RegistryValid, Settled, Position, Effect, IdAt, Increasing, DistinctCallbacks;
      SameMarks(first, ProgressOf(w), ProgressOf(t));
    }
  }

  // Once handling may go on after update p, the marks at or below p stay valid.
  lemma MarkAfterEffect(first: map<string, Decision>, g: Progress, h: Progress, m: Progression, p: nat)
    requires g.frontier <= |g.arrived| && MarkValid(first, g, m)
    requires h.arrived == g.arrived && g.handled <= h.handled && g.frontier <= h.frontier <= |h.arrived|
    requires Position(g.arrived, m.offset) <= p < h.frontier
    requires Settled(first, h.decisions, h.arrived, p + 1, h.frontier)
    ensures MarkValid(first, h, m)
  {
    hide Settled, Position, IdAt;
    var q := Position(g.arrived, m.offset);
    SettledEarlier(first, h.decisions, h.arrived, p + 1, q + 1, h.frontier);
  }

  // The action has been applied to update p: everything up to it has been handled at least once.
  lemma ActedProgress(first: map<string, Decision>, g: Progress, h: Progress, p: nat)
    requires ProgressValid(first, g) && p == Position(g.arrived, g.mem.offset) && p < |g.arrived|
    requires HasId(g.arrived[p].update)
    requires h == g.(decisions := Effect(g.decisions, g.arrived[p]), stage := Acted, frontier := Max(g.frontier, p + 1))
    ensures ProgressValid(first, h)
  {
    EffectSettles(first, g.decisions, g.arrived, p, g.frontier);
    PositionMonotone(g.arrived, g.stored.offset, g.mem.offset);
    hide Settled, Position, IdAt, Effect, Increasing, DistinctCallbacks, MarkValid;
    SettledEarlier(first, h.decisions, h.arrived, p + 1, p, h.frontier);
    MarkAfterEffect(first, g, h, g.mem, p);
    MarkAfterEffect(first, g, h, g.stored, p);
  }

  lemma ApplyActionKeeps(first: map<string, Decision>, w: World)
    requires Valid(first, w)
    ensures Valid(first, Apply(w, ApplyAction))
  {
    if w.stage.Handling? && w.stage.verdict.Acts? {
      var t, p := Apply(w, ApplyAction), Here(w);
      ActionKeepsRegistry(w, t);
      assert HasId(w.arrived[p].update) && t.decisions == Effect(w.decisions, w.arrived[p]) by {
        hide Settled, Position, IdAt, Perform, RegistryValid, Increasing, DistinctCallbacks, MarkValid;
      }
      hide ProgressValid, RegistryValid, Effect, Perform, Position;
      ActedProgress(first, ProgressOf(w), ProgressOf(t), p);
    }
  }

  lemma ActionKeepsRegistry(w: World, t: World)
    requires RegistryValid(w)
    requires w.stage.Handling? && w.stage.verdict.Acts? && t == Apply(w, ApplyAction)
    ensures RegistryValid(t)
  {
    PerformKeepsNature(w.decisions, w.stage.verdict.decisionId, w.stage.verdict.action);
    hide Perform, Authentic, CallbackCodec.DecisionKey;
    forall i | 0 <= i < |t.arrived| ensures ArrivalValid(t, t.arrived[i]) { assert ArrivalValid(w, w.arrived[i]); }
  }

  // A handler ran to its end: update p is handled, and its id may have been marked processed.
  lemma ReturnedProgress(first: map<string, Decision>, g: Progress, h: Progress, p: nat)
    requires ProgressValid(first, g) && p == Position(g.arrived, g.mem.offset) && p < |g.arrived|
    requires h == g.(stage := Returned, frontier := Max(g.frontier, p + 1), handled := g.handled + {p}, mem := h.mem)
    requires Settled(first, h.decisions, h.arrived, p + 1, h.frontier)
    requires h.mem == g.mem
             || (HasId(g.arrived[p].update)
                 && h.mem == Reached(g.mem.offset,
                                     LastOf(g.mem.processed + [g.arrived[p].update.callback.value.id.value],
                                            MAX_PROCESSED_CALLBACKS)))
    ensures ProgressValid(first, h)
  {
    PositionMonotone(g.arrived, g.stored.offset, g.mem.offset);
    hide Settled, Position, Effect, Increasing, DistinctCallbacks, MarkValid, LastOf;
    SettledEarlier(first, h.decisions, h.arrived, p + 1, p, h.frontier);
    MarkAfterEffect(first, g, h, g.mem, p);
    MarkAfterEffect(first, g, h, g.stored, p);
    if h.mem != g.mem {
      MarkedStateValid(first, h, g.mem, g.arrived[p].update.callback.value.id.value, p);
    }
  }

  lemma FinishKeeps(first: map<string, Decision>, w: World)
    requires Valid(first, w)
    ensures Valid(first, Apply(w, Finish))
  {
    hide ProgressValid, RegistryValid, Settled, Position, LastOf, Apply, MarkValid;
    var t := Apply(w, Finish);
    if t != w {
      FinishSettles(first, w);
      RegistryStepsKeep(w, t);
      ReturnedProgress(first, ProgressOf(w), ProgressOf(t), Here(w));
    }
  }

  lemma FinishSettles(first: map<string, Decision>, w: World)
    requires Valid(first, w) && Apply(w, Finish) != w
    ensures var t := Apply(w, Finish);
            && t == w.(stage := Returned, frontier := Max(w.frontier, Here(w) + 1), handled := w.handled + {Here(w)},
                mem := t.mem)
            && Here(w) < |w.arrived|
            && Settled(first, t.decisions, t.arrived, Here(w) + 1, t.frontier)
            && (t.mem == w.mem
                || (HasId(w.arrived[Here(w)].update)
                    && t.mem == Mark(w.mem, w.arrived[Here(w)].update.callback.value.id.value)))
  {
    var p := Here(w);
    hide Settled, Position, IdAt, RegistryValid, Increasing, DistinctCallbacks, MarkValid;
    if w.stage.Handling? && !w.stage.verdict.Already? {
      EffectSettles(first, w.decisions, w.arrived, p, w.frontier);
    }
  }

  lemma MarkedStateValid(first: map<string, Decision>, h: Progress, m: Progression, id: string, p: nat)
    requires h.frontier <= |h.arrived| && MarkValid(first, h, m)
    requires p == Position(h.arrived, m.offset) && p < |h.arrived| && IdAt(h.arrived, p, id) && Past(first, h, p)
    ensures MarkValid(first, h, m.(processed := LastOf(m.processed + [id], MAX_PROCESSED_CALLBACKS)))
  {
    hide Past, Position;
    var longer := LastOf(m.processed + [id], MAX_PROCESSED_CALLBACKS);
    forall x | x in longer ensures exists i :: 0 <= i <= p && i < |h.arrived| && IdAt(h.arrived, i, x) {
      assert x in m.processed || x == id;
    }
  }

  // The offset moves past update p.
  lemma AdvancedProgress(first: map<string, Decision>, g: Progress, h: Progress, p: nat)
    requires ProgressValid(first, g) && g.stage.Returned? && p == Position(g.arrived, g.mem.offset) && p < |g.arrived|
    requires h == g.(mem := Reached(Max(g.mem.offset, g.arrived[p].update.updateId + 1), g.mem.processed),
        stage := Idle)
    ensures ProgressValid(first, h)
  {
    hide Settled, IdAt, Increasing, Position, MarkValid, DistinctCallbacks, NextId;
    PositionAdvances(g.arrived, g.mem.offset);
    MarkMovesOn(first, g, h, p);
    StoredMark(first, g, h);
  }

  lemma AdvanceKeeps(first: map<string, Decision>, w: World, saved: bool)
    requires Valid(first, w)
    ensures Valid(first, Apply(w, Advance(saved)))
  {
    hide ProgressValid, RegistryValid, Position;
    if w.stage.Returned? && Here(w) < |w.arrived| {
      var p := Here(w);
      var t := w.(mem := w.mem.(offset := Max(w.mem.offset, w.arrived[p].update.updateId + 1)), stage := Idle);
      AdvancedProgress(first, ProgressOf(w), ProgressOf(t), p);
      RegistryStepsKeep(w, t);
      PersistKeeps(first, t, saved);
    }
  }

  lemma StoredMark(first: map<string, Decision>, g: Progress, h: Progress)
    requires g.frontier <= |g.arrived| && MarkValid(first, g, g.stored)
    requires h == g.(mem := h.mem, stage := h.stage)
    ensures MarkValid(first, h, h.stored)
  {
    hide Settled, IdAt, Position;
  }

  // The update after p has not been processed yet: its id differs from every earlier one.
  lemma MarkMovesOn(first: map<string, Decision>, g: Progress, h: Progress, p: nat)
    requires g.frontier <= |g.arrived| && MarkValid(first, g, g.mem) && DistinctCallbacks(g.arrived)
    requires h == g.(mem := h.mem, stage := h.stage) && h.mem.processed == g.mem.processed
    requires p == Position(g.arrived, g.mem.offset) && Position(h.arrived, h.mem.offset) == p + 1
    requires h.mem.offset <= NextId(h.arrived)
    ensures MarkValid(first, h, h.mem)
  {
    hide Past, Position;
    var q := p + 1;
    forall id | id in h.mem.processed ensures exists i :: 0 <= i <= q && i < |h.arrived| && IdAt(h.arrived, i, id) {
      var i :| 0 <= i <= p && i < |g.arrived| && IdAt(g.arrived, i, id);
      assert IdAt(h.arrived, i, id);
    }
    if q < |h.arrived| && HasId(h.arrived[q].update) {
      forall i | 0 <= i <= p ensures !IdAt(g.arrived, i, h.arrived[q].update.callback.value.id.value) { }
    }
  }

  lemma StepKeepsValid(first: map<string, Decision>, w: World, step: Step)
    requires Valid(first, w)
    ensures Valid(first, Apply(w, step))
  {
    hide Valid, Apply;
    match step
    case Arrive(u) => ArriveKeeps(first, w, u);
    case Register(d, n, saved) => RegisterKeeps(first, w, d, n, saved);
    case Prune(d, saved) => PruneKeeps(first, w, d, saved);
    case Save => SaveKeeps(first, w);
    case Take => TakeKeeps(first, w);
    case ApplyAction => ApplyActionKeeps(first, w);
    case Finish => FinishKeeps(first, w);
    case Advance(saved) => AdvanceKeeps(first, w, saved);
    case Fail => FailKeeps(first, w);
    case Crash => CrashKeeps(first, w);
  }

  lemma SaveKeeps(first: map<string, Decision>, w: World)
    requires Valid(first, w)
    ensures Valid(first, Apply(w, Save))
  {
    hide Valid, Persist;
    PersistKeeps(first, w, true);
  }

  lemma {:induction false} RunsStayValid(codec: CallbackCodec.Codec, first: map<string, Decision>, steps: seq<Step>)
    ensures Valid(first, Run(Start(codec, first), steps))
  {
    if steps != [] {
      hide Valid, Apply;
      RunsStayValid(codec, first, steps[..|steps| - 1]);
      StepKeepsValid(first, Run(Start(codec, first), steps[..|steps| - 1]), steps[|steps| - 1]);
    }
  }

  // For every sequence of updates and every placement of crashes, failed calls, lost writes and
  // restarts: no update below the stored offset is unhandled; a decision closed by the updates handled
  // so far is exactly as the crash-free run has it; and once every update is consumed, every decision
  // is.
  lemma DeliveryIsCrashSafe(codec: CallbackCodec.Codec, first: map<string, Decision>, steps: seq<Step>)
    ensures var w := Run(Start(codec, first), steps);
            && (forall i :: 0 <= i < |w.arrived| && w.arrived[i].update.updateId < w.stored.offset ==> i in w.handled)
            && w.frontier <= |w.arrived|
            && (forall d :: d in first ==>
                  && d in w.decisions && d in CrashFree(first, w.arrived[..w.frontier])
                  && (!CrashFree(first, w.arrived[..w.frontier])[d].status.Open? ==>
                        w.decisions[d] == CrashFree(first, w.arrived[..w.frontier])[d]))
            && (w.mem.offset >= NextId(w.arrived) ==> w.decisions == CrashFree(first, w.arrived))
  {
    RunsStayValid(codec, first, steps);
    hide Run, RegistryValid, CrashFree, StageValid;
    var w := Run(Start(codec, first), steps);
    PositionSplits(w.arrived, w.stored.offset);
    PositionSplits(w.arrived, w.mem.offset);
    if w.mem.offset >= NextId(w.arrived) {
      assert Here(w) == |w.arrived|;
      SettledAtFrontier(first, w.decisions, w.arrived, |w.arrived|);
      assert w.arrived[..|w.arrived|] == w.arrived;
    }
  }

  // A decision is different from its start only if the owner pressed, in the owner's private chat, a
  // button that decodes to its key, and that press was safe and would be accepted.
  lemma OnlyTheOwnerChangesDecisions(codec: CallbackCodec.Codec, first: map<string, Decision>, steps: seq<Step>,
                                     d: string)
    requires d in first
    ensures var w := Run(Start(codec, first), steps);
            && d in w.decisions
            && (w.decisions[d] != first[d] ==>
                  exists i, action :: 0 <= i < |w.arrived|
                    && PressedByOwner(codec, w.arrived[i].update, CallbackCodec.DecisionKey(codec, d), action)
                    && d in w.policy && w.policy[d] && Works(first[d], action))
  {
    var w := Run(Start(codec, first), steps);
    RunsStayValid(codec, first, steps);
    SameCodec(codec, first, steps);
    hide Run, CrashFree, Works, CallbackCodec.DecisionKey, Authentic, PressedByOwner;
    var from := Position(w.arrived, w.mem.offset);
    if !Touched(first, w.arrived, d, 0, w.frontier) {
      UntouchedUnchanged(first, w.arrived, d, 0, w.frontier);
      NothingArrived(first, w.arrived);
      assert !Touched(first, w.arrived, d, from, w.frontier);
    } else {
      var i :| 0 <= i < w.frontier && ActsOn(w.arrived[i], d) && Works(first[d], w.arrived[i].subject.value.1);
      assert ArrivalValid(w, w.arrived[i]);
      AuthenticIsOwner(codec, w.arrived[i].update, CallbackCodec.DecisionKey(codec, d), w.arrived[i].subject.value.1);
    }
  }

  lemma NothingArrived(first: map<string, Decision>, arrived: seq<Arrival>)
    ensures CrashFree(first, arrived[..0]) == first
  {
  }

  lemma {:induction false} SameCodec(codec: CallbackCodec.Codec, first: map<string, Decision>, steps: seq<Step>)
    ensures Run(Start(codec, first), steps).codec == codec
  {
    if steps != [] {
      hide Apply;
      SameCodec(codec, first, steps[..|steps| - 1]);
      StepKeepsCodec(Run(Start(codec, first), steps[..|steps| - 1]), steps[|steps| - 1]);
    }
  }

  lemma StepKeepsCodec(w: World, step: Step)
    ensures Apply(w, step).codec == w.codec
  {
    hide Judge, Subject, MayArrive, MayRegister, NotOpen, Position, Perform, Mark;
  }

  // Two histories with the same updates, however differently they crash, fail, save and restart, end
  // in the same decisions once both have consumed them all.
  lemma FaultsLeaveNoTrace(codec: CallbackCodec.Codec, first: map<string, Decision>, smooth: seq<Step>,
                           rough: seq<Step>)
    ensures var a, b := Run(Start(codec, first), smooth), Run(Start(codec, first), rough);
            a.arrived == b.arrived && a.mem.offset >= NextId(a.arrived) && b.mem.offset >= NextId(b.arrived) ==>
                a.decisions == b.decisions
  {
    hide Run, CrashFree, NextId;
    DeliveryIsCrashSafe(codec, first, smooth);
    DeliveryIsCrashSafe(codec, first, rough);
  }

  // ----- Nothing stays unhandled -----

  lemma OneMoreStep(codec: CallbackCodec.Codec, first: map<string, Decision>, steps: seq<Step>, step: Step)
    returns (longer: seq<Step>, t: World)
    ensures longer == steps + [step]
    ensures t == Apply(Run(Start(codec, first), steps), step) == Run(Start(codec, first), longer)
    ensures Valid(first, t)
  {
    hide Apply, Valid;
    longer, t := steps + [step], Apply(Run(Start(codec, first), steps), step);
    assert longer[..|steps|] == steps;
    RunsStayValid(codec, first, longer);
  }

  // Between two updates, at position p of the same arrivals.
  ghost predicate ReadyAt(w: World, arrived: seq<Arrival>, p: nat) {
    w.stage.Idle? && w.arrived == arrived && Here(w) == p
  }

  // One update is taken, acted on if that is its verdict, finished and passed.
  lemma HandleNext(codec: CallbackCodec.Codec, first: map<string, Decision>, steps: seq<Step>, arrived: seq<Arrival>,
                   p: nat)
    returns (longer: seq<Step>)
    requires ReadyAt(Run(Start(codec, first), steps), arrived, p) && p < |arrived|
    ensures steps <= longer && ReadyAt(Run(Start(codec, first), longer), arrived, p + 1)
  {
    hide Run, Valid, Apply, Position, Increasing;
    var w, t := Run(Start(codec, first), steps), Run(Start(codec, first), steps);
    longer, t := OneMoreStep(codec, first, steps, Take);
    TakeStep(w);
    TakenStage(first, t);
    if t.stage.verdict.Acts? {
      ActionStep(t);
      longer, t := OneMoreStep(codec, first, longer, ApplyAction);
    }
    FinishStep(t);
    longer, t := OneMoreStep(codec, first, longer, Finish);
    ValidIncreases(first, t);
    AdvanceStep(t);
    longer, t := OneMoreStep(codec, first, longer, Advance(true));
  }

  // What moves along while one update is handled.
  ghost predicate SameBacklog(w: World, t: World) {
    t.arrived == w.arrived && t.mem.offset == w.mem.offset
  }

  lemma TakeStep(w: World)
    requires w.stage.Idle? && Here(w) < |w.arrived|
    ensures SameBacklog(w, Apply(w, Take)) && Apply(w, Take).stage.Handling?
  {
    hide Position, Judge;
  }

  lemma ActionStep(w: World)
    requires w.stage.Handling? && w.stage.verdict.Acts?
    ensures SameBacklog(w, Apply(w, ApplyAction)) && Apply(w, ApplyAction).stage.Acted?
  {
    hide Position, Perform;
  }

  lemma FinishStep(w: World)
    requires Here(w) < |w.arrived| && (w.stage.Acted? || (w.stage.Handling? && !w.stage.verdict.Acts?))
    requires w.stage.Acted? || w.stage.verdict.Refused? ==> HasId(w.arrived[Here(w)].update)
    ensures SameBacklog(w, Apply(w, Finish)) && Apply(w, Finish).stage.Returned?
  {
    hide Position, LastOf;
  }

  lemma AdvanceStep(w: World)
    requires Increasing(w.arrived) && w.stage.Returned? && Here(w) < |w.arrived|
    ensures ReadyAt(Apply(w, Advance(true)), w.arrived, Here(w) + 1)
  {
    hide Position, Increasing;
    PositionAdvances(w.arrived, w.mem.offset);
  }

  lemma ValidIncreases(first: map<string, Decision>, w: World)
    requires Valid(first, w)
    ensures Increasing(w.arrived)
  {
    hide Settled, MarkValid, StageValid, RegistryValid, Position;
  }

  lemma TakenStage(first: map<string, Decision>, w: World)
    requires Valid(first, w) && w.stage.Handling? && Here(w) < |w.arrived|
    ensures w.stage.verdict.Acts? || w.stage.verdict.Refused? ==> HasId(w.arrived[Here(w)].update)
  {
    hide Settled, MarkValid, RegistryValid, Position, Effect;
  }

  lemma {:induction false} HandleAll(codec: CallbackCodec.Codec, first: map<string, Decision>, steps: seq<Step>,
                                     arrived: seq<Arrival>, p: nat)
    returns (longer: seq<Step>)
    requires ReadyAt(Run(Start(codec, first), steps), arrived, p) && p <= |arrived|
    ensures steps <= longer && ReadyAt(Run(Start(codec, first), longer), arrived, |arrived|)
    decreases |arrived| - p
  {
    hide Run, ReadyAt;
    longer := steps;
    if p < |arrived| {
      longer := HandleNext(codec, first, longer, arrived, p);
      longer := HandleAll(codec, first, longer, arrived, p + 1);
    }
  }

  // From every reachable state, in the middle of whatever handler: the backlog can be worked off, and
  // then the file and the memory agree on the offset and every decision is as the crash-free run has it.
  lemma BacklogCanBeHandled(codec: CallbackCodec.Codec, first: map<string, Decision>, steps: seq<Step>)
    returns (longer: seq<Step>)
    ensures steps <= longer
    ensures var w, t := Run(Start(codec, first), steps), Run(Start(codec, first), longer);
            && t.arrived == w.arrived && t.stored == t.mem && t.mem.offset >= NextId(t.arrived)
            && t.decisions == CrashFree(first, w.arrived)
  {
    hide Run, Valid, CrashFree, Position, NextId;
    var w, t := Run(Start(codec, first), steps), Run(Start(codec, first), steps);
    longer, t := OneMoreStep(codec, first, steps, Fail);
    longer := HandleAll(codec, first, longer, w.arrived, Here(t));
    longer, t := OneMoreStep(codec, first, longer, Save);
    PassedAll(first, t);
    DeliveryIsCrashSafe(codec, first, longer);
  }

  lemma PassedAll(first: map<string, Decision>, w: World)
    requires Here(w) == |w.arrived|
    ensures w.mem.offset >= NextId(w.arrived)
  {
  }

  // A press of the owner on a button that was registered, in memory and in the file, as safe for mobile
  // takes effect after everything that came before it, through whatever was going on.
  lemma OwnerPressTakesEffect(codec: CallbackCodec.Codec, first: map<string, Decision>, steps: seq<Step>, u: Update,
                              d: string, action: Action)
    returns (longer: seq<Step>)
    requires PressedByOwner(codec, u, CallbackCodec.DecisionKey(codec, d), action)
    requires var w := Run(Start(codec, first), steps);
             && Known(w, d) && w.policy[d] && u.updateId >= NextId(w.arrived)
             && forall i :: 0 <= i < |w.arrived| && HasId(w.arrived[i].update) ==>
                  w.arrived[i].update.callback.value.id != u.callback.value.id
    ensures steps + [Arrive(u)] <= longer
    ensures var w, t := Run(Start(codec, first), steps), Run(Start(codec, first), longer);
            t.mem.offset > u.updateId && t.decisions == Perform(CrashFree(first, w.arrived), d, action)
  {
    var w := Run(Start(codec, first), steps);
    SameCodec(codec, first, steps);
    RunsStayValid(codec, first, steps);
    PressIsTaken(first, w, u, d, action);
    hide Run, Apply, Known, PressedByOwner, Perform, CrashFree, CallbackCodec.DecisionKey;
    var t;
    longer, t := OneMoreStep(codec, first, steps, Arrive(u));
    LastEffect(first, w.arrived, t.arrived, u, d, action);
    longer := BacklogCanBeHandled(codec, first, longer);
  }

  lemma PressIsTaken(first: map<string, Decision>, w: World, u: Update, d: string, action: Action)
    requires Valid(first, w) && PressedByOwner(w.codec, u, CallbackCodec.DecisionKey(w.codec, d), action)
    requires Known(w, d) && w.policy[d] && u.updateId >= NextId(w.arrived)
    requires forall i :: 0 <= i < |w.arrived| && HasId(w.arrived[i].update) ==>
               w.arrived[i].update.callback.value.id != u.callback.value.id
    ensures Apply(w, Arrive(u)).arrived == w.arrived + [Arrival(u, Some((d, action)), true)]
  {
    hide ProgressValid, Authentic, CallbackCodec.DecisionKey, CallbackCodec.Decode;
    AuthenticIsOwner(w.codec, u, CallbackCodec.DecisionKey(w.codec, d), action);
    OwnerHasId(w.codec, u, CallbackCodec.DecisionKey(w.codec, d), action);
    hide PressedByOwner;
    var key := CallbackCodec.DecisionKey(w.codec, d);
    var named := set e | e in w.policy && CallbackCodec.DecisionKey(w.codec, e) == key;
    assert named == {d};
    OnlyOfSingleton(d);
  }

  lemma LastEffect(first: map<string, Decision>, before: seq<Arrival>, after: seq<Arrival>, u: Update, d: string,
                   action: Action)
    requires after == before + [Arrival(u, Some((d, action)), true)]
    ensures CrashFree(first, after) == Perform(CrashFree(first, before), d, action)
    ensures NextId(after) == u.updateId + 1
  {
    assert after[..|before|] == before;
  }

  // A crash forgets exactly what was not written: a registration or a removal that failed to be saved
  // is gone, a saved one and everything saved with it stays.
  lemma CrashForgetsUnsaved(w: World, d: string, n: Notification, saved: bool)
    ensures Apply(w, Crash) == w.(mem := w.stored, stage := Idle)
    ensures Apply(Apply(w, Save), Crash) == w.(stored := w.mem, stage := Idle)
    ensures MayRegister(w, d) ==>
              var t := Apply(w, Register(d, n, saved));
              && t.mem.notifications == w.mem.notifications[d := n] && t.policy == w.policy[d := n.mobileSafe]
              && Apply(t, Crash).mem == if saved then t.mem else w.stored
    ensures NotOpen(w, d) ==>
              var t := Apply(w, Prune(d, saved));
              && t.mem.notifications == w.mem.notifications - {d} && t.policy == w.policy
              && Apply(t, Crash).mem == if saved then t.mem else w.stored
  {
    hide MayRegister, NotOpen;
  }
}
