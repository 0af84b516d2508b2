// Redis leases: SET NX EX to acquire, WATCH / GET / MULTI DEL EXEC to release.
//
// The server is a map of keys with expiry times. A key past its time is invisible to every command.
// EXEC aborts when the watched key was written since WATCH; whether a mere expiry also aborts it
// differs between server versions, so both are allowed.
module Leases {
  import opened Common

  // A stored lease value. `grant` numbers the acquisition that wrote it.
  datatype Key = Key(value: string, expiresAt: int, grant: nat)

  datatype Server = Server(keys: map<string, Key>, writes: map<string, nat>, now: int)

  function Writes(s: Server, resource: string): nat {
    if resource in s.writes then s.writes[resource] else 0
  }

  predicate Visible(s: Server, resource: string) {
    resource in s.keys && s.now < s.keys[resource].expiresAt
  }

  // GET
  function Value(s: Server, resource: string): Option<string> {
    if Visible(s, resource) then Some(s.keys[resource].value) else None
  }

  // SET resource value NX EX ttl, on a free key
  function SetKey(s: Server, resource: string, value: string, ttl: int, grant: nat): Server {
    s.(keys := s.keys[resource := Key(value, s.now + ttl, grant)],
        writes := s.writes[resource := Writes(s, resource) + 1])
  }

  // DEL
  function DeleteKey(s: Server, resource: string): Server {
    s.(keys := s.keys - {resource}, writes := s.writes[resource := Writes(s, resource) + 1])
  }

  // ----- The concurrent system -----

  // One successful acquisition.
  datatype Grant = Grant(resource: string, owner: string, expiresAt: int, released: bool)

  datatype Phase =
    | Start
    | Watching(version: nat)
    | Owned(version: nat)       // GET returned the caller's value
    | ReturnedFalse
    | ReturnedTrue

  datatype Release = Release(resource: string, owner: string, phase: Phase)

  datatype System = System(server: Server, grants: seq<Grant>, calls: seq<Release>)

  datatype Step =
    | Acquire(resource: string, owner: string, ttl: int)
    | BeginRelease(resource: string, owner: string)
    | Watch(call: nat)
    | Get(call: nat)
    | Exec(call: nat, expiryAborts: bool)
    | Tick(elapsed: nat)

  const INITIAL := System(Server(map[], map[], 0), [], [])

  function SetPhase(s: System, call: nat, phase: Phase): System
    requires call < |s.calls|
  {
    s.(calls := s.calls[call := s.calls[call].(phase := phase)])
  }

  // `acquire_lease` succeeds exactly in this case; a non-positive ttl is an error of the server.
  predicate Acquirable(s: Server, resource: string, ttl: int) {
    ttl > 0 && !Visible(s, resource)
  }

  function ExecDelete(s: System, call: nat, expiryAborts: bool): System
    requires call < |s.calls| && s.calls[call].phase.Owned?
  {
    var resource := s.calls[call].resource;
    if s.calls[call].phase.version != Writes(s.server, resource) then SetPhase(s, call, Start)
    else if !Visible(s.server, resource) then SetPhase(s, call, if expiryAborts then Start else ReturnedFalse)
    else
      var g := s.server.keys[resource].grant;
      var marked := if g < |s.grants| then s.grants[g := s.grants[g].(released := true)] else s.grants;
      SetPhase(s, call, ReturnedTrue).(server := DeleteKey(s.server, resource), grants := marked)
  }

  // A step that does not fit the state changes nothing.
  function Apply(s: System, step: Step): System {
    match step
    case Acquire(resource, owner, ttl) =>
      if Acquirable(s.server, resource, ttl) then
        s.(server := SetKey(s.server, resource, owner, ttl, |s.grants|),
           grants := s.grants + [Grant(resource, owner, s.server.now + ttl, false)])
      else s
    case BeginRelease(resource, owner) => s.(calls := s.calls + [Release(resource, owner, Start)])
    case Watch(call) =>
      if call < |s.calls| && s.calls[call].phase.Start? then
        SetPhase(s, call, Watching(Writes(s.server, s.calls[call].resource)))
      else s
    case Get(call) =>
      if call < |s.calls| && s.calls[call].phase.Watching? then
        if Value(s.server, s.calls[call].resource) == Some(s.calls[call].owner) then
          SetPhase(s, call, Owned(s.calls[call].phase.version))
        else SetPhase(s, call, ReturnedFalse)
      else s
    case Exec(call, expiryAborts) =>
      if call < |s.calls| && s.calls[call].phase.Owned? then ExecDelete(s, call, expiryAborts) else s
    case Tick(elapsed) => s.(server := s.server.(now := s.server.now + elapsed))
  }

  function Run(s: System, steps: seq<Step>): System {
    if steps == [] then s else Apply(Run(s, steps[..|steps| - 1]), steps[|steps| - 1])
  }

  // An acquired lease that has neither expired nor been released.
  ghost predicate Live(s: System, g: nat)
    requires g < |s.grants|
  {
    !s.grants[g].released && s.server.now < s.grants[g].expiresAt
  }

  // The key of a live grant is its own; a key belongs to an unreleased grant with its value and time.
  ghost predicate GrantsMatchKeys(s: System) {
    && (forall g: nat :: g < |s.grants| && Live(s, g) ==>
          s.grants[g].resource in s.server.keys && s.server.keys[s.grants[g].resource].grant == g)
    && (forall r :: r in s.server.keys ==>
          var key := s.server.keys[r];
          key.grant < |s.grants| && s.grants[key.grant] == Grant(r, key.value, key.expiresAt, false))
  }

  // A call that saw its own value still faces it, unless the key was written since its WATCH.
  ghost predicate CallValid(s: System, call: nat)
    requires call < |s.calls|
  {
    var c := s.calls[call];
    match c.phase
    case Watching(version) => version <= Writes(s.server, c.resource)
    case Owned(version) =>
      && version <= Writes(s.server, c.resource)
      && (version == Writes(s.server, c.resource) ==>
          c.resource in s.server.keys && s.server.keys[c.resource].value == c.owner)
    case _ => true
  }

  ghost predicate Valid(s: System) {
    GrantsMatchKeys(s) && forall call :: 0 <= call < |s.calls| ==> CallValid(s, call)
  }

  lemma StepKeepsValid(s: System, step: Step)
    requires Valid(s)
    ensures Valid(Apply(s, step))
  {
    match step
    case Exec(call, expiryAborts) =>
      if call < |s.calls| && s.calls[call].phase.Owned? { ExecKeepsValid(s, call, expiryAborts); }
    case _ =>
      hide GrantsMatchKeys, CallValid, Apply;
      QuietStepKeepsGrants(s, step);
      forall k | 0 <= k < |Apply(s, step).calls| ensures CallValid(Apply(s, step), k) {
        QuietStepKeepsCall(s, step, k);
      }
  }

  lemma QuietStepKeepsGrants(s: System, step: Step)
    requires GrantsMatchKeys(s) && !step.Exec?
    ensures GrantsMatchKeys(Apply(s, step))
  {
    if step.Acquire? {
      AcquireKeepsGrants(s, step.resource, step.owner, step.ttl);
    } else if step.Tick? {
      hide Visible;
    } else {
      assert Apply(s, step) == s.(calls := Apply(s, step).calls);
    }
  }

  lemma AcquireKeepsGrants(s: System, resource: string, owner: string, ttl: int)
    requires GrantsMatchKeys(s)
    ensures GrantsMatchKeys(Apply(s, Acquire(resource, owner, ttl)))
  {
    var t := Apply(s, Acquire(resource, owner, ttl));
    forall g: nat | g < |t.grants| && Live(t, g)
      ensures t.grants[g].resource in t.server.keys && t.server.keys[t.grants[g].resource].grant == g
    {
      if g < |s.grants| { assert Live(s, g); }
    }
  }

  lemma QuietStepKeepsCall(s: System, step: Step, k: nat)
    requires Valid(s) && !step.Exec?
    ensures k < |Apply(s, step).calls| ==> CallValid(Apply(s, step), k)
  {
    hide GrantsMatchKeys;
    if k < |s.calls| { assert CallValid(s, k); }
  }

  lemma ExecKeepsValid(s: System, call: nat, expiryAborts: bool)
    requires Valid(s) && call < |s.calls| && s.calls[call].phase.Owned?
    ensures Valid(ExecDelete(s, call, expiryAborts))
  {
    hide GrantsMatchKeys, CallValid, ExecDelete;
    ExecKeepsGrants(s, call, expiryAborts);
    var t := ExecDelete(s, call, expiryAborts);
    forall k | 0 <= k < |t.calls| ensures CallValid(t, k) { ExecKeepsCall(s, call, expiryAborts, k); }
  }

  lemma ExecKeepsCall(s: System, call: nat, expiryAborts: bool, k: nat)
    requires Valid(s) && call < |s.calls| && s.calls[call].phase.Owned?
    ensures k < |ExecDelete(s, call, expiryAborts).calls| ==> CallValid(ExecDelete(s, call, expiryAborts), k)
  {
    hide GrantsMatchKeys;
    if k < |s.calls| { assert CallValid(s, k); }
  }

  lemma ExecKeepsGrants(s: System, call: nat, expiryAborts: bool)
    requires GrantsMatchKeys(s) && call < |s.calls| && s.calls[call].phase.Owned?
    ensures GrantsMatchKeys(ExecDelete(s, call, expiryAborts))
  {
    var t := ExecDelete(s, call, expiryAborts);
    forall g: nat | g < |t.grants| && Live(t, g)
      ensures t.grants[g].resource in t.server.keys && t.server.keys[t.grants[g].resource].grant == g
    {
      assert Live(s, g);
    }
  }

  lemma {:induction false} RunsStayValid(steps: seq<Step>)
    ensures Valid(Run(INITIAL, steps))
  {
    if steps != [] {
      RunsStayValid(steps[..|steps| - 1]);
      StepKeepsValid(Run(INITIAL, steps[..|steps| - 1]), steps[|steps| - 1]);
    }
  }

  // Under every interleaving of acquires, releases and the passing of time: one live lease per
  // resource at most, and a visible key is exactly the live lease of its resource.
  lemma AtMostOneLiveLease(steps: seq<Step>, g: nat, h: nat)
    requires g < |Run(INITIAL, steps).grants| && h < |Run(INITIAL, steps).grants|
    ensures var s := Run(INITIAL, steps);
            && (Live(s, g) && Live(s, h) && s.grants[g].resource == s.grants[h].resource ==> g == h)
            && (Live(s, g) <==>
                Visible(s.server, s.grants[g].resource) && s.server.keys[s.grants[g].resource].grant == g)
            && (Live(s, g) ==> Value(s.server, s.grants[g].resource) == Some(s.grants[g].owner))
  {
    RunsStayValid(steps);
  }

  // An acquire succeeds exactly when its ttl is positive and no live lease of the resource exists; the
  // new lease is then the caller's and lives for exactly its ttl, and a refusal changes nothing.
  lemma AcquireExactlyWhenFree(steps: seq<Step>, resource: string, owner: string, ttl: int, elapsed: nat)
    ensures var s := Run(INITIAL, steps);
            var s', n := Apply(s, Acquire(resource, owner, ttl)), |s.grants|;
            var later := Apply(s', Tick(elapsed));
            var free := !(exists g: nat :: g < n && s.grants[g].resource == resource && Live(s, g));
            && (|s'.grants| == n + 1 <==> ttl > 0 && free)
            && (s'.grants != s.grants ==>
                  && s'.grants == s.grants + [Grant(resource, owner, s.server.now + ttl, false)]
                  && Value(s'.server, resource) == Some(owner)
                  && |later.grants| == n + 1
                  && (Live(later, n) <==> elapsed < ttl) && (Visible(later.server, resource) <==> elapsed < ttl))
            && (s'.grants == s.grants ==> s' == s)
  {
    RunsStayValid(steps);
    var s := Run(INITIAL, steps);
    if Visible(s.server, resource) {
      assert Live(s, s.server.keys[resource].grant);
    }
  }

  // `release_lease` returns True exactly at an EXEC that deletes a lease holding the caller's value
  // at that moment; the deleted lease is the only grant it ends.
  lemma ReleaseTrueEndsOwnLease(steps: seq<Step>, call: nat, expiryAborts: bool)
    requires call < |Run(INITIAL, steps).calls| && Run(INITIAL, steps).calls[call].phase.Owned?
    ensures var s := Run(INITIAL, steps);
            var s' := Apply(s, Exec(call, expiryAborts));
            var resource, owner := s.calls[call].resource, s.calls[call].owner;
            && (s'.calls[call].phase.ReturnedTrue? <==>
                  Visible(s.server, resource) && s.calls[call].phase.version == Writes(s.server, resource))
            && (s'.calls[call].phase.ReturnedTrue? ==>
                  && Value(s.server, resource) == Some(owner)
                  && !Visible(s'.server, resource)
                  && (forall g: nat :: g < |s.grants| ==>
                        (Live(s', g) <==> Live(s, g) && g != s.server.keys[resource].grant)))
            && (!s'.calls[call].phase.ReturnedTrue? ==> s'.server == s.server && s'.grants == s.grants)
            && (s'.calls[call].phase.Start? <==>
                  || s.calls[call].phase.version != Writes(s.server, resource)
                  || (!Visible(s.server, resource) && expiryAborts))
            && (s'.calls[call].phase.ReturnedFalse? <==>
                  && s.calls[call].phase.version == Writes(s.server, resource)
                  && !Visible(s.server, resource) && !expiryAborts)
  {
    RunsStayValid(steps);
    var s := Run(INITIAL, steps);
    assert CallValid(s, call);
  }

  // A release that nobody disturbs is decided by its first pass, whatever went on before.
  lemma UndisturbedRelease(s: System, resource: string, owner: string, expiryAborts: bool)
    ensures var n := |s.calls|;
            var t := Run(s, [BeginRelease(resource, owner), Watch(n), Get(n), Exec(n, expiryAborts)]);
            && |t.calls| == n + 1 && t.calls[..n] == s.calls
            && t.calls[n] == Release(resource, owner, if Value(s.server, resource) == Some(owner)
                                                     then ReturnedTrue else ReturnedFalse)
            && t.server == if Value(s.server, resource) == Some(owner) then DeleteKey(s.server, resource) else s.server
  {
    hide ExecDelete;
    var n := |s.calls|;
    var steps := [BeginRelease(resource, owner), Watch(n), Get(n), Exec(n, expiryAborts)];
    FourSteps(s, steps);
    var watched := Apply(Apply(s, steps[0]), steps[1]);
    var got := Apply(watched, steps[2]);
    assert got.server == s.server && got.calls[..n] == s.calls;
    if got.calls[n].phase.Owned? { QuietExec(got, n, expiryAborts); }
  }

  lemma FourSteps(s: System, steps: seq<Step>)
    requires |steps| == 4
    ensures Run(s, steps) == Apply(Apply(Apply(Apply(s, steps[0]), steps[1]), steps[2]), steps[3])
  {
    hide Apply;
    assert steps[..3][..2] == steps[..2] && steps[..2][..1] == steps[..1] && steps[..1][..0] == [];
    assert Run(s, steps[..1]) == Apply(s, steps[0]);
    assert Run(s, steps[..2]) == Apply(Run(s, steps[..1]), steps[1]);
    assert Run(s, steps[..3]) == Apply(Run(s, steps[..2]), steps[2]);
  }

  lemma QuietExec(s: System, call: nat, expiryAborts: bool)
    requires call < |s.calls| && s.calls[call].phase == Owned(Writes(s.server, s.calls[call].resource))
    requires Visible(s.server, s.calls[call].resource)
    ensures var t := ExecDelete(s, call, expiryAborts);
            && t.calls == s.calls[call := s.calls[call].(phase := ReturnedTrue)]
            && t.server == DeleteKey(s.server, s.calls[call].resource)
  {
  }

  // No other step makes a release return True, deletes a key, or ends a grant before its time.
  lemma OnlyExecEndsLeases(s: System, step: Step)
    requires !step.Exec?
    ensures var s' := Apply(s, step);
            && (forall g: nat :: g < |s.grants| ==> s'.grants[g] == s.grants[g])
            && (forall r :: r in s.server.keys ==> r in s'.server.keys)
            && (forall k :: 0 <= k < |s.calls| ==> s'.calls[k].phase.ReturnedTrue? == s.calls[k].phase.ReturnedTrue?)
  {
  }

  // ----- Leases ended and releases that returned True -----

  function EndedLeases(grants: seq<Grant>, resource: string, owner: string): set<nat> {
    set g: nat | g < |grants| && grants[g].released && grants[g].resource == resource && grants[g].owner == owner
  }

  function TrueReleases(calls: seq<Release>, resource: string, owner: string): set<nat> {
    set k: nat | k < |calls| && calls[k].phase.ReturnedTrue? && calls[k].resource == resource && calls[k].owner == owner
  }

  lemma GrantEnds(grants: seq<Grant>, g: nat, resource: string, owner: string)
    requires g < |grants| && !grants[g].released
    ensures |EndedLeases(grants[g := grants[g].(released := true)], resource, owner)|
         == |EndedLeases(grants, resource, owner)|
            + if grants[g].resource == resource && grants[g].owner == owner then 1 else 0
  {
    var mine := grants[g].resource == resource && grants[g].owner == owner;
    assert EndedLeases(grants[g := grants[g].(released := true)], resource, owner)
        == EndedLeases(grants, resource, owner) + if mine then {g} else {};
  }

  lemma CallReturns(calls: seq<Release>, k: nat, phase: Phase, resource: string, owner: string)
    requires k < |calls| && !calls[k].phase.ReturnedTrue?
    ensures |TrueReleases(calls[k := calls[k].(phase := phase)], resource, owner)|
         == |TrueReleases(calls, resource, owner)|
            + if phase.ReturnedTrue? && calls[k].resource == resource && calls[k].owner == owner then 1 else 0
  {
    var mine := phase.ReturnedTrue? && calls[k].resource == resource && calls[k].owner == owner;
    assert TrueReleases(calls[k := calls[k].(phase := phase)], resource, owner)
        == TrueReleases(calls, resource, owner) + if mine then {k} else {};
  }

  lemma QuietStepEndsNothing(s: System, step: Step, resource: string, owner: string)
    requires !step.Exec?
    ensures EndedLeases(Apply(s, step).grants, resource, owner) == EndedLeases(s.grants, resource, owner)
    ensures TrueReleases(Apply(s, step).calls, resource, owner) == TrueReleases(s.calls, resource, owner)
  {
    OnlyExecEndsLeases(s, step);
    var t := Apply(s, step);
    assert forall k :: 0 <= k < |s.calls| ==>
        t.calls[k].resource == s.calls[k].resource && t.calls[k].owner == s.calls[k].owner;
    assert forall k :: |s.calls| <= k < |t.calls| ==> !t.calls[k].phase.ReturnedTrue?;
    assert forall g :: |s.grants| <= g < |t.grants| ==> !t.grants[g].released;
  }

  // A successful EXEC ends one grant, of the resource and owner of its call.
  lemma ExecEndsOne(s: System, call: nat, expiryAborts: bool, resource: string, owner: string)
    requires Valid(s) && call < |s.calls| && s.calls[call].phase.Owned?
    requires |EndedLeases(s.grants, resource, owner)| == |TrueReleases(s.calls, resource, owner)|
    ensures var t := ExecDelete(s, call, expiryAborts);
            |EndedLeases(t.grants, resource, owner)| == |TrueReleases(t.calls, resource, owner)|
  {
    hide EndedLeases, TrueReleases;
    assert CallValid(s, call);
    var t, own := ExecDelete(s, call, expiryAborts), s.calls[call].resource;
    CallReturns(s.calls, call, t.calls[call].phase, resource, owner);
    if t.calls[call].phase.ReturnedTrue? {
      var g := s.server.keys[own].grant;
      assert s.grants[g] == Grant(own, s.calls[call].owner, s.server.keys[own].expiresAt, false);
      GrantEnds(s.grants, g, resource, owner);
    }
  }

  // In every run, for every resource and owner: as many releases by the owner returned True as leases
  // of the owner were ended before their time. No lease is released twice, by a stranger, or silently.
  lemma {:induction false} ReleasesMatchLeases(steps: seq<Step>, resource: string, owner: string)
    ensures |EndedLeases(Run(INITIAL, steps).grants, resource, owner)|
        == |TrueReleases(Run(INITIAL, steps).calls, resource, owner)|
  {
    if steps == [] {
      assert EndedLeases([], resource, owner) == {} && TrueReleases([], resource, owner) == {};
    } else {
      hide Valid, EndedLeases, TrueReleases, ExecDelete;
      var front, step := steps[..|steps| - 1], steps[|steps| - 1];
      ReleasesMatchLeases(front, resource, owner);
      RunsStayValid(front);
      match step
      case Exec(call, expiryAborts) =>
        var s := Run(INITIAL, front);
        if call < |s.calls| && s.calls[call].phase.Owned? { ExecEndsOne(s, call, expiryAborts, resource, owner); }
      case _ => QuietStepEndsNothing(Run(INITIAL, front), step, resource, owner);
    }
  }

  // ----- The methods, with other clients running in the gaps of a release -----

  // What other clients and the clock do.
  datatype Event =
    | OtherAcquires(resource: string, owner: string, ttl: int)
    | OtherDeletes(resource: string)
    | Elapse(elapsed: nat)

  function Happen(s: Server, e: Event): Server {
    match e
    case OtherAcquires(resource, owner, ttl) =>
      if Acquirable(s, resource, ttl) then SetKey(s, resource, owner, ttl, 0) else s
    case OtherDeletes(resource) => if Visible(s, resource) then DeleteKey(s, resource) else s
    case Elapse(elapsed) => s.(now := s.now + elapsed)
  }

  // What every caller can read after an event, resource by resource.
  lemma EventsExactly(s: Server, e: Event, r: string)
    ensures var t := Happen(s, e);
            match e
            case OtherAcquires(resource, owner, ttl) =>
              if r == resource && ttl > 0 && !Visible(s, r) then
                Value(t, r) == Some(owner) && t.keys[r].expiresAt == s.now + ttl && Writes(t, r) > Writes(s, r)
              else Value(t, r) == Value(s, r) && Writes(t, r) == Writes(s, r)
            case OtherDeletes(resource) =>
              if r == resource && Visible(s, r) then Value(t, r) == None && Writes(t, r) > Writes(s, r)
              else Value(t, r) == Value(s, r) && Writes(t, r) == Writes(s, r)
            case Elapse(elapsed) =>
              && (Visible(t, r) <==> r in s.keys && s.now + elapsed < s.keys[r].expiresAt)
              && Writes(t, r) == Writes(s, r) && (Visible(t, r) ==> Value(t, r) == Some(s.keys[r].value))
  {
  }

  function HappenAll(s: Server, events: seq<Event>): Server {
    if events == [] then s else Happen(HappenAll(s, events[..|events| - 1]), events[|events| - 1])
  }

  lemma {:induction false} HappenAllConcat(s: Server, a: seq<Event>, b: seq<Event>)
    ensures HappenAll(s, a + b) == HappenAll(HappenAll(s, a), b)
    decreases |b|
  {
    if b == [] {
      assert a + b == a;
    } else {
      assert (a + b)[..|a + b| - 1] == a + b[..|b| - 1];
      HappenAllConcat(s, a, b[..|b| - 1]);
    }
  }

  // Nothing but a write of the key changes it, and every write is counted.
  lemma {:induction false} UnwrittenKeyIsUnchanged(s: Server, events: seq<Event>, resource: string)
    ensures var t := HappenAll(s, events);
            && Writes(s, resource) <= Writes(t, resource)
            && (Writes(s, resource) == Writes(t, resource) ==>
                  && (resource in t.keys <==> resource in s.keys)
                  && (resource in s.keys ==> t.keys[resource] == s.keys[resource]))
  {
    if events != [] {
      UnwrittenKeyIsUnchanged(s, events[..|events| - 1], resource);
    }
  }

  // One round of the retry loop: what happens between WATCH and GET, and between GET and EXEC.
  datatype Round = Round(afterWatch: seq<Event>, afterGet: seq<Event>)

  class RedisStateStore {
    var server: Server

    constructor ()
      ensures server == Server(map[], map[], 0)
    {
      server := Server(map[], map[], 0);
    }

    method Others(events: seq<Event>)
      modifies this
      ensures server == HappenAll(old(server), events)
    {
      for i := 0 to |events|
        invariant server == HappenAll(old(server), events[..i])
      {
        assert events[..i + 1][..i] == events[..i];
        server := Happen(server, events[i]);
      }
      assert events[..|events|] == events;
    }

    // `acquire_lease`; None stands for the server's error on a non-positive ttl.
    method AcquireLease(resource: string, owner: string, ttl: int) returns (acquired: Option<bool>)
      modifies this
      ensures acquired == (if ttl <= 0 then None else Some(!Visible(old(server), resource)))
      ensures acquired == Some(true) ==>
          Value(server, resource) == Some(owner) && server.keys[resource].expiresAt == old(server).now + ttl
      ensures forall r :: r != resource ==> Value(server, r) == Value(old(server), r)
      ensures acquired != Some(true) ==> server == old(server)
    {
      if ttl <= 0 { return None; }
      acquired := Some(!Visible(server, resource));
      if !Visible(server, resource) { server := SetKey(server, resource, owner, ttl, 0); }
    }

    // `release_lease`. `rounds` is what other clients do in each pass of the retry loop; after the
    // last round they are silent. `atExec` is the server at the moment the call decides: the result
    // is True exactly when the key holds the caller's value at that moment.
    method ReleaseLease(resource: string, owner: string, rounds: seq<Round>)
      returns (released: bool, ghost atExec: Server, ghost events: seq<Event>)
      modifies this
      ensures atExec == HappenAll(old(server), events)
      ensures released <==> Value(atExec, resource) == Some(owner)
      ensures server == if released then DeleteKey(atExec, resource) else atExec
      ensures rounds == [] ==> events == [] && (released <==> Value(old(server), resource) == Some(owner))
    {
      events := [];
      for i := 0 to |rounds|
        invariant server == HappenAll(old(server), events)
        invariant i == 0 ==> events == []
      {
        var retry;
        ghost var more;
        released, retry, atExec, more := TryRelease(resource, owner, rounds[i]);
        HappenAllConcat(old(server), events, more);
        events := events + more;
        if !retry { return; }
      }
      var quiet := Round([], []);
      var retry;
      ghost var more;
      ghost var before := server;
      released, retry, atExec, more := TryRelease(resource, owner, quiet);
      assert more == [];
      HappenAllConcat(old(server), events, more);
      events := events + more;
    }

    // One pass: WATCH, GET, and either a plain False or an EXEC that deletes or aborts.
    method TryRelease(resource: string, owner: string, round: Round)
      returns (released: bool, retry: bool, ghost atExec: Server, ghost events: seq<Event>)
      modifies this
      ensures events <= round.afterWatch + round.afterGet
      ensures atExec == HappenAll(old(server), events)
      ensures released ==> !retry
      ensures !retry ==> (released <==> Value(atExec, resource) == Some(owner))
      ensures retry ==> Writes(atExec, resource) > Writes(old(server), resource)
      ensures server == if released then DeleteKey(atExec, resource) else atExec
      ensures round == Round([], []) ==> !retry && (released <==> Value(old(server), resource) == Some(owner))
    {
      var watched := Writes(server, resource);
      Others(round.afterWatch);
      UnwrittenKeyIsUnchanged(old(server), round.afterWatch, resource);
      events, atExec := round.afterWatch, server;
      if Value(server, resource) != Some(owner) {
        return false, false, atExec, events;
      }
      ghost var atGet := server;
      HappenAllConcat(old(server), round.afterWatch, round.afterGet);
      Others(round.afterGet);
      UnwrittenKeyIsUnchanged(atGet, round.afterGet, resource);
      events, atExec := round.afterWatch + round.afterGet, server;
      if Writes(server, resource) != watched {
        return false, true, atExec, events;
      }
      if !Visible(server, resource) {
        return false, false, atExec, events;
      }
      server := DeleteKey(server, resource);
      released, retry := true, false;
    }
  }
}
