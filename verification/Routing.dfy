// Candidate selection, placement with its wake time, and quota classification.
module Routing {
  import opened Common
  import opened Orders

  datatype ProviderState =
    | Available | ThrottledShort | QuotaExhausted | CreditExhausted | ProviderDegraded
    | Offline | AuthFailed | PolicyBlocked | Quarantined

  datatype CostClass = FreeApi | FreeCredit | Local | Paid | Trial | Promotional | UnknownCost

  // Instants and delays are integers on one clock (microseconds).
  type Time = int

  datatype Candidate = Candidate(
    id: string, enabled: bool, state: ProviderState, retryAt: Option<Time>, costClass: CostClass,
    acceptedSensitivity: set<string>, capabilityScores: map<string, real>, reliability: real, latencyScore: real)

  datatype Request = Request(capability: string, sensitivity: string, allowPaid: bool, preferLocal: bool)

  // ----- Selection -----

  predicate IsAvailable(c: Candidate, now: Time) {
    c.state.Available? || (c.retryAt.Some? && c.retryAt.value <= now)
  }

  function CapabilityScore(c: Candidate, capability: string): real {
    if capability in c.capabilityScores then c.capabilityScores[capability] else 0.0
  }

  // Everything but availability: the filters shared by selection and by the wake computation.
  predicate Compatible(request: Request, c: Candidate) {
    && c.enabled
    && request.sensitivity in c.acceptedSensitivity
    && (c.costClass.Paid? ==> request.allowPaid)
    && CapabilityScore(c, request.capability) > 0.0
  }

  predicate Eligible(request: Request, c: Candidate, now: Time) {
    Compatible(request, c) && IsAvailable(c, now)
  }

  function Score(request: Request, c: Candidate): real {
    CapabilityScore(c, request.capability) * 0.55
    + c.reliability * 0.20
    + c.latencyScore * 0.15
    + (if c.costClass.FreeApi? then 0.10 else 0.0)
    + (if request.preferLocal && c.costClass.Local? then 0.15 else 0.0)
  }

  // The sort key (-score, id).
  predicate Ranks(request: Request, a: Candidate, b: Candidate) {
    Score(request, a) > Score(request, b) || (Score(request, a) == Score(request, b) && Precedes(a.id, b.id))
  }

  // Candidate `c` heads the sorted list of the eligible ones.
  ghost predicate Heads(request: Request, pool: seq<Candidate>, now: Time, c: Candidate) {
    && c in pool && Eligible(request, c, now)
    && forall d :: d in pool && Eligible(request, d, now) && d.id != c.id ==> Ranks(request, c, d)
  }

  ghost predicate DistinctIds(pool: seq<Candidate>) {
    forall i, j :: 0 <= i < j < |pool| ==> pool[i].id != pool[j].id
  }

  // `select_candidate`: collect the eligible candidates with their scores, then take the first in
  // sort order.
  method SelectCandidate(request: Request, pool: seq<Candidate>, now: Time) returns (chosen: Option<Candidate>)
    requires DistinctIds(pool)
    ensures chosen.Some? ==> Heads(request, pool, now, chosen.value)
    ensures chosen.None? <==> forall c :: c in pool ==> !Eligible(request, c, now)
  {
    hide Score, Precedes;
    var eligible: seq<(real, Candidate)> := [];
    for i := 0 to |pool|
      invariant forall e :: e in eligible ==> e.1 in pool && Eligible(request, e.1, now) && e.0 == Score(request, e.1)
      invariant forall k :: 0 <= k < i && Eligible(request, pool[k], now) ==>
          (Score(request, pool[k]), pool[k]) in eligible
    {
      var c := pool[i];
      if !c.enabled || !IsAvailable(c, now) { continue; }
      if request.sensitivity !in c.acceptedSensitivity { continue; }
      if c.costClass.Paid? && !request.allowPaid { continue; }
      if CapabilityScore(c, request.capability) <= 0.0 { continue; }
      eligible := eligible + [(Score(request, c), c)];
    }
    if eligible == [] {
      assert forall c :: c in pool && Eligible(request, c, now) ==> (Score(request, c), c) in eligible;
      return None;
    }
    assert eligible[0] in eligible;
    var best := FirstInOrder(request, pool, eligible);
    chosen := Some(best);
  }

  // The head of `eligible.sort(key=(-score, id))`.
  method FirstInOrder(request: Request, ghost pool: seq<Candidate>, eligible: seq<(real, Candidate)>)
    returns (best: Candidate)
    requires eligible != [] && DistinctIds(pool)
    requires forall e :: e in eligible ==> e.1 in pool && e.0 == Score(request, e.1)
    ensures exists e :: e in eligible && e.1 == best
    ensures forall e :: e in eligible && e.1.id != best.id ==> Ranks(request, best, e.1)
  {
    hide Score, Precedes;
    PrecedesIsStrictTotal();
    var top := eligible[0];
    for i := 1 to |eligible|
      invariant top in eligible
      invariant forall k :: 0 <= k < i && eligible[k].1.id != top.1.id ==> Ranks(request, top.1, eligible[k].1)
    {
      var e := eligible[i];
      if e.0 > top.0 || (e.0 == top.0 && Precedes(e.1.id, top.1.id)) {
        forall k | 0 <= k < i && eligible[k].1.id != e.1.id ensures Ranks(request, e.1, eligible[k].1) {
          assert eligible[k] in eligible;
        }
        top := e;
      }
    }
    best := top.1;
  }

  // ----- Placement -----

  predicate InPool(pool: seq<Candidate>, request: Request, now: Time, t: Time) {
    exists i :: 0 <= i < |pool| && Compatible(request, pool[i]) && pool[i].retryAt == Some(t) && t > now
  }

  // `next_retry_at`: the earliest future retry time among the compatible candidates.
  method NextRetryAt(request: Request, pool: seq<Candidate>, now: Time) returns (wake: Option<Time>)
    ensures wake.Some? ==> InPool(pool, request, now, wake.value)
    ensures forall t :: InPool(pool, request, now, t) ==> wake.Some? && wake.value <= t
  {
    var retryTimes: seq<Time> := [];
    for i := 0 to |pool|
      invariant forall t :: t in retryTimes ==> InPool(pool, request, now, t)
      invariant forall k ::
                  0 <= k < i && Compatible(request, pool[k]) && pool[k].retryAt.Some? && pool[k].retryAt.value > now ==>
                    pool[k].retryAt.value in retryTimes
    {
      var c := pool[i];
      if !c.enabled { continue; }
      if request.sensitivity !in c.acceptedSensitivity { continue; }
      if c.costClass.Paid? && !request.allowPaid { continue; }
      if CapabilityScore(c, request.capability) <= 0.0 { continue; }
      if c.retryAt.Some? && c.retryAt.value > now {
        retryTimes := retryTimes + [c.retryAt.value];
      }
    }
    if retryTimes == [] { return None; }
    assert retryTimes[0] in retryTimes;
    var least := retryTimes[0];
    for i := 1 to |retryTimes|
      invariant least in retryTimes
      invariant forall k :: 0 <= k < i ==> least <= retryTimes[k]
    {
      if retryTimes[i] < least { least := retryTimes[i]; }
    }
    wake := Some(least);
  }

  datatype Placement = Placed(candidate: Candidate) | WaitingForCompute(retryAt: Option<Time>)

  // Could any candidate be selected at this time?
  ghost predicate Selectable(request: Request, pool: seq<Candidate>, now: Time) {
    exists c :: c in pool && Eligible(request, c, now)
  }

  ghost predicate IsPlacement(request: Request, pool: seq<Candidate>, now: Time, p: Placement) {
    match p
    case Placed(c) => Heads(request, pool, now, c)
    case WaitingForCompute(wake) =>
      && !Selectable(request, pool, now)
      && (wake.Some? ==> InPool(pool, request, now, wake.value))
      && (forall t :: InPool(pool, request, now, t) ==> wake.Some? && wake.value <= t)
  }

  // `place`.
  method Place(request: Request, pool: seq<Candidate>, now: Time) returns (p: Placement)
    requires DistinctIds(pool)
    ensures IsPlacement(request, pool, now, p)
    ensures p.Placed? <==> Selectable(request, pool, now)
  {
    var chosen := SelectCandidate(request, pool, now);
    if chosen.Some? {
      p := Placed(chosen.value);
    } else {
      var wake := NextRetryAt(request, pool, now);
      p := WaitingForCompute(wake);
    }
  }

  // With the deployments unchanged, selection works at a later time exactly from the announced
  // wake time on, and never when none was announced.
  lemma WakeTimeIsExact(request: Request, pool: seq<Candidate>, now: Time, wake: Option<Time>, later: Time)
    requires IsPlacement(request, pool, now, WaitingForCompute(wake)) && now <= later
    ensures Selectable(request, pool, later) <==> wake.Some? && wake.value <= later
    ensures wake.Some? ==> now < wake.value
  {
    hide Compatible;
    if c :| c in pool && Eligible(request, c, later) {
      assert !Eligible(request, c, now);
      var i :| 0 <= i < |pool| && pool[i] == c;
      assert InPool(pool, request, now, c.retryAt.value);
    }
    if wake.Some? && wake.value <= later {
      var i :| 0 <= i < |pool| && Compatible(request, pool[i]) && pool[i].retryAt == wake && wake.value > now;
      assert pool[i] in pool && Eligible(request, pool[i], later);
    }
  }

  // ----- Who is placed, from the candidates' own fields -----

  predicate Admissible(request: Request, c: Candidate, now: Time) {
    && c.enabled && (c.state == Available || (c.retryAt.Some? && c.retryAt.value <= now))
    && request.sensitivity in c.acceptedSensitivity && (c.costClass == Paid ==> request.allowPaid)
    && request.capability in c.capabilityScores && c.capabilityScores[request.capability] > 0.0
  }

  lemma EligibleIsAdmissible(request: Request, c: Candidate, now: Time)
    ensures Eligible(request, c, now) <==> Admissible(request, c, now)
  {
  }

  function One(b: bool): real {
    if b then 1.0 else 0.0
  }

  // By how much `a` is ahead of `b`: the weighted differences of their inputs and of their bonuses.
  function Lead(request: Request, a: Candidate, b: Candidate): real
    requires request.capability in a.capabilityScores && request.capability in b.capabilityScores
  {
    0.55 * (a.capabilityScores[request.capability] - b.capabilityScores[request.capability])
    + 0.20 * (a.reliability - b.reliability)
    + 0.15 * (a.latencyScore - b.latencyScore)
    + 0.10 * (One(a.costClass == FreeApi) - One(b.costClass == FreeApi))
    + 0.15 * (One(request.preferLocal && a.costClass == Local) - One(request.preferLocal && b.costClass == Local))
  }

  // Ahead, or level with the smaller id.
  predicate Beats(request: Request, a: Candidate, b: Candidate)
    requires request.capability in a.capabilityScores && request.capability in b.capabilityScores
  {
    Lead(request, a, b) > 0.0 || (Lead(request, a, b) == 0.0 && Precedes(a.id, b.id))
  }

  lemma RanksAsBeats(request: Request, a: Candidate, b: Candidate)
    requires request.capability in a.capabilityScores && request.capability in b.capabilityScores
    ensures Ranks(request, a, b) <==> Beats(request, a, b)
  {
    hide Precedes;
    assert Score(request, a) - Score(request, b) == Lead(request, a, b);
  }

  // `place` answers with a candidate exactly when it is admissible and beats every other admissible one.
  lemma PlacedExactly(request: Request, pool: seq<Candidate>, now: Time, c: Candidate)
    ensures IsPlacement(request, pool, now, Placed(c))
       <==> && c in pool && Admissible(request, c, now)
            && forall d :: d in pool && Admissible(request, d, now) && d.id != c.id ==> Beats(request, c, d)
  {
    hide Eligible, Ranks, Beats;
    EligibleIsAdmissible(request, c, now);
    if Admissible(request, c, now) {
      forall d | d in pool
        ensures && (Eligible(request, d, now) <==> Admissible(request, d, now))
                && (Admissible(request, d, now) ==> (Ranks(request, c, d) <==> Beats(request, c, d)))
      {
        EligibleIsAdmissible(request, d, now);
        if Admissible(request, d, now) { RanksAsBeats(request, c, d); }
      }
    }
  }

  // `better` is `c` with its capability, reliability or latency inputs raised and all else alike.
  predicate Raises(request: Request, c: Candidate, better: Candidate)
    requires request.capability in c.capabilityScores
  {
    && better == c.(capabilityScores := better.capabilityScores, reliability := better.reliability,
                    latencyScore := better.latencyScore)
    && request.capability in better.capabilityScores
    && better.capabilityScores[request.capability] >= c.capabilityScores[request.capability]
    && better.reliability >= c.reliability && better.latencyScore >= c.latencyScore
  }

  // Better inputs never cost a candidate its place, its rank before another, or its admission.
  lemma RaisingKeepsPlace(request: Request, pool: seq<Candidate>, now: Time, i: nat, better: Candidate)
    requires DistinctIds(pool) && i < |pool| && Admissible(request, pool[i], now) && Raises(request, pool[i], better)
    ensures Admissible(request, better, now)
    ensures forall d :: d in pool && Admissible(request, d, now) ==>
              && (Ranks(request, pool[i], d) ==> Ranks(request, better, d))
              && (Ranks(request, d, better) ==> Ranks(request, d, pool[i]))
    ensures IsPlacement(request, pool, now, Placed(pool[i])) ==>
              IsPlacement(request, pool[i := better], now, Placed(better))
  {
    hide Precedes, Ranks, IsPlacement, Beats;
    forall d | d in pool && Admissible(request, d, now)
      ensures && (Ranks(request, pool[i], d) ==> Ranks(request, better, d))
              && (Ranks(request, d, better) ==> Ranks(request, d, pool[i]))
              && (Beats(request, pool[i], d) ==> Beats(request, better, d))
    {
      RaisedBeats(request, pool[i], better, d);
      RanksAsBeats(request, pool[i], d);
      RanksAsBeats(request, better, d);
      RanksAsBeats(request, d, better);
      RanksAsBeats(request, d, pool[i]);
    }
    PlacedExactly(request, pool, now, pool[i]);
    PlacedExactly(request, pool[i := better], now, better);
    assert pool[i := better][i] == better;
    forall d | d in pool[i := better] && d.id != better.id ensures d in pool {
      var k :| 0 <= k < |pool| && pool[i := better][k] == d;
    }
  }

  lemma RaisedBeats(request: Request, c: Candidate, better: Candidate, d: Candidate)
    requires request.capability in c.capabilityScores && request.capability in d.capabilityScores
    requires Raises(request, c, better)
    ensures Beats(request, c, d) ==> Beats(request, better, d)
    ensures Beats(request, d, better) ==> Beats(request, d, c)
  {
    hide Precedes;
  }

  // ----- Quota classification -----

  // Parsed delays of the three headers (None: absent or unparsable), and whether each remaining
  // counter reads "0".
  datatype Observation = Observation(
    status: Option<int>, errorCode: string,
    retryAfter: Option<int>, requestReset: Option<int>, tokenReset: Option<int>,
    noRequestsLeft: bool, noTokensLeft: bool)

  datatype Availability = Availability(state: ProviderState, retryAt: Option<Time>)

  const MINUTE := 60 * 1000000
  const HOUR := 60 * MINUTE

  const LONG_QUOTA_CODES: set<string> := {"insufficient_quota", "quota_exceeded", "daily_quota_exceeded"}
  const RETRYABLE_UPSTREAM: set<int> := {429, 502, 503, 504}

  // Python's `first or second or ...`: a zero timedelta is falsy.
  predicate Truthy(delay: Option<int>) {
    delay.Some? && delay.value != 0
  }

  function FirstTruthy(delays: seq<Option<int>>, default: int): int {
    if delays == [] then default
    else if Truthy(delays[0]) then delays[0].value
    else FirstTruthy(delays[1..], default)
  }

  function RateLimitState(delay: int): ProviderState {
    if delay <= HOUR then ThrottledShort else QuotaExhausted
  }

  function Classify(obs: Observation, now: Time): Availability {
    if obs.status == Some(401) || obs.status == Some(403) then Availability(AuthFailed, None)
    else if obs.status == Some(402) then Availability(CreditExhausted, None)
    else if obs.status == Some(410) || obs.errorCode == "model_deprecated" then Availability(Offline, None)
    else if obs.status == Some(502) || obs.status == Some(503) || obs.status == Some(504)
            || obs.errorCode == "capacity_exceeded" || obs.errorCode == "provider_unavailable" then
      Availability(ProviderDegraded, Some(now + FirstTruthy([obs.retryAfter], 2 * MINUTE)))
    else if obs.status == Some(429) then
      if obs.noRequestsLeft && Truthy(obs.requestReset) then
        Availability(RateLimitState(obs.requestReset.value), Some(now + obs.requestReset.value))
      else if obs.noTokensLeft && Truthy(obs.tokenReset) then
        Availability(RateLimitState(obs.tokenReset.value), Some(now + obs.tokenReset.value))
      else if obs.errorCode in LONG_QUOTA_CODES && !Truthy(obs.retryAfter) && !Truthy(obs.requestReset)
          && !Truthy(obs.tokenReset) then
        Availability(QuotaExhausted, None)
      else
        var delay := FirstTruthy([obs.retryAfter, obs.requestReset, obs.tokenReset], MINUTE);
        Availability(RateLimitState(delay), Some(now + delay))
    else if obs.status.Some? && obs.status.value >= 500 then
      Availability(ProviderDegraded, Some(now + MINUTE))
    else Availability(Available, None)
  }

  const DEGRADED_CODES: set<string> := {"capacity_exceeded", "provider_unavailable"}

  predicate IsNegative(delay: Option<int>) {
    delay.Some? && delay.value < 0
  }

  // The delay a rate-limited answer puts in force: the reset of an exhausted counter, requests before
  // tokens, else the first delay given.
  function BelievedDelay(obs: Observation): Option<int> {
    if obs.noRequestsLeft && Truthy(obs.requestReset) then obs.requestReset
    else if obs.noTokensLeft && Truthy(obs.tokenReset) then obs.tokenReset
    else if Truthy(obs.retryAfter) then obs.retryAfter
    else if Truthy(obs.requestReset) then obs.requestReset
    else if Truthy(obs.tokenReset) then obs.tokenReset
    else None
  }

  // Do the headers of a retryable answer announce a wake time in the past? Where the provider is
  // degraded only retry-after counts.
  predicate AnnouncesNegative(obs: Observation) {
    if obs.errorCode == "model_deprecated" then false
    else if obs.status != Some(429) || obs.errorCode in DEGRADED_CODES then IsNegative(obs.retryAfter)
    else IsNegative(BelievedDelay(obs))
  }

  predicate NonNegative(delay: Option<int>) {
    delay.Some? ==> delay.value >= 0
  }

  // Which answers leave a deployment usable at once: only those that report no limit.
  lemma AvailableExactlyWithoutLimit(obs: Observation, now: Time)
    ensures Classify(obs, now).state.Available? <==>
              && !(obs.errorCode in {"model_deprecated", "capacity_exceeded", "provider_unavailable"})
              && (obs.status.None? || (obs.status.value < 500 && obs.status.value !in {401, 402, 403, 410, 429}))
  {
  }

  // After a retryable answer the deployment is usable at that instant exactly when the headers
  // announce a negative delay, which non-negative headers never do.
  lemma RetryableAnswerBlocks(obs: Observation, now: Time, c: Candidate)
    requires obs.status.Some? && obs.status.value in RETRYABLE_UPSTREAM
    ensures var a := Classify(obs, now);
            && !a.state.Available?
            && (IsAvailable(c.(state := a.state, retryAt := a.retryAt), now) <==> AnnouncesNegative(obs))
    ensures NonNegative(obs.retryAfter) && NonNegative(obs.requestReset) && NonNegative(obs.tokenReset) ==>
              !AnnouncesNegative(obs)
  {
    AvailableExactlyWithoutLimit(obs, now);
    FirstTruthyOfThree(obs.retryAfter, obs.requestReset, obs.tokenReset, MINUTE);
    FirstTruthyOfThree(obs.retryAfter, None, None, 2 * MINUTE);
  }

  lemma FirstTruthyOfThree(a: Option<int>, b: Option<int>, c: Option<int>, default: int)
    ensures FirstTruthy([a, b, c], default)
         == if Truthy(a) then a.value else if Truthy(b) then b.value else if Truthy(c) then c.value else default
    ensures FirstTruthy([a], default) == if Truthy(a) then a.value else default
  {
    assert [a, b, c][1..] == [b, c] && [b, c][1..] == [c] && [c][1..] == [] && [a][1..] == [];
    assert FirstTruthy([c], default) == if Truthy(c) then c.value else default;
    assert FirstTruthy([b, c], default) == if Truthy(b) then b.value else FirstTruthy([c], default);
  }

  // What a 429 records, in microseconds. A deprecated model goes offline; a degraded provider waits for
  // retry-after or two minutes. Otherwise the delay in force counts, or a minute, unless the account
  // reports a long quota and gives no delay at all; up to an hour is a throttle, longer an exhausted quota.
  lemma RateLimitAnswer(obs: Observation, now: Time)
    requires obs.status == Some(429)
    ensures var a, delay := Classify(obs, now), BelievedDelay(obs);
            if obs.errorCode == "model_deprecated" then a == Availability(Offline, None)
            else if obs.errorCode == "capacity_exceeded" || obs.errorCode == "provider_unavailable" then
              && a.state == ProviderDegraded
              && a.retryAt == Some(now + if Truthy(obs.retryAfter) then obs.retryAfter.value else 120000000)
            else if delay.None? && LongQuota(obs.errorCode) then a == Availability(QuotaExhausted, None)
            else
              && a.retryAt == Some(now + if delay.Some? then delay.value else 60000000)
              && a.state == (if a.retryAt.value <= now + 3600000000 then ThrottledShort else QuotaExhausted)
  {
    FirstTruthyOfThree(obs.retryAfter, obs.requestReset, obs.tokenReset, MINUTE);
    FirstTruthyOfThree(obs.retryAfter, None, None, 2 * MINUTE);
  }

  predicate LongQuota(code: string) {
    code == "insufficient_quota" || code == "quota_exceeded" || code == "daily_quota_exceeded"
  }

  predicate In(status: Option<int>, codes: set<int>) {
    status.Some? && status.value in codes
  }

  // Which answers put a deployment into which state, and until when: the reverse reading of the
  // classification, for every status and error code.
  lemma StatesExactly(obs: Observation, now: Time)
    ensures var a, status, code := Classify(obs, now), obs.status, obs.errorCode;
            var degraded := code == "capacity_exceeded" || code == "provider_unavailable";
            var shortage := In(status, {502, 503, 504}) || degraded;
            && (a.state == AuthFailed <==> In(status, {401, 403}))
            && (a.state == CreditExhausted <==> status == Some(402))
            && (a.state == Offline
                <==> status == Some(410) || (code == "model_deprecated" && !In(status, {401, 402, 403})))
            && (a.state == ProviderDegraded
                <==> && !In(status, {401, 402, 403, 410}) && code != "model_deprecated"
                     && (shortage || (status.Some? && status.value >= 500)))
            && (a.state in {ThrottledShort, QuotaExhausted}
                <==> status == Some(429) && code != "model_deprecated" && !degraded)
            && a.state !in {PolicyBlocked, Quarantined}
            && (a.state in {Available, AuthFailed, CreditExhausted, Offline} ==> a.retryAt == None)
            && (a.state == ProviderDegraded && shortage ==>
                a.retryAt == Some(now + if Truthy(obs.retryAfter) then obs.retryAfter.value else 120000000))
            && (a.state == ProviderDegraded && !shortage ==> a.retryAt == Some(now + 60000000))
  {
    FirstTruthyOfThree(obs.retryAfter, obs.requestReset, obs.tokenReset, MINUTE);
    FirstTruthyOfThree(obs.retryAfter, None, None, 2 * MINUTE);
  }
}
