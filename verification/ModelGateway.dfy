// `forward_chat_completion`: placement, forwarding and failover over the stored deployments.
module ModelGateway {
  import opened Common
  import opened Orders
  import opened Routing

  const MODEL_ALIASES: map<string, string> := map[
    "forge/fast" := "fast", "forge/reasoning" := "reasoning", "forge/coding" := "coding", "forge/review" := "review",
    "forge/research" := "research", "forge/documentation" := "documentation", "forge/tool-use" := "tool_use"]

  // What the execution gateway answers to one forwarded request.
  datatype Reply =
    | TransportError
    | Http(status: int, retryAfter: Option<int>, requestReset: Option<int>, tokenReset: Option<int>,
           noRequestsLeft: bool, noTokensLeft: bool)

  datatype Outcome =
    | UnknownForgeModel
    | GatewayUnavailable
    | Response(status: int, deploymentId: string)
    | Waiting(retryAt: Option<Time>)

  type Deployments = map<string, Candidate>

  ghost predicate Keyed(rows: Deployments) {
    forall id :: id in rows ==> rows[id].id == id
  }

  predicate Retryable(reply: Reply) {
    reply.Http? && reply.status in RETRYABLE_UPSTREAM
  }

  function ObservationOf(reply: Reply): Observation
    requires reply.Http?
  {
    Observation(Some(reply.status), "", reply.retryAfter, reply.requestReset, reply.tokenReset, reply.noRequestsLeft,
        reply.noTokensLeft)
  }

  // A retryable answer whose headers put the wake time in the past.
  predicate Negative(reply: Reply) {
    Retryable(reply) && AnnouncesNegative(ObservationOf(reply))
  }

  function Recorded(rows: Deployments, id: string, a: Availability): Deployments
    requires id in rows
  {
    rows[id := rows[id].(state := a.state, retryAt := a.retryAt)]
  }

  // The deployments after the k-th tried one got the k-th reply, for every k.
  function AfterReplies(rows: Deployments, tried: seq<string>, replies: nat -> Reply, now: Time): (after: Deployments)
    ensures after.Keys == rows.Keys
  {
    if tried == [] then rows
    else
      var k := |tried| - 1;
      var before := AfterReplies(rows, tried[..k], replies, now);
      if Retryable(replies(k)) && tried[k] in before
      then Recorded(before, tried[k], Classify(ObservationOf(replies(k)), now))
      else before
  }

  // ----- The order of the initially eligible pool -----

  ghost function EligibleIds(rows: Deployments, request: Request, now: Time): set<string> {
    set id | id in rows && Eligible(request, rows[id], now)
  }

  // Score, then id, on stored deployments; other ids come last so that the order is total.
  predicate RankLess(rows: Deployments, request: Request, a: string, b: string) {
    if a in rows && b in rows then Ranks(request, rows[a], rows[b])
    else if a in rows then true
    else if b in rows then false
    else Precedes(a, b)
  }

  ghost predicate InRankOrder(rows: Deployments, request: Request, order: seq<string>) {
    forall i, j :: 0 <= i < j < |order| ==>
        order[i] in rows && order[j] in rows && Ranks(request, rows[order[i]], rows[order[j]])
  }

  lemma RankLessIsStrictTotal(rows: Deployments, request: Request)
    requires Keyed(rows)
    ensures StrictTotalOrder((a: string, b: string) => RankLess(rows, request, a, b))
  {
    hide Precedes, Score;
    PrecedesIsStrictTotal();
    assert forall a: string, b: string :: a != b ==> Precedes(a, b) || Precedes(b, a);
    forall a: string, b: string, c: string | RankLess(rows, request, a, b) && RankLess(rows, request, b, c)
      ensures RankLess(rows, request, a, c) {}
  }

  // The initially eligible deployments, best first.
  ghost function Ranking(rows: Deployments, request: Request, now: Time): (order: seq<string>)
    requires Keyed(rows)
    ensures InRankOrder(rows, request, order)
    ensures forall id :: id in order <==> id in EligibleIds(rows, request, now)
  {
    RankLessIsStrictTotal(rows, request);
    var order := Sorted(EligibleIds(rows, request, now), (a: string, b: string) => RankLess(rows, request, a, b));
    assert forall k :: 0 <= k < |order| ==> order[k] in order;
    order
  }

  // Once the first k of the ranking are out, the best of the rest is the (k+1)-st.
  lemma NextInRanking(rows: Deployments, request: Request, now: Time, k: nat, id: string)
    requires Keyed(rows)
    requires k <= |Ranking(rows, request, now)|
    requires id in rows && Eligible(request, rows[id], now) && id !in Ranking(rows, request, now)[..k]
    requires forall other ::
               && other in rows && Eligible(request, rows[other], now)
               && other !in Ranking(rows, request, now)[..k] && other != id ==>
                 Ranks(request, rows[id], rows[other])
    ensures k < |Ranking(rows, request, now)| && Ranking(rows, request, now)[k] == id
  {
    hide Score, Precedes, EligibleIds, Eligible, Ranks;
    EligibleIsRanked(rows, request, now, id);
    var order := Ranking(rows, request, now);
    assert id in order;
    var m :| 0 <= m < |order| && order[m] == id;
    assert m >= k;
    if m > k {
      assert order[k] in order;
      EligibleIsRanked(rows, request, now, order[k]);
      RanksIrreflexive(request, rows[order[k]]);
      assert forall i :: 0 <= i < k ==> order[i] != order[k];
      assert Ranks(request, rows[order[k]], rows[id]);
      RanksAsymmetric(request, rows[order[k]], rows[id]);
    }
  }

  lemma RanksIrreflexive(request: Request, c: Candidate)
    ensures !Ranks(request, c, c)
  {
    PrecedesIrreflexive(c.id);
  }

  lemma RanksAsymmetric(request: Request, a: Candidate, b: Candidate)
    requires Ranks(request, a, b)
    ensures !Ranks(request, b, a)
  {
    PrecedesIsStrictTotal();
  }

  // ----- The store and the loop -----

  class DeploymentStore {
    var rows: Deployments

    constructor (rows: Deployments)
      ensures this.rows == rows
    {
      this.rows := rows;
    }

    // Every row once, in whatever order the database returns them.
    method ListCandidates() returns (pool: seq<Candidate>)
      requires Keyed(rows)
      ensures DistinctIds(pool)
      ensures forall c :: c in pool <==> c.id in rows && rows[c.id] == c
    {
      pool := [];
      var rest := rows.Keys;
      while rest != {}
        invariant rest <= rows.Keys
        invariant DistinctIds(pool)
        invariant forall c :: c in pool <==> c.id in rows && rows[c.id] == c && c.id !in rest
        decreases rest
      {
        var id :| id in rest;
        assert forall c :: c in pool ==> c.id != id;
        pool := pool + [rows[id]];
        rest := rest - {id};
      }
    }

    // `record_availability`; false stands for the unknown-deployment error.
    method RecordAvailability(id: string, a: Availability) returns (known: bool)
      modifies this
      ensures known == (id in old(rows))
      ensures rows == if known then Recorded(old(rows), id, a) else old(rows)
    {
      known := id in rows;
      if known {
        rows := rows[id := rows[id].(state := a.state, retryAt := a.retryAt)];
      }
    }

    // `forward_chat_completion` at one instant, answered by `replies`.
    method Forward(model: string, sensitivity: string, maxAttempts: int, replies: nat -> Reply, now: Time)
      returns (outcome: Outcome, tried: seq<string>)
      requires Keyed(rows)
      modifies this
      ensures Keyed(rows) && rows.Keys == old(rows).Keys
      ensures outcome.UnknownForgeModel? <==> model !in MODEL_ALIASES
      ensures outcome.UnknownForgeModel? ==> tried == [] && rows == old(rows)
      ensures model in MODEL_ALIASES ==>
                Failedover(old(rows), rows, RequestFor(model, sensitivity), maxAttempts, replies, now, outcome, tried)
    {
      if model !in MODEL_ALIASES { return UnknownForgeModel, []; }
      outcome, tried := Failover(RequestFor(model, sensitivity), maxAttempts, replies, now);
    }

    // The attempt loop.
    method Failover(request: Request, maxAttempts: int, replies: nat -> Reply, now: Time)
      returns (outcome: Outcome, tried: seq<string>)
      requires Keyed(rows)
      modifies this
      ensures Keyed(rows) && rows.Keys == old(rows).Keys
      ensures !outcome.UnknownForgeModel?
      ensures Failedover(old(rows), rows, request, maxAttempts, replies, now, outcome, tried)
    {
      hide Eligible, AfterReplies, IsHead, RETRYABLE_UPSTREAM, ExactWake, HeadsInTurn, Retryable;
      tried := [];
      var attempt := 0;
      NothingTried(rows, request, replies, now, tried);
      while attempt < maxAttempts
        invariant 0 <= attempt == |tried| && (attempt == 0 || attempt < maxAttempts)
        invariant Keyed(rows) && HeadsInTurn(old(rows), request, replies, now, tried)
        invariant tried != [] ==> Retryable(replies(|tried| - 1))
        invariant rows == AfterReplies(old(rows), tried, replies, now)
        decreases maxAttempts - attempt
      {
        var placed := PlaceStored(request, now);
        if placed.WaitingForCompute? { return Waiting(placed.retryAt), tried; }
        var reply := replies(attempt);
        tried := Attempt(request, placed.candidate.id, reply, now, old(rows), tried, replies);
        if reply.TransportError? { return GatewayUnavailable, tried; }
        if Retryable(reply) && attempt + 1 < maxAttempts {
          attempt := attempt + 1;
        } else {
          return Response(reply.status, placed.candidate.id), tried;
        }
      }
      outcome := Waiting(None);
    }

    // One forwarded request: a retryable answer is observed, anything else leaves the rows alone.
    method Attempt(request: Request, id: string, reply: Reply, now: Time,
                   ghost start: Deployments, before: seq<string>, ghost replies: nat -> Reply)
      returns (tried: seq<string>)
      requires Keyed(rows) && HeadsInTurn(start, request, replies, now, before)
      requires before != [] ==> Retryable(replies(|before| - 1))
      requires id in rows && IsHead(rows, request, now, id) && reply == replies(|before|)
      requires rows == AfterReplies(start, before, replies, now)
      modifies this
      ensures Keyed(rows) && rows.Keys == old(rows).Keys && tried == before + [id]
      ensures HeadsInTurn(start, request, replies, now, tried)
      ensures rows == AfterReplies(start, tried, replies, now)
    {
      hide Eligible, AfterReplies, IsHead, Classify, HeadsInTurn, Retryable;
      OneMoreReply(start, request, replies, now, before, id);
      tried := before + [id];
      if Retryable(reply) {
        RetryableIsHttp(reply);
        var known := RecordAvailability(id, Classify(ObservationOf(reply), now));
      }
    }

    method PlaceStored(request: Request, now: Time) returns (p: Placement)
      requires Keyed(rows)
      ensures p.Placed? ==> p.candidate.id in rows && IsHead(rows, request, now, p.candidate.id)
      ensures p.WaitingForCompute? ==>
                (forall id :: id in rows ==> !Eligible(request, rows[id], now))
                    && ExactWake(rows, request, now, p.retryAt)
    {
      hide Eligible, Ranks, Compatible;
      var pool := ListCandidates();
      p := Place(request, pool, now);
      if p.WaitingForCompute? {
        WakeOfRows(rows, request, now, pool, p.retryAt);
        forall id | id in rows ensures !Eligible(request, rows[id], now) {
          assert rows[id] in pool;
        }
      } else {
        forall other | other in rows && Eligible(request, rows[other], now) && other != p.candidate.id
          ensures Ranks(request, p.candidate, rows[other])
        {
          assert rows[other] in pool;
        }
      }
    }
  }

  // Some compatible deployment has this future retry time.
  predicate WakesAt(rows: Deployments, request: Request, now: Time, t: Time) {
    exists id :: id in rows && Compatible(request, rows[id]) && rows[id].retryAt == Some(t) && t > now
  }

  // The announced wake time is the earliest one, and none is announced only if there is none.
  ghost predicate ExactWake(rows: Deployments, request: Request, now: Time, wake: Option<Time>) {
    && (wake.Some? ==> WakesAt(rows, request, now, wake.value))
    && (forall t :: WakesAt(rows, request, now, t) ==> wake.Some? && wake.value <= t)
  }

  lemma WakeOfRows(rows: Deployments, request: Request, now: Time, pool: seq<Candidate>, wake: Option<Time>)
    requires Keyed(rows) && forall c :: c in pool <==> c.id in rows && rows[c.id] == c
    requires IsPlacement(request, pool, now, WaitingForCompute(wake))
    ensures ExactWake(rows, request, now, wake)
  {
    hide Compatible, Eligible;
    forall t ensures WakesAt(rows, request, now, t) <==> InPool(pool, request, now, t) {
      if InPool(pool, request, now, t) {
        var i :| 0 <= i < |pool| && Compatible(request, pool[i]) && pool[i].retryAt == Some(t) && t > now;
        assert pool[i] in pool;
        assert rows[pool[i].id] == pool[i];
      }
      if WakesAt(rows, request, now, t) {
        var id :| id in rows && Compatible(request, rows[id]) && rows[id].retryAt == Some(t) && t > now;
        assert rows[id] in pool;
        var i :| 0 <= i < |pool| && pool[i] == rows[id];
      }
    }
  }

  function RequestFor(model: string, sensitivity: string): Request
    requires model in MODEL_ALIASES
  {
    Routing.Request(MODEL_ALIASES[model], sensitivity, false, false)
  }

  ghost predicate IsHead(rows: Deployments, request: Request, now: Time, id: string)
    requires id in rows
  {
    && Eligible(request, rows[id], now)
    && forall other :: other in rows && Eligible(request, rows[other], now) && other != id ==>
        Ranks(request, rows[id], rows[other])
  }

  // Each tried deployment headed the eligible ones on the rows as they were then, after every earlier
  // answer, all of them retryable, had been recorded.
  ghost predicate HeadsInTurn(start: Deployments, request: Request, replies: nat -> Reply, now: Time,
                              tried: seq<string>) {
    if tried == [] then true
    else
      var k := |tried| - 1;
      && HeadsInTurn(start, request, replies, now, tried[..k])
      && (k > 0 ==> Retryable(replies(k - 1)))
      && tried[k] in start && IsHead(AfterReplies(start, tried[..k], replies, now), request, now, tried[k])
  }

  // What one call did: whom it tried, that every retryable answer was recorded, and that the outcome
  // is the last answer or the lack of a candidate, with the earliest retry time then on record.
  ghost predicate Failedover(start: Deployments, rows: Deployments, request: Request, maxAttempts: int,
                             replies: nat -> Reply, now: Time, outcome: Outcome, tried: seq<string>)
  {
    && HeadsInTurn(start, request, replies, now, tried)
    && rows == AfterReplies(start, tried, replies, now)
    && |tried| <= (if maxAttempts > 0 then maxAttempts else 0)
    && match outcome
       case UnknownForgeModel => false
       case GatewayUnavailable => tried != [] && replies(|tried| - 1).TransportError?
       case Response(status, id) =>
         && tried != [] && id == tried[|tried| - 1]
         && replies(|tried| - 1).Http? && status == replies(|tried| - 1).status
         && (Retryable(replies(|tried| - 1)) ==> |tried| == maxAttempts)
       case Waiting(wake) =>
         if maxAttempts <= 0 then tried == [] && wake.None?
         else
           && (tried != [] ==> Retryable(replies(|tried| - 1)))
           && (forall id :: id in rows ==> !Eligible(request, rows[id], now))
           && ExactWake(rows, request, now, wake)
  }

  lemma NothingTried(rows: Deployments, request: Request, replies: nat -> Reply, now: Time, tried: seq<string>)
    requires tried == []
    ensures AfterReplies(rows, tried, replies, now) == rows && HeadsInTurn(rows, request, replies, now, tried)
  {
  }

  lemma RetryableIsHttp(reply: Reply)
    requires Retryable(reply)
    ensures reply.Http?
  {
  }

  lemma OneMoreReply(start: Deployments, request: Request, replies: nat -> Reply, now: Time, tried: seq<string>,
                     id: string)
    requires HeadsInTurn(start, request, replies, now, tried)
    requires tried != [] ==> Retryable(replies(|tried| - 1))
    requires id in start && IsHead(AfterReplies(start, tried, replies, now), request, now, id)
    ensures HeadsInTurn(start, request, replies, now, tried + [id])
    ensures AfterReplies(start, tried + [id], replies, now)
         == var before := AfterReplies(start, tried, replies, now);
            if Retryable(replies(|tried|))
            then Recorded(before, id, Classify(ObservationOf(replies(|tried|)), now))
            else before
  {
    hide IsHead;
    assert (tried + [id])[..|tried|] == tried;
  }

  // ----- Whom the loop tries -----

  // The tried deployments without immediate repetitions.
  function Collapsed(tried: seq<string>): seq<string> {
    if tried == [] then []
    else
      var k := |tried| - 1;
      Collapsed(tried[..k]) + (if k > 0 && tried[k - 1] == tried[k] then [] else [tried[k]])
  }

  lemma {:induction false} CollapsedMember(tried: seq<string>, id: string)
    ensures id in Collapsed(tried) <==> id in tried
  {
    if tried != [] {
      var front, last := tried[..|tried| - 1], tried[|tried| - 1];
      CollapsedMember(front, id);
      assert id in tried <==> id in front || id == last;
    }
  }

  lemma CollapsedSnoc(tried: seq<string>, id: string)
    ensures Collapsed(tried + [id]) == Collapsed(tried) + (if tried != [] && tried[|tried| - 1] == id then [] else [id])
  {
    assert (tried + [id])[..|tried|] == tried;
  }

  // The state of the rows after retryable answers only: untried deployments are as at the start, no
  // deployment's rank has changed, the tried ones are the first of the ranking, and among them only
  // the last can still be eligible, exactly when its answer announced a negative delay.
  ghost predicate InStep(start: Deployments, rows: Deployments, request: Request, now: Time, tried: seq<string>,
                         replies: nat -> Reply)
    requires Keyed(start)
  {
    && rows.Keys == start.Keys
    && (forall id :: id in start ==> SameRank(start[id], rows[id]))
    && (forall id :: id in start && id !in tried ==> rows[id] == start[id])
    && Collapsed(tried) <= Ranking(start, request, now)
    && (forall id :: id in tried && id in rows ==>
          (Eligible(request, rows[id], now) <==> id == tried[|tried| - 1] && Negative(replies(|tried| - 1))))
  }

  // Only state and retry time differ.
  predicate SameRank(a: Candidate, b: Candidate) {
    b == a.(state := b.state, retryAt := b.retryAt)
  }

  lemma RanksAlike(request: Request, a: Candidate, b: Candidate, c: Candidate, d: Candidate)
    requires SameRank(a, b) && SameRank(c, d)
    ensures Ranks(request, a, c) <==> Ranks(request, b, d)
  {
    hide Precedes;
  }

  // Ranked later means ranked lower.
  lemma LaterRanksLower(rows: Deployments, request: Request, now: Time, k: nat, early: string, late: string)
    requires Keyed(rows) && k <= |Ranking(rows, request, now)|
    requires early in Ranking(rows, request, now)[..k]
    requires late in Ranking(rows, request, now) && late !in Ranking(rows, request, now)[..k]
    ensures early in rows && late in rows && Ranks(request, rows[early], rows[late])
  {
    hide Ranks, EligibleIds, Score;
    var order := Ranking(rows, request, now);
    var i :| 0 <= i < k && order[i] == early;
    var j :| 0 <= j < |order| && order[j] == late;
    assert forall m :: 0 <= m < k ==> order[m] in order[..k];
    assert j >= k;
  }

  // In step, an untried deployment is as it was, and a tried one can be eligible only if it is the
  // last and its answer announced a negative delay.
  lemma StepAt(start: Deployments, rows: Deployments, request: Request, now: Time, tried: seq<string>,
               replies: nat -> Reply, id: string)
    requires Keyed(start) && InStep(start, rows, request, now, tried, replies) && id in start
    ensures id in rows && SameRank(start[id], rows[id])
    ensures id in Collapsed(tried) <==> id in tried
    ensures if id !in tried then rows[id] == start[id]
            else Eligible(request, rows[id], now) <==> id == tried[|tried| - 1] && Negative(replies(|tried| - 1))
  {
    hide Eligible, Negative, SameRank, Ranking, InRankOrder;
    CollapsedMember(tried, id);
  }

  lemma StepFollowsRanking(start: Deployments, rows: Deployments, request: Request, now: Time, tried: seq<string>,
                           replies: nat -> Reply)
    requires Keyed(start) && InStep(start, rows, request, now, tried, replies)
    ensures Collapsed(tried) <= Ranking(start, request, now) && rows.Keys == start.Keys
  {
    hide Ranking, Collapsed;
  }

  // Whom the loop tries next: the last one again after a negative delay, else the next of the ranking.
  lemma NextTry(start: Deployments, rows: Deployments, request: Request, now: Time, tried: seq<string>,
                replies: nat -> Reply, id: string)
    requires Keyed(start) && InStep(start, rows, request, now, tried, replies)
    requires id in rows && IsHead(rows, request, now, id)
    ensures if tried != [] && Negative(replies(|tried| - 1)) then id == tried[|tried| - 1] else id !in tried
    ensures Collapsed(tried + [id]) <= Ranking(start, request, now)
  {
    hide InStep, IsHead, Negative, Ranking, InRankOrder, Collapsed;
    CollapsedSnoc(tried, id);
    StepFollowsRanking(start, rows, request, now, tried, replies);
    if tried != [] && Negative(replies(|tried| - 1)) {
      LastStaysHead(start, rows, request, now, tried, replies, id);
    } else {
      HeadIsNext(start, rows, request, now, tried, replies, id);
    }
  }

  lemma EligibleIsRanked(rows: Deployments, request: Request, now: Time, id: string)
    requires Keyed(rows)
    ensures id in Ranking(rows, request, now) <==> id in rows && Eligible(request, rows[id], now)
  {
    hide Eligible, InRankOrder, Ranking;
  }

  lemma LastStaysHead(start: Deployments, rows: Deployments, request: Request, now: Time, tried: seq<string>,
                      replies: nat -> Reply, id: string)
    requires Keyed(start) && InStep(start, rows, request, now, tried, replies)
    requires tried != [] && Negative(replies(|tried| - 1))
    requires id in rows && IsHead(rows, request, now, id)
    ensures id == tried[|tried| - 1]
  {
    hide *;
    var last, k := tried[|tried| - 1], |Collapsed(tried)|;
    StepFollowsRanking(start, rows, request, now, tried, replies);
    CollapsedMember(tried, last);
    assert last in Ranking(start, request, now)[..k];
    if id != last {
      StepAt(start, rows, request, now, tried, replies, id);
      HeadBeats(rows, request, now, id, id);
      EligibleIsRanked(start, request, now, id);
      LaterRanksLower(start, request, now, k, last, id);
      StepAt(start, rows, request, now, tried, replies, last);
      HeadBeats(rows, request, now, id, last);
      RanksAlike(request, start[last], rows[last], start[id], rows[id]);
      RanksAsymmetric(request, rows[last], rows[id]);
    }
  }

  lemma HeadIsNext(start: Deployments, rows: Deployments, request: Request, now: Time, tried: seq<string>,
                   replies: nat -> Reply, id: string)
    requires Keyed(start) && InStep(start, rows, request, now, tried, replies)
    requires tried == [] || !Negative(replies(|tried| - 1))
    requires id in rows && IsHead(rows, request, now, id)
    ensures id !in tried && Collapsed(tried) + [id] <= Ranking(start, request, now)
  {
    hide *;
    var order, k := Ranking(start, request, now), |Collapsed(tried)|;
    StepFollowsRanking(start, rows, request, now, tried, replies);
    HeadIsNew(start, rows, request, now, tried, replies, id);
    forall other | other in start && UntriedRival(start, request, now, tried, id, other)
      ensures Ranks(request, start[id], start[other])
    {
      RivalRanksLower(start, rows, request, now, tried, replies, id, other);
    }
    RankingGoesOn(start, request, now, tried, id);
  }

  // Another initially eligible deployment that has not been tried.
  ghost predicate UntriedRival(start: Deployments, request: Request, now: Time, tried: seq<string>, id: string,
                               other: string) {
    other in start && id in start && other != id && Eligible(request, start[other], now) && other !in Collapsed(tried)
  }

  lemma HeadIsNew(start: Deployments, rows: Deployments, request: Request, now: Time, tried: seq<string>,
                  replies: nat -> Reply, id: string)
    requires Keyed(start) && InStep(start, rows, request, now, tried, replies)
    requires tried == [] || !Negative(replies(|tried| - 1))
    requires id in rows && IsHead(rows, request, now, id)
    ensures id in start && Eligible(request, start[id], now) && rows[id] == start[id] && id !in tried
        && id !in Collapsed(tried)
  {
    hide *;
    StepFollowsRanking(start, rows, request, now, tried, replies);
    StepAt(start, rows, request, now, tried, replies, id);
    HeadBeats(rows, request, now, id, id);
  }

  lemma RivalRanksLower(start: Deployments, rows: Deployments, request: Request, now: Time, tried: seq<string>,
                        replies: nat -> Reply, id: string, other: string)
    requires Keyed(start) && InStep(start, rows, request, now, tried, replies)
    requires id in rows && IsHead(rows, request, now, id) && UntriedRival(start, request, now, tried, id, other)
    requires rows[id] == start[id]
    ensures Ranks(request, start[id], start[other])
  {
    hide Ranking, InRankOrder, Ranks, Eligible, Collapsed, EligibleIds, InStep, IsHead, Keyed;
    StepAt(start, rows, request, now, tried, replies, other);
    HeadBeats(rows, request, now, id, other);
  }

  // The first of the ranking, followed by the best of the rest.
  lemma RankingGoesOn(start: Deployments, request: Request, now: Time, tried: seq<string>, id: string)
    requires Keyed(start) && Collapsed(tried) <= Ranking(start, request, now)
    requires id in start && Eligible(request, start[id], now) && id !in Collapsed(tried)
    requires forall other :: other in start && UntriedRival(start, request, now, tried, id, other) ==>
        Ranks(request, start[id], start[other])
    ensures Collapsed(tried) + [id] <= Ranking(start, request, now)
  {
    hide Ranking, InRankOrder, Ranks, Eligible, Collapsed, EligibleIds;
    var order, k := Ranking(start, request, now), |Collapsed(tried)|;
    NextInRanking(start, request, now, k, id);
    Extended(order, k, id);
  }

  lemma Extended(order: seq<string>, k: nat, id: string)
    requires k < |order| && order[k] == id
    ensures order[..k] + [id] <= order
  {
  }

  lemma HeadBeats(rows: Deployments, request: Request, now: Time, id: string, other: string)
    requires id in rows && IsHead(rows, request, now, id)
    ensures Eligible(request, rows[id], now)
    ensures other in rows && other != id && Eligible(request, rows[other], now) ==>
        Ranks(request, rows[id], rows[other])
  {
    hide Eligible, Ranks;
  }

  lemma RecordingKeepsStep(start: Deployments, rows: Deployments, request: Request, now: Time,
                           tried: seq<string>, replies: nat -> Reply, id: string)
    requires Keyed(start) && InStep(start, rows, request, now, tried, replies)
    requires id in rows && IsHead(rows, request, now, id) && Retryable(replies(|tried|))
    ensures InStep(start, Recorded(rows, id, Classify(ObservationOf(replies(|tried|)), now)), request, now,
        tried + [id], replies)
  {
    hide Ranks, Ranking, InRankOrder, Score, Classify, Compatible, AnnouncesNegative, Collapsed;
    var reply, longer := replies(|tried|), tried + [id];
    var a := Classify(ObservationOf(reply), now);
    var after := Recorded(rows, id, a);
    NextTry(start, rows, request, now, tried, replies, id);
    RetryableAnswerBlocks(ObservationOf(reply), now, rows[id]);
    forall other | other in longer && other in after
      ensures Eligible(request, after[other], now) <==> other == id && Negative(reply)
    {
      if other == id {
        assert Compatible(request, after[id]) by { CompatibleAlike(request, rows[id], a); }
      } else {
        assert other in tried && after[other] == rows[other];
      }
    }
  }

  lemma CompatibleAlike(request: Request, c: Candidate, a: Availability)
    ensures Compatible(request, c) <==> Compatible(request, c.(state := a.state, retryAt := a.retryAt))
  {
  }

  lemma LastTry(start: Deployments, request: Request, replies: nat -> Reply, now: Time, tried: seq<string>)
    requires tried != [] && HeadsInTurn(start, request, replies, now, tried)
    ensures var k := |tried| - 1;
            var before := AfterReplies(start, tried[..k], replies, now);
            && HeadsInTurn(start, request, replies, now, tried[..k])
            && (tried[..k] != [] ==> Retryable(replies(k - 1)))
            && tried[k] in before && IsHead(before, request, now, tried[k])
            && AfterReplies(start, tried, replies, now)
               == if Retryable(replies(k))
                  then Recorded(before, tried[k], Classify(ObservationOf(replies(k)), now))
                  else before
  {
    hide IsHead, Retryable, Recorded, Classify;
  }

  lemma StartsInStep(start: Deployments, request: Request, now: Time, replies: nat -> Reply, tried: seq<string>)
    requires Keyed(start) && tried == []
    ensures AfterReplies(start, tried, replies, now) == start && InStep(start, start, request, now, tried, replies)
  {
    hide Eligible, Ranking, InRankOrder;
  }

  lemma {:induction false} TriesStayInStep(start: Deployments, request: Request, now: Time, tried: seq<string>,
                                           replies: nat -> Reply)
    requires Keyed(start) && HeadsInTurn(start, request, replies, now, tried)
    requires tried != [] ==> Retryable(replies(|tried| - 1))
    ensures InStep(start, AfterReplies(start, tried, replies, now), request, now, tried, replies)
  {
    hide *;
    if tried == [] {
      StartsInStep(start, request, now, replies, tried);
    } else {
      var k := |tried| - 1;
      LastTry(start, request, replies, now, tried);
      TriesStayInStep(start, request, now, tried[..k], replies);
      RecordingKeepsStep(start, AfterReplies(start, tried[..k], replies, now), request, now, tried[..k], replies,
          tried[k]);
      assert tried[..k] + [tried[k]] == tried;
    }
  }

  // The tried deployments, repetitions aside, are the first of the ranking of the initially eligible
  // ones; after a negative delay the last one is tried again, and otherwise the next one is new.
  lemma TriesFollowRanking(start: Deployments, request: Request, now: Time, tried: seq<string>, replies: nat -> Reply)
    requires Keyed(start) && HeadsInTurn(start, request, replies, now, tried) && tried != []
    ensures Collapsed(tried) <= Ranking(start, request, now)
    ensures var k := |tried| - 1;
            k > 0 ==> if Negative(replies(k - 1)) then tried[k] == tried[k - 1] else tried[k] !in tried[..k]
  {
    hide Ranking, InRankOrder, InStep, IsHead, Retryable, Negative, Collapsed, AfterReplies, HeadsInTurn;
    hide EligibleIds, Keyed;
    var k := |tried| - 1;
    LastTry(start, request, replies, now, tried);
    TriesStayInStep(start, request, now, tried[..k], replies);
    NextTry(start, AfterReplies(start, tried[..k], replies, now), request, now, tried[..k], replies, tried[k]);
    assert tried[..k] + [tried[k]] == tried;
  }

  lemma {:induction false} TryAfter(start: Deployments, request: Request, now: Time, tried: seq<string>,
                                    replies: nat -> Reply, k: nat)
    requires Keyed(start) && HeadsInTurn(start, request, replies, now, tried) && k + 1 < |tried|
    ensures if Negative(replies(k)) then tried[k + 1] == tried[k] else tried[k + 1] !in tried[..k + 1]
  {
    hide Ranking, InRankOrder, IsHead, Retryable, Negative, Collapsed, AfterReplies, HeadsInTurn;
    if k + 2 == |tried| {
      TriesFollowRanking(start, request, now, tried, replies);
    } else {
      var front := tried[..|tried| - 1];
      LastTry(start, request, replies, now, tried);
      TryAfter(start, request, now, front, replies, k);
      assert front[k + 1] == tried[k + 1] && front[..k + 1] == tried[..k + 1];
    }
  }

  ghost predicate Distinct(ids: seq<string>) {
    forall i, j :: 0 <= i < j < |ids| ==> ids[i] != ids[j]
  }

  // A call tries pairwise distinct deployments if and only if no answer but the last announces a
  // negative delay; after one that does, the same deployment is tried again at once.
  lemma DistinctTriesExactly(start: Deployments, request: Request, now: Time, tried: seq<string>, replies: nat -> Reply)
    requires Keyed(start) && HeadsInTurn(start, request, replies, now, tried)
    ensures Distinct(tried) <==> forall k :: 0 <= k < |tried| - 1 ==> !Negative(replies(k))
    ensures forall k :: 0 <= k < |tried| - 1 ==> (tried[k + 1] == tried[k] <==> Negative(replies(k)))
  {
    hide HeadsInTurn, Ranking, InRankOrder, Negative, Collapsed;
    forall k | 0 <= k < |tried| - 1 ensures tried[k + 1] == tried[k] <==> Negative(replies(k)) {
      TryAfter(start, request, now, tried, replies, k);
      assert tried[..k + 1][k] == tried[k];
    }
    if forall k :: 0 <= k < |tried| - 1 ==> !Negative(replies(k)) {
      forall i, j | 0 <= i < j < |tried| ensures tried[i] != tried[j] {
        var k := j - 1;
        assert !Negative(replies(k));
        TryAfter(start, request, now, tried, replies, k);
        assert tried[..k + 1][i] == tried[i];
      }
    } else {
      var k :| 0 <= k < |tried| - 1 && Negative(replies(k));
      assert tried[k + 1] == tried[k];
    }
  }

  // The loop goes on with the same deployment: a call whose k-th answer announces a negative delay,
  // with attempts left, makes a further attempt, and makes it there.
  lemma NegativeDelayRetriesTheSame(start: Deployments, rows: Deployments, request: Request, maxAttempts: int,
                                    replies: nat -> Reply, now: Time, outcome: Outcome, tried: seq<string>, k: nat)
    requires Keyed(start) && Failedover(start, rows, request, maxAttempts, replies, now, outcome, tried)
    requires k < |tried| && k + 1 < maxAttempts && Negative(replies(k))
    ensures k + 1 < |tried| && tried[k + 1] == tried[k]
  {
    hide HeadsInTurn, Ranking, AnnouncesNegative, ExactWake, AfterReplies;
    DistinctTriesExactly(start, request, now, tried, replies);
    if k + 1 == |tried| {
      LastTry(start, request, replies, now, tried);
      TriesStayInStep(start, request, now, tried, replies);
      StepAt(start, rows, request, now, tried, replies, tried[k]);
    }
  }

  lemma {:induction false} UntriedKeepTheirRows(start: Deployments, tried: seq<string>, replies: nat -> Reply,
                                                now: Time)
    ensures forall id :: id in start && id !in tried ==> AfterReplies(start, tried, replies, now)[id] == start[id]
  {
    if tried != [] {
      UntriedKeepTheirRows(start, tried[..|tried| - 1], replies, now);
    }
  }

  // A call that waits has tried every deployment that was eligible at its start, best first, whatever
  // the delays; and no call touches a deployment it did not try.
  lemma WaitingMeansAllTried(start: Deployments, rows: Deployments, request: Request, maxAttempts: int,
                             replies: nat -> Reply, now: Time, outcome: Outcome, tried: seq<string>)
    requires Keyed(start) && Failedover(start, rows, request, maxAttempts, replies, now, outcome, tried)
    ensures Collapsed(tried) <= Ranking(start, request, now)
    ensures outcome.Waiting? && maxAttempts > 0 ==> Collapsed(tried) == Ranking(start, request, now)
    ensures forall id :: id in start && id !in tried ==> id in rows && rows[id] == start[id]
  {
    hide HeadsInTurn, Ranking, InRankOrder, Negative, ExactWake, AfterReplies, Eligible, Retryable;
    NoTriesCollapse();
    hide Collapsed;
    if tried != [] { TriesFollowRanking(start, request, now, tried, replies); }
    UntriedKeepTheirRows(start, tried, replies, now);
    if outcome.Waiting? && maxAttempts > 0 {
      var order := Ranking(start, request, now);
      forall id | id in order ensures id in Collapsed(tried) {
        EligibleIsRanked(start, request, now, id);
        CollapsedMember(tried, id);
      }
      AllRanked(start, request, now, |Collapsed(tried)|);
    }
  }

  lemma NoTriesCollapse()
    ensures Collapsed([]) == []
  {
  }

  // A prefix of the ranking that contains every ranked deployment is the whole ranking.
  lemma AllRanked(rows: Deployments, request: Request, now: Time, k: nat)
    requires Keyed(rows) && k <= |Ranking(rows, request, now)|
    requires forall id :: id in Ranking(rows, request, now) ==> id in Ranking(rows, request, now)[..k]
    ensures k == |Ranking(rows, request, now)|
  {
    hide Ranks, EligibleIds, Ranking;
    var order := Ranking(rows, request, now);
    if k < |order| {
      assert order[k] in order;
      var i :| 0 <= i < k && order[i] == order[k];
      RanksIrreflexive(request, rows[order[k]]);
    }
  }

  lemma {:induction false} DistinctIsCollapsed(tried: seq<string>)
    requires Distinct(tried)
    ensures Collapsed(tried) == tried
  {
    if tried != [] { DistinctIsCollapsed(tried[..|tried| - 1]); }
  }

  // When no answer but possibly the last announces a negative delay, a call tries pairwise distinct
  // deployments in exactly the order of the ranking of those eligible at its start, and each of them
  // ranks before every eligible one it did not try.
  lemma FailoverIsOrderly(start: Deployments, rows: Deployments, request: Request, maxAttempts: int,
                          replies: nat -> Reply, now: Time, outcome: Outcome, tried: seq<string>)
    requires Keyed(start) && Failedover(start, rows, request, maxAttempts, replies, now, outcome, tried)
    requires forall k :: 0 <= k < |tried| - 1 ==> !Negative(replies(k))
    ensures Distinct(tried) && tried <= Ranking(start, request, now)
    ensures forall k :: 0 <= k < |tried| ==> Eligible(request, start[tried[k]], now)
    ensures forall i, j :: 0 <= i < j < |tried| ==> Ranks(request, start[tried[i]], start[tried[j]])
    ensures forall i, id :: 0 <= i < |tried| && id in start && Eligible(request, start[id], now) && id !in tried ==>
              Ranks(request, start[tried[i]], start[id])
  {
    hide Ranks, Eligible, HeadsInTurn, AfterReplies, Negative, Ranking, ExactWake, Collapsed;
    hide IsHead, Retryable;
    DistinctTriesExactly(start, request, now, tried, replies);
    if tried != [] { TriesFollowRanking(start, request, now, tried, replies); }
    DistinctIsCollapsed(tried);
    var order := Ranking(start, request, now);
    assert tried == order[..|tried|];
    assert forall k :: 0 <= k < |tried| ==> tried[k] == order[k] && tried[k] in order;
    forall i, id | 0 <= i < |tried| && id in start && Eligible(request, start[id], now) && id !in tried
      ensures Ranks(request, start[tried[i]], start[id])
    {
      assert id in order && tried[i] in order[..|tried|];
      LaterRanksLower(start, request, now, |tried|, tried[i], id);
    }
  }

  // ----- Aliases, retries and permission, in plain terms -----

  // Underscores written as dashes.
  function Dashed(name: string): string {
    seq(|name|, i requires 0 <= i < |name| => if name[i] == '_' then '-' else name[i])
  }

  predicate IsCapability(name: string) {
    || name == "fast" || name == "reasoning" || name == "coding" || name == "review" || name == "research"
    || name == "documentation" || name == "tool_use"
  }

  // The alias of a capability is its name with dashes under "forge/", and there is no other alias.
  lemma AliasesExactly(model: string, capability: string)
    ensures model in MODEL_ALIASES && MODEL_ALIASES[model] == capability
       <==> IsCapability(capability) && model == "forge/" + Dashed(capability)
  {
    if IsCapability(capability) {
      AliasSpelling(capability);
    }
    if model in MODEL_ALIASES && MODEL_ALIASES[model] == capability {
      AliasSpelling(capability);
    }
  }

  lemma DashedCapability(capability: string)
    requires IsCapability(capability)
    ensures Dashed(capability) == if capability == "tool_use" then "tool-use" else capability
  {
    if capability == "tool_use" {
      assert Dashed(capability) == "tool-use";
    } else {
      assert '_' !in capability;
    }
  }

  // The alias table read backwards.
  lemma AliasSpelling(capability: string)
    requires IsCapability(capability)
    ensures var model := "forge/" + Dashed(capability); model in MODEL_ALIASES && MODEL_ALIASES[model] == capability
  {
    hide Dashed;
    DashedCapability(capability);
    if capability == "tool_use" {
      assert "forge/" + "tool-use" == "forge/tool-use";
    } else if capability == "fast" {
      assert "forge/" + "fast" == "forge/fast";
    } else if capability == "coding" {
      assert "forge/" + "coding" == "forge/coding";
    } else if capability == "review" {
      assert "forge/" + "review" == "forge/review";
    } else if capability == "research" {
      assert "forge/" + "research" == "forge/research";
    } else if capability == "documentation" {
      assert "forge/" + "documentation" == "forge/documentation";
    } else {
      assert "forge/" + "reasoning" == "forge/reasoning";
    }
  }

  // A forwarded call asks for the alias's capability, allows no paid deployment and prefers none.
  lemma ForwardedRequest(model: string, sensitivity: string)
    requires model in MODEL_ALIASES
    ensures var request := RequestFor(model, sensitivity);
            && IsCapability(request.capability) && model == "forge/" + Dashed(request.capability)
            && request.sensitivity == sensitivity && !request.allowPaid && !request.preferLocal
  {
    hide Dashed, IsCapability, MODEL_ALIASES;
    AliasesExactly(model, MODEL_ALIASES[model]);
  }

  predicate TryAgain(reply: Reply) {
    reply.Http? && (reply.status == 429 || reply.status == 502 || reply.status == 503 || reply.status == 504)
  }

  lemma RetryableIsTryAgain(reply: Reply)
    ensures Retryable(reply) <==> TryAgain(reply)
  {
  }

  // Every answer but the last was 429, 502, 503 or 504; an answer is returned once it is none of them
  // or the attempts are used up.
  lemma RetriesExactly(start: Deployments, rows: Deployments, request: Request, maxAttempts: int,
                       replies: nat -> Reply, now: Time, outcome: Outcome, tried: seq<string>)
    requires Failedover(start, rows, request, maxAttempts, replies, now, outcome, tried)
    ensures forall k :: 0 <= k < |tried| - 1 ==> TryAgain(replies(k))
    ensures outcome.Response? ==> |tried| == maxAttempts || !TryAgain(replies(|tried| - 1))
    ensures outcome.Waiting? && tried != [] ==> TryAgain(replies(|tried| - 1))
  {
    hide HeadsInTurn, AfterReplies, Eligible, ExactWake, Retryable, TryAgain;
    if tried != [] { RetryableIsTryAgain(replies(|tried| - 1)); }
    forall k | 0 <= k < |tried| - 1 ensures TryAgain(replies(k)) {
      AnsweredBefore(start, request, replies, now, tried, k);
      RetryableIsTryAgain(replies(k));
    }
  }

  lemma {:induction false} AnsweredBefore(start: Deployments, request: Request, replies: nat -> Reply, now: Time,
                                          tried: seq<string>, k: nat)
    requires HeadsInTurn(start, request, replies, now, tried) && k < |tried| - 1
    ensures Retryable(replies(k))
  {
    hide IsHead, Retryable, AfterReplies;
    if k < |tried| - 2 {
      AnsweredBefore(start, request, replies, now, tried[..|tried| - 1], k);
    }
  }

  // Every deployment tried is enabled, takes the sensitivity, has the capability and is paid only if the
  // request allows it.
  predicate Permitted(request: Request, c: Candidate) {
    && c.enabled && request.sensitivity in c.acceptedSensitivity && (c.costClass == Paid ==> request.allowPaid)
    && request.capability in c.capabilityScores && c.capabilityScores[request.capability] > 0.0
  }

  lemma {:induction false} TriedArePermitted(start: Deployments, request: Request, replies: nat -> Reply, now: Time,
                                             tried: seq<string>, k: nat)
    requires HeadsInTurn(start, request, replies, now, tried) && k < |tried|
    ensures tried[k] in start && Permitted(request, start[tried[k]])
  {
    hide AfterReplies;
    var n := |tried| - 1;
    if k < n {
      TriedArePermitted(start, request, replies, now, tried[..n], k);
    } else {
      OnlyAvailabilityMoves(start, tried[..n], replies, now, tried[n]);
    }
  }

  lemma {:induction false} OnlyAvailabilityMoves(start: Deployments, tried: seq<string>, replies: nat -> Reply,
                                                 now: Time, id: string)
    requires id in start
    ensures SameRank(start[id], AfterReplies(start, tried, replies, now)[id])
  {
    hide Retryable, Classify;
    if tried != [] { OnlyAvailabilityMoves(start, tried[..|tried| - 1], replies, now, id); }
  }

  // What a retryable answer writes to the row of the deployment that gave it.
  lemma RetryRecords(reply: Reply, now: Time)
    requires TryAgain(reply)
    ensures var a := Classify(ObservationOf(reply), now);
            if reply.status != 429 then
              a == Availability(ProviderDegraded,
                                Some(now + if Truthy(reply.retryAfter) then reply.retryAfter.value else 120000000))
            else
              var delay :=
                if reply.noRequestsLeft && Truthy(reply.requestReset) then reply.requestReset.value
                else if reply.noTokensLeft && Truthy(reply.tokenReset) then reply.tokenReset.value
                else if Truthy(reply.retryAfter) then reply.retryAfter.value
                else if Truthy(reply.requestReset) then reply.requestReset.value
                else if Truthy(reply.tokenReset) then reply.tokenReset.value
                else 60000000;
              a == Availability(if delay <= 3600000000 then ThrottledShort else QuotaExhausted, Some(now + delay))
  {
    hide Classify;
    var obs := ObservationOf(reply);
    StatesExactly(obs, now);
    if reply.status == 429 {
      RateLimitAnswer(obs, now);
    }
  }
}
