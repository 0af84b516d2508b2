// Task Capsule checkpointing: an optimistic append with idempotent replay.
//
// The database is the sequence of committed rows, in commit order; because rows are only ever
// appended, "a read that sees an earlier state" is a read of a prefix of that sequence.
module TaskCapsules {
  import opened Common

  type Revision = r: nat | 1 <= r witness 1

  // A capsule as submitted. `body` stands for the fields the protocol never looks at.
  datatype Capsule = Capsule(capsuleId: string, revision: Revision, projectId: string, taskId: string, body: string)

  // A stored row; `payload` is the JSON dump of the whole capsule.
  datatype Row = Row(capsuleId: string, projectId: string, taskId: string, revision: Revision, payload: Capsule)

  // The payload-bearing part of a `capsule.checkpointed` event.
  datatype Event = Checkpointed(projectId: string, taskId: string, capsuleId: string, revision: Revision)

  function RowOf(c: Capsule): Row {
    Row(c.capsuleId, c.projectId, c.taskId, c.revision, c)
  }

  function EventOf(r: Row): Event {
    Checkpointed(r.projectId, r.taskId, r.capsuleId, r.revision)
  }

  function EventsOf(rows: seq<Row>): seq<Event> {
    seq(|rows|, i requires 0 <= i < |rows| => EventOf(rows[i]))
  }

  // ----- What one call reads and decides -----

  // ORDER BY revision DESC LIMIT 1.
  function LatestRow(rows: seq<Row>, taskId: string): Option<Row> {
    if rows == [] then None
    else
      var last := rows[|rows| - 1];
      var rest := LatestRow(rows[..|rows| - 1], taskId);
      if last.taskId == taskId && (rest.None? || rest.value.revision < last.revision) then Some(last) else rest
  }

  function RecordedRevision(rows: seq<Row>, taskId: string, revision: Revision): Option<Row> {
    if rows == [] then None
    else
      var last := rows[|rows| - 1];
      if last.taskId == taskId && last.revision == revision then Some(last)
      else RecordedRevision(rows[..|rows| - 1], taskId, revision)
  }

  predicate SameCheckpoint(recorded: Row, c: Capsule) {
    recorded.capsuleId == c.capsuleId && recorded.payload == c
  }

  datatype Plan = Replay | Refuse | Insert

  // The branches between the two reads and the insert.
  function PlanSave(latest: Option<Row>, recorded: Option<Row>, c: Capsule): Plan {
    if recorded.Some? then (if SameCheckpoint(recorded.value, c) then Replay else Refuse)
    else if latest.None? && c.revision != 1 then Refuse
    else if latest.Some? && c.revision != latest.value.revision + 1 then Refuse
    else if latest.Some? && c.capsuleId != latest.value.capsuleId then Refuse
    else Insert
  }

  // The two unique keys: (task_id, revision) and (capsule_id, revision).
  predicate Clash(a: Row, b: Row) {
    a.revision == b.revision && (a.taskId == b.taskId || a.capsuleId == b.capsuleId)
  }

  predicate KeysFree(rows: seq<Row>, row: Row) {
    forall i :: 0 <= i < |rows| ==> !Clash(rows[i], row)
  }

  // What the handler of an integrity error concludes from its fresh read.
  predicate WinnerIsMine(winner: Option<Row>, c: Capsule) {
    winner.Some? && SameCheckpoint(winner.value, c)
  }

  // ----- The table invariant -----

  function History(rows: seq<Row>, taskId: string): seq<Row> {
    if rows == [] then []
    else
      var last := rows[|rows| - 1];
      History(rows[..|rows| - 1], taskId) + (if last.taskId == taskId then [last] else [])
  }

  // Revisions are exactly 1..n and one capsule id runs through them.
  ghost predicate Gapless(h: seq<Row>) {
    forall k :: 0 <= k < |h| ==> h[k].revision == k + 1 && h[k].capsuleId == h[0].capsuleId
  }

  ghost predicate KeysUnique(rows: seq<Row>) {
    forall i, j :: 0 <= i < j < |rows| ==> !Clash(rows[i], rows[j])
  }

  ghost predicate TableValid(rows: seq<Row>, events: seq<Event>) {
    && (forall t: string :: Gapless(History(rows, t)))
    && KeysUnique(rows)
    && (forall r :: r in rows ==> r == RowOf(r.payload))
    && events == EventsOf(rows)
  }

  lemma {:induction false} HistoryMembers(rows: seq<Row>, taskId: string)
    ensures forall r :: r in History(rows, taskId) <==> r in rows && r.taskId == taskId
  {
    if rows != [] {
      HistoryMembers(rows[..|rows| - 1], taskId);
      assert rows == rows[..|rows| - 1] + [rows[|rows| - 1]];
    }
  }

  lemma HistoryOfAppend(rows: seq<Row>, row: Row, taskId: string)
    ensures History(rows + [row], taskId) == History(rows, taskId) + (if row.taskId == taskId then [row] else [])
  {
    assert (rows + [row])[..|rows + [row]| - 1] == rows;
  }

  lemma {:induction false} HistoryOfPrefix(rows: seq<Row>, view: nat, taskId: string)
    requires view <= |rows|
    ensures History(rows[..view], taskId) <= History(rows, taskId)
    decreases |rows| - view
  {
    if view < |rows| {
      HistoryOfPrefix(rows, view + 1, taskId);
      assert rows[..view + 1] == rows[..view] + [rows[view]];
      HistoryOfAppend(rows[..view], rows[view], taskId);
    } else {
      assert rows[..view] == rows;
    }
  }

  // With gapless histories, the row of greatest revision is the last row of the history.
  lemma {:induction false} LatestIsLast(rows: seq<Row>, taskId: string)
    requires Gapless(History(rows, taskId))
    ensures var h := History(rows, taskId);
            LatestRow(rows, taskId) == if h == [] then None else Some(h[|h| - 1])
  {
    if rows != [] {
      var rest := rows[..|rows| - 1];
      var h := History(rows, taskId);
      var before := History(rest, taskId);
      assert before <= h;
      assert forall k :: 0 <= k < |before| ==> before[k] == h[k];
      LatestIsLast(rest, taskId);
    }
  }

  // With gapless histories, revision r of a task is the row at index r - 1 of its history.
  lemma {:induction false} RecordedIsIndexed(rows: seq<Row>, taskId: string, revision: Revision)
    requires Gapless(History(rows, taskId))
    ensures var h := History(rows, taskId);
            RecordedRevision(rows, taskId, revision) == if revision <= |h| then Some(h[revision - 1]) else None
  {
    if rows != [] {
      var rest := rows[..|rows| - 1];
      var h := History(rows, taskId);
      var before := History(rest, taskId);
      assert before <= h;
      assert forall k :: 0 <= k < |before| ==> before[k] == h[k];
      RecordedIsIndexed(rest, taskId, revision);
      if rows[|rows| - 1].taskId == taskId {
        assert h[|h| - 1] == rows[|rows| - 1];
        assert h[|h| - 1].revision == |h|;
      }
    }
  }

  // Every read of an earlier state is a read of a prefix of the task's history.
  lemma ReadsOfView(rows: seq<Row>, events: seq<Event>, view: nat, taskId: string, revision: Revision)
    requires TableValid(rows, events) && view <= |rows|
    ensures var h := History(rows[..view], taskId);
            && h <= History(rows, taskId)
            && LatestRow(rows[..view], taskId) == (if h == [] then None else Some(h[|h| - 1]))
            && RecordedRevision(rows[..view], taskId, revision)
                == (if revision <= |h| then Some(h[revision - 1]) else None)
  {
    HistoryOfPrefix(rows, view, taskId);
    var h := History(rows[..view], taskId);
    assert forall k :: 0 <= k < |h| ==> h[k] == History(rows, taskId)[k];
    assert Gapless(h);
    LatestIsLast(rows[..view], taskId);
    RecordedIsIndexed(rows[..view], taskId, revision);
  }

  lemma GaplessHistory(rows: seq<Row>, events: seq<Event>, taskId: string)
    requires TableValid(rows, events)
    ensures Gapless(History(rows, taskId))
  {
    hide Gapless, History, KeysUnique, EventsOf, RowOf;
  }

  // Two stored rows with one capsule id belong to one task.
  lemma CapsuleIdOwnsOneTask(rows: seq<Row>, events: seq<Event>, a: Row, b: Row)
    requires TableValid(rows, events)
    requires a in rows && b in rows && a.capsuleId == b.capsuleId
    ensures a.taskId == b.taskId
  {
    HistoryMembers(rows, a.taskId);
    HistoryMembers(rows, b.taskId);
    var firstA := History(rows, a.taskId)[0];
    var firstB := History(rows, b.taskId)[0];
    assert firstA in History(rows, a.taskId) && firstB in History(rows, b.taskId);
    assert a in History(rows, a.taskId) && b in History(rows, b.taskId);
    assert firstA.revision == 1 == firstB.revision && firstA.capsuleId == firstB.capsuleId;
    assert Clash(firstA, firstB) && Clash(firstB, firstA);
    assert firstA == firstB;
  }

  lemma OccursOnce<T>(xs: seq<T>, k: nat)
    requires k < |xs| && forall i :: 0 <= i < |xs| && i != k ==> xs[i] != xs[k]
    ensures multiset(xs)[xs[k]] == 1
  {
    assert xs == xs[..k] + [xs[k]] + xs[k + 1..];
    assert xs[k] !in xs[..k] && xs[k] !in xs[k + 1..];
  }

  // Each stored row has exactly one checkpoint event, and every event has its row.
  lemma OneEventPerRow(rows: seq<Row>, events: seq<Event>)
    requires TableValid(rows, events)
    ensures forall r :: r in rows ==> multiset(events)[EventOf(r)] == 1
    ensures forall e :: e in events ==> exists r :: r in rows && EventOf(r) == e
  {
    forall r | r in rows ensures multiset(events)[EventOf(r)] == 1 {
      var k :| 0 <= k < |rows| && rows[k] == r;
      EventsDiffer(rows, events, k);
      OccursOnce(events, k);
    }
    forall e | e in events ensures exists r :: r in rows && EventOf(r) == e {
      var k :| 0 <= k < |events| && events[k] == e;
      assert rows[k] in rows;
    }
  }

  // Column by column: every row repeats its own capsule, and the event committed with it names the
  // project, task, id and revision of that capsule.
  lemma RowsAndEventsSayTheirCapsule(rows: seq<Row>, events: seq<Event>)
    requires TableValid(rows, events)
    ensures |events| == |rows|
    ensures forall k :: 0 <= k < |rows| ==>
              var c := rows[k].payload;
              && rows[k].capsuleId == c.capsuleId && rows[k].projectId == c.projectId
              && rows[k].taskId == c.taskId && rows[k].revision == c.revision
              && events[k].projectId == c.projectId && events[k].taskId == c.taskId
              && events[k].capsuleId == c.capsuleId && events[k].revision == c.revision
  {
    hide Gapless, History, KeysUnique;
    forall k | 0 <= k < |rows| ensures rows[k] == RowOf(rows[k].payload) && events[k] == EventOf(rows[k]) {
      assert rows[k] in rows;
    }
  }

  lemma EventsAreThoseOfRows(rows: seq<Row>, events: seq<Event>)
    requires TableValid(rows, events)
    ensures events == EventsOf(rows)
  {
    hide Gapless, History, KeysUnique, EventsOf;
  }

  lemma AppendAddsTheRow(rows: seq<Row>, c: Capsule)
    ensures AtomicAppend(rows, c) == rows || AtomicAppend(rows, c) == rows + [RowOf(c)]
  {
    hide Accepts, History, RowOf;
  }

  // The stored form of a capsule and its event, written out.
  lemma StoredForm(rows: seq<Row>, c: Capsule)
    ensures RowOf(c) == Row(c.capsuleId, c.projectId, c.taskId, c.revision, c)
    ensures EventsOf(rows + [RowOf(c)])
         == EventsOf(rows) + [Checkpointed(c.projectId, c.taskId, c.capsuleId, c.revision)]
  {
  }

  lemma EventsDiffer(rows: seq<Row>, events: seq<Event>, k: nat)
    requires KeysUnique(rows) && events == EventsOf(rows) && k < |rows|
    ensures forall i :: 0 <= i < |events| && i != k ==> events[i] != events[k]
  {
    forall i | 0 <= i < |events| && i != k ensures events[i] != events[k] {
      if i < k { assert !Clash(rows[i], rows[k]); } else { assert !Clash(rows[k], rows[i]); }
    }
  }

  // ----- The sequential rule, stated on histories alone -----

  ghost predicate Accepts(rows: seq<Row>, c: Capsule) {
    var h := History(rows, c.taskId);
    if c.revision <= |h| then h[c.revision - 1] == RowOf(c)
    else
      && c.revision == |h| + 1
      && (if h == [] then forall r :: r in rows ==> r.capsuleId != c.capsuleId
          else h[0].capsuleId == c.capsuleId)
  }

  // An atomic compare-and-append.
  ghost function AtomicAppend(rows: seq<Row>, c: Capsule): seq<Row> {
    if Accepts(rows, c) && c.revision == |History(rows, c.taskId)| + 1 then rows + [RowOf(c)] else rows
  }

  ghost function AppendAll(rows: seq<Row>, batch: seq<Capsule>): seq<Row> {
    if batch == [] then rows
    else AtomicAppend(AppendAll(rows, batch[..|batch| - 1]), batch[|batch| - 1])
  }

  lemma AppendNone(rows: seq<Row>, batch: seq<Capsule>)
    requires batch == []
    ensures AppendAll(rows, batch) == rows
  {
  }

  lemma AppendAllSnoc(rows: seq<Row>, batch: seq<Capsule>, c: Capsule)
    ensures AppendAll(rows, batch + [c]) == AtomicAppend(AppendAll(rows, batch), c)
  {
    assert (batch + [c])[..|batch + [c]| - 1] == batch;
  }

  lemma {:induction false} AppendAllConcat(rows: seq<Row>, first: seq<Capsule>, second: seq<Capsule>)
    ensures AppendAll(rows, first + second) == AppendAll(AppendAll(rows, first), second)
    decreases |second|
  {
    hide AtomicAppend;
    if second == [] {
      assert first + second == first;
    } else {
      var front := second[..|second| - 1];
      AppendAllConcat(rows, first, front);
      assert first + second == (first + front) + [second[|second| - 1]];
      AppendAllSnoc(rows, first + front, second[|second| - 1]);
    }
  }

  // What a call knows when it reaches its insert, whatever its reads saw.
  ghost predicate ReadyToInsert(rows: seq<Row>, c: Capsule) {
    c.revision == 1 || exists r ::
        r in rows && r.taskId == c.taskId && r.capsuleId == c.capsuleId && r.revision + 1 == c.revision
  }

  // The heart of the protocol: under the two unique keys, an insert planned on stale reads
  // succeeds exactly when the sequential rule accepts a new row at that instant.
  lemma InsertIsAtomicAppend(rows: seq<Row>, events: seq<Event>, c: Capsule)
    requires TableValid(rows, events) && ReadyToInsert(rows, c)
    ensures KeysFree(rows, RowOf(c)) <==> Accepts(rows, c) && c.revision == |History(rows, c.taskId)| + 1
  {
    var h := History(rows, c.taskId);
    HistoryMembers(rows, c.taskId);
    if KeysFree(rows, RowOf(c)) {
      if c.revision <= |h| {
        assert h[c.revision - 1] in h;
        assert Clash(h[c.revision - 1], RowOf(c));
      }
      if c.revision > 1 {
        var r :| r in rows && r.taskId == c.taskId && r.capsuleId == c.capsuleId && r.revision + 1 == c.revision;
        assert r in h;
      }
      if h == [] {
        forall r | r in rows ensures r.capsuleId != c.capsuleId {
          if r.capsuleId == c.capsuleId {
            HistoryMembers(rows, r.taskId);
            var hr := History(rows, r.taskId);
            assert r in hr;
            assert hr[0] in hr;
            assert Clash(hr[0], RowOf(c));
          }
        }
      }
    }
    if Accepts(rows, c) && c.revision == |h| + 1 {
      forall i | 0 <= i < |rows| ensures !Clash(rows[i], RowOf(c)) {
        if Clash(rows[i], RowOf(c)) {
          assert rows[i] in rows;
          if rows[i].taskId != c.taskId {
            assert h != [];
            assert h[0] in h;
            CapsuleIdOwnsOneTask(rows, events, rows[i], h[0]);
          }
        }
      }
    }
  }

  lemma AppendKeepsInvariant(rows: seq<Row>, events: seq<Event>, row: Row)
    requires TableValid(rows, events) && KeysFree(rows, row) && row == RowOf(row.payload)
    requires var h := History(rows, row.taskId);
             row.revision == |h| + 1 && (h != [] ==> h[0].capsuleId == row.capsuleId)
    ensures TableValid(rows + [row], EventsOf(rows + [row]))
  {
    hide History, EventsOf;
    forall t: string ensures Gapless(History(rows + [row], t)) {
      HistoryOfAppend(rows, row, t);
      assert Gapless(History(rows, t));
    }
  }

  lemma AtomicAppendKeepsTable(rows: seq<Row>, events: seq<Event>, c: Capsule)
    requires TableValid(rows, events)
    ensures TableValid(AtomicAppend(rows, c), EventsOf(AtomicAppend(rows, c)))
    ensures rows <= AtomicAppend(rows, c)
    ensures Accepts(rows, c) ==> RowOf(c) in AtomicAppend(rows, c)
  {
    var h := History(rows, c.taskId);
    HistoryMembers(rows, c.taskId);
    if Accepts(rows, c) {
      if c.revision <= |h| {
        assert h[c.revision - 1] in h;
      } else {
        var row := RowOf(c);
        assert ReadyToInsert(rows, c) by {
          if c.revision > 1 { assert h[|h| - 1] in h; }
        }
        InsertIsAtomicAppend(rows, events, c);
        AppendKeepsInvariant(rows, events, row);
      }
    }
  }

  lemma {:induction false} AppendAllKeepsTable(rows: seq<Row>, events: seq<Event>, batch: seq<Capsule>)
    requires TableValid(rows, events)
    ensures TableValid(AppendAll(rows, batch), EventsOf(AppendAll(rows, batch)))
    ensures rows <= AppendAll(rows, batch)
  {
    if batch != [] {
      var front := batch[..|batch| - 1];
      AppendAllKeepsTable(rows, events, front);
      AtomicAppendKeepsTable(AppendAll(rows, front), EventsOf(AppendAll(rows, front)), batch[|batch| - 1]);
    }
  }

  // Stored rows are found again in every later state.
  lemma RecordedMeansAccepted(rows: seq<Row>, events: seq<Event>, view: nat, c: Capsule)
    requires TableValid(rows, events) && view <= |rows|
    requires var r := RecordedRevision(rows[..view], c.taskId, c.revision); r.Some? && SameCheckpoint(r.value, c)
    ensures Accepts(rows, c) && AtomicAppend(rows, c) == rows && RowOf(c) in rows
  {
    ReadsOfView(rows, events, view, c.taskId, c.revision);
    HistoryMembers(rows, c.taskId);
    var h := History(rows, c.taskId);
    assert h[c.revision - 1] in h;
  }

  // A plan made on any two stale reads that says "insert" is ready to insert in every later state.
  lemma PlannedInsertIsReady(rows: seq<Row>, events: seq<Event>, view: nat, recorded: Option<Row>, c: Capsule)
    requires TableValid(rows, events) && view <= |rows|
    requires PlanSave(LatestRow(rows[..view], c.taskId), recorded, c).Insert?
    ensures ReadyToInsert(rows, c)
  {
    ReadsOfView(rows, events, view, c.taskId, c.revision);
    HistoryMembers(rows, c.taskId);
    var h := History(rows[..view], c.taskId);
    if h != [] {
      assert h[|h| - 1] in History(rows, c.taskId);
    }
  }

  // On fresh reads the plan and the unique keys together are the sequential rule.
  lemma FreshPlanIsExact(rows: seq<Row>, events: seq<Event>, c: Capsule)
    requires TableValid(rows, events)
    ensures var plan := PlanSave(LatestRow(rows, c.taskId), RecordedRevision(rows, c.taskId, c.revision), c);
            && (plan.Replay? ==> Accepts(rows, c) && AtomicAppend(rows, c) == rows)
            && (plan.Refuse? ==> !Accepts(rows, c))
            && (plan.Insert? ==> (KeysFree(rows, RowOf(c)) <==> Accepts(rows, c)))
  {
    assert rows[..|rows|] == rows;
    var h := History(rows, c.taskId);
    assert c.revision <= |h| ==> h[c.revision - 1] == RowOf(h[c.revision - 1].payload) by {
      HistoryMembers(rows, c.taskId);
      if c.revision <= |h| { assert h[c.revision - 1] in h; }
    }
    hide TableValid, History, RecordedRevision, KeysFree, LatestRow, ReadyToInsert;
    GaplessHistory(rows, events, c.taskId);
    ReadsOfView(rows, events, |rows|, c.taskId, c.revision);
    if PlanSave(LatestRow(rows, c.taskId), RecordedRevision(rows, c.taskId, c.revision), c).Insert? {
      PlannedInsertIsReady(rows, events, |rows|, RecordedRevision(rows, c.taskId, c.revision), c);
      InsertIsAtomicAppend(rows, events, c);
    }
  }

  // After an integrity error a fresh read decides exactly as the sequential rule does.
  lemma FreshRecheckIsExact(rows: seq<Row>, events: seq<Event>, c: Capsule)
    requires TableValid(rows, events) && ReadyToInsert(rows, c) && !KeysFree(rows, RowOf(c))
    ensures WinnerIsMine(RecordedRevision(rows, c.taskId, c.revision), c) <==> Accepts(rows, c)
  {
    var h := History(rows, c.taskId);
    assert c.revision <= |h| ==> h[c.revision - 1] == RowOf(h[c.revision - 1].payload) by {
      HistoryMembers(rows, c.taskId);
      if c.revision <= |h| { assert h[c.revision - 1] in h; }
    }
    hide TableValid, History, RecordedRevision, KeysFree, LatestRow, ReadyToInsert;
    GaplessHistory(rows, events, c.taskId);
    RecordedIsIndexed(rows, c.taskId, c.revision);
    InsertIsAtomicAppend(rows, events, c);
  }

  // What a call's two reads must have missed for the branches before the insert to refuse a capsule
  // that the rule accepts: its own row, and the true number of rows before it.
  predicate BlindPlan(latestView: seq<Row>, recordedView: seq<Row>, c: Capsule) {
    |History(recordedView, c.taskId)| < c.revision && |History(latestView, c.taskId)| + 1 != c.revision
  }

  // What the handler's read must have missed: the capsule's own row.
  predicate BlindRecheck(view: seq<Row>, c: Capsule) {
    |History(view, c.taskId)| < c.revision
  }

  lemma PlanOnHistories(h: seq<Row>, g: seq<Row>, whole: seq<Row>, c: Capsule)
    requires h <= whole && g <= whole && Gapless(whole) && Fits(whole, c)
    ensures PlanSave(LastRow(h), if c.revision <= |g| then Some(g[c.revision - 1]) else None, c).Refuse?
            <==> |g| < c.revision && |h| + 1 != c.revision
  {
    assert forall k :: 0 <= k < |h| ==> h[k] == whole[k];
    assert forall k :: 0 <= k < |g| ==> g[k] == whole[k];
  }

  function LastRow(h: seq<Row>): Option<Row> {
    if h == [] then None else Some(h[|h| - 1])
  }

  // Exactly when stale views refuse a capsule that the rule accepts.
  lemma NeedlessRefusalIsExact(rows: seq<Row>, events: seq<Event>, latestView: nat, recordedView: nat, c: Capsule)
    requires TableValid(rows, events) && latestView <= |rows| && recordedView <= |rows| && Accepts(rows, c)
    ensures PlanSave(LatestRow(rows[..latestView], c.taskId),
                     RecordedRevision(rows[..recordedView], c.taskId, c.revision), c).Refuse?
            <==> BlindPlan(rows[..latestView], rows[..recordedView], c)
  {
    hide LatestRow, RecordedRevision, TableValid, History, Gapless, PlanSave, Accepts, Fits;
    GaplessHistory(rows, events, c.taskId);
    ReadsOfView(rows, events, latestView, c.taskId, c.revision);
    ReadsOfView(rows, events, recordedView, c.taskId, c.revision);
    AcceptedFits(rows, c);
    PlanOnHistories(History(rows[..latestView], c.taskId), History(rows[..recordedView], c.taskId),
        History(rows, c.taskId), c);
  }

  function RevisionOf(latest: Option<Row>): nat {
    if latest.None? then 0 else latest.value.revision
  }

  // The latest revision of a view is the number of rows it shows.
  lemma RevisionCounts(rows: seq<Row>, events: seq<Event>, view: nat, taskId: string)
    requires TableValid(rows, events) && view <= |rows|
    ensures RevisionOf(LatestRow(rows[..view], taskId)) == |History(rows[..view], taskId)|
  {
    hide LatestRow, RecordedRevision, TableValid, History;
    GaplessHistory(rows, events, taskId);
    ReadsOfView(rows, events, view, taskId, 1);
    var h := History(rows[..view], taskId);
    assert forall k :: 0 <= k < |h| ==> h[k] == History(rows, taskId)[k];
  }

  // Exactly when a stale view makes the handler of an integrity error refuse such a capsule.
  lemma NeedlessConflictIsExact(rows: seq<Row>, events: seq<Event>, view: nat, c: Capsule)
    requires TableValid(rows, events) && view <= |rows| && Accepts(rows, c)
    ensures !WinnerIsMine(RecordedRevision(rows[..view], c.taskId, c.revision), c) <==> BlindRecheck(rows[..view], c)
  {
    hide LatestRow, RecordedRevision, TableValid, History, Accepts;
    ReadsOfView(rows, events, view, c.taskId, c.revision);
    AcceptedFits(rows, c);
    var h, whole := History(rows[..view], c.taskId), History(rows, c.taskId);
    assert forall k :: 0 <= k < |h| ==> h[k] == whole[k];
  }

  // What a plan made on two stale views promises about the present table.
  lemma PlanOnViews(rows: seq<Row>, events: seq<Event>, latestView: nat, recordedView: nat, c: Capsule)
    requires TableValid(rows, events) && latestView <= |rows| && recordedView <= |rows|
    ensures var plan := PlanSave(LatestRow(rows[..latestView], c.taskId),
                                 RecordedRevision(rows[..recordedView], c.taskId, c.revision), c);
            && (plan.Replay? ==> Accepts(rows, c) && AtomicAppend(rows, c) == rows && RowOf(c) in rows)
            && (plan.Insert? ==> ReadyToInsert(rows, c))
  {
    var recorded := RecordedRevision(rows[..recordedView], c.taskId, c.revision);
    match PlanSave(LatestRow(rows[..latestView], c.taskId), recorded, c)
    case Replay => RecordedMeansAccepted(rows, events, recordedView, c);
    case Refuse =>
    case Insert => PlannedInsertIsReady(rows, events, latestView, recorded, c);
  }

  // What `Accepts` asks of the history itself.
  predicate Fits(h: seq<Row>, c: Capsule) {
    if c.revision <= |h| then h[c.revision - 1] == RowOf(c)
    else c.revision == |h| + 1 && (h != [] ==> h[0].capsuleId == c.capsuleId)
  }

  lemma AcceptedFits(rows: seq<Row>, c: Capsule)
    ensures Accepts(rows, c) ==> Fits(History(rows, c.taskId), c)
  {
    hide History;
  }

  lemma RefusedByHistories(h: seq<Row>, later: seq<Row>, c: Capsule)
    requires h <= later && Gapless(later)
    requires PlanSave(LastRow(h), if c.revision <= |later| then Some(later[c.revision - 1]) else None, c).Refuse?
    ensures !Fits(h, c) || !Fits(later, c)
  {
    assert forall k :: 0 <= k < |h| ==> h[k] == later[k];
  }

  // With fresh reads, however much was appended between them, a refusal is right: the rule rejects
  // the capsule at the first read or at the second.
  lemma FreshReadsRefuseExactly(rows: seq<Row>, events: seq<Event>, earlier: nat, c: Capsule)
    requires TableValid(rows, events) && earlier <= |rows|
    requires PlanSave(LatestRow(rows[..earlier], c.taskId), RecordedRevision(rows, c.taskId, c.revision), c).Refuse?
    ensures !Accepts(rows[..earlier], c) || !Accepts(rows, c)
  {
    hide LatestRow, RecordedRevision, TableValid, History, Gapless, PlanSave, Accepts, Fits;
    GaplessHistory(rows, events, c.taskId);
    ReadsOfView(rows, events, earlier, c.taskId, c.revision);
    RecordedIsIndexed(rows, c.taskId, c.revision);
    AcceptedFits(rows[..earlier], c);
    AcceptedFits(rows, c);
    RefusedByHistories(History(rows[..earlier], c.taskId), History(rows, c.taskId), c);
  }

  // The table after an insert attempt, and after a whole call that runs alone.
  lemma SavedAlone(rows: seq<Row>, events: seq<Event>, c: Capsule)
    requires TableValid(rows, events)
    ensures var row := RowOf(c);
            var plan := PlanSave(LatestRow(rows, c.taskId), RecordedRevision(rows, c.taskId, c.revision), c);
            && (ReadyToInsert(rows, c) && KeysFree(rows, row) ==>
                  && Accepts(rows, c) && AtomicAppend(rows, c) == rows + [row] && row in rows + [row]
                  && TableValid(rows + [row], events + [EventOf(row)]))
            && (plan.Insert? ==> ReadyToInsert(rows, c))
            && (!(plan.Insert? && KeysFree(rows, row)) ==> AtomicAppend(rows, c) == rows)
  {
    FreshPlanIsExact(rows, events, c);
    assert rows[..|rows|] == rows;
    PlanOnViews(rows, events, |rows|, |rows|, c);
    AtomicAppendKeepsTable(rows, events, c);
    if ReadyToInsert(rows, c) {
      InsertIsAtomicAppend(rows, events, c);
      assert EventsOf(rows + [RowOf(c)]) == events + [EventOf(RowOf(c))];
    }
  }

  // ----- Any number of interleaved calls -----

  datatype Call =
    | Started(capsule: Capsule)
    | LatestKnown(capsule: Capsule, latest: Option<Row>)
    | Inserting(capsule: Capsule)
    | Rechecking(capsule: Capsule)
    | Returned(capsule: Capsule)
    | Raised(capsule: Capsule)

  datatype System = System(rows: seq<Row>, events: seq<Event>, calls: seq<Call>)

  // One step of the scheduler. `view` is how many committed rows the read sees.
  datatype Step =
    | Begin(capsule: Capsule)
    | ReadLatest(call: nat, view: nat)
    | ReadRecorded(call: nat, view: nat)
    | Commit(call: nat)
    | Recheck(call: nat, view: nat)

  const EMPTY := System([], [], [])

  // A step that does not fit the state changes nothing.
  function Apply(s: System, step: Step): System {
    match step
    case Begin(c) => s.(calls := s.calls + [Started(c)])
    case ReadLatest(call, view) =>
      if call < |s.calls| && s.calls[call].Started? && view <= |s.rows| then
        var c := s.calls[call].capsule;
        s.(calls := s.calls[call := LatestKnown(c, LatestRow(s.rows[..view], c.taskId))])
      else s
    case ReadRecorded(call, view) =>
      if call < |s.calls| && s.calls[call].LatestKnown? && view <= |s.rows| then
        var LatestKnown(c, latest) := s.calls[call];
        var next := match PlanSave(latest, RecordedRevision(s.rows[..view], c.taskId, c.revision), c)
          case Replay => Returned(c)
          case Refuse => Raised(c)
          case Insert => Inserting(c);
        s.(calls := s.calls[call := next])
      else s
    case Commit(call) =>
      if call < |s.calls| && s.calls[call].Inserting? then
        var c := s.calls[call].capsule;
        if KeysFree(s.rows, RowOf(c)) then
          System(s.rows + [RowOf(c)], s.events + [EventOf(RowOf(c))], s.calls[call := Returned(c)])
        else s.(calls := s.calls[call := Rechecking(c)])
      else s
    case Recheck(call, view) =>
      if call < |s.calls| && s.calls[call].Rechecking? && view <= |s.rows| then
        var c := s.calls[call].capsule;
        var mine := WinnerIsMine(RecordedRevision(s.rows[..view], c.taskId, c.revision), c);
        s.(calls := s.calls[call := if mine then Returned(c) else Raised(c)])
      else s
  }

  function Run(s: System, steps: seq<Step>): System {
    if steps == [] then s
    else Apply(Run(s, steps[..|steps| - 1]), steps[|steps| - 1])
  }

  lemma ReadyLater(rows: seq<Row>, later: seq<Row>, c: Capsule)
    requires rows <= later && ReadyToInsert(rows, c)
    ensures ReadyToInsert(later, c)
  {
    if c.revision != 1 {
      var r :| r in rows && r.taskId == c.taskId && r.capsuleId == c.capsuleId && r.revision + 1 == c.revision;
      assert r in later;
    }
  }

  lemma ClashLater(rows: seq<Row>, later: seq<Row>, row: Row)
    requires rows <= later && !KeysFree(rows, row)
    ensures !KeysFree(later, row)
  {
    var i :| 0 <= i < |rows| && Clash(rows[i], row);
    assert later[i] == rows[i];
  }

  // What is known of a call while it runs, and what holds once it has returned.
  ghost predicate CallValid(rows: seq<Row>, call: Call) {
    match call
    case LatestKnown(c, latest) => exists view: nat :: view <= |rows| && latest == LatestRow(rows[..view], c.taskId)
    case Inserting(c) => ReadyToInsert(rows, c)
    case Rechecking(c) => ReadyToInsert(rows, c) && !KeysFree(rows, RowOf(c))
    case Returned(c) => RowOf(c) in rows
    case _ => true
  }

  ghost predicate SystemValid(s: System) {
    TableValid(s.rows, s.events) && forall k :: 0 <= k < |s.calls| ==> CallValid(s.rows, s.calls[k])
  }

  lemma CallValidInLaterTable(rows: seq<Row>, later: seq<Row>, call: Call)
    requires rows <= later && CallValid(rows, call)
    ensures CallValid(later, call)
  {
    match call
    case LatestKnown(c, latest) =>
      var view: nat :| view <= |rows| && latest == LatestRow(rows[..view], c.taskId);
      assert later[..view] == rows[..view];
    case Rechecking(c) => ClashLater(rows, later, RowOf(c));
    case _ =>
  }

  // A step either leaves the table alone or is one atomic append that the sequential rule accepts.
  // A call returns only when the rule accepts its capsule at that very moment; a call that raises
  // stores nothing; a raise after a fresh re-read means the rule rejects the capsule; and a call whose
  // capsule the rule accepts raises exactly when the views it read were blind to it.
  lemma StepRefinesAtomicAppend(s: System, step: Step)
    requires SystemValid(s)
    ensures SystemValid(Apply(s, step))
    ensures s.rows <= Apply(s, step).rows
    ensures var s' := Apply(s, step);
            forall k :: 0 <= k < |s.calls| ==>
              var c := s.calls[k].capsule;
              && s'.calls[k].capsule == c
              && (s'.calls[k] != s.calls[k] && s'.calls[k].Returned? ==>
                    Accepts(s.rows, c) && s'.rows == AtomicAppend(s.rows, c))
              && (s'.calls[k] != s.calls[k] && !s'.calls[k].Returned? ==> s'.rows == s.rows)
              && (step == Recheck(k, |s.rows|) && s.calls[k].Rechecking? && s'.calls[k].Raised? ==>
                    !Accepts(s.rows, c))
              && (step.ReadRecorded? && step.call == k && step.view <= |s.rows| && s.calls[k].LatestKnown?
                  && Accepts(s.rows, c) ==>
                    (s'.calls[k].Raised? <==>
                       |History(s.rows[..step.view], c.taskId)| < c.revision
                           && RevisionOf(s.calls[k].latest) + 1 != c.revision))
              && (step.Recheck? && step.call == k && step.view <= |s.rows| && s.calls[k].Rechecking?
                  && Accepts(s.rows, c) ==>
                    (s'.calls[k].Raised? <==> BlindRecheck(s.rows[..step.view], c)))
    ensures (forall k :: 0 <= k < |s.calls| ==> Apply(s, step).calls[k] == s.calls[k]) ==> Apply(s, step).rows == s.rows
  {
    hide TableValid, Accepts, AtomicAppend, History, LatestRow, RecordedRevision;
    var s' := Apply(s, step);
    match step
    case Begin(c) =>
    case ReadLatest(call, view) =>
    case ReadRecorded(call, view) =>
      if call < |s.calls| && s.calls[call].LatestKnown? && view <= |s.rows| {
        ReadRecordedKeeps(s, call, view);
      }
    case Commit(call) =>
      if call < |s.calls| && s.calls[call].Inserting? {
        CommitKeeps(s, call);
      }
    case Recheck(call, view) =>
      if call < |s.calls| && s.calls[call].Rechecking? && view <= |s.rows| {
        RecheckKeeps(s, call, view);
      }
  }

  lemma ReadRecordedKeeps(s: System, call: nat, view: nat)
    requires SystemValid(s) && call < |s.calls| && s.calls[call].LatestKnown? && view <= |s.rows|
    ensures var s' := Apply(s, ReadRecorded(call, view));
            var c := s.calls[call].capsule;
            && SystemValid(s')
            && (s'.calls[call].Returned? ==> Accepts(s.rows, c) && AtomicAppend(s.rows, c) == s.rows)
            && (Accepts(s.rows, c) ==>
                  (s'.calls[call].Raised? <==>
                     |History(s.rows[..view], c.taskId)| < c.revision
                         && RevisionOf(s.calls[call].latest) + 1 != c.revision))
  {
    hide TableValid, Accepts, AtomicAppend, History, LatestRow, RecordedRevision;
    var LatestKnown(c, latest) := s.calls[call];
    var recorded := RecordedRevision(s.rows[..view], c.taskId, c.revision);
    var seen: nat :| seen <= |s.rows| && latest == LatestRow(s.rows[..seen], c.taskId);
    RevisionCounts(s.rows, s.events, seen, c.taskId);
    if Accepts(s.rows, c) { NeedlessRefusalIsExact(s.rows, s.events, seen, view, c); }
    match PlanSave(latest, recorded, c)
    case Replay => RecordedMeansAccepted(s.rows, s.events, view, c);
    case Refuse =>
    case Insert => PlannedInsertIsReady(s.rows, s.events, seen, recorded, c);
  }

  lemma CommitKeeps(s: System, call: nat)
    requires SystemValid(s) && call < |s.calls| && s.calls[call].Inserting?
    ensures var s' := Apply(s, Commit(call));
            var c := s.calls[call].capsule;
            && SystemValid(s')
            && s.rows <= s'.rows
            && (s'.calls[call].Returned? ==> Accepts(s.rows, c) && s'.rows == AtomicAppend(s.rows, c))
            && (!s'.calls[call].Returned? ==> s'.rows == s.rows)
  {
    hide TableValid, Accepts, AtomicAppend, History, LatestRow, RecordedRevision;
    var c := s.calls[call].capsule;
    var s' := Apply(s, Commit(call));
    SavedAlone(s.rows, s.events, c);
    forall k | 0 <= k < |s.calls| ensures CallValid(s'.rows, s'.calls[k]) {
      CallValidInLaterTable(s.rows, s'.rows, s.calls[k]);
    }
  }

  lemma RecheckKeeps(s: System, call: nat, view: nat)
    requires SystemValid(s) && call < |s.calls| && s.calls[call].Rechecking? && view <= |s.rows|
    ensures var s' := Apply(s, Recheck(call, view));
            var c := s.calls[call].capsule;
            && SystemValid(s')
            && (s'.calls[call].Returned? ==> Accepts(s.rows, c) && AtomicAppend(s.rows, c) == s.rows)
            && (view == |s.rows| && s'.calls[call].Raised? ==> !Accepts(s.rows, c))
            && (Accepts(s.rows, c) ==> (s'.calls[call].Raised? <==> BlindRecheck(s.rows[..view], c)))
  {
    hide TableValid, Accepts, AtomicAppend, History, LatestRow, RecordedRevision, BlindRecheck;
    var c := s.calls[call].capsule;
    if Accepts(s.rows, c) { NeedlessConflictIsExact(s.rows, s.events, view, c); }
    if WinnerIsMine(RecordedRevision(s.rows[..view], c.taskId, c.revision), c) {
      RecordedMeansAccepted(s.rows, s.events, view, c);
    } else if view == |s.rows| {
      assert s.rows[..view] == s.rows;
      FreshRecheckIsExact(s.rows, s.events, c);
    }
  }

  // Every schedule of any number of calls, with arbitrarily stale reads: each task holds exactly
  // revisions 1..n under one capsule id, no capsule id serves two tasks, every row has exactly one
  // event, and whatever a call returned for is stored.
  lemma {:induction false} EveryScheduleIsSafe(steps: seq<Step>)
    ensures SystemValid(Run(EMPTY, steps))
    ensures var s := Run(EMPTY, steps);
            && (forall t: string :: Gapless(History(s.rows, t)))
            && (forall a, b :: a in s.rows && b in s.rows && a.capsuleId == b.capsuleId ==> a.taskId == b.taskId)
            && (forall r :: r in s.rows ==> multiset(s.events)[EventOf(r)] == 1)
            && (forall k :: 0 <= k < |s.calls| && s.calls[k].Returned? ==> RowOf(s.calls[k].capsule) in s.rows)
    ensures var s := Run(EMPTY, steps);
            |s.events| == |s.rows| &&
            forall k :: 0 <= k < |s.rows| ==>
              var c := s.rows[k].payload;
              && s.rows[k].capsuleId == c.capsuleId && s.rows[k].projectId == c.projectId
              && s.rows[k].taskId == c.taskId && s.rows[k].revision == c.revision
              && s.events[k].projectId == c.projectId && s.events[k].taskId == c.taskId
              && s.events[k].capsuleId == c.capsuleId && s.events[k].revision == c.revision
  {
    if steps == [] {
      assert forall t: string :: History([], t) == [];
    } else {
      EveryScheduleIsSafe(steps[..|steps| - 1]);
      StepRefinesAtomicAppend(Run(EMPTY, steps[..|steps| - 1]), steps[|steps| - 1]);
    }
    var s := Run(EMPTY, steps);
    OneEventPerRow(s.rows, s.events);
    RowsAndEventsSayTheirCapsule(s.rows, s.events);
    forall a, b | a in s.rows && b in s.rows && a.capsuleId == b.capsuleId ensures a.taskId == b.taskId {
      CapsuleIdOwnsOneTask(s.rows, s.events, a, b);
    }
  }

  // No later step changes or removes a stored row.
  lemma {:induction false} StoredRowsNeverChange(s: System, steps: seq<Step>)
    requires SystemValid(s)
    ensures SystemValid(Run(s, steps)) && s.rows <= Run(s, steps).rows
  {
    if steps != [] {
      StoredRowsNeverChange(s, steps[..|steps| - 1]);
      StepRefinesAtomicAppend(Run(s, steps[..|steps| - 1]), steps[|steps| - 1]);
    }
  }

  // ----- Schedules whose reads are all fresh -----

  // Does the step, if it reads, see every committed row?
  predicate FreshStep(s: System, step: Step) {
    match step
    case ReadLatest(_, view) => view == |s.rows|
    case ReadRecorded(_, view) => view == |s.rows|
    case Recheck(_, view) => view == |s.rows|
    case _ => true
  }

  ghost predicate AllFresh(steps: seq<Step>) {
    forall i :: 0 <= i < |steps| ==> FreshStep(Run(EMPTY, steps[..i]), steps[i])
  }

  // After the first i steps call k was under way, with its first read behind it, and the rule
  // rejected its capsule.
  ghost predicate RejectedAt(steps: seq<Step>, i: nat, k: nat, c: Capsule)
    requires i <= |steps|
  {
    var s := Run(EMPTY, steps[..i]);
    && k < |s.calls| && s.calls[k].capsule == c
    && (s.calls[k].LatestKnown? || s.calls[k].Rechecking?)
    && !Accepts(s.rows, c)
  }

  // After the first i steps call k had just read this latest row from a table it has been growing from.
  ghost predicate ReadFreshAt(steps: seq<Step>, i: nat, k: nat, call: Call)
    requires i <= |steps|
  {
    var s := Run(EMPTY, steps[..i]);
    && call.LatestKnown? && k < |s.calls| && s.calls[k] == call
    && s.rows <= Run(EMPTY, steps).rows
    && call.latest == LatestRow(s.rows, call.capsule.taskId)
  }

  ghost predicate FreshlyJudged(steps: seq<Step>, k: nat, call: Call) {
    match call
    case LatestKnown(_, _) => exists i :: 0 <= i <= |steps| && ReadFreshAt(steps, i, k, call)
    case Raised(c) => exists i :: 0 <= i <= |steps| && RejectedAt(steps, i, k, c)
    case _ => true
  }

  // What was true of a call stays true when more steps follow.
  lemma StillJudged(front: seq<Step>, step: Step, k: nat, call: Call)
    requires FreshlyJudged(front, k, call) && Run(EMPTY, front).rows <= Run(EMPTY, front + [step]).rows
    ensures FreshlyJudged(front + [step], k, call)
  {
    hide Run, Accepts, LatestRow;
    var steps := front + [step];
    assert steps[..|steps|] == steps && front[..|front|] == front;
    match call
    case LatestKnown(_, _) =>
      var i :| 0 <= i <= |front| && ReadFreshAt(front, i, k, call);
      assert steps[..i] == front[..i];
      assert ReadFreshAt(steps, i, k, call);
    case Raised(c) =>
      var i :| 0 <= i <= |front| && RejectedAt(front, i, k, c);
      assert steps[..i] == front[..i];
      assert RejectedAt(steps, i, k, c);
    case _ =>
  }

  // A fresh second read that refuses: the rule rejected the capsule at the first read or rejects it now.
  lemma FreshRefusalWasRejected(front: seq<Step>, k: nat)
    requires var s := Run(EMPTY, front);
             && SystemValid(s) && k < |s.calls| && s.calls[k].LatestKnown? && FreshlyJudged(front, k, s.calls[k])
             && Apply(s, ReadRecorded(k, |s.rows|)).calls[k].Raised?
    ensures exists i :: 0 <= i <= |front| && RejectedAt(front, i, k, Run(EMPTY, front).calls[k].capsule)
  {
    hide Run, TableValid, Accepts, LatestRow, RecordedRevision, History;
    var s := Run(EMPTY, front);
    var c := s.calls[k].capsule;
    var i :| 0 <= i <= |front| && ReadFreshAt(front, i, k, s.calls[k]);
    var earlier := Run(EMPTY, front[..i]);
    assert earlier.rows == s.rows[..|earlier.rows|] && s.rows[..|s.rows|] == s.rows && front[..|front|] == front;
    FreshReadsRefuseExactly(s.rows, s.events, |earlier.rows|, c);
    if Accepts(s.rows, c) {
      assert RejectedAt(front, i, k, c);
    } else {
      assert RejectedAt(front, |front|, k, c);
    }
  }

  lemma FreshRecheckWasRejected(front: seq<Step>, k: nat)
    requires var s := Run(EMPTY, front);
             && SystemValid(s) && k < |s.calls| && s.calls[k].Rechecking?
             && Apply(s, Recheck(k, |s.rows|)).calls[k].Raised?
    ensures exists i :: 0 <= i <= |front| && RejectedAt(front, i, k, Run(EMPTY, front).calls[k].capsule)
  {
    hide Run, Accepts, SystemValid, Apply;
    var s := Run(EMPTY, front);
    StepRefinesAtomicAppend(s, Recheck(k, |s.rows|));
    assert front[..|front|] == front;
    assert RejectedAt(front, |front|, k, s.calls[k].capsule);
  }

  lemma JudgedAfterStep(front: seq<Step>, step: Step, k: nat)
    requires var s, t := Run(EMPTY, front), Apply(Run(EMPTY, front), step);
             && SystemValid(s) && k < |t.calls| && FreshStep(s, step) && s.rows <= t.rows
             && (k < |s.calls| ==> FreshlyJudged(front, k, s.calls[k]))
             && Run(EMPTY, front + [step]) == t
    ensures FreshlyJudged(front + [step], k, Apply(Run(EMPTY, front), step).calls[k])
  {
    hide Run, SystemValid, Accepts, LatestRow, RecordedRevision, FreshlyJudged, KeysFree;
    var s, t, steps := Run(EMPTY, front), Apply(Run(EMPTY, front), step), front + [step];
    if k < |s.calls| && t.calls[k] == s.calls[k] {
      StillJudged(front, step, k, s.calls[k]);
    } else if t.calls[k].LatestKnown? {
      assert s.rows[..|s.rows|] == s.rows && steps[..|steps|] == steps;
      assert ReadFreshAt(steps, |steps|, k, t.calls[k]);
      JudgedByRead(steps, |steps|, k, t.calls[k]);
    } else if t.calls[k].Raised? {
      if step.ReadRecorded? { FreshRefusalWasRejected(front, k); } else { FreshRecheckWasRejected(front, k); }
      JudgedByRejection(front, k, t.calls[k]);
      StillJudged(front, step, k, t.calls[k]);
    } else {
      NothingToJudge(steps, k, t.calls[k]);
    }
  }

  lemma JudgedByRead(steps: seq<Step>, i: nat, k: nat, call: Call)
    requires i <= |steps| && ReadFreshAt(steps, i, k, call)
    ensures FreshlyJudged(steps, k, call)
  {
  }

  lemma JudgedByRejection(steps: seq<Step>, k: nat, call: Call)
    requires call.Raised? && exists i :: 0 <= i <= |steps| && RejectedAt(steps, i, k, call.capsule)
    ensures FreshlyJudged(steps, k, call)
  {
  }

  lemma NothingToJudge(steps: seq<Step>, k: nat, call: Call)
    requires !call.LatestKnown? && !call.Raised?
    ensures FreshlyJudged(steps, k, call)
  {
  }

  lemma FreshFront(front: seq<Step>, step: Step)
    requires AllFresh(front + [step])
    ensures AllFresh(front) && FreshStep(Run(EMPTY, front), step)
  {
    hide Run, FreshStep;
    var steps := front + [step];
    forall i | 0 <= i < |front| ensures FreshStep(Run(EMPTY, front[..i]), front[i]) {
      assert front[..i] == steps[..i] && front[i] == steps[i];
    }
    assert steps[..|front|] == front;
  }

  lemma ReachedByStep(front: seq<Step>, step: Step)
    ensures var s, t := Run(EMPTY, front), Run(EMPTY, front + [step]);
            && t == Apply(s, step) && SystemValid(s) && s.rows <= t.rows && |s.calls| <= |t.calls|
  {
    assert (front + [step])[..|front|] == front;
    hide SystemValid, LatestRow, RecordedRevision, KeysFree, PlanSave;
    EveryScheduleIsSafe(front);
    StepRefinesAtomicAppend(Run(EMPTY, front), step);
  }

  lemma {:induction false} FreshSchedulesJudge(steps: seq<Step>, k: nat)
    requires AllFresh(steps) && k < |Run(EMPTY, steps).calls|
    ensures FreshlyJudged(steps, k, Run(EMPTY, steps).calls[k])
  {
    if steps != [] {
      hide FreshlyJudged, SystemValid, Apply, AllFresh, FreshStep, Run;
      var front, step := steps[..|steps| - 1], steps[|steps| - 1];
      assert steps == front + [step];
      FreshFront(front, step);
      ReachedByStep(front, step);
      if k < |Run(EMPTY, front).calls| { FreshSchedulesJudge(front, k); }
      JudgedAfterStep(front, step, k);
    }
  }

  // In every schedule whose reads are all fresh, a call that raised was rejected by the sequential
  // rule at some moment between its first read and its raise.
  lemma FreshRaisesAreRejections(steps: seq<Step>, k: nat)
    requires AllFresh(steps) && k < |Run(EMPTY, steps).calls| && Run(EMPTY, steps).calls[k].Raised?
    ensures exists i :: 0 <= i <= |steps| && RejectedAt(steps, i, k, Run(EMPTY, steps).calls[k].capsule)
  {
    hide Run, AllFresh, RejectedAt;
    FreshSchedulesJudge(steps, k);
  }

  // A stale view can make a call raise although a fresh one would have succeeded: refusal, unlike
  // success, is exact only on fresh reads.
  lemma StaleReadsCanRefuseNeedlessly()
    ensures var first := Capsule("c", 1, "p", "t", "");
            var second := Capsule("c", 2, "p", "t", "");
            var before := Apply(Apply(Apply(Apply(EMPTY, Begin(first)), ReadLatest(0, 0)), ReadRecorded(0, 0)),
                Commit(0));
            var after := Apply(Apply(Apply(before, Begin(second)), ReadLatest(1, 0)), ReadRecorded(1, 0));
            before.rows == [RowOf(first)] && Accepts(before.rows, second)
                && after.calls == [Returned(first), Raised(second)]
  {
    var first := Capsule("c", 1, "p", "t", "");
    var second := Capsule("c", 2, "p", "t", "");
    var s3 := Apply(Apply(Apply(EMPTY, Begin(first)), ReadLatest(0, 0)), ReadRecorded(0, 0));
    assert s3 == System([], [], [Inserting(first)]);
    var before := Apply(s3, Commit(0));
    assert before == System([RowOf(first)], [EventOf(RowOf(first))], [Returned(first)]);
    HistoryOfAppend([], RowOf(first), "t");
    assert [] + [RowOf(first)] == [RowOf(first)];
    assert History(before.rows, "t") == [RowOf(first)];
    var s5 := Apply(before, Begin(second));
    assert s5.calls == [Returned(first), Started(second)] && s5.rows[..0] == [];
    var s6 := Apply(s5, ReadLatest(1, 0));
    assert s6.calls == [Returned(first), LatestKnown(second, None)] && s6.rows[..0] == [];
  }

  // ----- The call itself, with other writers running in its gaps -----

  datatype Outcome = Saved | CapsuleRevisionConflict

  // What happens around one call: the capsules other writers append in the gap before each of its
  // database actions, and how far behind each of its reads is.
  datatype Schedule = Schedule(
    beforeLatest: seq<Capsule>, latestLag: nat,
    beforeRecorded: seq<Capsule>, recordedLag: nat,
    beforeInsert: seq<Capsule>,
    beforeRecheck: seq<Capsule>, recheckLag: nat)

  const QUIET := Schedule([], 0, [], 0, [], [], 0)

  function Gaps(env: Schedule): seq<Capsule> {
    env.beforeLatest + env.beforeRecorded + env.beforeInsert + env.beforeRecheck
  }

  class CapsuleRepository {
    var rows: seq<Row>
    var events: seq<Event>

    ghost predicate Valid()
      reads this
    {
      TableValid(rows, events)
    }

    constructor ()
      ensures Valid() && rows == []
    {
      rows, events := [], [];
      assert forall t: string :: History([], t) == [];
    }

    // A committed transaction of row and event, or an integrity error and no change.
    method TryInsert(c: Capsule) returns (inserted: bool)
      requires Valid() && ReadyToInsert(rows, c)
      modifies this
      ensures Valid()
      ensures inserted == KeysFree(old(rows), RowOf(c))
      ensures inserted ==> rows == old(rows) + [RowOf(c)] && Accepts(old(rows), c) && rows == AtomicAppend(old(rows), c)
      ensures inserted ==>
                && rows[|old(rows)|] == Row(c.capsuleId, c.projectId, c.taskId, c.revision, c)
                && events == old(events) + [Checkpointed(c.projectId, c.taskId, c.capsuleId, c.revision)]
      ensures !inserted ==> rows == old(rows) && events == old(events)
    {
      SavedAlone(rows, events, c);
      var row := RowOf(c);
      inserted := forall i :: 0 <= i < |rows| ==> !Clash(rows[i], row);
      if inserted {
        rows := rows + [row];
        events := events + [EventOf(row)];
      }
    }

    // One other writer's whole call, with fresh reads and nobody in between.
    method SaveAlone(c: Capsule)
      requires Valid()
      modifies this
      ensures Valid() && rows == AtomicAppend(old(rows), c)
    {
      SavedAlone(rows, events, c);
      var latest := LatestRow(rows, c.taskId);
      var recorded := RecordedRevision(rows, c.taskId, c.revision);
      if PlanSave(latest, recorded, c).Insert? {
        var inserted := TryInsert(c);
      }
    }

    // Other callers saving capsules one after another.
    method OtherWriters(batch: seq<Capsule>)
      requires Valid()
      modifies this
      ensures Valid()
      ensures rows == AppendAll(old(rows), batch)
    {
      for i := 0 to |batch|
        invariant Valid()
        invariant rows == AppendAll(old(rows), batch[..i])
      {
        assert batch[..i + 1] == batch[..i] + [batch[i]];
        AppendAllSnoc(old(rows), batch[..i], batch[i]);
        SaveAlone(batch[i]);
      }
      assert batch[..|batch|] == batch;
    }

    // The latest-row read, other writers, the recorded-revision read, and the branches they feed.
    method PlanFromReads(c: Capsule, env: Schedule) returns (plan: Plan)
      requires Valid()
      modifies this
      ensures Valid()
      ensures rows == AppendAll(old(rows), env.beforeLatest + env.beforeRecorded)
      ensures plan.Replay? ==> Accepts(rows, c) && AtomicAppend(rows, c) == rows && RowOf(c) in rows
      ensures plan.Insert? ==> ReadyToInsert(rows, c)
      ensures env.latestLag == env.recordedLag == 0 && plan.Refuse? ==>
                !Accepts(AppendAll(old(rows), env.beforeLatest), c) || !Accepts(rows, c)
      ensures Accepts(rows, c) ==>
                (plan.Refuse? <==>
                   BlindPlan(Lagging(AppendAll(old(rows), env.beforeLatest), env.latestLag),
                       Lagging(rows, env.recordedLag), c))
    {
      hide AppendAll, AtomicAppend, Accepts, TableValid, BlindPlan;
      AppendAllConcat(rows, env.beforeLatest, env.beforeRecorded);
      OtherWriters(env.beforeLatest);
      ghost var rowsAtLatest, latestView := rows, Behind(rows, env.latestLag);
      var latest := LatestRow(Lagging(rows, env.latestLag), c.taskId);
      AppendAllKeepsTable(rows, events, env.beforeRecorded);
      OtherWriters(env.beforeRecorded);
      assert rows[..latestView] == rowsAtLatest[..latestView];
      ghost var recordedView := Behind(rows, env.recordedLag);
      var recorded := RecordedRevision(Lagging(rows, env.recordedLag), c.taskId, c.revision);
      plan := PlanSave(latest, recorded, c);
      PlanOnViews(rows, events, latestView, recordedView, c);
      if Accepts(rows, c) { NeedlessRefusalIsExact(rows, events, latestView, recordedView, c); }
      if env.latestLag == env.recordedLag == 0 && plan.Refuse? {
        assert rows[..latestView] == rowsAtLatest && rows[..recordedView] == rows;
        FreshReadsRefuseExactly(rows, events, latestView, c);
      }
    }

    // `save_capsule`. `ran` is what the other writers appended up to the moment the call ended.
    // Saved: the call is one atomic append, accepted, at its end. Conflict: it changed nothing, and
    // with fresh reads there was a moment of the call at which the sequential rule rejects the capsule;
    // if the rule accepts it after all, the views the call read were blind to it.
    // Alone and on fresh reads it succeeds exactly when the rule accepts the capsule.
    method SaveCapsule(c: Capsule, env: Schedule) returns (outcome: Outcome, ran: seq<Capsule>)
      requires Valid()
      modifies this
      ensures Valid()
      ensures ran <= Gaps(env)
      ensures outcome.Saved? ==>
                && Accepts(AppendAll(old(rows), ran), c)
                && rows == AppendAll(old(rows), ran + [c])
                && RowOf(c) in rows
      ensures outcome.CapsuleRevisionConflict? ==> rows == AppendAll(old(rows), ran)
      ensures outcome.CapsuleRevisionConflict? && env.latestLag == env.recordedLag == env.recheckLag == 0 ==>
                !Accepts(AppendAll(old(rows), env.beforeLatest), c) || !Accepts(AppendAll(old(rows), ran), c)
      ensures outcome.CapsuleRevisionConflict? && Accepts(rows, c) ==>
                || (ran == env.beforeLatest + env.beforeRecorded && BlindReads(old(rows), env, c))
                || (ran == Gaps(env) && BlindRecheck(Lagging(rows, env.recheckLag), c))
      ensures BlindReads(old(rows), env, c) ==>
                Accepts(AppendAll(old(rows), env.beforeLatest + env.beforeRecorded), c) ==>
                  outcome.CapsuleRevisionConflict?
      ensures env == QUIET ==> (outcome.Saved? <==> Accepts(old(rows), c))
      ensures outcome.Saved? && rows != AppendAll(old(rows), ran) ==>
                && rows == AppendAll(old(rows), ran) + [Row(c.capsuleId, c.projectId, c.taskId, c.revision, c)]
                && events == EventsOf(AppendAll(old(rows), ran))
                             + [Checkpointed(c.projectId, c.taskId, c.capsuleId, c.revision)]
      ensures outcome.Saved? && rows == AppendAll(old(rows), ran) ==> events == EventsOf(AppendAll(old(rows), ran))
    {
      hide AppendAll, AtomicAppend, Accepts, TableValid, BlindPlan, BlindRecheck, Lagging, EventsOf, RowOf;
      AppendNone(rows, []);
      var plan := PlanFromReads(c, env);
      ran := env.beforeLatest + env.beforeRecorded;
      match plan {
        case Replay =>
          AppendAllSnoc(old(rows), ran, c);
          outcome := Saved;
        case Refuse =>
          outcome := CapsuleRevisionConflict;
        case Insert =>
          var more;
          outcome, more := InsertOrRecheck(c, env);
          AppendAllConcat(old(rows), ran, more);
          ran := ran + more;
          AppendAllSnoc(old(rows), ran, c);
      }
      EventsAreThoseOfRows(rows, events);
      StoredForm(AppendAll(old(rows), ran), c);
      AppendAddsTheRow(AppendAll(old(rows), ran), c);
      AppendAllSnoc(old(rows), ran, c);
    }

    // The insert and the handler of its integrity error.
    method InsertOrRecheck(c: Capsule, env: Schedule) returns (outcome: Outcome, ran: seq<Capsule>)
      requires Valid() && ReadyToInsert(rows, c)
      modifies this
      ensures Valid()
      ensures ran <= env.beforeInsert + env.beforeRecheck
      ensures outcome.Saved? ==>
                && Accepts(AppendAll(old(rows), ran), c)
                && rows == AtomicAppend(AppendAll(old(rows), ran), c)
                && RowOf(c) in rows
      ensures outcome.CapsuleRevisionConflict? ==> rows == AppendAll(old(rows), ran)
      ensures outcome.CapsuleRevisionConflict? && env.recheckLag == 0 ==> !Accepts(rows, c)
      ensures outcome.CapsuleRevisionConflict? ==> ran == env.beforeInsert + env.beforeRecheck
      ensures KeysFree(AppendAll(old(rows), env.beforeInsert), RowOf(c)) ==> outcome.Saved?
      ensures !KeysFree(AppendAll(old(rows), env.beforeInsert), RowOf(c)) && Accepts(rows, c) ==>
                (outcome.CapsuleRevisionConflict? <==> BlindRecheck(Lagging(rows, env.recheckLag), c))
    {
      hide AppendAll, AtomicAppend, Accepts, TableValid, BlindRecheck, Lagging;
      OtherWriters(env.beforeInsert);
      AppendAllKeepsTable(old(rows), old(events), env.beforeInsert);
      ReadyLater(old(rows), rows, c);
      ran := env.beforeInsert;
      var inserted := TryInsert(c);
      if inserted { return Saved, ran; }
      AppendAllConcat(old(rows), ran, env.beforeRecheck);
      outcome := RecheckAfterConflict(c, env.beforeRecheck, env.recheckLag);
      ran := ran + env.beforeRecheck;
    }

    // The fresh session that looks for the winner of a lost insert.
    method RecheckAfterConflict(c: Capsule, others: seq<Capsule>, lag: nat) returns (outcome: Outcome)
      requires Valid() && ReadyToInsert(rows, c) && !KeysFree(rows, RowOf(c))
      modifies this
      ensures Valid()
      ensures rows == AppendAll(old(rows), others)
      ensures outcome.Saved? ==> Accepts(rows, c) && rows == AtomicAppend(rows, c) && RowOf(c) in rows
      ensures lag == 0 ==> (outcome.Saved? <==> Accepts(rows, c))
      ensures Accepts(rows, c) ==> (outcome.CapsuleRevisionConflict? <==> BlindRecheck(Lagging(rows, lag), c))
    {
      hide AppendAll, AtomicAppend, Accepts, TableValid, BlindRecheck;
      AppendAllKeepsTable(rows, events, others);
      OtherWriters(others);
      ReadyLater(old(rows), rows, c);
      ClashLater(old(rows), rows, RowOf(c));
      FreshRecheckIsExact(rows, events, c);
      if Accepts(rows, c) { NeedlessConflictIsExact(rows, events, Behind(rows, lag), c); }
      var winner := RecordedRevision(Lagging(rows, lag), c.taskId, c.revision);
      if lag == 0 { assert rows[..|rows|] == rows; }
      if WinnerIsMine(winner, c) {
        RecordedMeansAccepted(rows, events, Behind(rows, lag), c);
        outcome := Saved;
      } else {
        outcome := CapsuleRevisionConflict;
      }
    }
  }

  // Are the two reads of a call, under a schedule, blind to its capsule?
  ghost predicate BlindReads(rows: seq<Row>, env: Schedule, c: Capsule) {
    var atRecorded := AppendAll(rows, env.beforeLatest + env.beforeRecorded);
    BlindPlan(Lagging(AppendAll(rows, env.beforeLatest), env.latestLag), Lagging(atRecorded, env.recordedLag), c)
  }

  // How many rows a read sees that is `lag` commits behind.
  function Behind(rows: seq<Row>, lag: nat): (view: nat)
    ensures view <= |rows|
  {
    if lag <= |rows| then |rows| - lag else 0
  }

  function Lagging(rows: seq<Row>, lag: nat): seq<Row> {
    rows[..Behind(rows, lag)]
  }
}
