// The semantic graph and `_propagate_stale`: a worklist that walks dependency edges backwards.
module SemanticGraph {
  import opened Common

  datatype Kind = WikiPageKind | ClaimKind | SourceKind | OtherKind

  datatype Node = Node(projectId: string, kind: Kind, externalRef: Option<string>, stale: bool)

  datatype Edge = Edge(projectId: string, sourceId: string, relationship: string, targetId: string)

  datatype Anchor = Anchor(projectId: string, claimRef: string, stale: bool)

  // Nodes and anchors by primary key; edges by their unique (project, source, relationship, target).
  datatype Graph = Graph(nodes: map<string, Node>, edges: set<Edge>, anchors: map<string, Anchor>)

  const PROPAGATION_RELATIONSHIPS: set<string> :=
    {"based_on", "contains", "depends_on", "derived_from", "documents", "implements", "references", "verified_by"}

  // ----- What the worklist is meant to find -----

  predicate InProject(g: Graph, project: string, id: string) {
    id in g.nodes && g.nodes[id].projectId == project
  }

  predicate IsRoot(g: Graph, project: string, rootRefs: set<string>, id: string) {
    InProject(g, project, id) && g.nodes[id].externalRef.Some? && g.nodes[id].externalRef.value in rootRefs
  }

  // `source` depends on `target`.
  predicate DependsOn(edges: set<Edge>, project: string, source: string, target: string) {
    exists e :: e in edges && e.projectId == project && e.relationship in PROPAGATION_RELATIONSHIPS
                && e.sourceId == source && e.targetId == target
  }

  // A dependency chain of existing nodes of one project that ends in a root.
  ghost predicate ChainToRoot(g: Graph, project: string, rootRefs: set<string>, path: seq<string>) {
    && path != []
    && (forall i :: 0 <= i < |path| ==> InProject(g, project, path[i]))
    && IsRoot(g, project, rootRefs, path[|path| - 1])
    && (forall i :: 0 <= i < |path| - 1 ==> DependsOn(g.edges, project, path[i], path[i + 1]))
  }

  ghost predicate ReachesRoot(g: Graph, project: string, rootRefs: set<string>, id: string) {
    exists path :: ChainToRoot(g, project, rootRefs, path) && path[0] == id
  }

  ghost function StaleRefs(g: Graph, project: string, rootRefs: set<string>): set<string> {
    set id | id in g.nodes && ReachesRoot(g, project, rootRefs, id)
             && g.nodes[id].externalRef.Some? && g.nodes[id].externalRef.value != "" :: g.nodes[id].externalRef.value
  }

  // Exactly the nodes from which a root is reachable, and the anchors of their references, turn stale.
  ghost function Marked(g: Graph, project: string, rootRefs: set<string>): Graph {
    Graph(
      map id | id in g.nodes :: g.nodes[id].(stale := g.nodes[id].stale || ReachesRoot(g, project, rootRefs, id)),
      g.edges,
      map a | a in g.anchors :: MarkAnchor(g.anchors[a], project, StaleRefs(g, project, rootRefs)))
  }

  function MarkAnchor(anchor: Anchor, project: string, staleRefs: set<string>): Anchor {
    anchor.(stale := anchor.stale || (anchor.projectId == project && anchor.claimRef in staleRefs))
  }

  function MarkNodes(nodes: map<string, Node>, ids: set<string>): map<string, Node> {
    map id | id in nodes :: if id in ids then nodes[id].(stale := true) else nodes[id]
  }

  // Reachability does not look at stale flags.
  lemma ReachabilityIgnoresFlags(g: Graph, h: Graph, project: string, rootRefs: set<string>, id: string)
    requires g.edges == h.edges && g.nodes.Keys == h.nodes.Keys
    requires forall k :: k in g.nodes ==> h.nodes[k].(stale := false) == g.nodes[k].(stale := false)
    requires ReachesRoot(g, project, rootRefs, id)
    ensures ReachesRoot(h, project, rootRefs, id)
  {
    forall k, p ensures InProject(g, p, k) == InProject(h, p, k) {
      if k in g.nodes {
        assert g.nodes[k].projectId == g.nodes[k].(stale := false).projectId == h.nodes[k].(stale := false).projectId;
      }
    }
    var path :| ChainToRoot(g, project, rootRefs, path) && path[0] == id;
    var last := path[|path| - 1];
    assert g.nodes[last].externalRef == g.nodes[last].(stale := false).externalRef
        == h.nodes[last].(stale := false).externalRef == h.nodes[last].externalRef;
    forall i | 0 <= i < |path| - 1 ensures DependsOn(h.edges, project, path[i], path[i + 1]) {
      assert DependsOn(g.edges, project, path[i], path[i + 1]);
    }
    assert ChainToRoot(h, project, rootRefs, path);
  }

  lemma RootReaches(g: Graph, project: string, rootRefs: set<string>, id: string)
    requires IsRoot(g, project, rootRefs, id)
    ensures ReachesRoot(g, project, rootRefs, id)
  {
    assert ChainToRoot(g, project, rootRefs, [id]);
  }

  lemma DependentReaches(g: Graph, project: string, rootRefs: set<string>, source: string, target: string)
    requires InProject(g, project, source) && DependsOn(g.edges, project, source, target)
    requires ReachesRoot(g, project, rootRefs, target)
    ensures ReachesRoot(g, project, rootRefs, source)
  {
    var path :| ChainToRoot(g, project, rootRefs, path) && path[0] == target;
    var longer := [source] + path;
    forall i | 0 <= i < |longer| - 1 ensures DependsOn(g.edges, project, longer[i], longer[i + 1]) {
      if i > 0 { assert DependsOn(g.edges, project, path[i - 1], path[i]); }
    }
    assert ChainToRoot(g, project, rootRefs, longer);
  }

  ghost predicate ClosedBackwards(g: Graph, project: string, rootRefs: set<string>, ids: set<string>) {
    && (forall id :: IsRoot(g, project, rootRefs, id) ==> id in ids)
    && (forall s, t :: t in ids && InProject(g, project, s) && DependsOn(g.edges, project, s, t) ==> s in ids)
  }

  lemma {:induction false} ChainStaysInside(g: Graph, project: string, rootRefs: set<string>, ids: set<string>,
                                            path: seq<string>)
    requires ClosedBackwards(g, project, rootRefs, ids) && ChainToRoot(g, project, rootRefs, path)
    ensures path[0] in ids
    decreases |path|
  {
    if |path| > 1 {
      var rest := path[1..];
      forall i | 0 <= i < |rest| - 1 ensures DependsOn(g.edges, project, rest[i], rest[i + 1]) {
        assert DependsOn(g.edges, project, path[i + 1], path[i + 2]);
      }
      assert ChainToRoot(g, project, rootRefs, rest);
      ChainStaysInside(g, project, rootRefs, ids, rest);
      assert DependsOn(g.edges, project, path[0], path[1]);
    }
  }

  // A set that is sound and closed is the reverse closure.
  lemma ClosureIsExact(g: Graph, project: string, rootRefs: set<string>, ids: set<string>)
    requires ClosedBackwards(g, project, rootRefs, ids)
    requires forall id :: id in ids ==> ReachesRoot(g, project, rootRefs, id)
    ensures forall id :: id in ids <==> ReachesRoot(g, project, rootRefs, id)
  {
    forall id | ReachesRoot(g, project, rootRefs, id) ensures id in ids {
      var path :| ChainToRoot(g, project, rootRefs, path) && path[0] == id;
      ChainStaysInside(g, project, rootRefs, ids, path);
    }
  }

  // The rows of a result set, in whatever order the database returns them.
  method Rows<T(==)>(s: set<T>) returns (rows: seq<T>)
    ensures forall x :: x in rows <==> x in s
  {
    rows := [];
    var rest := s;
    while rest != {}
      invariant rest <= s
      invariant forall x :: x in rows <==> x in s && x !in rest
      decreases rest
    {
      var x :| x in rest;
      rows := rows + [x];
      rest := rest - {x};
    }
  }

  // ----- The worklist invariant -----

  // Everything visited or waiting is a dependent of a root, and nothing that should be visited is lost.
  ghost predicate Worklist(g: Graph, project: string, rootRefs: set<string>, staleIds: set<string>,
                           queue: seq<string>) {
    && (forall id :: id in staleIds ==> InProject(g, project, id) && ReachesRoot(g, project, rootRefs, id))
    && (forall id :: id in queue && InProject(g, project, id) ==> ReachesRoot(g, project, rootRefs, id))
    && (forall id :: IsRoot(g, project, rootRefs, id) ==> id in staleIds || id in queue)
    && (forall s, t :: t in staleIds && InProject(g, project, s) && DependsOn(g.edges, project, s, t) ==>
        s in staleIds || s in queue)
  }

  function RefsOf(nodes: map<string, Node>, ids: set<string>): set<string> {
    set id | id in ids && id in nodes && nodes[id].externalRef.Some?
        && nodes[id].externalRef.value != "" :: nodes[id].externalRef.value
  }

  lemma MarkOneMore(nodes: map<string, Node>, ids: set<string>, id: string)
    requires id in nodes
    ensures var row := MarkNodes(nodes, ids)[id];
            && row.projectId == nodes[id].projectId && row.externalRef == nodes[id].externalRef
            && MarkNodes(nodes, ids)[id := row.(stale := true)] == MarkNodes(nodes, ids + {id})
            && RefsOf(nodes, ids + {id}) == RefsOf(nodes, ids)
                 + (if row.externalRef.Some? && row.externalRef.value != "" then {row.externalRef.value} else {})
  {
    var refs := RefsOf(nodes, ids + {id});
    forall r ensures r in refs <==> r in RefsOf(nodes, ids) || (nodes[id].externalRef == Some(r) && r != "") {
      if nodes[id].externalRef == Some(r) && r != "" { assert id in ids + {id}; }
      if r in RefsOf(nodes, ids) {
        var k :| k in ids && k in nodes && nodes[k].externalRef == Some(r) && r != "";
        assert k in ids + {id};
      }
    }
  }

  lemma WorklistEnds(g: Graph, project: string, rootRefs: set<string>, staleIds: set<string>)
    requires Worklist(g, project, rootRefs, staleIds, [])
    ensures forall id :: id in staleIds <==> ReachesRoot(g, project, rootRefs, id)
    ensures RefsOf(g.nodes, staleIds) == StaleRefs(g, project, rootRefs)
  {
    ClosureIsExact(g, project, rootRefs, staleIds);
  }

  lemma WorklistStarts(g: Graph, project: string, rootRefs: set<string>, queue: seq<string>)
    requires forall id :: id in queue <==> IsRoot(g, project, rootRefs, id)
    ensures Worklist(g, project, rootRefs, {}, queue)
  {
    forall id | id in queue ensures ReachesRoot(g, project, rootRefs, id) {
      RootReaches(g, project, rootRefs, id);
    }
  }

  // Dropping an id that was seen already, or that is no node of this project.
  lemma WorklistSkips(g: Graph, project: string, rootRefs: set<string>, staleIds: set<string>, id: string,
                      queue: seq<string>)
    requires Worklist(g, project, rootRefs, staleIds, [id] + queue)
    requires id in staleIds || !InProject(g, project, id)
    ensures Worklist(g, project, rootRefs, staleIds, queue)
  {
    assert forall x :: x in [id] + queue <==> x == id || x in queue;
  }

  // Marking an id and queueing its unvisited dependents.
  lemma WorklistVisits(g: Graph, project: string, rootRefs: set<string>, staleIds: set<string>, id: string,
                       queue: seq<string>, longer: seq<string>)
    requires Worklist(g, project, rootRefs, staleIds, [id] + queue)
    requires InProject(g, project, id)
    requires queue <= longer
    requires forall x :: x in longer ==> x in queue || DependsOn(g.edges, project, x, id)
    requires forall x :: DependsOn(g.edges, project, x, id) ==> x in staleIds + {id} || x in longer
    ensures Worklist(g, project, rootRefs, staleIds + {id}, longer)
  {
    assert forall x :: x in [id] + queue <==> x == id || x in queue;
    assert forall x :: x in queue ==> x in longer;
    forall x | x in longer && InProject(g, project, x) ensures ReachesRoot(g, project, rootRefs, x) {
      if x !in queue { DependentReaches(g, project, rootRefs, x, id); }
    }
  }

  class SemanticStore {
    var nodes: map<string, Node>
    var edges: set<Edge>
    var anchors: map<string, Anchor>

    function View(): Graph
      reads this
    {
      Graph(nodes, edges, anchors)
    }

    constructor (g: Graph)
      ensures View() == g
    {
      nodes, edges, anchors := g.nodes, g.edges, g.anchors;
    }

    // The incoming propagation edges of one node; unvisited sources join the queue.
    method EnqueueDependents(project: string, nodeId: string, staleIds: set<string>, queue0: seq<string>)
      returns (queue: seq<string>)
      ensures queue0 <= queue
      ensures forall id :: id in queue ==> id in queue0 || DependsOn(edges, project, id, nodeId)
      ensures forall s :: DependsOn(edges, project, s, nodeId) ==> s in staleIds || s in queue
    {
      var incoming := Rows(set e | e in edges && e.projectId == project && e.targetId == nodeId
                                   && e.relationship in PROPAGATION_RELATIONSHIPS);
      queue := queue0;
      for i := 0 to |incoming|
        invariant queue0 <= queue
        invariant forall id :: id in queue ==> id in queue0 || DependsOn(edges, project, id, nodeId)
        invariant forall k :: 0 <= k < i ==> incoming[k].sourceId in staleIds || incoming[k].sourceId in queue
      {
        assert incoming[i] in incoming;
        if incoming[i].sourceId !in staleIds {
          queue := queue + [incoming[i].sourceId];
        }
      }
      forall s | DependsOn(edges, project, s, nodeId) ensures s in staleIds || s in queue {
        var e :| e in edges && e.projectId == project && e.relationship in PROPAGATION_RELATIONSHIPS
                 && e.sourceId == s && e.targetId == nodeId;
        assert e in incoming;
      }
    }

    // `row.stale = True`, and the reference the row contributes to the report.
    method MarkRow(ghost original: map<string, Node>, ghost marked: set<string>, nodeId: string)
      returns (ref: set<string>)
      requires nodes == MarkNodes(original, marked) && nodeId in original
      modifies this`nodes
      ensures nodes == MarkNodes(original, marked + {nodeId})
      ensures RefsOf(original, marked + {nodeId}) == RefsOf(original, marked) + ref
    {
      MarkOneMore(original, marked, nodeId);
      var row := nodes[nodeId];
      nodes := nodes[nodeId := row.(stale := true)];
      ref := if row.externalRef.Some? && row.externalRef.value != "" then {row.externalRef.value} else {};
    }

    // The while loop of `_propagate_stale`; it ends on every graph, cycles included.
    method MarkReachable(project: string, rootRefs: set<string>) returns (staleIds: set<string>, staleRefs: set<string>)
      modifies this`nodes
      ensures forall id :: id in staleIds <==> ReachesRoot(old(View()), project, rootRefs, id)
      ensures staleIds <= old(nodes).Keys
      ensures nodes == MarkNodes(old(nodes), staleIds)
      ensures staleRefs == StaleRefs(old(View()), project, rootRefs)
    {
      ghost var g := View();
      hide Worklist, ReachesRoot;
      var queue := Rows(set id | id in nodes && nodes[id].projectId == project
                                 && nodes[id].externalRef.Some? && nodes[id].externalRef.value in rootRefs);
      staleIds, staleRefs := {}, {};
      WorklistStarts(g, project, rootRefs, queue);
      while queue != []
        invariant staleIds <= g.nodes.Keys && nodes == MarkNodes(g.nodes, staleIds)
        invariant Worklist(g, project, rootRefs, staleIds, queue)
        invariant staleRefs == RefsOf(g.nodes, staleIds)
        decreases g.nodes.Keys - staleIds, |queue|
      {
        var nodeId, remaining := queue[0], queue[1..];
        assert queue == [nodeId] + remaining;
        if nodeId in staleIds || nodeId !in nodes || nodes[nodeId].projectId != project {
          WorklistSkips(g, project, rootRefs, staleIds, nodeId, remaining);
          queue := remaining;
        } else {
          var ref := MarkRow(g.nodes, staleIds, nodeId);
          staleRefs := staleRefs + ref;
          queue := EnqueueDependents(project, nodeId, staleIds + {nodeId}, remaining);
          WorklistVisits(g, project, rootRefs, staleIds, nodeId, remaining, queue);
          assert g.nodes.Keys - (staleIds + {nodeId}) < g.nodes.Keys - staleIds by {
            assert nodeId in g.nodes.Keys - staleIds;
          }
          staleIds := staleIds + {nodeId};
        }
      }
      WorklistEnds(g, project, rootRefs, staleIds);
    }

    // `_propagate_stale`.
    method PropagateStale(project: string, rootRefs: set<string>) returns (staleRefs: set<string>)
      modifies this
      ensures View() == Marked(old(View()), project, rootRefs)
      ensures staleRefs == StaleRefs(old(View()), project, rootRefs)
    {
      if rootRefs == {} {
        NoRootsNoStaleness(View(), project);
        return {};
      }
      ghost var g := View();
      var staleIds;
      staleIds, staleRefs := MarkReachable(project, rootRefs);
      if staleRefs != {} {
        anchors := map a | a in anchors :: MarkAnchor(anchors[a], project, staleRefs);
      }
    }
  }

  lemma NoRootsNoStaleness(g: Graph, project: string)
    ensures Marked(g, project, {}) == g
    ensures StaleRefs(g, project, {}) == {}
    ensures forall id :: !ReachesRoot(g, project, {}, id)
  {
    forall id ensures !ReachesRoot(g, project, {}, id) {
      forall path ensures !ChainToRoot(g, project, {}, path) {}
    }
  }
}
