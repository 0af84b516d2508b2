// `sync_all`: pages are projected into the semantic graph, claim relations are added, and
// staleness is propagated from the roots the pages name.
module GraphSync {
  import opened Common
  import opened WikiPages
  import opened KnowledgeLint
  import opened SemanticGraph

  // uuid5 of project and reference; no property here needs it to be injective.
  type IdOf = (string, string) -> string

  // One `upsert_semantic_node`: a projected node is always written with stale=False.
  datatype Upsert = Upsert(kind: Kind, ref: string)

  // An edge named by references rather than ids.
  datatype Link = Link(source: string, relationship: string, target: string)

  // ----- Projection -----

  function ClaimUpserts(page: Page, claim: Claim): seq<Upsert> {
    [Upsert(ClaimKind, ClaimRef(page, claim))]
    + seq(|claim.sourceRefs|, i requires 0 <= i < |claim.sourceRefs| => Upsert(SourceKind, claim.sourceRefs[i]))
  }

  function ClaimsUpserts(page: Page, claims: seq<Claim>): seq<Upsert> {
    if claims == [] then []
    else ClaimsUpserts(page, claims[..|claims| - 1]) + ClaimUpserts(page, claims[|claims| - 1])
  }

  function PageUpserts(page: Page): seq<Upsert> {
    [Upsert(WikiPageKind, PageRef(page))] + ClaimsUpserts(page, page.claims)
  }

  function Upserts(pages: seq<Page>): seq<Upsert> {
    if pages == [] then [] else Upserts(pages[..|pages| - 1]) + PageUpserts(pages[|pages| - 1])
  }

  function Put(nodes: map<string, Node>, idOf: IdOf, project: string, u: Upsert): map<string, Node> {
    nodes[idOf(project, u.ref) := Node(project, u.kind, Some(u.ref), false)]
  }

  function PutAll(nodes: map<string, Node>, idOf: IdOf, project: string, us: seq<Upsert>): map<string, Node> {
    if us == [] then nodes
    else Put(PutAll(nodes, idOf, project, us[..|us| - 1]), idOf, project, us[|us| - 1])
  }

  function LinksTo(source: string, relationship: string, targets: seq<string>): set<Link> {
    set t | t in targets :: Link(source, relationship, t)
  }

  function ClaimLinks(page: Page, claim: Claim): set<Link> {
    {Link(PageRef(page), "contains", ClaimRef(page, claim))}
        + LinksTo(ClaimRef(page, claim), "derived_from", claim.sourceRefs)
  }

  function ClaimsLinks(page: Page, claims: seq<Claim>): set<Link> {
    if claims == [] then {}
    else
      var claim := claims[|claims| - 1];
      ClaimsLinks(page, claims[..|claims| - 1]) + ClaimLinks(page, claim)
  }

  function PagesLinks(pages: seq<Page>): set<Link> {
    if pages == [] then {}
    else PagesLinks(pages[..|pages| - 1]) + ClaimsLinks(pages[|pages| - 1], pages[|pages| - 1].claims)
  }

  function EdgesFor(idOf: IdOf, project: string, links: set<Link>): set<Edge> {
    set l | l in links :: Edge(project, idOf(project, l.source), l.relationship, idOf(project, l.target))
  }

  lemma EdgesForUnion(idOf: IdOf, project: string, a: set<Link>, b: set<Link>)
    ensures EdgesFor(idOf, project, a + b) == EdgesFor(idOf, project, a) + EdgesFor(idOf, project, b)
  {
    forall l | l in a || l in b ensures l in a + b {}
  }

  lemma PutAllSnoc(nodes: map<string, Node>, idOf: IdOf, project: string, us: seq<Upsert>, u: Upsert)
    ensures PutAll(nodes, idOf, project, us + [u]) == Put(PutAll(nodes, idOf, project, us), idOf, project, u)
  {
    assert (us + [u])[..|us + [u]| - 1] == us;
  }

  lemma {:induction false} PutAllConcat(nodes: map<string, Node>, idOf: IdOf, project: string, a: seq<Upsert>,
                                        b: seq<Upsert>)
    ensures PutAll(nodes, idOf, project, a + b) == PutAll(PutAll(nodes, idOf, project, a), idOf, project, b)
    decreases |b|
  {
    if b == [] {
      assert a + b == a;
    } else {
      assert (a + b)[..|a + b| - 1] == a + b[..|b| - 1];
      PutAllConcat(nodes, idOf, project, a, b[..|b| - 1]);
    }
  }

  // ----- Relations between claims -----

  datatype Lookup = Absent | Present | Ambiguous

  // `scalar_one_or_none` on the nodes that carry a reference: two rows are an error.
  function Find(nodes: map<string, Node>, project: string, ref: string): Lookup {
    var ids := set id | id in nodes && nodes[id].projectId == project && nodes[id].externalRef == Some(ref);
    if ids == {} then Absent else if |ids| == 1 then Present else Ambiguous
  }

  // Both lookups of a relation succeed; the target is looked up only when the source exists.
  predicate Clear(nodes: map<string, Node>, project: string, l: Link) {
    var source := Find(nodes, project, l.source);
    !source.Ambiguous? && (source.Present? ==> !Find(nodes, project, l.target).Ambiguous?)
  }

  predicate AllClear(nodes: map<string, Node>, project: string, links: set<Link>) {
    forall l :: l in links ==> Clear(nodes, project, l)
  }

  lemma ClearUnion(nodes: map<string, Node>, project: string, a: set<Link>, b: set<Link>)
    ensures AllClear(nodes, project, a + b) <==> AllClear(nodes, project, a) && AllClear(nodes, project, b)
  {
    hide Clear;
  }

  lemma ClearPart(nodes: map<string, Node>, project: string, part: set<Link>, all: set<Link>)
    requires part <= all && AllClear(nodes, project, all)
    ensures AllClear(nodes, project, part)
  {
    hide Clear;
  }

  // The relations whose two ends both exist.
  function Relatable(nodes: map<string, Node>, project: string, links: set<Link>): set<Link> {
    set l | l in links && Find(nodes, project, l.source).Present? && Find(nodes, project, l.target).Present?
  }

  function Added(nodes: map<string, Node>, idOf: IdOf, project: string, links: set<Link>): set<Edge> {
    EdgesFor(idOf, project, Relatable(nodes, project, links))
  }

  lemma AddedUnion(nodes: map<string, Node>, idOf: IdOf, project: string, a: set<Link>, b: set<Link>)
    ensures Added(nodes, idOf, project, a + b) == Added(nodes, idOf, project, a) + Added(nodes, idOf, project, b)
  {
    assert Relatable(nodes, project, a + b) == Relatable(nodes, project, a) + Relatable(nodes, project, b);
    EdgesForUnion(idOf, project, Relatable(nodes, project, a), Relatable(nodes, project, b));
  }

  lemma AddedPart(nodes: map<string, Node>, idOf: IdOf, project: string, part: set<Link>, all: set<Link>)
    requires part <= all
    ensures Added(nodes, idOf, project, part) <= Added(nodes, idOf, project, all)
  {
    hide Find;
  }

  function ClaimRelations(ref: string, claim: Claim): set<Link> {
    LinksTo(ref, "supersedes", claim.supersedes) + LinksTo(ref, "contradicts", claim.contradicts)
  }

  function PairLinks(pairs: set<(string, string)>): set<Link> {
    set p | p in pairs :: Link(p.0, "contradicts", p.1)
  }

  // The relations, roots, superseded claims and explicit pairs of the claims filed under `refs`.
  function LinksOfClaims(index: map<string, Claim>, refs: seq<string>): set<Link> {
    set ref, l | ref in refs && ref in index && l in ClaimRelations(ref, index[ref]) :: l
  }

  function RootsOfClaims(index: map<string, Claim>, refs: seq<string>): set<string> {
    set ref, r | ref in refs && ref in index && r in ClaimRoots(ref, index[ref]) :: r
  }

  function SupersededBy(index: map<string, Claim>, refs: seq<string>): set<string> {
    set ref, t | ref in refs && ref in index && t in index[ref].supersedes :: t
  }

  function ExplicitOf(index: map<string, Claim>, refs: seq<string>): set<SyncContradiction> {
    set ref, t | ref in refs && ref in index && t in index[ref].contradicts :: ExplicitPair(Ordered(ref, t))
  }

  lemma OneMoreClaim(index: map<string, Claim>, refs: seq<string>, k: nat)
    requires k < |refs| && refs[k] in index
    ensures var ref, claim := refs[k], index[refs[k]];
            && LinksOfClaims(index, refs[..k + 1]) == LinksOfClaims(index, refs[..k]) + ClaimRelations(ref, claim)
            && RootsOfClaims(index, refs[..k + 1]) == RootsOfClaims(index, refs[..k]) + ClaimRoots(ref, claim)
            && SupersededBy(index, refs[..k + 1]) == SupersededBy(index, refs[..k]) + SetOf(claim.supersedes)
            && ExplicitOf(index, refs[..k + 1])
                 == ExplicitOf(index, refs[..k]) + (set t | t in claim.contradicts :: ExplicitPair(Ordered(ref, t)))
  {
    hide Ordered, ClaimRelations, ClaimRoots;
    assert refs[..k + 1] == refs[..k] + [refs[k]];
  }

  lemma OneClaimOfMany(index: map<string, Claim>, refs: seq<string>, k: nat)
    requires k < |refs| && refs[k] in index
    ensures ClaimRelations(refs[k], index[refs[k]]) <= LinksOfClaims(index, refs)
  {
    hide ClaimRelations;
  }

  lemma SomeClaimsOfMany(index: map<string, Claim>, refs: seq<string>, k: nat)
    requires k <= |refs|
    ensures LinksOfClaims(index, refs[..k]) <= LinksOfClaims(index, refs)
  {
    hide ClaimRelations;
  }

  // The same of the facts under `keys`.
  function LinksOfFacts(es: seq<Entry>, normalize: string -> string, keys: seq<string>): set<Link> {
    set key, l | key in keys && l in PairLinks(SyncPairs(es, normalize, key)) :: l
  }

  function FactRoots(es: seq<Entry>, normalize: string -> string, key: string): set<string> {
    if SyncFlags(es, normalize, key) then SetOf(SyncRefs(es, key)) else {}
  }

  function RootsOfFacts(es: seq<Entry>, normalize: string -> string, keys: seq<string>): set<string> {
    set key, r | key in keys && r in FactRoots(es, normalize, key) :: r
  }

  function FactPairsOf(es: seq<Entry>, normalize: string -> string, keys: seq<string>): set<SyncContradiction> {
    set key, p | key in keys && p in SyncPairs(es, normalize, key) :: FactPair(key, p)
  }

  lemma OneMoreFact(es: seq<Entry>, normalize: string -> string, keys: seq<string>, k: nat)
    requires k < |keys|
    ensures LinksOfFacts(es, normalize, keys[..k + 1])
         == LinksOfFacts(es, normalize, keys[..k]) + PairLinks(SyncPairs(es, normalize, keys[k]))
    ensures RootsOfFacts(es, normalize, keys[..k + 1])
         == RootsOfFacts(es, normalize, keys[..k]) + FactRoots(es, normalize, keys[k])
    ensures FactPairsOf(es, normalize, keys[..k + 1])
         == FactPairsOf(es, normalize, keys[..k])
            + (set p | p in SyncPairs(es, normalize, keys[k]) :: FactPair(keys[k], p))
  {
    hide SyncPairs, PairLinks, FactRoots;
    assert keys[..k + 1] == keys[..k] + [keys[k]];
  }

  lemma OneFactOfMany(es: seq<Entry>, normalize: string -> string, keys: seq<string>, k: nat)
    requires k < |keys|
    ensures PairLinks(SyncPairs(es, normalize, keys[k])) <= LinksOfFacts(es, normalize, keys)
  {
    hide SyncPairs, PairLinks;
  }

  lemma SomeFactsOfMany(es: seq<Entry>, normalize: string -> string, keys: seq<string>, k: nat)
    requires k <= |keys|
    ensures LinksOfFacts(es, normalize, keys[..k]) <= LinksOfFacts(es, normalize, keys)
  {
    hide SyncPairs, PairLinks;
  }

  // Every relation a page set asks for.
  function Relations(es: seq<Entry>, normalize: string -> string): set<Link> {
    var index := ClaimIndex(es);
    (set ref, l | ref in index && l in ClaimRelations(ref, index[ref]) :: l)
    + (set key, l | key in SyncFacts(es) && l in PairLinks(SyncPairs(es, normalize, key)) :: l)
  }

  // Visiting every claim and every fact, in any order, gathers exactly what the page set says.
  lemma AllClaimsAndFacts(es: seq<Entry>, normalize: string -> string, pages: seq<Page>, now: int, refs: seq<string>,
                          keys: seq<string>)
    requires es == Entries(pages)
    requires forall x :: x in refs <==> x in ClaimIndex(es)
    requires forall x :: x in keys <==> x in SyncFacts(es)
    ensures Relations(es, normalize) == LinksOfClaims(ClaimIndex(es), refs) + LinksOfFacts(es, normalize, keys)
    ensures Roots(pages, now, normalize)
         == PageRoots(pages, now) + RootsOfClaims(ClaimIndex(es), refs) + RootsOfFacts(es, normalize, keys)
    ensures Contradictions(es, normalize) == ExplicitOf(ClaimIndex(es), refs) + FactPairsOf(es, normalize, keys)
    ensures SyncSuperseded(ClaimIndex(es)) == SupersededBy(ClaimIndex(es), refs)
  {
    hide SyncPairs, PairLinks, SyncRefs, SyncFlags, Ordered, ClaimRelations, ClaimRoots, ClaimIndex, SyncFacts, Entries;
    var index := ClaimIndex(es);
    forall p | p in SyncExplicit(index) ensures ExplicitPair(p) in ExplicitOf(index, refs) {
      var ref, t :| ref in index && t in index[ref].contradicts && p == Ordered(ref, t);
      assert ref in refs;
    }
  }

  datatype SyncContradiction = ExplicitPair(pair: (string, string)) | FactPair(factKey: string, pair: (string, string))

  function Contradictions(es: seq<Entry>, normalize: string -> string): set<SyncContradiction> {
    (set p | p in SyncExplicit(ClaimIndex(es)) :: ExplicitPair(p))
    + (set key, p | key in SyncFacts(es) && p in SyncPairs(es, normalize, key) :: FactPair(key, p))
  }

  function PageRoots(pages: seq<Page>, now: int): set<string> {
    if pages == [] then {}
    else
      var last := pages[|pages| - 1];
      PageRoots(pages[..|pages| - 1], now) + (if DueForReview(last, now) then {PageRef(last)} else {})
  }

  // Superseded claims, and both sides of an explicit contradiction.
  function ClaimRoots(ref: string, claim: Claim): set<string> {
    SetOf(claim.supersedes) + (if claim.contradicts == [] then {} else {ref} + SetOf(claim.contradicts))
  }

  function Roots(pages: seq<Page>, now: int, normalize: string -> string): set<string> {
    var es := Entries(pages);
    var index := ClaimIndex(es);
    PageRoots(pages, now)
    + (set ref, r | ref in index && r in ClaimRoots(ref, index[ref]) :: r)
    + (set key, r | key in SyncFacts(es) && r in FactRoots(es, normalize, key) :: r)
  }

  // ----- The graph after projection, and after the whole sync -----

  function Projected(g: Graph, idOf: IdOf, project: string, pages: seq<Page>, normalize: string -> string): Graph {
    var nodes := PutAll(g.nodes, idOf, project, Upserts(pages));
    Graph(nodes,
          g.edges + EdgesFor(idOf, project, PagesLinks(pages))
              + Added(nodes, idOf, project, Relations(Entries(pages), normalize)),
          g.anchors)
  }

  ghost function Synced(g: Graph, idOf: IdOf, project: string, pages: seq<Page>, now: int,
                        normalize: string -> string): Graph {
    Marked(Projected(g, idOf, project, pages, normalize), project, Roots(pages, now, normalize))
  }

  function ProjectedIds(idOf: IdOf, project: string, pages: seq<Page>): set<string> {
    set i | 0 <= i < |Upserts(pages)| :: idOf(project, Upserts(pages)[i].ref)
  }

  lemma {:induction false} PutAllNodes(nodes: map<string, Node>, idOf: IdOf, project: string, us: seq<Upsert>)
    ensures var ids := set i | 0 <= i < |us| :: idOf(project, us[i].ref);
            var after := PutAll(nodes, idOf, project, us);
            && after.Keys == nodes.Keys + ids
            && (forall id :: id in ids ==> !after[id].stale && after[id].projectId == project)
            && (forall id :: id in nodes && id !in ids ==> after[id] == nodes[id])
  {
    var ids := set i | 0 <= i < |us| :: idOf(project, us[i].ref);
    if us != [] {
      var front, last := us[..|us| - 1], us[|us| - 1];
      PutAllNodes(nodes, idOf, project, front);
      var before := set i | 0 <= i < |front| :: idOf(project, front[i].ref);
      forall id ensures id in ids <==> id in before || id == idOf(project, last.ref) {
        if id in ids {
          var i :| 0 <= i < |us| && id == idOf(project, us[i].ref);
          assert i < |front| ==> front[i] == us[i];
        }
        if id in before {
          var i :| 0 <= i < |front| && id == idOf(project, front[i].ref);
          assert us[i] == front[i];
        }
        if id == idOf(project, last.ref) { assert us[|us| - 1] == last; }
      }
    }
  }

  // After one sync: a re-projected node is stale exactly when a root of this sync is reachable from
  // it; any other node exactly when it was stale before or a root is reachable; an anchor exactly
  // when it was stale before or its claim is among the stale references.
  lemma StaleAfterSync(g: Graph, idOf: IdOf, project: string, pages: seq<Page>, now: int, normalize: string -> string)
    ensures var p := Projected(g, idOf, project, pages, normalize);
            var roots := Roots(pages, now, normalize);
            var h := Synced(g, idOf, project, pages, now, normalize);
            && h.nodes.Keys == g.nodes.Keys + ProjectedIds(idOf, project, pages)
            && (forall id :: id in ProjectedIds(idOf, project, pages) ==>
                  (h.nodes[id].stale <==> ReachesRoot(p, project, roots, id)))
            && (forall id :: id in g.nodes && id !in ProjectedIds(idOf, project, pages) ==>
                  (h.nodes[id].stale <==> g.nodes[id].stale || ReachesRoot(p, project, roots, id)))
            && h.anchors.Keys == g.anchors.Keys
            && (forall a :: a in g.anchors ==>
                  (h.anchors[a].stale <==>
                     || g.anchors[a].stale
                     || (g.anchors[a].projectId == project && g.anchors[a].claimRef in StaleRefs(p, project, roots))))
  {
    PutAllNodes(g.nodes, idOf, project, Upserts(pages));
  }

  // The documentation says a later sync never silently clears stale state. The code clears a node
  // exactly when it is re-projected and no root of that sync is reachable from it.
  lemma SyncClearsExactly(g: Graph, idOf: IdOf, project: string, pages: seq<Page>, now: int,
                          normalize: string -> string, id: string)
    requires id in g.nodes && g.nodes[id].stale
    ensures var h := Synced(g, idOf, project, pages, now, normalize);
            id in h.nodes &&
            (!h.nodes[id].stale <==>
               && id in ProjectedIds(idOf, project, pages)
               && !ReachesRoot(Projected(g, idOf, project, pages, normalize), project, Roots(pages, now, normalize),
                   id))
  {
    StaleAfterSync(g, idOf, project, pages, now, normalize);
  }

  // ----- What the pages put in doubt, claim by claim -----

  // The claim a reference stands for: the last one filed under it.
  ghost predicate InForce(es: seq<Entry>, ref: string, claim: Claim) {
    exists k :: 0 <= k < |es| && es[k] == Entry(ref, claim) && NotFiledAfter(es, ref, k)
  }

  ghost predicate NotFiledAfter(es: seq<Entry>, ref: string, k: int) {
    forall j :: k < j < |es| && 0 <= j ==> es[j].ref != ref
  }

  ghost predicate SupersededNow(es: seq<Entry>, ref: string) {
    exists other, claim :: InForce(es, other, claim) && ref in claim.supersedes
  }

  // A claim of this fact was filed under the reference, and nothing in force supersedes it.
  ghost predicate States(es: seq<Entry>, key: string, ref: string) {
    FiledFor(es, key, ref) && !SupersededNow(es, ref)
  }

  ghost predicate FiledFor(es: seq<Entry>, key: string, ref: string) {
    exists k :: 0 <= k < |es| && es[k].ref == ref && es[k].claim.factKey == Some(key)
  }

  // Two active claims of the fact say different things.
  ghost predicate Contested(es: seq<Entry>, normalize: string -> string, key: string) {
    exists a, b, here, there ::
      && States(es, key, a) && InForce(es, a, here)
      && States(es, key, b) && InForce(es, b, there)
      && normalize(here.text) != normalize(there.text)
  }

  // Superseded claims, both sides of an explicit contradiction, every active claim of a contested
  // fact, and pages under review, superseded, or past their review date.
  ghost predicate InDoubt(pages: seq<Page>, now: int, normalize: string -> string, ref: string) {
    var es := Entries(pages);
    || SupersededNow(es, ref)
    || (exists claim :: InForce(es, ref, claim) && claim.contradicts != [])
    || (exists other, claim :: InForce(es, other, claim) && ref in claim.contradicts)
    || (exists key :: Contested(es, normalize, key) && States(es, key, ref))
    || PageInDoubt(pages, now, ref)
  }

  ghost predicate PageInDoubt(pages: seq<Page>, now: int, ref: string) {
    exists page :: page in pages && ref == "wiki:" + page.slug
                   && (page.status.ReviewDue? || page.status.Superseded?
                       || (page.reviewAfter.Some? && page.reviewAfter.value <= now))
  }

  // The entries are the claims of the pages, under their page and claim id.
  lemma {:induction false} ClaimEntries(page: Page, claims: seq<Claim>, e: Entry)
    ensures e in EntriesOf(page, claims) <==>
              exists claim :: claim in claims && e == Entry("wiki:" + page.slug + "#" + claim.claimId, claim)
  {
    if claims != [] {
      ClaimEntries(page, claims[..|claims| - 1], e);
      assert forall claim :: claim in claims <==> claim in claims[..|claims| - 1] || claim == claims[|claims| - 1];
    }
  }

  lemma {:induction false} EntriesAreClaims(pages: seq<Page>, e: Entry)
    ensures e in Entries(pages) <==>
              exists page, claim :: page in pages && claim in page.claims
                && e == Entry("wiki:" + page.slug + "#" + claim.claimId, claim)
  {
    if pages != [] {
      hide EntriesOf;
      var front, last := pages[..|pages| - 1], pages[|pages| - 1];
      EntriesAreClaims(front, e);
      ClaimEntries(last, last.claims, e);
      assert forall page :: page in pages <==> page in front || page == last;
    }
  }

  lemma InForceIsIndexed(es: seq<Entry>, ref: string, claim: Claim)
    ensures InForce(es, ref, claim) <==> ref in ClaimIndex(es) && ClaimIndex(es)[ref] == claim
  {
    hide ClaimIndex;
    if InForce(es, ref, claim) {
      var k :| 0 <= k < |es| && es[k] == Entry(ref, claim) && NotFiledAfter(es, ref, k);
      LastClaimWins(es, k);
    }
    if ref in ClaimIndex(es) {
      IndexedClaimIsFiled(es, ref);
      var k :| 0 <= k < |es| && es[k] == Entry(ref, ClaimIndex(es)[ref])
               && forall j :: k < j < |es| ==> es[j].ref != ref;
      assert NotFiledAfter(es, ref, k);
    }
  }

  lemma SupersededAre(es: seq<Entry>, ref: string)
    ensures ref in SyncSuperseded(ClaimIndex(es)) <==> SupersededNow(es, ref)
  {
    hide ClaimIndex, InForce;
    var index := ClaimIndex(es);
    if ref in SyncSuperseded(index) {
      var other :| other in index && ref in index[other].supersedes;
      InForceIsIndexed(es, other, index[other]);
    }
    if SupersededNow(es, ref) {
      var other, claim :| InForce(es, other, claim) && ref in claim.supersedes;
      InForceIsIndexed(es, other, claim);
    }
  }

  lemma {:induction false} FactRefsAre(es: seq<Entry>, key: string, ref: string)
    ensures key in SyncFacts(es) && ref in SyncFacts(es)[key] <==> FiledFor(es, key, ref)
  {
    if es != [] {
      var front, last := es[..|es| - 1], es[|es| - 1];
      FactRefsAre(front, key, ref);
      if FiledFor(front, key, ref) {
        var k :| 0 <= k < |front| && front[k].ref == ref && front[k].claim.factKey == Some(key);
        assert es[k] == front[k];
      }
      if FiledFor(es, key, ref) && !FiledFor(front, key, ref) {
        var k :| 0 <= k < |es| && es[k].ref == ref && es[k].claim.factKey == Some(key);
        assert k < |front| ==> front[k] == es[k];
      }
    }
  }

  lemma {:induction false} ActiveRefsAre(refs: seq<string>, superseded: set<string>, ref: string)
    ensures ref in SyncActive(refs, superseded) <==> ref in refs && ref !in superseded
  {
    if refs != [] {
      ActiveRefsAre(refs[..|refs| - 1], superseded, ref);
      assert ref in refs <==> ref in refs[..|refs| - 1] || ref == refs[|refs| - 1];
    }
  }

  lemma SyncRefsAre(es: seq<Entry>, key: string, ref: string)
    ensures ref in SyncRefs(es, key) <==> States(es, key, ref)
  {
    hide SyncFacts, SyncActive, SyncSuperseded, ClaimIndex, FiledFor, SupersededNow;
    FactRefsAre(es, key, ref);
    SupersededAre(es, ref);
    if key in SyncFacts(es) { ActiveRefsAre(SyncFacts(es)[key], SyncSuperseded(ClaimIndex(es)), ref); }
  }

  lemma ManyValuesDiffer(refs: seq<string>, index: map<string, Claim>, normalize: string -> string)
    requires |SyncValues(refs, index, normalize)| > 1
    ensures exists a, b :: a in refs && b in refs && a in index && b in index
              && normalize(index[a].text) != normalize(index[b].text)
  {
    var values := SyncValues(refs, index, normalize);
    var v :| v in values;
    assert values != {v};
    var w :| w in values && w != v;
    var i :| 0 <= i < |refs| && refs[i] in index && normalize(index[refs[i]].text) == v;
    var j :| 0 <= j < |refs| && refs[j] in index && normalize(index[refs[j]].text) == w;
    assert refs[i] in refs && refs[j] in refs;
  }

  lemma DifferingValuesAreMany(refs: seq<string>, index: map<string, Claim>, normalize: string -> string, a: string,
                               b: string)
    requires a in refs && b in refs && a in index && b in index
    requires normalize(index[a].text) != normalize(index[b].text)
    ensures |refs| > 1 && |SyncValues(refs, index, normalize)| > 1
  {
    var values := SyncValues(refs, index, normalize);
    var i :| 0 <= i < |refs| && refs[i] == a;
    var j :| 0 <= j < |refs| && refs[j] == b;
    assert normalize(index[a].text) in values && normalize(index[b].text) in values;
    TwoOf(values, normalize(index[a].text), normalize(index[b].text));
  }

  lemma SyncFlagsAre(es: seq<Entry>, normalize: string -> string, key: string)
    ensures SyncFlags(es, normalize, key) <==>
              && key in SyncFacts(es) && |SyncRefs(es, key)| > 1
              && |SyncValues(SyncRefs(es, key), ClaimIndex(es), normalize)| > 1
  {
    hide SyncFacts, SyncRefs, SyncValues, ClaimIndex;
  }

  lemma ContestedBy(es: seq<Entry>, normalize: string -> string, key: string, a: string, b: string)
    requires a in SyncRefs(es, key) && b in SyncRefs(es, key) && a in ClaimIndex(es) && b in ClaimIndex(es)
    requires normalize(ClaimIndex(es)[a].text) != normalize(ClaimIndex(es)[b].text)
    ensures Contested(es, normalize, key)
  {
    hide SyncRefs, ClaimIndex, InForce, States;
    SyncRefsAre(es, key, a);
    SyncRefsAre(es, key, b);
    InForceIsIndexed(es, a, ClaimIndex(es)[a]);
    InForceIsIndexed(es, b, ClaimIndex(es)[b]);
  }

  lemma FlaggedIsContested(es: seq<Entry>, normalize: string -> string, key: string)
    ensures SyncFlags(es, normalize, key) <==> Contested(es, normalize, key)
  {
    hide SyncFacts, SyncRefs, SyncValues, SyncFlags, ClaimIndex, InForce, States;
    var refs, index := SyncRefs(es, key), ClaimIndex(es);
    SyncFlagsAre(es, normalize, key);
    if SyncFlags(es, normalize, key) {
      hide Contested;
      ManyValuesDiffer(refs, index, normalize);
      var a, b :| a in refs && b in refs && a in index && b in index
                  && normalize(index[a].text) != normalize(index[b].text);
      ContestedBy(es, normalize, key, a, b);
    } else if Contested(es, normalize, key) {
      var a, b, here, there :|
        && States(es, key, a) && InForce(es, a, here)
        && States(es, key, b) && InForce(es, b, there)
        && normalize(here.text) != normalize(there.text);
      hide Contested;
      FlaggedBy(es, normalize, key, a, b, here, there);
    }
  }

  lemma FlaggedBy(es: seq<Entry>, normalize: string -> string, key: string, a: string, b: string, here: Claim,
                  there: Claim)
    requires States(es, key, a) && InForce(es, a, here) && States(es, key, b) && InForce(es, b, there)
    requires normalize(here.text) != normalize(there.text)
    ensures SyncFlags(es, normalize, key)
  {
    hide *;
    SyncRefsAre(es, key, a);
    SyncRefsAre(es, key, b);
    InForceIsIndexed(es, a, here);
    InForceIsIndexed(es, b, there);
    DifferingValuesAreMany(SyncRefs(es, key), ClaimIndex(es), normalize, a, b);
    KeyHasRefs(es, key, a);
    SyncFlagsAre(es, normalize, key);
  }

  lemma KeyHasRefs(es: seq<Entry>, key: string, ref: string)
    requires ref in SyncRefs(es, key)
    ensures key in SyncFacts(es)
  {
    hide SyncFacts;
  }

  lemma {:induction false} PageRootsAre(pages: seq<Page>, now: int, ref: string)
    ensures ref in PageRoots(pages, now) <==> PageInDoubt(pages, now, ref)
  {
    if pages != [] {
      var front, last := pages[..|pages| - 1], pages[|pages| - 1];
      PageRootsAre(front, now, ref);
      assert forall page :: page in pages <==> page in front || page == last;
    }
  }

  ghost predicate ClaimRoot(es: seq<Entry>, other: string, ref: string) {
    other in ClaimIndex(es) && ref in ClaimRoots(other, ClaimIndex(es)[other])
  }

  lemma ClaimRootsAre(es: seq<Entry>, ref: string)
    ensures (exists other :: ClaimRoot(es, other, ref)) <==>
              || SupersededNow(es, ref)
              || (exists claim :: InForce(es, ref, claim) && claim.contradicts != [])
              || (exists other, claim :: InForce(es, other, claim) && ref in claim.contradicts)
  {
    hide ClaimIndex, InForce;
    var index := ClaimIndex(es);
    if other :| ClaimRoot(es, other, ref) {
      InForceIsIndexed(es, other, index[other]);
    }
    if SupersededNow(es, ref) {
      var other, claim :| InForce(es, other, claim) && ref in claim.supersedes;
      InForceIsIndexed(es, other, claim);
      assert ClaimRoot(es, other, ref);
    }
    if claim :| InForce(es, ref, claim) && claim.contradicts != [] {
      InForceIsIndexed(es, ref, claim);
      assert ClaimRoot(es, ref, ref);
    }
    if other, claim :| InForce(es, other, claim) && ref in claim.contradicts {
      InForceIsIndexed(es, other, claim);
      assert ClaimRoot(es, other, ref);
    }
  }

  lemma FactRootsAre(es: seq<Entry>, normalize: string -> string, key: string, ref: string)
    ensures FactRoot(es, normalize, key, ref) <==> ContestedFor(es, normalize, key, ref)
  {
    hide SyncFacts, SyncFlags, SyncRefs, Contested, States;
    FlaggedIsContested(es, normalize, key);
    SyncRefsAre(es, key, ref);
    if ref in SyncRefs(es, key) { KeyHasRefs(es, key, ref); }
  }

  ghost predicate FactRoot(es: seq<Entry>, normalize: string -> string, key: string, ref: string) {
    key in SyncFacts(es) && ref in FactRoots(es, normalize, key)
  }

  lemma RootsAre(pages: seq<Page>, es: seq<Entry>, now: int, normalize: string -> string, ref: string)
    requires es == Entries(pages)
    ensures ref in Roots(pages, now, normalize) <==>
              || ref in PageRoots(pages, now)
              || (exists other :: ClaimRoot(es, other, ref))
              || (exists key :: FactRoot(es, normalize, key, ref))
  {
    hide Entries, ClaimIndex, SyncFacts, PageRoots, FactRoots, ClaimRoots;
    var index := ClaimIndex(es);
    var fromClaims := set other, r | other in index && r in ClaimRoots(other, index[other]) :: r;
    var fromFacts := set key, r | key in SyncFacts(es) && r in FactRoots(es, normalize, key) :: r;
    assert Roots(pages, now, normalize) == PageRoots(pages, now) + fromClaims + fromFacts;
    if ref in fromClaims {
      var other :| other in index && ref in ClaimRoots(other, index[other]);
      assert ClaimRoot(es, other, ref);
    }
    if ref in fromFacts {
      var key :| key in SyncFacts(es) && ref in FactRoots(es, normalize, key);
      assert FactRoot(es, normalize, key, ref);
    }
  }

  ghost predicate ContestedFor(es: seq<Entry>, normalize: string -> string, key: string, ref: string) {
    Contested(es, normalize, key) && States(es, key, ref)
  }

  lemma InDoubtIs(pages: seq<Page>, now: int, normalize: string -> string, ref: string)
    ensures var es := Entries(pages);
            InDoubt(pages, now, normalize, ref) <==>
              || SupersededNow(es, ref)
              || (exists claim :: InForce(es, ref, claim) && claim.contradicts != [])
              || (exists other, claim :: InForce(es, other, claim) && ref in claim.contradicts)
              || (exists key :: ContestedFor(es, normalize, key, ref))
              || PageInDoubt(pages, now, ref)
  {
    hide Entries, InForce, SupersededNow, Contested, States, PageInDoubt;
    var es := Entries(pages);
    forall key
      ensures ContestedFor(es, normalize, key, ref) <==> Contested(es, normalize, key) && States(es, key, ref)
    {
    }
  }

  // The roots of a sync are exactly the references in doubt.
  lemma RootsExactly(pages: seq<Page>, now: int, normalize: string -> string, ref: string)
    ensures ref in Roots(pages, now, normalize) <==> InDoubt(pages, now, normalize, ref)
  {
    hide *;
    var es := Entries(pages);
    RootsAre(pages, es, now, normalize, ref);
    InDoubtIs(pages, now, normalize, ref);
    PageRootsAre(pages, now, ref);
    ClaimRootsAre(es, ref);
    forall key ensures FactRoot(es, normalize, key, ref) <==> ContestedFor(es, normalize, key, ref) {
      FactRootsAre(es, normalize, key, ref);
    }
  }

  // A chain of dependencies between nodes of the project that ends in a reference in doubt.
  ghost predicate ChainToDoubt(g: Graph, project: string, pages: seq<Page>, now: int, normalize: string -> string,
                               path: seq<string>) {
    && path != []
    && (forall i :: 0 <= i < |path| ==> path[i] in g.nodes && g.nodes[path[i]].projectId == project)
    && (forall i :: 0 <= i < |path| - 1 ==> Leans(g.edges, project, path[i], path[i + 1]))
    && g.nodes[path[|path| - 1]].externalRef.Some?
    && InDoubt(pages, now, normalize, g.nodes[path[|path| - 1]].externalRef.value)
  }

  ghost predicate Leans(edges: set<Edge>, project: string, source: string, target: string) {
    exists r ::
      && r in {"based_on", "contains", "depends_on", "derived_from", "documents", "implements", "references",
               "verified_by"}
      && Edge(project, source, r, target) in edges
  }

  lemma LeansIsDependsOn(edges: set<Edge>, project: string, source: string, target: string)
    ensures Leans(edges, project, source, target) <==> DependsOn(edges, project, source, target)
  {
    if Leans(edges, project, source, target) {
      var r :|
        && r in {"based_on", "contains", "depends_on", "derived_from", "documents", "implements", "references",
                 "verified_by"}
        && Edge(project, source, r, target) in edges;
      assert r in PROPAGATION_RELATIONSHIPS;
    }
    if DependsOn(edges, project, source, target) {
      var e :| e in edges && e.projectId == project && e.relationship in PROPAGATION_RELATIONSHIPS
               && e.sourceId == source && e.targetId == target;
      assert Edge(project, source, e.relationship, target) == e;
    }
  }

  lemma ChainsAgree(g: Graph, project: string, pages: seq<Page>, now: int, normalize: string -> string,
                    path: seq<string>)
    ensures ChainToDoubt(g, project, pages, now, normalize, path) <==>
              ChainToRoot(g, project, Roots(pages, now, normalize), path)
  {
    hide Leans, DependsOn, InDoubt, Roots;
    forall i | 0 <= i < |path| - 1
      ensures Leans(g.edges, project, path[i], path[i + 1]) <==> DependsOn(g.edges, project, path[i], path[i + 1])
    {
      LeansIsDependsOn(g.edges, project, path[i], path[i + 1]);
    }
    if path != [] && path[|path| - 1] in g.nodes && g.nodes[path[|path| - 1]].externalRef.Some? {
      RootsExactly(pages, now, normalize, g.nodes[path[|path| - 1]].externalRef.value);
    }
  }

  ghost predicate LeansOnDoubt(g: Graph, project: string, pages: seq<Page>, now: int, normalize: string -> string,
                               id: string) {
    exists path :: ChainToDoubt(g, project, pages, now, normalize, path) && path[0] == id
  }

  lemma LeansOnDoubtIsReach(g: Graph, project: string, pages: seq<Page>, now: int, normalize: string -> string,
                            id: string)
    ensures LeansOnDoubt(g, project, pages, now, normalize, id) <==>
              ReachesRoot(g, project, Roots(pages, now, normalize), id)
  {
    hide ChainToDoubt, ChainToRoot, Roots;
    forall path
      ensures ChainToDoubt(g, project, pages, now, normalize, path) <==>
                ChainToRoot(g, project, Roots(pages, now, normalize), path)
    {
      ChainsAgree(g, project, pages, now, normalize, path);
    }
    if LeansOnDoubt(g, project, pages, now, normalize, id) {
      NotEmptyChain(g, project, pages, now, normalize);
      var path :| ChainToDoubt(g, project, pages, now, normalize, path) && path[0] == id;
      assert ChainToRoot(g, project, Roots(pages, now, normalize), path);
    }
    if ReachesRoot(g, project, Roots(pages, now, normalize), id) {
      var path :| ChainToRoot(g, project, Roots(pages, now, normalize), path) && path[0] == id;
      assert ChainToDoubt(g, project, pages, now, normalize, path);
    }
  }

  lemma NotEmptyChain(g: Graph, project: string, pages: seq<Page>, now: int, normalize: string -> string)
    ensures forall path :: ChainToDoubt(g, project, pages, now, normalize, path) ==> path != []
  {
  }

  // What is stale after a sync, from the pages and the projected graph alone: a re-projected node
  // exactly when it leans on something in doubt, any other node exactly when it was stale before or
  // does so, an anchor exactly when it was stale before or its claim's reference is on a node that does.
  lemma StaleExactlyFromDoubt(g: Graph, idOf: IdOf, project: string, pages: seq<Page>, now: int,
                              normalize: string -> string)
    ensures var p := Projected(g, idOf, project, pages, normalize);
            var h := Synced(g, idOf, project, pages, now, normalize);
            && h.nodes.Keys == g.nodes.Keys + ProjectedIds(idOf, project, pages)
            && (forall id :: id in ProjectedIds(idOf, project, pages) ==>
                  (h.nodes[id].stale <==> LeansOnDoubt(p, project, pages, now, normalize, id)))
            && (forall id :: id in g.nodes && id !in ProjectedIds(idOf, project, pages) ==>
                  (h.nodes[id].stale <==> g.nodes[id].stale || LeansOnDoubt(p, project, pages, now, normalize, id)))
            && h.anchors.Keys == g.anchors.Keys
            && (forall a :: a in g.anchors ==>
                  (h.anchors[a].stale <==>
                     || g.anchors[a].stale
                     || (g.anchors[a].projectId == project && g.anchors[a].claimRef != ""
                         && exists id :: id in p.nodes && p.nodes[id].externalRef == Some(g.anchors[a].claimRef)
                                         && LeansOnDoubt(p, project, pages, now, normalize, id))))
  {
    StaleAfterSync(g, idOf, project, pages, now, normalize);
    hide Projected, Synced, ProjectedIds, Roots, ReachesRoot, LeansOnDoubt;
    var p := Projected(g, idOf, project, pages, normalize);
    forall id
      ensures LeansOnDoubt(p, project, pages, now, normalize, id) <==>
                ReachesRoot(p, project, Roots(pages, now, normalize), id)
    {
      LeansOnDoubtIsReach(p, project, pages, now, normalize, id);
    }
  }

  // After a sync every node of the project that carries a reference in doubt is stale.
  lemma DoubtTurnsStale(g: Graph, idOf: IdOf, project: string, pages: seq<Page>, now: int, normalize: string -> string,
                        ref: string, id: string)
    requires InDoubt(pages, now, normalize, ref)
    requires var p := Projected(g, idOf, project, pages, normalize);
             InProject(p, project, id) && p.nodes[id].externalRef == Some(ref)
    ensures var h := Synced(g, idOf, project, pages, now, normalize); id in h.nodes && h.nodes[id].stale
  {
    RootsExactly(pages, now, normalize, ref);
    hide Projected, Roots, InDoubt, ReachesRoot;
    RootReaches(Projected(g, idOf, project, pages, normalize), project, Roots(pages, now, normalize), id);
  }

  lemma {:induction false} ClaimLinked(page: Page, claims: seq<Claim>, claim: Claim)
    requires claim in claims
    ensures ClaimLinks(page, claim) <= ClaimsLinks(page, claims)
    ensures Upsert(ClaimKind, ClaimRef(page, claim)) in ClaimsUpserts(page, claims)
  {
    hide ClaimRef, LinksTo;
    var last := claims[|claims| - 1];
    if claim == last {
      assert ClaimUpserts(page, last)[0] == Upsert(ClaimKind, ClaimRef(page, last));
    } else {
      ClaimLinked(page, claims[..|claims| - 1], claim);
    }
  }

  lemma {:induction false} PageLinked(pages: seq<Page>, page: Page)
    requires page in pages
    ensures ClaimsLinks(page, page.claims) <= PagesLinks(pages)
    ensures forall u :: u in PageUpserts(page) ==> u in Upserts(pages)
  {
    hide ClaimsLinks, PageUpserts;
    if page != pages[|pages| - 1] { PageLinked(pages[..|pages| - 1], page); }
  }

  // Staleness walks up: when a claim, or a source it is derived from, depends on something in doubt,
  // so does the claim, and so does the page that contains it.
  lemma DoubtWalksUp(g: Graph, idOf: IdOf, project: string, pages: seq<Page>, now: int, normalize: string -> string,
                     page: Page, claim: Claim, below: string)
    requires page in pages && claim in page.claims
    requires below == ClaimRef(page, claim) || below in claim.sourceRefs
    requires ReachesRoot(Projected(g, idOf, project, pages, normalize), project, Roots(pages, now, normalize),
        idOf(project, below))
    ensures var h := Synced(g, idOf, project, pages, now, normalize);
            && idOf(project, PageRef(page)) in h.nodes && h.nodes[idOf(project, PageRef(page))].stale
            && idOf(project, ClaimRef(page, claim)) in h.nodes && h.nodes[idOf(project, ClaimRef(page, claim))].stale
  {
    hide Roots, ReachesRoot, PutAll, Upserts, ClaimsUpserts, PagesLinks, ClaimsLinks, ClaimRef, PageRef;
    hide Relations, Added;
    var p := Projected(g, idOf, project, pages, normalize);
    PageLinked(pages, page);
    ClaimLinked(page, page.claims, claim);
    var pageRef, claimRef := PageRef(page), ClaimRef(page, claim);
    assert PageUpserts(page)[0] == Upsert(WikiPageKind, pageRef);
    UpsertedInProject(g, idOf, project, pages, normalize, Upsert(WikiPageKind, pageRef));
    UpsertedInProject(g, idOf, project, pages, normalize, Upsert(ClaimKind, claimRef));
    if below != claimRef {
      assert Link(claimRef, "derived_from", below) in ClaimLinks(page, claim);
      LinkIsDependency(g, idOf, project, pages, normalize, Link(claimRef, "derived_from", below));
      DependentReaches(p, project, Roots(pages, now, normalize), idOf(project, claimRef), idOf(project, below));
    }
    LinkIsDependency(g, idOf, project, pages, normalize, Link(pageRef, "contains", claimRef));
    DependentReaches(p, project, Roots(pages, now, normalize), idOf(project, pageRef), idOf(project, claimRef));
  }

  lemma UpsertedInProject(g: Graph, idOf: IdOf, project: string, pages: seq<Page>, normalize: string -> string,
                          u: Upsert)
    requires u in Upserts(pages)
    ensures InProject(Projected(g, idOf, project, pages, normalize), project, idOf(project, u.ref))
  {
    hide Upserts, PutAll, Added;
    PutAllNodes(g.nodes, idOf, project, Upserts(pages));
  }

  lemma LinkIsDependency(g: Graph, idOf: IdOf, project: string, pages: seq<Page>, normalize: string -> string, l: Link)
    requires l in PagesLinks(pages) && l.relationship in PROPAGATION_RELATIONSHIPS
    ensures DependsOn(Projected(g, idOf, project, pages, normalize).edges, project, idOf(project, l.source),
        idOf(project, l.target))
  {
    hide PagesLinks, PutAll, Added, PROPAGATION_RELATIONSHIPS;
    assert Edge(project, idOf(project, l.source), l.relationship, idOf(project, l.target))
        in EdgesFor(idOf, project, PagesLinks(pages));
  }

  const SAMPLE_CLAIM := Claim("c", "text", None, [], [], ["raw:s"])

  function SamplePage(status: PageStatus): Page {
    Page("a", status, None, [SAMPLE_CLAIM])
  }

  const PLAIN_ID: IdOf := (project, ref) => ref

  lemma SamplePageProjects(status: PageStatus, normalize: string -> string)
    ensures Upserts([SamplePage(status)])
         == [Upsert(WikiPageKind, "wiki:a"), Upsert(ClaimKind, "wiki:a#c"), Upsert(SourceKind, "raw:s")]
    ensures "wiki:a" in ProjectedIds(PLAIN_ID, "p", [SamplePage(status)])
    ensures Roots([SamplePage(status)], 0, normalize)
         == if status.ReviewDue? || status.Superseded? then {"wiki:a"} else {}
  {
    var page := SamplePage(status);
    assert PageRef(page) == "wiki:a" && ClaimRef(page, SAMPLE_CLAIM) == "wiki:a#c";
    assert [page][..0] == [] && [SAMPLE_CLAIM][..0] == [];
    assert ClaimUpserts(page, SAMPLE_CLAIM) == [Upsert(ClaimKind, "wiki:a#c"), Upsert(SourceKind, "raw:s")];
    assert ClaimsUpserts(page, [SAMPLE_CLAIM]) == ClaimUpserts(page, SAMPLE_CLAIM);
    assert Upserts([page])[0] == Upsert(WikiPageKind, "wiki:a");
    SamplePageRoots(status, normalize);
  }

  lemma SamplePageEntries(status: PageStatus)
    ensures Entries([SamplePage(status)]) == [Entry("wiki:a#c", SAMPLE_CLAIM)]
  {
    var page := SamplePage(status);
    assert PageRef(page) == "wiki:a" && ClaimRef(page, SAMPLE_CLAIM) == "wiki:a#c";
    EntriesSnoc([page], 0);
    EntriesOfSnoc(page, [SAMPLE_CLAIM], 0);
    assert [page][..1] == [page] && [page][..0] == [] && [SAMPLE_CLAIM][..1] == [SAMPLE_CLAIM]
        && [SAMPLE_CLAIM][..0] == [];
  }

  lemma SamplePageRoots(status: PageStatus, normalize: string -> string)
    ensures Roots([SamplePage(status)], 0, normalize)
         == if status.ReviewDue? || status.Superseded? then {"wiki:a"} else {}
  {
    hide ClaimIndex, SyncFacts, Entries, FactRoots, ClaimRef;
    var page := SamplePage(status);
    SamplePageEntries(status);
    var e := Entry("wiki:a#c", SAMPLE_CLAIM);
    assert [] + [e] == [e];
    SyncIndexesSnoc([], e);
    NoClaims();
    assert ClaimIndex([e]) == map["wiki:a#c" := SAMPLE_CLAIM] && SyncFacts([e]) == map[];
    assert PageRef(page) == "wiki:a" && [page][..|[page]| - 1] == [];
    assert PageRoots([page], 0) == PageRoots([], 0) + (if DueForReview(page, 0) then {"wiki:a"} else {});
    assert PageRoots([], 0) == {};
    assert ClaimRoots("wiki:a#c", SAMPLE_CLAIM) == {};
    var index := ClaimIndex([e]);
    assert (set ref, r | ref in index && r in ClaimRoots(ref, index[ref]) :: r) == {};
  }

  lemma NoClaims()
    ensures ClaimIndex([]) == map[] && SyncFacts([]) == map[]
  {
  }

  lemma SamplePageStored(nodes: map<string, Node>, status: PageStatus, normalize: string -> string)
    ensures var after := PutAll(nodes, PLAIN_ID, "p", Upserts([SamplePage(status)]));
            "wiki:a" in after && after["wiki:a"] == Node("p", WikiPageKind, Some("wiki:a"), false)
  {
    SamplePageProjects(status, normalize);
    var us := Upserts([SamplePage(status)]);
    assert us == (([] + [us[0]]) + [us[1]]) + [us[2]];
    PutAllSnoc(nodes, PLAIN_ID, "p", [], us[0]);
    PutAllSnoc(nodes, PLAIN_ID, "p", [] + [us[0]], us[1]);
    PutAllSnoc(nodes, PLAIN_ID, "p", ([] + [us[0]]) + [us[1]], us[2]);
    assert |"wiki:a"| == 6 && |"wiki:a#c"| == 8 && |"raw:s"| == 5;
  }

  // One such page: stale while it is due for review, fresh again after a sync with its status
  // changed, although its Reality Anchor stays stale.
  lemma ReviewedPageTurnsFresh(normalize: string -> string)
    ensures var empty := Graph(map[], {}, map["RA" := Anchor("p", "wiki:a", false)]);
            var first := Synced(empty, PLAIN_ID, "p", [SamplePage(ReviewDue)], 0, normalize);
            var second := Synced(first, PLAIN_ID, "p", [SamplePage(Active)], 0, normalize);
            && "wiki:a" in first.nodes && first.nodes["wiki:a"].stale && first.anchors["RA"].stale
            && "wiki:a" in second.nodes && !second.nodes["wiki:a"].stale && second.anchors["RA"].stale
  {
    hide Upserts, Roots, PutAll, ProjectedIds, Entries, Relations;
    var empty := Graph(map[], {}, map["RA" := Anchor("p", "wiki:a", false)]);
    var p1 := Projected(empty, PLAIN_ID, "p", [SamplePage(ReviewDue)], normalize);
    SamplePageProjects(ReviewDue, normalize);
    SamplePageProjects(Active, normalize);
    SamplePageStored(empty.nodes, ReviewDue, normalize);
    RootReaches(p1, "p", {"wiki:a"}, "wiki:a");
    assert "wiki:a" in StaleRefs(p1, "p", {"wiki:a"});
    StaleAfterSync(empty, PLAIN_ID, "p", [SamplePage(ReviewDue)], 0, normalize);
    var first := Synced(empty, PLAIN_ID, "p", [SamplePage(ReviewDue)], 0, normalize);
    StaleAfterSync(first, PLAIN_ID, "p", [SamplePage(Active)], 0, normalize);
    NoRootsNoStaleness(Projected(first, PLAIN_ID, "p", [SamplePage(Active)], normalize), "p");
  }

  // ----- Any sequence of syncs -----

  datatype SyncRun = SyncRun(project: string, pages: seq<Page>, now: int)

  ghost function SyncMany(g: Graph, idOf: IdOf, normalize: string -> string, runs: seq<SyncRun>): Graph {
    if runs == [] then g
    else
      var last := runs[|runs| - 1];
      Synced(SyncMany(g, idOf, normalize, runs[..|runs| - 1]), idOf, last.project, last.pages, last.now, normalize)
  }

  ghost predicate NeverProjected(idOf: IdOf, runs: seq<SyncRun>, id: string) {
    forall r :: r in runs ==> id !in ProjectedIds(idOf, r.project, r.pages)
  }

  // No anchor ever returns to fresh, nor does a node that no sync re-projects.
  lemma {:induction false} StalenessOverManySyncs(g: Graph, idOf: IdOf, normalize: string -> string, runs: seq<SyncRun>)
    ensures var h := SyncMany(g, idOf, normalize, runs);
            && (forall a :: a in g.anchors ==> a in h.anchors && (g.anchors[a].stale ==> h.anchors[a].stale))
            && (forall id :: id in g.nodes ==> id in h.nodes)
            && (forall id :: id in g.nodes && g.nodes[id].stale && NeverProjected(idOf, runs, id) ==> h.nodes[id].stale)
  {
    if runs != [] {
      var front, last := runs[..|runs| - 1], runs[|runs| - 1];
      StalenessOverManySyncs(g, idOf, normalize, front);
      assert forall r :: r in front ==> r in runs;
      assert last in runs;
      StaleAfterSync(SyncMany(g, idOf, normalize, front), idOf, last.project, last.pages, last.now, normalize);
    }
  }

  // ----- The methods -----

  lemma LinksToSnoc(source: string, relationship: string, targets: seq<string>, k: nat)
    requires k < |targets|
    ensures LinksTo(source, relationship, targets[..k + 1])
         == LinksTo(source, relationship, targets[..k]) + {Link(source, relationship, targets[k])}
  {
  }

  datatype SyncReport = SyncReport(staleRefs: set<string>, contradictions: set<SyncContradiction>,
      superseded: set<string>)

  class Projector {
    const store: SemanticStore
    const idOf: IdOf

    constructor (store: SemanticStore, idOf: IdOf)
      ensures this.store == store && this.idOf == idOf
    {
      this.store, this.idOf := store, idOf;
    }

    method UpsertNode(project: string, u: Upsert)
      modifies store`nodes
      ensures store.nodes == Put(old(store.nodes), idOf, project, u)
    {
      store.nodes := store.nodes[idOf(project, u.ref) := Node(project, u.kind, Some(u.ref), false)];
    }

    method EnsureEdge(project: string, l: Link)
      modifies store`edges
      ensures store.edges == old(store.edges) + EdgesFor(idOf, project, {l})
    {
      store.edges := store.edges + {Edge(project, idOf(project, l.source), l.relationship, idOf(project, l.target))};
    }

    method ProjectClaim(project: string, page: Page, claim: Claim)
      modifies store`nodes, store`edges
      ensures store.nodes == PutAll(old(store.nodes), idOf, project, ClaimUpserts(page, claim))
      ensures store.edges == old(store.edges) + EdgesFor(idOf, project, ClaimLinks(page, claim))
    {
      var ref := ClaimRef(page, claim);
      hide PutAll, EdgesFor;
      NoPages(store.nodes, idOf, project, []);
      ghost var us, links := [Upsert(ClaimKind, ref)], {Link(PageRef(page), "contains", ref)};
      PutAllSnoc(store.nodes, idOf, project, [], us[0]);
      assert [] + us == us;
      UpsertNode(project, Upsert(ClaimKind, ref));
      EnsureEdge(project, Link(PageRef(page), "contains", ref));
      for k := 0 to |claim.sourceRefs|
        invariant us == ClaimUpserts(page, claim)[..1 + k]
        invariant links == {Link(PageRef(page), "contains", ref)} + LinksTo(ref, "derived_from", claim.sourceRefs[..k])
        invariant store.nodes == PutAll(old(store.nodes), idOf, project, us)
        invariant store.edges == old(store.edges) + EdgesFor(idOf, project, links)
      {
        var u, l := Upsert(SourceKind, claim.sourceRefs[k]), Link(ref, "derived_from", claim.sourceRefs[k]);
        PutAllSnoc(old(store.nodes), idOf, project, us, u);
        EdgesForUnion(idOf, project, links, {l});
        LinksToSnoc(ref, "derived_from", claim.sourceRefs, k);
        UpsertNode(project, u);
        EnsureEdge(project, l);
        us, links := us + [u], links + {l};
      }
      assert claim.sourceRefs[..|claim.sourceRefs|] == claim.sourceRefs;
      assert us == ClaimUpserts(page, claim);
    }

    // `_project_page`.
    method ProjectPage(project: string, page: Page)
      modifies store`nodes, store`edges
      ensures store.nodes == PutAll(old(store.nodes), idOf, project, PageUpserts(page))
      ensures store.edges == old(store.edges) + EdgesFor(idOf, project, ClaimsLinks(page, page.claims))
    {
      hide PutAll, EdgesFor, ClaimUpserts, ClaimLinks;
      NoPages(store.nodes, idOf, project, []);
      ghost var us, links: set<Link> := [Upsert(WikiPageKind, PageRef(page))], {};
      PutAllSnoc(store.nodes, idOf, project, [], us[0]);
      assert [] + us == us;
      UpsertNode(project, Upsert(WikiPageKind, PageRef(page)));
      for k := 0 to |page.claims|
        invariant us == [Upsert(WikiPageKind, PageRef(page))] + ClaimsUpserts(page, page.claims[..k])
        invariant links == ClaimsLinks(page, page.claims[..k])
        invariant store.nodes == PutAll(old(store.nodes), idOf, project, us)
        invariant store.edges == old(store.edges) + EdgesFor(idOf, project, links)
      {
        var claim := page.claims[k];
        assert page.claims[..k + 1][..k] == page.claims[..k];
        PutAllConcat(old(store.nodes), idOf, project, us, ClaimUpserts(page, claim));
        EdgesForUnion(idOf, project, links, ClaimLinks(page, claim));
        ProjectClaim(project, page, claim);
        us, links := us + ClaimUpserts(page, claim), links + ClaimLinks(page, claim);
      }
      assert page.claims[..|page.claims|] == page.claims;
    }

    // `_ensure_relation`: nothing unless both ends exist; `Some(ref)` if a lookup finds two rows.
    method EnsureRelation(project: string, l: Link) returns (failed: Option<string>)
      modifies store`edges
      ensures failed.None? <==> Clear(store.nodes, project, l)
      ensures failed.None? ==> store.edges == old(store.edges) + Added(store.nodes, idOf, project, {l})
      ensures failed.Some? ==> store.edges == old(store.edges) && Find(store.nodes, project, failed.value).Ambiguous?
    {
      failed := None;
      var source := Find(store.nodes, project, l.source);
      if source.Ambiguous? { return Some(l.source); }
      if source.Absent? { return; }
      var target := Find(store.nodes, project, l.target);
      if target.Ambiguous? { return Some(l.target); }
      if target.Absent? { return; }
      assert Relatable(store.nodes, project, {l}) == {l};
      EnsureEdge(project, l);
    }

    method EnsureTargets(project: string, source: string, relationship: string, targets: seq<string>)
      returns (failed: Option<string>)
      modifies store`edges
      ensures failed.None? <==> AllClear(store.nodes, project, LinksTo(source, relationship, targets))
      ensures failed.None? ==>
                store.edges == old(store.edges)
                      + Added(store.nodes, idOf, project, LinksTo(source, relationship, targets))
      ensures failed.Some? ==>
                && old(store.edges) <= store.edges
                && store.edges <= old(store.edges)
                      + Added(store.nodes, idOf, project, LinksTo(source, relationship, targets))
                && Find(store.nodes, project, failed.value).Ambiguous?
    {
      hide Find, Clear, Added;
      NoLinks(store.nodes, idOf, project);
      assert LinksTo(source, relationship, targets[..0]) == {};
      failed := None;
      for k := 0 to |targets|
        invariant failed.None?
        invariant AllClear(store.nodes, project, LinksTo(source, relationship, targets[..k]))
        invariant store.edges == old(store.edges)
              + Added(store.nodes, idOf, project, LinksTo(source, relationship, targets[..k]))
      {
        var l := Link(source, relationship, targets[k]);
        LinksToSnoc(source, relationship, targets, k);
        AddedUnion(store.nodes, idOf, project, LinksTo(source, relationship, targets[..k]), {l});
        AddedPart(store.nodes, idOf, project, LinksTo(source, relationship, targets[..k]),
            LinksTo(source, relationship, targets));
        failed := EnsureRelation(project, l);
        if failed.Some? { return; }
      }
      assert targets[..|targets|] == targets;
    }

    // The relations of one claim.
    method RelateClaim(project: string, ref: string, claim: Claim) returns (failed: Option<string>)
      modifies store`edges
      ensures failed.None? <==> AllClear(store.nodes, project, ClaimRelations(ref, claim))
      ensures failed.None? ==>
                store.edges == old(store.edges) + Added(store.nodes, idOf, project, ClaimRelations(ref, claim))
      ensures failed.Some? ==>
                && old(store.edges) <= store.edges
                && store.edges <= old(store.edges) + Added(store.nodes, idOf, project, ClaimRelations(ref, claim))
                && Find(store.nodes, project, failed.value).Ambiguous?
    {
      hide Find, AllClear, Added, LinksTo;
      AddedUnion(store.nodes, idOf, project, LinksTo(ref, "supersedes", claim.supersedes),
          LinksTo(ref, "contradicts", claim.contradicts));
      ClearUnion(store.nodes, project, LinksTo(ref, "supersedes", claim.supersedes),
          LinksTo(ref, "contradicts", claim.contradicts));
      failed := EnsureTargets(project, ref, "supersedes", claim.supersedes);
      if failed.None? {
        failed := EnsureTargets(project, ref, "contradicts", claim.contradicts);
      }
    }

    // The loop over the claim index.
    method RelateClaims(project: string, index: map<string, Claim>)
      returns (failed: Option<string>, roots: set<string>, superseded: set<string>,
          contradictions: set<SyncContradiction>, ghost refs: seq<string>)
      modifies store`edges
      ensures forall x :: x in refs <==> x in index
      ensures failed.None? <==> AllClear(store.nodes, project, LinksOfClaims(index, refs))
      ensures failed.None? ==>
                && store.edges == old(store.edges) + Added(store.nodes, idOf, project, LinksOfClaims(index, refs))
                && roots == RootsOfClaims(index, refs)
                && superseded == SupersededBy(index, refs)
                && contradictions == ExplicitOf(index, refs)
      ensures failed.Some? ==>
                && old(store.edges) <= store.edges
                && store.edges <= old(store.edges) + Added(store.nodes, idOf, project, LinksOfClaims(index, refs))
                && Find(store.nodes, project, failed.value).Ambiguous?
    {
      hide Added, LinksOfClaims, RootsOfClaims, SupersededBy, ExplicitOf, ClaimRelations, Ordered, Find, AllClear;
      var rows := Rows(index.Keys);
      refs := rows;
      failed, roots, superseded, contradictions := None, {}, {}, {};
      NothingGathered(store.nodes, idOf, project, index, rows[..0]);
      for k := 0 to |rows|
        invariant failed.None?
        invariant AllClear(store.nodes, project, LinksOfClaims(index, rows[..k]))
        invariant store.edges == old(store.edges) + Added(store.nodes, idOf, project, LinksOfClaims(index, rows[..k]))
        invariant roots == RootsOfClaims(index, rows[..k])
        invariant superseded == SupersededBy(index, rows[..k])
        invariant contradictions == ExplicitOf(index, rows[..k])
      {
        assert rows[k] in rows;
        var ref, claim := rows[k], index[rows[k]];
        OneMoreClaim(index, rows, k);
        AddedUnion(store.nodes, idOf, project, LinksOfClaims(index, rows[..k]), ClaimRelations(ref, claim));
        superseded := superseded + SetOf(claim.supersedes);
        roots := roots + ClaimRoots(ref, claim);
        contradictions := contradictions + (set t | t in claim.contradicts :: ExplicitPair(Ordered(ref, t)));
        failed := RelateClaim(project, ref, claim);
        if failed.Some? {
          OneClaimOfMany(index, rows, k);
          SomeClaimsOfMany(index, rows, k);
          AddedPart(store.nodes, idOf, project, LinksOfClaims(index, rows[..k]), LinksOfClaims(index, rows));
          AddedPart(store.nodes, idOf, project, ClaimRelations(ref, claim), LinksOfClaims(index, rows));
          if AllClear(store.nodes, project, LinksOfClaims(index, rows)) {
            ClearPart(store.nodes, project, ClaimRelations(ref, claim), LinksOfClaims(index, rows));
          }
          return;
        }
        ClearUnion(store.nodes, project, LinksOfClaims(index, rows[..k]), ClaimRelations(ref, claim));
      }
      assert rows[..|rows|] == rows;
    }

    // One fact key: its active references, and every pair of them when their values differ.
    method RelateFact(project: string, key: string, ghost es: seq<Entry>, normalize: string -> string,
                      facts: map<string, seq<string>>, index: map<string, Claim>, superseded: set<string>)
      returns (failed: Option<string>, roots: set<string>, contradictions: set<SyncContradiction>)
      requires facts == SyncFacts(es) && index == ClaimIndex(es) && superseded == SyncSuperseded(index) && key in facts
      modifies store`edges
      ensures roots == FactRoots(es, normalize, key)
      ensures contradictions == set p | p in SyncPairs(es, normalize, key) :: FactPair(key, p)
      ensures failed.None? <==> AllClear(store.nodes, project, PairLinks(SyncPairs(es, normalize, key)))
      ensures failed.None? ==>
                store.edges == old(store.edges)
                      + Added(store.nodes, idOf, project, PairLinks(SyncPairs(es, normalize, key)))
      ensures failed.Some? ==>
                && old(store.edges) <= store.edges
                && store.edges <= old(store.edges)
                      + Added(store.nodes, idOf, project, PairLinks(SyncPairs(es, normalize, key)))
                && Find(store.nodes, project, failed.value).Ambiguous?
    {
      hide Added, Find, Ordered, Pairs, ClaimIndex, SyncFacts, SyncSuperseded, AllClear;
      failed, roots, contradictions := None, {}, {};
      var active := SyncActive(facts[key], superseded);
      if |active| <= 1 || |SyncValues(active, index, normalize)| <= 1 {
        NoLinks(store.nodes, idOf, project);
        return;
      }
      roots := SetOf(active);
      contradictions := set p | p in Pairs(active) :: FactPair(key, p);
      failed := EnsurePairs(project, Pairs(active));
    }

    method EnsurePairs(project: string, pairs: set<(string, string)>) returns (failed: Option<string>)
      modifies store`edges
      ensures failed.None? <==> AllClear(store.nodes, project, PairLinks(pairs))
      ensures failed.None? ==> store.edges == old(store.edges) + Added(store.nodes, idOf, project, PairLinks(pairs))
      ensures failed.Some? ==>
                && old(store.edges) <= store.edges
                && store.edges <= old(store.edges) + Added(store.nodes, idOf, project, PairLinks(pairs))
                && Find(store.nodes, project, failed.value).Ambiguous?
    {
      hide Added, Find, Clear;
      NoLinks(store.nodes, idOf, project);
      var rows := Rows(pairs);
      failed := None;
      ghost var links: set<Link> := {};
      for k := 0 to |rows|
        invariant failed.None?
        invariant links == set i | 0 <= i < k :: Link(rows[i].0, "contradicts", rows[i].1)
        invariant AllClear(store.nodes, project, links)
        invariant store.edges == old(store.edges) + Added(store.nodes, idOf, project, links)
      {
        var l := Link(rows[k].0, "contradicts", rows[k].1);
        AddedUnion(store.nodes, idOf, project, links, {l});
        failed := EnsureRelation(project, l);
        if failed.Some? {
          assert rows[k] in rows && l in PairLinks(pairs);
          SomePairs(rows, pairs, links, k);
          AddedPart(store.nodes, idOf, project, links, PairLinks(pairs));
          return;
        }
        links := links + {l};
      }
      SameLinks(rows, pairs, links);
    }

    // The loop over the fact index.
    method RelateFacts(project: string, ghost es: seq<Entry>, normalize: string -> string,
                       facts: map<string, seq<string>>, index: map<string, Claim>, superseded: set<string>)
      returns (failed: Option<string>, roots: set<string>, contradictions: set<SyncContradiction>,
          ghost keys: seq<string>)
      requires facts == SyncFacts(es) && index == ClaimIndex(es) && superseded == SyncSuperseded(index)
      modifies store`edges
      ensures forall x :: x in keys <==> x in facts
      ensures failed.None? <==> AllClear(store.nodes, project, LinksOfFacts(es, normalize, keys))
      ensures failed.None? ==>
                && store.edges == old(store.edges)
                      + Added(store.nodes, idOf, project, LinksOfFacts(es, normalize, keys))
                && roots == RootsOfFacts(es, normalize, keys)
                && contradictions == FactPairsOf(es, normalize, keys)
      ensures failed.Some? ==>
                && old(store.edges) <= store.edges
                && store.edges <= old(store.edges)
                      + Added(store.nodes, idOf, project, LinksOfFacts(es, normalize, keys))
                && Find(store.nodes, project, failed.value).Ambiguous?
    {
      hide Added, LinksOfFacts, RootsOfFacts, FactPairsOf, FactRoots, SyncPairs, PairLinks, Find, SyncFacts, ClaimIndex,
           SyncSuperseded, AllClear;
      var rows := Rows(facts.Keys);
      keys := rows;
      failed, roots, contradictions := None, {}, {};
      NoFacts(store.nodes, idOf, project, es, normalize, rows[..0]);
      for k := 0 to |rows|
        invariant failed.None?
        invariant AllClear(store.nodes, project, LinksOfFacts(es, normalize, rows[..k]))
        invariant store.edges == old(store.edges)
              + Added(store.nodes, idOf, project, LinksOfFacts(es, normalize, rows[..k]))
        invariant roots == RootsOfFacts(es, normalize, rows[..k])
        invariant contradictions == FactPairsOf(es, normalize, rows[..k])
      {
        assert rows[k] in rows;
        OneMoreFact(es, normalize, rows, k);
        AddedUnion(store.nodes, idOf, project, LinksOfFacts(es, normalize, rows[..k]),
            PairLinks(SyncPairs(es, normalize, rows[k])));
        var moreRoots, morePairs;
        failed, moreRoots, morePairs := RelateFact(project, rows[k], es, normalize, facts, index, superseded);
        ghost var all := LinksOfFacts(es, normalize, rows);
        if failed.Some? {
          OneFactOfMany(es, normalize, rows, k);
          SomeFactsOfMany(es, normalize, rows, k);
          AddedPart(store.nodes, idOf, project, LinksOfFacts(es, normalize, rows[..k]), all);
          AddedPart(store.nodes, idOf, project, PairLinks(SyncPairs(es, normalize, rows[k])), all);
          if AllClear(store.nodes, project, all) {
            ClearPart(store.nodes, project, PairLinks(SyncPairs(es, normalize, rows[k])), all);
          }
          return;
        }
        ClearUnion(store.nodes, project, LinksOfFacts(es, normalize, rows[..k]),
            PairLinks(SyncPairs(es, normalize, rows[k])));
        roots, contradictions := roots + moreRoots, contradictions + morePairs;
      }
      assert rows[..|rows|] == rows;
    }

    // The first loop: project every page, note its roots, index its claims.
    method ProjectPages(project: string, pages: seq<Page>, now: int)
      returns (roots: set<string>, index: map<string, Claim>, facts: map<string, seq<string>>)
      modifies store`nodes, store`edges
      ensures store.nodes == PutAll(old(store.nodes), idOf, project, Upserts(pages))
      ensures store.edges == old(store.edges) + EdgesFor(idOf, project, PagesLinks(pages))
      ensures roots == PageRoots(pages, now)
      ensures index == ClaimIndex(Entries(pages)) && facts == SyncFacts(Entries(pages))
    {
      hide PutAll, EdgesFor, DueForReview, ClaimIndex, SyncFacts, PageUpserts, ClaimsLinks, EntriesOf;
      NoPages(store.nodes, idOf, project, pages[..0]);
      roots, index, facts := {}, map[], map[];
      for k := 0 to |pages|
        invariant store.nodes == PutAll(old(store.nodes), idOf, project, Upserts(pages[..k]))
        invariant store.edges == old(store.edges) + EdgesFor(idOf, project, PagesLinks(pages[..k]))
        invariant roots == PageRoots(pages[..k], now)
        invariant index == ClaimIndex(Entries(pages[..k])) && facts == SyncFacts(Entries(pages[..k]))
      {
        var page := pages[k];
        assert pages[..k + 1][..k] == pages[..k];
        PutAllConcat(old(store.nodes), idOf, project, Upserts(pages[..k]), PageUpserts(page));
        EdgesForUnion(idOf, project, PagesLinks(pages[..k]), ClaimsLinks(page, page.claims));
        EntriesSnoc(pages, k);
        ProjectPage(project, page);
        if DueForReview(page, now) { roots := roots + {PageRef(page)}; }
        index, facts := IndexClaims(page, Entries(pages[..k]), index, facts);
      }
      assert pages[..|pages|] == pages;
    }

    method IndexClaims(page: Page, ghost before: seq<Entry>, index0: map<string, Claim>,
                       facts0: map<string, seq<string>>)
      returns (index: map<string, Claim>, facts: map<string, seq<string>>)
      requires index0 == ClaimIndex(before) && facts0 == SyncFacts(before)
      ensures var es := before + EntriesOf(page, page.claims); index == ClaimIndex(es) && facts == SyncFacts(es)
    {
      index, facts := index0, facts0;
      ghost var sofar := before;
      for c := 0 to |page.claims|
        invariant sofar == before + EntriesOf(page, page.claims[..c])
        invariant index == ClaimIndex(sofar) && facts == SyncFacts(sofar)
      {
        var claim := page.claims[c];
        var ref := ClaimRef(page, claim);
        EntriesOfSnoc(page, page.claims, c);
        SyncIndexesSnoc(sofar, Entry(ref, claim));
        index := index[ref := claim];
        if claim.factKey.Some? {
          var key := claim.factKey.value;
          facts := facts[key := (if key in facts then facts[key] else []) + [ref]];
        }
        sofar := sofar + [Entry(ref, claim)];
      }
      assert page.claims[..|page.claims|] == page.claims;
    }

    // `sync_all`. Ok: the new graph is the projected one, marked from the roots of these pages.
    // Err, exactly when a relation end is carried by two nodes: the pages are projected, and so
    // unmarked, some of the relations are added, and nothing is propagated.
    method SyncAll(project: string, pages: seq<Page>, now: int, normalize: string -> string)
      returns (r: Result<SyncReport, string>)
      modifies store
      ensures r.Ok? <==>
                AllClear(PutAll(old(store.nodes), idOf, project, Upserts(pages)), project,
                    Relations(Entries(pages), normalize))
      ensures r.Ok? ==>
                && store.View() == Synced(old(store.View()), idOf, project, pages, now, normalize)
                && r.value.staleRefs == StaleRefs(Projected(old(store.View()), idOf, project, pages, normalize),
                    project, Roots(pages, now, normalize))
                && r.value.contradictions == Contradictions(Entries(pages), normalize)
                && r.value.superseded == SyncSuperseded(ClaimIndex(Entries(pages)))
      ensures r.Err? ==>
                && store.nodes == PutAll(old(store.nodes), idOf, project, Upserts(pages))
                && store.anchors == old(store.anchors)
                && old(store.edges) + EdgesFor(idOf, project, PagesLinks(pages)) <= store.edges
                && store.edges <= Projected(old(store.View()), idOf, project, pages, normalize).edges
                && Find(store.nodes, project, r.error).Ambiguous?
    {
      hide PutAll, EdgesFor, Added, Upserts, PagesLinks, PageRoots, ClaimIndex, SyncFacts, Entries, Roots;
      hide Relations, Marked, StaleRefs, Contradictions, SyncSuperseded, LinksOfClaims, LinksOfFacts, RootsOfClaims;
      hide RootsOfFacts, ExplicitOf, FactPairsOf, SupersededBy, Find, AllClear;
      ghost var es := Entries(pages);
      var pageRoots, index, facts := ProjectPages(project, pages, now);
      var failed, claimRoots, superseded, explicit;
      ghost var refs, keys;
      failed, claimRoots, superseded, explicit, refs := RelateClaims(project, index);
      if failed.Some? {
        ClaimsAreRelations(es, normalize, index, refs);
        AddedPart(store.nodes, idOf, project, LinksOfClaims(index, refs), Relations(es, normalize));
        if AllClear(store.nodes, project, Relations(es, normalize)) {
          ClearPart(store.nodes, project, LinksOfClaims(index, refs), Relations(es, normalize));
        }
        return Err(failed.value);
      }
      AllSuperseded(index, refs);
      var factRoots, pairs;
      failed, factRoots, pairs, keys := RelateFacts(project, es, normalize, facts, index, superseded);
      AllClaimsAndFacts(es, normalize, pages, now, refs, keys);
      ClearUnion(store.nodes, project, LinksOfClaims(index, refs), LinksOfFacts(es, normalize, keys));
      AddedUnion(store.nodes, idOf, project, LinksOfClaims(index, refs), LinksOfFacts(es, normalize, keys));
      if failed.Some? { return Err(failed.value); }
      assert store.View() == Projected(old(store.View()), idOf, project, pages, normalize);
      var staleRefs := store.PropagateStale(project, pageRoots + claimRoots + factRoots);
      r := Ok(SyncReport(staleRefs, explicit + pairs, superseded));
    }
  }

  lemma SyncIndexesSnoc(es: seq<Entry>, e: Entry)
    ensures ClaimIndex(es + [e]) == ClaimIndex(es)[e.ref := e.claim]
    ensures SyncFacts(es + [e]) == (if e.claim.factKey.None? then SyncFacts(es) else
              SyncFacts(es)[e.claim.factKey.value :=
                (if e.claim.factKey.value in SyncFacts(es) then SyncFacts(es)[e.claim.factKey.value] else [])
                    + [e.ref]])
  {
    assert (es + [e])[..|es + [e]| - 1] == es;
  }

  lemma ClaimsAreRelations(es: seq<Entry>, normalize: string -> string, index: map<string, Claim>, refs: seq<string>)
    requires index == ClaimIndex(es)
    ensures LinksOfClaims(index, refs) <= Relations(es, normalize)
  {
    hide SyncPairs, PairLinks, ClaimRelations, ClaimIndex, SyncFacts;
  }

  lemma AllSuperseded(index: map<string, Claim>, refs: seq<string>)
    requires forall x :: x in refs <==> x in index
    ensures SyncSuperseded(index) == SupersededBy(index, refs)
  {
  }

  lemma NoLinks(nodes: map<string, Node>, idOf: IdOf, project: string)
    ensures Added(nodes, idOf, project, {}) == {}
    ensures PairLinks({}) == {}
    ensures AllClear(nodes, project, {})
  {
  }

  lemma NothingGathered(nodes: map<string, Node>, idOf: IdOf, project: string, index: map<string, Claim>,
                        refs: seq<string>)
    requires refs == []
    ensures Added(nodes, idOf, project, LinksOfClaims(index, refs)) == {}
        && AllClear(nodes, project, LinksOfClaims(index, refs))
    ensures RootsOfClaims(index, refs) == {} && SupersededBy(index, refs) == {} && ExplicitOf(index, refs) == {}
  {
    assert LinksOfClaims(index, refs) == {};
  }

  lemma NoFacts(nodes: map<string, Node>, idOf: IdOf, project: string, es: seq<Entry>, normalize: string -> string,
                keys: seq<string>)
    requires keys == []
    ensures Added(nodes, idOf, project, LinksOfFacts(es, normalize, keys)) == {}
        && AllClear(nodes, project, LinksOfFacts(es, normalize, keys))
    ensures RootsOfFacts(es, normalize, keys) == {} && FactPairsOf(es, normalize, keys) == {}
  {
    assert LinksOfFacts(es, normalize, keys) == {};
  }

  lemma NoPages(nodes: map<string, Node>, idOf: IdOf, project: string, pages: seq<Page>)
    requires pages == []
    ensures PutAll(nodes, idOf, project, Upserts(pages)) == nodes
    ensures EdgesFor(idOf, project, PagesLinks(pages)) == {}
    ensures ClaimIndex(Entries(pages)) == map[] && SyncFacts(Entries(pages)) == map[]
  {
  }

  lemma SomePairs(rows: seq<(string, string)>, pairs: set<(string, string)>, links: set<Link>, k: nat)
    requires (forall x :: x in rows <==> x in pairs) && k <= |rows|
    requires links == set i | 0 <= i < k :: Link(rows[i].0, "contradicts", rows[i].1)
    ensures links <= PairLinks(pairs)
  {
    forall l | l in links ensures l in PairLinks(pairs) {
      var i :| 0 <= i < k && l == Link(rows[i].0, "contradicts", rows[i].1);
      assert rows[i] in rows;
    }
  }

  lemma SameLinks(rows: seq<(string, string)>, pairs: set<(string, string)>, links: set<Link>)
    requires forall x :: x in rows <==> x in pairs
    requires links == set i | 0 <= i < |rows| :: Link(rows[i].0, "contradicts", rows[i].1)
    ensures links == PairLinks(pairs)
  {
    forall l | l in links ensures l in PairLinks(pairs) {
      var i :| 0 <= i < |rows| && l == Link(rows[i].0, "contradicts", rows[i].1);
      assert rows[i] in rows;
    }
    forall l | l in PairLinks(pairs) ensures l in links {
      var p :| p in pairs && l == Link(p.0, "contradicts", p.1);
      var i :| 0 <= i < |rows| && rows[i] == p;
    }
  }
}
