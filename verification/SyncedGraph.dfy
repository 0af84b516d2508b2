// What one sync writes: its nodes, edges and report in terms of the pages' own fields.
module SyncedGraph {
  import opened Common
  import opened Orders
  import opened WikiPages
  import opened KnowledgeLint
  import opened SemanticGraph
  import opened GraphSync

  // ----- Pairs of a list that may repeat -----

  ghost predicate Twice(refs: seq<string>, ref: string) {
    exists i, j :: 0 <= i < j < |refs| && refs[i] == ref && refs[j] == ref
  }

  // Two different members in order, or one that occurs twice.
  lemma PairsExactly(refs: seq<string>, a: string, b: string)
    ensures (a, b) in Pairs(refs) <==> if a == b then Twice(refs, a) else a in refs && b in refs && Precedes(a, b)
  {
    PrecedesIsStrictTotal();
    hide Precedes;
    if (a, b) in Pairs(refs) {
      var i, j :| 0 <= i < j < |refs| && (a, b) == Ordered(refs[i], refs[j]);
      assert refs[i] in refs && refs[j] in refs;
    }
    if a == b && Twice(refs, a) {
      var i, j :| 0 <= i < j < |refs| && refs[i] == a && refs[j] == a;
      assert Ordered(refs[i], refs[j]) == (a, b);
    }
    if a in refs && b in refs && Precedes(a, b) {
      var i :| 0 <= i < |refs| && refs[i] == a;
      var j :| 0 <= j < |refs| && refs[j] == b;
      assert if i < j then Ordered(refs[i], refs[j]) == (a, b) else i != j && Ordered(refs[j], refs[i]) == (a, b);
    }
  }

  lemma TwiceSnoc(refs: seq<string>, last: string, ref: string)
    ensures Twice(refs + [last], ref) <==> Twice(refs, ref) || (last == ref && ref in refs)
  {
    var longer := refs + [last];
    if Twice(refs, ref) {
      var i, j :| 0 <= i < j < |refs| && refs[i] == ref && refs[j] == ref;
      assert longer[i] == ref && longer[j] == ref;
    }
    if last == ref && ref in refs {
      var i :| 0 <= i < |refs| && refs[i] == ref;
      assert longer[i] == ref && longer[|refs|] == ref;
    }
  }

  // Two claims of this fact were filed under the same reference.
  ghost predicate FiledTwice(es: seq<Entry>, key: string, ref: string) {
    exists i, j :: 0 <= i < j < |es| && Files(es[i], key, ref) && Files(es[j], key, ref)
  }

  predicate Files(e: Entry, key: string, ref: string) {
    e.ref == ref && e.claim.factKey == Some(key)
  }

  lemma FiledTwiceSnoc(es: seq<Entry>, last: Entry, key: string, ref: string)
    ensures FiledTwice(es + [last], key, ref)
       <==> FiledTwice(es, key, ref) || (Files(last, key, ref) && FiledFor(es, key, ref))
  {
    var longer := es + [last];
    if FiledTwice(es, key, ref) {
      var i, j :| 0 <= i < j < |es| && Files(es[i], key, ref) && Files(es[j], key, ref);
      assert Files(longer[i], key, ref) && Files(longer[j], key, ref);
    }
    if Files(last, key, ref) && FiledFor(es, key, ref) {
      var i :| 0 <= i < |es| && es[i].ref == ref && es[i].claim.factKey == Some(key);
      assert Files(longer[i], key, ref) && Files(longer[|es|], key, ref);
    }
    if FiledTwice(longer, key, ref) {
      var i, j :| 0 <= i < j < |longer| && Files(longer[i], key, ref) && Files(longer[j], key, ref);
      assert Files(es[i], key, ref);
    }
  }

  lemma {:induction false} FactRefsTwice(es: seq<Entry>, key: string, ref: string)
    ensures key in SyncFacts(es) && Twice(SyncFacts(es)[key], ref) <==> FiledTwice(es, key, ref)
  {
    hide Twice, FiledTwice, FiledFor;
    if es == [] {
      NothingTwice(es, key, ref);
    } else {
      var front, last := es[..|es| - 1], es[|es| - 1];
      FactRefsTwice(front, key, ref);
      FiledTwiceSnoc(front, last, key, ref);
      assert front + [last] == es;
      FactRefsAre(front, key, ref);
      TwiceSnoc(if key in SyncFacts(front) then SyncFacts(front)[key] else [], last.ref, ref);
      NoneTwice(ref);
    }
  }

  lemma NothingTwice(es: seq<Entry>, key: string, ref: string)
    requires es == []
    ensures !FiledTwice(es, key, ref)
  {
  }

  lemma NoneTwice(ref: string)
    ensures !Twice([], ref)
  {
  }

  lemma {:induction false} ActiveTwice(refs: seq<string>, superseded: set<string>, ref: string)
    ensures Twice(SyncActive(refs, superseded), ref) <==> Twice(refs, ref) && ref !in superseded
  {
    hide Twice;
    if refs == [] {
      NoneTwice(ref);
    } else {
      var front, last := refs[..|refs| - 1], refs[|refs| - 1];
      ActiveTwice(front, superseded, ref);
      ActiveRefsAre(front, superseded, ref);
      TwiceSnoc(front, last, ref);
      TwiceSnoc(SyncActive(front, superseded), last, ref);
      assert front + [last] == refs && SyncActive(front, superseded) + [] == SyncActive(front, superseded);
    }
  }

  // Two active claims of a contested fact, or one filed twice.
  ghost predicate FactPairOf(es: seq<Entry>, normalize: string -> string, key: string, a: string, b: string) {
    && Contested(es, normalize, key) && States(es, key, a) && States(es, key, b)
    && if a == b then FiledTwice(es, key, a) else Precedes(a, b)
  }

  lemma SyncRefsTwice(es: seq<Entry>, key: string, ref: string)
    ensures Twice(SyncRefs(es, key), ref) <==> FiledTwice(es, key, ref) && States(es, key, ref)
  {
    hide Twice, FiledTwice, SyncFacts, SyncActive, SyncSuperseded, ClaimIndex, FiledFor, SupersededNow;
    FactRefsTwice(es, key, ref);
    FactRefsAre(es, key, ref);
    SupersededAre(es, ref);
    NoneTwice(ref);
    if key in SyncFacts(es) {
      ActiveTwice(SyncFacts(es)[key], SyncSuperseded(ClaimIndex(es)), ref);
      TwiceIsMember(SyncFacts(es)[key], ref);
    }
  }

  lemma TwiceIsMember(refs: seq<string>, ref: string)
    ensures Twice(refs, ref) ==> ref in refs
  {
  }

  lemma FactPairsAre(es: seq<Entry>, normalize: string -> string, key: string, a: string, b: string)
    ensures key in SyncFacts(es) && (a, b) in SyncPairs(es, normalize, key) <==> FactPairOf(es, normalize, key, a, b)
  {
    hide Twice, FiledTwice, SyncFlags, SyncFacts, SyncRefs, States, Contested, Pairs;
    FlaggedIsContested(es, normalize, key);
    PairsExactly(SyncRefs(es, key), a, b);
    SyncRefsAre(es, key, a);
    SyncRefsAre(es, key, b);
    SyncRefsTwice(es, key, a);
    SyncFlagsAre(es, normalize, key);
  }

  // ----- The nodes and links of the pages -----

  // The page itself, its claims, and the sources its claims are derived from.
  ghost predicate IsUpsertOf(pages: seq<Page>, u: Upsert) {
    exists page :: page in pages && IsUpsertOfPage(page, page.claims, u)
  }

  ghost predicate IsUpsertOfPage(page: Page, claims: seq<Claim>, u: Upsert) {
    u == Upsert(WikiPageKind, "wiki:" + page.slug) || exists claim :: claim in claims && IsUpsertOfClaim(page, claim, u)
  }

  predicate IsUpsertOfClaim(page: Page, claim: Claim, u: Upsert) {
    || u == Upsert(ClaimKind, "wiki:" + page.slug + "#" + claim.claimId)
    || (u.kind == SourceKind && u.ref in claim.sourceRefs)
  }

  lemma {:induction false} ClaimsUpsertsAre(page: Page, claims: seq<Claim>, u: Upsert)
    ensures u in ClaimsUpserts(page, claims) <==> exists claim :: claim in claims && IsUpsertOfClaim(page, claim, u)
  {
    if claims != [] {
      hide IsUpsertOfClaim, ClaimUpserts;
      var front, last := claims[..|claims| - 1], claims[|claims| - 1];
      ClaimsUpsertsAre(page, front, u);
      ClaimUpsertsAre(page, last, u);
      assert forall claim :: claim in claims <==> claim in front || claim == last;
    }
  }

  lemma ClaimUpsertsAre(page: Page, claim: Claim, u: Upsert)
    ensures u in ClaimUpserts(page, claim) <==> IsUpsertOfClaim(page, claim, u)
  {
    var sources := seq(|claim.sourceRefs|, i requires 0 <= i < |claim.sourceRefs| =>
        Upsert(SourceKind, claim.sourceRefs[i]));
    if u.kind == SourceKind && u.ref in claim.sourceRefs {
      var i :| 0 <= i < |claim.sourceRefs| && claim.sourceRefs[i] == u.ref;
      assert sources[i] == u;
    }
  }

  lemma {:induction false} UpsertsAre(pages: seq<Page>, u: Upsert)
    ensures u in Upserts(pages) <==> IsUpsertOf(pages, u)
  {
    if pages != [] {
      hide IsUpsertOfPage, PageUpserts;
      var front, last := pages[..|pages| - 1], pages[|pages| - 1];
      UpsertsAre(front, u);
      PageUpsertsAre(last, u);
      assert forall page :: page in pages <==> page in front || page == last;
    }
  }

  lemma PageUpsertsAre(page: Page, u: Upsert)
    ensures u in PageUpserts(page) <==> IsUpsertOfPage(page, page.claims, u)
  {
    hide IsUpsertOfClaim, ClaimsUpserts;
    ClaimsUpsertsAre(page, page.claims, u);
  }

  // A page contains its claims; a claim is derived from its sources.
  ghost predicate IsLinkOf(pages: seq<Page>, l: Link) {
    exists page, claim :: page in pages && claim in page.claims && IsLinkOfClaim(page, claim, l)
  }

  predicate IsLinkOfClaim(page: Page, claim: Claim, l: Link) {
    var claimRef := "wiki:" + page.slug + "#" + claim.claimId;
    || l == Link("wiki:" + page.slug, "contains", claimRef)
    || (l.source == claimRef && l.relationship == "derived_from" && l.target in claim.sourceRefs)
  }

  lemma {:induction false} ClaimsLinksAre(page: Page, claims: seq<Claim>, l: Link)
    ensures l in ClaimsLinks(page, claims) <==> exists claim :: claim in claims && IsLinkOfClaim(page, claim, l)
  {
    if claims != [] {
      hide IsLinkOfClaim, ClaimLinks;
      var front, last := claims[..|claims| - 1], claims[|claims| - 1];
      ClaimsLinksAre(page, front, l);
      ClaimLinksAre(page, last, l);
      assert forall claim :: claim in claims <==> claim in front || claim == last;
    }
  }

  lemma ClaimLinksAre(page: Page, claim: Claim, l: Link)
    ensures l in ClaimLinks(page, claim) <==> IsLinkOfClaim(page, claim, l)
  {
  }

  lemma {:induction false} PagesLinksAre(pages: seq<Page>, l: Link)
    ensures l in PagesLinks(pages) <==> IsLinkOf(pages, l)
  {
    if pages != [] {
      hide IsLinkOfClaim, ClaimsLinks;
      var front, last := pages[..|pages| - 1], pages[|pages| - 1];
      PagesLinksAre(front, l);
      ClaimsLinksAre(last, last.claims, l);
      assert forall page :: page in pages <==> page in front || page == last;
    }
  }

  // A claim in force supersedes or contradicts what it names; a contested fact's claims contradict each other.
  ghost predicate IsRelationOf(es: seq<Entry>, normalize: string -> string, l: Link) {
    || (exists claim :: InForce(es, l.source, claim) && Relates(claim, l))
    || (l.relationship == "contradicts" && exists key :: FactPairOf(es, normalize, key, l.source, l.target))
  }

  predicate Relates(claim: Claim, l: Link) {
    || (l.relationship == "supersedes" && l.target in claim.supersedes)
    || (l.relationship == "contradicts" && l.target in claim.contradicts)
  }

  lemma ClaimRelationsAre(ref: string, claim: Claim, l: Link)
    ensures l in ClaimRelations(ref, claim) <==> l.source == ref && Relates(claim, l)
  {
  }

  lemma RelationsAre(es: seq<Entry>, normalize: string -> string, l: Link)
    ensures l in Relations(es, normalize) <==> IsRelationOf(es, normalize, l)
  {
    hide ClaimIndex, SyncFacts, SyncPairs, InForce, FactPairOf, ClaimRelations, Relates;
    var index := ClaimIndex(es);
    var ofClaims := set ref, l | ref in index && l in ClaimRelations(ref, index[ref]) :: l;
    var ofFacts := set key, l | key in SyncFacts(es) && l in PairLinks(SyncPairs(es, normalize, key)) :: l;
    assert Relations(es, normalize) == ofClaims + ofFacts;
    if l in ofClaims {
      var ref :| ref in index && l in ClaimRelations(ref, index[ref]);
      ClaimRelationsAre(ref, index[ref], l);
      InForceIsIndexed(es, ref, index[ref]);
    }
    if claim :| InForce(es, l.source, claim) && Relates(claim, l) {
      InForceIsIndexed(es, l.source, claim);
      ClaimRelationsAre(l.source, claim, l);
      assert l in ofClaims;
    }
    if l in ofFacts {
      var key :| key in SyncFacts(es) && l in PairLinks(SyncPairs(es, normalize, key));
      FactPairsAre(es, normalize, key, l.source, l.target);
    }
    if l.relationship == "contradicts" {
      if key :| FactPairOf(es, normalize, key, l.source, l.target) {
        FactPairsAre(es, normalize, key, l.source, l.target);
        PairLinked(SyncPairs(es, normalize, key), l);
        assert l in ofFacts;
      }
    }
  }

  lemma PairLinked(pairs: set<(string, string)>, l: Link)
    requires (l.source, l.target) in pairs && l.relationship == "contradicts"
    ensures l in PairLinks(pairs)
  {
  }

  // ----- Lookups by reference -----

  predicate Carries(nodes: map<string, Node>, project: string, ref: string, id: string) {
    id in nodes && nodes[id].projectId == project && nodes[id].externalRef == Some(ref)
  }

  ghost predicate CarriedOnce(nodes: map<string, Node>, project: string, ref: string) {
    exists id :: Carries(nodes, project, ref, id) && forall other :: Carries(nodes, project, ref, other) ==> other == id
  }

  ghost predicate CarriedTwice(nodes: map<string, Node>, project: string, ref: string) {
    exists id, other :: id != other && Carries(nodes, project, ref, id) && Carries(nodes, project, ref, other)
  }

  lemma FindsExactly(nodes: map<string, Node>, project: string, ref: string)
    ensures Find(nodes, project, ref).Present? <==> CarriedOnce(nodes, project, ref)
    ensures Find(nodes, project, ref).Ambiguous? <==> CarriedTwice(nodes, project, ref)
  {
    var ids := set id | id in nodes && nodes[id].projectId == project && nodes[id].externalRef == Some(ref);
    assert forall id :: id in ids <==> Carries(nodes, project, ref, id);
    hide Carries;
    if |ids| == 1 {
      var id :| id in ids;
      assert |ids - {id}| == 0;
      forall other | other in ids ensures other == id {
        assert other in ids - {id} || other == id;
      }
    } else if ids != {} {
      var id :| id in ids;
      assert ids - {id} != {} by { assert ids == {id} + (ids - {id}); }
      var other :| other in ids - {id};
    }
  }

  // A sync stops with an error exactly when a reference it looks up is on two nodes; the target of a
  // relation is looked up only when its source exists.
  lemma ClearExactly(nodes: map<string, Node>, project: string, l: Link)
    ensures Clear(nodes, project, l) <==>
              && !CarriedTwice(nodes, project, l.source)
              && (CarriedOnce(nodes, project, l.source) ==> !CarriedTwice(nodes, project, l.target))
  {
    hide CarriedOnce, CarriedTwice, Find;
    FindsExactly(nodes, project, l.source);
    FindsExactly(nodes, project, l.target);
  }

  // ----- The nodes and edges after a sync -----

  // Node `id` is what upsert k writes, and no later one writes it again.
  ghost predicate LastWritten(us: seq<Upsert>, idOf: IdOf, project: string, id: string, k: nat) {
    k < |us| && idOf(project, us[k].ref) == id && forall j :: k < j < |us| ==> idOf(project, us[j].ref) != id
  }

  lemma {:induction false} WrittenLast(nodes: map<string, Node>, idOf: IdOf, project: string, us: seq<Upsert>,
                                       id: string, k: nat)
    requires LastWritten(us, idOf, project, id, k)
    ensures var after := PutAll(nodes, idOf, project, us);
            id in after && after[id] == Node(project, us[k].kind, Some(us[k].ref), false)
  {
    var front := us[..|us| - 1];
    if k < |front| {
      assert forall j :: 0 <= j < |front| ==> front[j] == us[j];
      assert LastWritten(front, idOf, project, id, k);
      WrittenLast(nodes, idOf, project, front, id, k);
      assert idOf(project, us[|us| - 1].ref) != id;
    }
  }

  lemma {:induction false} SomeLastWrite(us: seq<Upsert>, idOf: IdOf, project: string, id: string, i: nat)
    returns (k: nat)
    requires i < |us| && idOf(project, us[i].ref) == id
    ensures LastWritten(us, idOf, project, id, k)
    decreases |us| - i
  {
    if j :| i < j < |us| && idOf(project, us[j].ref) == id {
      k := SomeLastWrite(us, idOf, project, id, j);
    } else {
      k := i;
    }
  }

  // A node as its last upsert writes it, but for its flag.
  ghost predicate IsNodeOf(us: seq<Upsert>, idOf: IdOf, project: string, id: string, node: Node) {
    exists k: nat :: LastWritten(us, idOf, project, id, k)
      && node == Node(project, us[k].kind, Some(us[k].ref), node.stale)
  }

  lemma PutNode(nodes: map<string, Node>, idOf: IdOf, project: string, us: seq<Upsert>, id: string, i: nat)
    requires i < |us| && idOf(project, us[i].ref) == id
    ensures var after := PutAll(nodes, idOf, project, us); id in after && IsNodeOf(us, idOf, project, id, after[id])
  {
    hide PutAll;
    var k := SomeLastWrite(us, idOf, project, id, i);
    WrittenLast(nodes, idOf, project, us, id, k);
  }

  lemma FlagDoesNotMatter(us: seq<Upsert>, idOf: IdOf, project: string, id: string, node: Node, stale: bool)
    requires IsNodeOf(us, idOf, project, id, node)
    ensures IsNodeOf(us, idOf, project, id, node.(stale := stale))
  {
    hide LastWritten;
  }

  // Every node after a sync, but for its flag: the last upsert of the pages that goes by its id, or else
  // what it was.
  lemma NodesAfterSync(g: Graph, idOf: IdOf, project: string, pages: seq<Page>, now: int, normalize: string -> string,
                       id: string)
    ensures var h := Synced(g, idOf, project, pages, now, normalize);
            && (id in ProjectedIds(idOf, project, pages) ==>
                  id in h.nodes && IsNodeOf(Upserts(pages), idOf, project, id, h.nodes[id]))
            && (id !in ProjectedIds(idOf, project, pages) ==>
                  && (id in h.nodes <==> id in g.nodes)
                  && (id in g.nodes ==> h.nodes[id] == g.nodes[id].(stale := h.nodes[id].stale)))
    ensures forall u :: u in Upserts(pages) <==> IsUpsertOf(pages, u)
  {
    hide Upserts, PutAll, IsNodeOf, ReachesRoot, Added, Roots, IsUpsertOf;
    var us := Upserts(pages);
    forall u ensures u in us <==> IsUpsertOf(pages, u) { UpsertsAre(pages, u); }
    PutAllNodes(g.nodes, idOf, project, us);
    if id in ProjectedIds(idOf, project, pages) {
      var i :| 0 <= i < |us| && id == idOf(project, us[i].ref);
      PutNode(g.nodes, idOf, project, us, id, i);
      var h := Synced(g, idOf, project, pages, now, normalize);
      FlagDoesNotMatter(us, idOf, project, id, PutAll(g.nodes, idOf, project, us)[id], h.nodes[id].stale);
    }
  }

  // The link behind an edge: one of the pages' own, or a relation whose ends are each on one node.
  ghost predicate IsWritten(pages: seq<Page>, normalize: string -> string, nodes: map<string, Node>, project: string,
                            l: Link) {
    || IsLinkOf(pages, l)
    || (IsRelationOf(Entries(pages), normalize, l)
        && CarriedOnce(nodes, project, l.source) && CarriedOnce(nodes, project, l.target))
  }

  lemma RelatedLinks(pages: seq<Page>, normalize: string -> string, nodes: map<string, Node>, project: string, l: Link)
    ensures l in PagesLinks(pages) || l in Relatable(nodes, project, Relations(Entries(pages), normalize))
       <==> IsWritten(pages, normalize, nodes, project, l)
  {
    hide IsLinkOf, IsRelationOf, CarriedOnce, PagesLinks, Relations, Entries, Find;
    PagesLinksAre(pages, l);
    RelationsAre(Entries(pages), normalize, l);
    FindsExactly(nodes, project, l.source);
    FindsExactly(nodes, project, l.target);
  }

  ghost predicate EdgeOf(idOf: IdOf, project: string, e: Edge, l: Link) {
    e == Edge(project, idOf(project, l.source), l.relationship, idOf(project, l.target))
  }

  // After a sync the edges are those before it and one for every link the pages state.
  lemma EdgesAfterSync(g: Graph, idOf: IdOf, project: string, pages: seq<Page>, now: int, normalize: string -> string,
                       e: Edge)
    ensures var h := Synced(g, idOf, project, pages, now, normalize);
            var nodes := PutAll(g.nodes, idOf, project, Upserts(pages));
            e in h.edges <==>
              e in g.edges || exists l :: EdgeOf(idOf, project, e, l) && IsWritten(pages, normalize, nodes, project, l)
  {
    hide IsWritten, PagesLinks, Relations, PutAll, Upserts, Relatable, Entries, Roots, ReachesRoot;
    var nodes := PutAll(g.nodes, idOf, project, Upserts(pages));
    var links, related := PagesLinks(pages), Relatable(nodes, project, Relations(Entries(pages), normalize));
    forall l ensures l in links || l in related <==> IsWritten(pages, normalize, nodes, project, l) {
      RelatedLinks(pages, normalize, nodes, project, l);
    }
    EdgesForAre(idOf, project, links, e);
    EdgesForAre(idOf, project, related, e);
    assert Synced(g, idOf, project, pages, now, normalize).edges
        == g.edges + EdgesFor(idOf, project, links) + EdgesFor(idOf, project, related);
  }

  lemma EdgesForAre(idOf: IdOf, project: string, links: set<Link>, e: Edge)
    ensures e in EdgesFor(idOf, project, links) <==> exists l :: EdgeOf(idOf, project, e, l) && l in links
  {
    if e in EdgesFor(idOf, project, links) {
      var l :| l in links && e == Edge(project, idOf(project, l.source), l.relationship, idOf(project, l.target));
      assert EdgeOf(idOf, project, e, l);
    }
  }

  // ----- The report -----

  // Explicit contradictions in order, the pairs of contested facts, and the superseded references.
  lemma ReportAfterSync(es: seq<Entry>, normalize: string -> string, a: string, b: string, key: string)
    ensures ExplicitPair((a, b)) in Contradictions(es, normalize) <==>
              || (Opposes(es, a, b) && !Precedes(b, a))
              || (Opposes(es, b, a) && Precedes(a, b))
    ensures FactPair(key, (a, b)) in Contradictions(es, normalize) <==> FactPairOf(es, normalize, key, a, b)
    ensures a in SyncSuperseded(ClaimIndex(es)) <==> SupersededNow(es, a)
  {
    hide ClaimIndex, InForce, FactPairOf, SyncFacts, SyncPairs, SyncSuperseded, SupersededNow, Opposes, Precedes;
    FactPairsAre(es, normalize, key, a, b);
    SupersededAre(es, a);
    var index := ClaimIndex(es);
    forall x, y ensures Opposes(es, x, y) <==> x in index && y in index[x].contradicts { OpposesIndexed(es, x, y); }
    OrderedEitherWay(a, b);
    if (a, b) in SyncExplicit(index) {
      var ref, t :| ref in index && t in index[ref].contradicts && (a, b) == Ordered(ref, t);
      assert Opposes(es, ref, t);
    }
    if Opposes(es, a, b) && !Precedes(b, a) { assert Ordered(a, b) == (a, b); }
    if Opposes(es, b, a) && Precedes(a, b) { assert Ordered(b, a) == (a, b); }
  }

  // A claim in force contradicts another reference.
  ghost predicate Opposes(es: seq<Entry>, ref: string, target: string) {
    exists claim :: InForce(es, ref, claim) && target in claim.contradicts
  }

  lemma OpposesIndexed(es: seq<Entry>, ref: string, target: string)
    ensures Opposes(es, ref, target) <==> ref in ClaimIndex(es) && target in ClaimIndex(es)[ref].contradicts
  {
    hide ClaimIndex, InForce;
    if Opposes(es, ref, target) {
      var claim :| InForce(es, ref, claim) && target in claim.contradicts;
      InForceIsIndexed(es, ref, claim);
    }
    if ref in ClaimIndex(es) { InForceIsIndexed(es, ref, ClaimIndex(es)[ref]); }
  }

  lemma OrderedEitherWay(a: string, b: string)
    ensures Precedes(a, b) ==> !Precedes(b, a)
  {
    PrecedesIsStrictTotal();
  }
}
