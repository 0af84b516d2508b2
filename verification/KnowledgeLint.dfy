// The contradiction and supersession part of `lint`, and its agreement with graph sync.
module KnowledgeLint {
  import opened Common
  import opened Orders
  import opened WikiPages

  datatype Contradiction =
    | Explicit(pair: (string, string))
    | FactConflict(factKey: string, refs: multiset<string>)

  datatype LintReport = LintReport(contradictions: set<Contradiction>, stalePages: set<string>, superseded: set<string>)

  function Refs(es: seq<Entry>): seq<string> {
    seq(|es|, i requires 0 <= i < |es| => es[i].ref)
  }

  function LintValues(es: seq<Entry>, normalize: string -> string): set<string> {
    set i | 0 <= i < |es| :: normalize(es[i].claim.text)
  }

  predicate Disputed(active: seq<Entry>, normalize: string -> string) {
    |active| > 1 && |LintValues(active, normalize)| > 1
  }

  // Does lint report the fact key?
  predicate LintFlags(es: seq<Entry>, normalize: string -> string, key: string) {
    var facts := LintFacts(es);
    key in facts &&
    Disputed(LintActive(facts[key], LintSuperseded(es)), normalize)
  }

  // The references lint lists for a fact key.
  function LintRefs(es: seq<Entry>, key: string): seq<string> {
    var facts := LintFacts(es);
    if key in facts then Refs(LintActive(facts[key], LintSuperseded(es))) else []
  }

  function SyncValues(refs: seq<string>, index: map<string, Claim>, normalize: string -> string): set<string> {
    set i | 0 <= i < |refs| && refs[i] in index :: normalize(index[refs[i]].text)
  }

  function SyncRefs(es: seq<Entry>, key: string): seq<string> {
    var facts := SyncFacts(es);
    if key in facts then SyncActive(facts[key], SyncSuperseded(ClaimIndex(es))) else []
  }

  // Does sync treat the fact key as conflicting?
  predicate SyncFlags(es: seq<Entry>, normalize: string -> string, key: string) {
    key in SyncFacts(es) &&
    var active := SyncRefs(es, key);
    |active| > 1 && |SyncValues(active, ClaimIndex(es), normalize)| > 1
  }

  // Sync's contradiction pairs for one fact key.
  function SyncPairs(es: seq<Entry>, normalize: string -> string, key: string): set<(string, string)> {
    if SyncFlags(es, normalize, key) then Pairs(SyncRefs(es, key)) else {}
  }

  function LintExplicit(es: seq<Entry>): set<(string, string)> {
    set i, t | 0 <= i < |es| && t in es[i].claim.contradicts :: Ordered(es[i].ref, t)
  }

  function SyncExplicit(index: map<string, Claim>): set<(string, string)> {
    set ref, t | ref in index && t in index[ref].contradicts :: Ordered(ref, t)
  }

  // ----- The method -----

  // The last loop: from the indexes to the findings.
  function Findings(explicit: set<(string, string)>, superseded: set<string>, facts: map<string, seq<Entry>>,
                    normalize: string -> string): set<Contradiction> {
    (set p | p in explicit :: Explicit(p))
    + (set key | key in facts && Disputed(LintActive(facts[key], superseded), normalize) ::
         FactConflict(key, multiset(Refs(LintActive(facts[key], superseded)))))
  }

  function DuePages(pages: seq<Page>, now: int): set<string> {
    if pages == [] then {}
    else
      var last := pages[|pages| - 1];
      DuePages(pages[..|pages| - 1], now) + (if DueForReview(last, now) then {last.slug} else {})
  }

  function ReportOf(pages: seq<Page>, now: int, normalize: string -> string): LintReport {
    var es := Entries(pages);
    LintReport(Findings(LintExplicit(es), LintSuperseded(es), LintFacts(es), normalize), DuePages(pages, now),
        LintSuperseded(es))
  }

  lemma LintExplicitSnoc(es: seq<Entry>, e: Entry)
    ensures LintExplicit(es + [e]) == LintExplicit(es) + (set t | t in e.claim.contradicts :: Ordered(e.ref, t))
  {
    var all := es + [e];
    forall p | p in LintExplicit(es) ensures p in LintExplicit(all) {
      var i, t :| 0 <= i < |es| && t in es[i].claim.contradicts && p == Ordered(es[i].ref, t);
      assert all[i] == es[i];
    }
    forall p | p in (set t | t in e.claim.contradicts :: Ordered(e.ref, t)) ensures p in LintExplicit(all) {
      assert all[|es|] == e;
    }
  }

  lemma IndexesSnoc(es: seq<Entry>, e: Entry)
    ensures LintSuperseded(es + [e]) == LintSuperseded(es) + SetOf(e.claim.supersedes)
    ensures LintFacts(es + [e]) == (if e.claim.factKey.None? then LintFacts(es) else
              LintFacts(es)[e.claim.factKey.value :=
                (if e.claim.factKey.value in LintFacts(es) then LintFacts(es)[e.claim.factKey.value] else []) + [e]])
  {
    assert (es + [e])[..|es + [e]| - 1] == es;
  }

  lemma NoEntries(pages: seq<Page>)
    requires pages == []
    ensures Entries(pages) == [] && LintExplicit([]) == {} && LintSuperseded([]) == {} && LintFacts([]) == map[]
  {
  }

  // The inner loop: one page's claims enter the indexes of everything before them.
  method IndexPage(page: Page, ghost before: seq<Entry>,
                   explicit0: set<(string, string)>, superseded0: set<string>, facts0: map<string, seq<Entry>>)
    returns (explicit: set<(string, string)>, superseded: set<string>, facts: map<string, seq<Entry>>)
    requires explicit0 == LintExplicit(before) && superseded0 == LintSuperseded(before) && facts0 == LintFacts(before)
    ensures var es := before + EntriesOf(page, page.claims);
            explicit == LintExplicit(es) && superseded == LintSuperseded(es) && facts == LintFacts(es)
  {
    explicit, superseded, facts := explicit0, superseded0, facts0;
    ghost var sofar := before;
    for c := 0 to |page.claims|
      invariant sofar == before + EntriesOf(page, page.claims[..c])
      invariant explicit == LintExplicit(sofar) && superseded == LintSuperseded(sofar) && facts == LintFacts(sofar)
    {
      var claim := page.claims[c];
      var e := Entry(ClaimRef(page, claim), claim);
      EntriesOfSnoc(page, page.claims, c);
      LintExplicitSnoc(sofar, e);
      IndexesSnoc(sofar, e);
      if claim.factKey.Some? {
        var key := claim.factKey.value;
        facts := facts[key := (if key in facts then facts[key] else []) + [e]];
      }
      explicit := explicit + (set t | t in claim.contradicts :: Ordered(e.ref, t));
      superseded := superseded + SetOf(claim.supersedes);
      sofar := sofar + [e];
    }
    assert page.claims[..|page.claims|] == page.claims;
  }

  // `lint`: nested loops build the indexes, then conflicting fact keys become findings.
  method Lint(pages: seq<Page>, now: int, normalize: string -> string) returns (report: LintReport)
    ensures report == ReportOf(pages, now, normalize)
  {
    hide *;
    NoEntries(pages[..0]);
    NoDuePages(pages[..0], now);
    var explicit: set<(string, string)> := {};
    var stalePages: set<string> := {};
    var superseded: set<string> := {};
    var facts: map<string, seq<Entry>> := map[];
    for k := 0 to |pages|
      invariant explicit == LintExplicit(Entries(pages[..k]))
      invariant superseded == LintSuperseded(Entries(pages[..k]))
      invariant facts == LintFacts(Entries(pages[..k]))
      invariant stalePages == DuePages(pages[..k], now)
    {
      var page := pages[k];
      if DueForReview(page, now) { stalePages := stalePages + {page.slug}; }
      EntriesSnoc(pages, k);
      DuePagesSnoc(pages, now, k);
      explicit, superseded, facts := IndexPage(page, Entries(pages[..k]), explicit, superseded, facts);
    }
    assert pages[..|pages|] == pages;
    ReportFrom(pages, now, normalize);
    report := LintReport(Findings(explicit, superseded, facts, normalize), stalePages, superseded);
  }

  lemma NoDuePages(pages: seq<Page>, now: int)
    requires pages == []
    ensures DuePages(pages, now) == {}
  {
  }

  lemma DuePagesSnoc(pages: seq<Page>, now: int, k: nat)
    requires k < |pages|
    ensures DuePages(pages[..k + 1], now)
         == DuePages(pages[..k], now) + if DueForReview(pages[k], now) then {pages[k].slug} else {}
  {
    hide DueForReview;
    assert pages[..k + 1][..k] == pages[..k];
  }

  lemma ReportFrom(pages: seq<Page>, now: int, normalize: string -> string)
    ensures var es := Entries(pages);
            ReportOf(pages, now, normalize)
            == LintReport(Findings(LintExplicit(es), LintSuperseded(es), LintFacts(es), normalize),
                          DuePages(pages, now), LintSuperseded(es))
  {
    hide Entries, Findings, LintExplicit, LintSuperseded, LintFacts, DuePages;
  }

  // The report names a fact key exactly when its active claims disagree, with exactly their refs.
  lemma ReportListsDisputes(pages: seq<Page>, now: int, normalize: string -> string, key: string,
                            refs: multiset<string>)
    ensures var es := Entries(pages);
            FactConflict(key, refs) in ReportOf(pages, now, normalize).contradictions <==>
              LintFlags(es, normalize, key) && refs == multiset(LintRefs(es, key))
  {
  }

  // ----- Agreement -----

  lemma {:induction false} IndexOfDistinct(es: seq<Entry>)
    requires DistinctRefs(es)
    ensures forall i :: 0 <= i < |es| ==> es[i].ref in ClaimIndex(es) && ClaimIndex(es)[es[i].ref] == es[i].claim
    ensures forall ref :: ref in ClaimIndex(es) ==> exists i :: 0 <= i < |es| && es[i].ref == ref
  {
    if es != [] {
      var front := es[..|es| - 1];
      IndexOfDistinct(front);
      forall i | 0 <= i < |es| ensures es[i].ref in ClaimIndex(es) && ClaimIndex(es)[es[i].ref] == es[i].claim {
        if i < |front| { assert es[i] == front[i]; }
      }
      forall ref | ref in ClaimIndex(es) ensures exists i :: 0 <= i < |es| && es[i].ref == ref {
        if ref == es[|es| - 1].ref {
        } else {
          assert ref in ClaimIndex(front);
          var i :| 0 <= i < |front| && front[i].ref == ref;
          assert es[i].ref == ref;
        }
      }
    }
  }

  ghost predicate Supersedes(es: seq<Entry>, target: string) {
    exists i :: 0 <= i < |es| && target in es[i].claim.supersedes
  }

  lemma {:induction false} LintSupersededMembers(es: seq<Entry>)
    ensures forall t :: t in LintSuperseded(es) <==> Supersedes(es, t)
  {
    if es != [] {
      var front := es[..|es| - 1];
      LintSupersededMembers(front);
      forall t ensures t in LintSuperseded(es) <==> Supersedes(es, t) {
        if t in LintSuperseded(front) {
          assert Supersedes(front, t);
          var i :| 0 <= i < |front| && t in front[i].claim.supersedes;
          assert t in es[i].claim.supersedes;
        }
        if Supersedes(es, t) {
          var i :| 0 <= i < |es| && t in es[i].claim.supersedes;
          assert i < |front| ==> front[i] == es[i];
        }
      }
    }
  }

  // ----- What the report means, claim by claim -----

  // A claim of this fact that nothing supersedes.
  ghost predicate ActiveFor(es: seq<Entry>, key: string, e: Entry) {
    e in es && e.claim.factKey == Some(key) && !Supersedes(es, e.ref)
  }

  lemma {:induction false} FactEntries(es: seq<Entry>, key: string, e: Entry)
    ensures key in LintFacts(es) && e in LintFacts(es)[key] <==> e in es && e.claim.factKey == Some(key)
  {
    if es != [] {
      var front, last := es[..|es| - 1], es[|es| - 1];
      FactEntries(front, key, e);
      assert e in es <==> e in front || e == last;
    }
  }

  lemma {:induction false} ActiveEntries(es: seq<Entry>, superseded: set<string>, e: Entry)
    ensures e in LintActive(es, superseded) <==> e in es && e.ref !in superseded
  {
    if es != [] {
      var front, last := es[..|es| - 1], es[|es| - 1];
      ActiveEntries(front, superseded, e);
      assert e in es <==> e in front || e == last;
    }
  }

  lemma ListedIsActive(es: seq<Entry>, key: string, e: Entry)
    ensures key in LintFacts(es) && e in LintActive(LintFacts(es)[key], LintSuperseded(es)) <==> ActiveFor(es, key, e)
  {
    hide LintFacts, LintActive, LintSuperseded, Supersedes;
    FactEntries(es, key, e);
    LintSupersededMembers(es);
    if key in LintFacts(es) { ActiveEntries(LintFacts(es)[key], LintSuperseded(es), e); }
  }

  lemma TwoOf<T>(s: set<T>, a: T, b: T)
    requires a in s && b in s && a != b
    ensures |s| > 1
  {
    assert |s - {a}| == |s| - 1 && b in s - {a};
  }

  lemma ValueOf(active: seq<Entry>, normalize: string -> string, i: nat)
    requires i < |active|
    ensures normalize(active[i].claim.text) in LintValues(active, normalize)
  {
  }

  // A fact key is flagged exactly when two of its active claims normalize to different texts.
  lemma FlaggedExactly(es: seq<Entry>, normalize: string -> string, key: string)
    ensures LintFlags(es, normalize, key) <==>
              exists a, b :: ActiveFor(es, key, a) && ActiveFor(es, key, b)
                  && normalize(a.claim.text) != normalize(b.claim.text)
  {
    hide LintFacts, LintActive, LintSuperseded, ActiveFor, LintValues;
    var active := if key in LintFacts(es) then LintActive(LintFacts(es)[key], LintSuperseded(es)) else [];
    forall e ensures e in active <==> ActiveFor(es, key, e) { ListedIsActive(es, key, e); }
    var values := LintValues(active, normalize);
    if |values| > 1 { Differ(active, normalize); }
    if a, b :| ActiveFor(es, key, a) && ActiveFor(es, key, b) && normalize(a.claim.text) != normalize(b.claim.text) {
      var i :| 0 <= i < |active| && active[i] == a;
      var j :| 0 <= j < |active| && active[j] == b;
      ValueOf(active, normalize, i);
      ValueOf(active, normalize, j);
      TwoOf(values, normalize(a.claim.text), normalize(b.claim.text));
    }
  }

  lemma Differ(active: seq<Entry>, normalize: string -> string)
    requires |LintValues(active, normalize)| > 1
    ensures |active| > 1
    ensures exists a, b :: a in active && b in active && normalize(a.claim.text) != normalize(b.claim.text)
  {
    var values := LintValues(active, normalize);
    var v :| v in values;
    assert values != {v};
    var w :| w in values && w != v;
    var i :| 0 <= i < |active| && normalize(active[i].claim.text) == v;
    var j :| 0 <= j < |active| && normalize(active[j].claim.text) == w;
    assert active[i] in active && active[j] in active;
  }

  // The report names a fact key, once, exactly when two of its active claims disagree, and lists
  // exactly its active claims.
  lemma ReportedExactly(pages: seq<Page>, now: int, normalize: string -> string, key: string)
    ensures var es, found := Entries(pages), ReportOf(pages, now, normalize).contradictions;
            && ((exists refs :: FactConflict(key, refs) in found) <==>
                  exists a, b :: ActiveFor(es, key, a) && ActiveFor(es, key, b)
                      && normalize(a.claim.text) != normalize(b.claim.text))
            && (forall refs, other :: FactConflict(key, refs) in found && FactConflict(key, other) in found ==>
                refs == other)
            && (forall refs, ref :: FactConflict(key, refs) in found ==>
                  (ref in refs <==> exists e :: ActiveFor(es, key, e) && e.ref == ref))
  {
    hide Entries, ReportOf, LintFlags, LintRefs, ActiveFor;
    var es, found := Entries(pages), ReportOf(pages, now, normalize).contradictions;
    FlaggedExactly(es, normalize, key);
    forall refs
      ensures FactConflict(key, refs) in found <==> LintFlags(es, normalize, key) && refs == multiset(LintRefs(es, key))
    {
      ReportListsDisputes(pages, now, normalize, key, refs);
    }
    forall ref ensures ref in multiset(LintRefs(es, key)) <==> exists e :: ActiveFor(es, key, e) && e.ref == ref {
      ListedRefs(es, key, ref);
    }
    if LintFlags(es, normalize, key) { assert FactConflict(key, multiset(LintRefs(es, key))) in found; }
  }

  lemma ListedRefs(es: seq<Entry>, key: string, ref: string)
    ensures ref in LintRefs(es, key) <==> exists e :: ActiveFor(es, key, e) && e.ref == ref
  {
    hide LintFacts, LintActive, LintSuperseded, ActiveFor;
    var active := if key in LintFacts(es) then LintActive(LintFacts(es)[key], LintSuperseded(es)) else [];
    assert LintRefs(es, key) == Refs(active);
    if ref in Refs(active) {
      var i :| 0 <= i < |active| && active[i].ref == ref;
      ListedIsActive(es, key, active[i]);
    }
    if e :| ActiveFor(es, key, e) && e.ref == ref {
      ListedIsActive(es, key, e);
      var i :| 0 <= i < |active| && active[i] == e;
      assert Refs(active)[i] == ref;
    }
  }

  // The other findings: pages due for review, explicit contradictions and superseded claims.
  lemma {:induction false} DuePagesAre(pages: seq<Page>, now: int, slug: string)
    ensures slug in DuePages(pages, now) <==> exists p :: p in pages && DueForReview(p, now) && p.slug == slug
  {
    hide DueForReview;
    if pages != [] {
      var front, last := pages[..|pages| - 1], pages[|pages| - 1];
      DuePagesAre(front, now, slug);
      assert forall p :: p in pages <==> p in front || p == last;
    }
  }

  lemma ReportListsRelations(pages: seq<Page>, now: int, normalize: string -> string, slug: string,
                             pair: (string, string), target: string)
    ensures var es, report := Entries(pages), ReportOf(pages, now, normalize);
            && (slug in report.stalePages <==> exists p :: p in pages && DueForReview(p, now) && p.slug == slug)
            && (Explicit(pair) in report.contradictions <==>
                  exists e, t :: e in es && t in e.claim.contradicts && pair == Ordered(e.ref, t))
            && (target in report.superseded <==> exists e :: e in es && target in e.claim.supersedes)
  {
    var es := Entries(pages);
    hide Entries, DueForReview, Ordered, LintFacts, LintActive, LintSuperseded, DuePages, Disputed;
    DuePagesAre(pages, now, slug);
    LintSupersededMembers(es);
    if e, t :| e in es && t in e.claim.contradicts && pair == Ordered(e.ref, t) {
      var i :| 0 <= i < |es| && es[i] == e;
      assert t in es[i].claim.contradicts;
    }
  }

  lemma {:induction false} FactsAgree(es: seq<Entry>)
    ensures LintFacts(es).Keys == SyncFacts(es).Keys
    ensures forall key :: key in LintFacts(es) ==> SyncFacts(es)[key] == Refs(LintFacts(es)[key])
    ensures forall key, e :: key in LintFacts(es) && e in LintFacts(es)[key] ==> e in es
  {
    if es != [] {
      FactsAgree(es[..|es| - 1]);
      var last := es[|es| - 1];
      if last.claim.factKey.Some? {
        var key := last.claim.factKey.value;
        var before := LintFacts(es[..|es| - 1]);
        var earlier := if key in before then before[key] else [];
        assert Refs(earlier + [last]) == Refs(earlier) + [last.ref];
      }
      forall key, e | key in LintFacts(es) && e in LintFacts(es)[key] ensures e in es {
        if e != last { assert e in es[..|es| - 1]; }
      }
    }
  }

  lemma {:induction false} ActiveAgree(es: seq<Entry>, superseded: set<string>)
    ensures Refs(LintActive(es, superseded)) == SyncActive(Refs(es), superseded)
    ensures forall e :: e in LintActive(es, superseded) ==> e in es
  {
    if es != [] {
      var front := es[..|es| - 1];
      ActiveAgree(front, superseded);
      assert Refs(es)[..|es| - 1] == Refs(front);
      var last := es[|es| - 1];
      if last.ref !in superseded {
        assert Refs(LintActive(front, superseded) + [last]) == Refs(LintActive(front, superseded)) + [last.ref];
      } else {
        assert LintActive(es, superseded) == LintActive(front, superseded);
      }
    }
  }

  lemma ValuesAgree(es: seq<Entry>, active: seq<Entry>, normalize: string -> string)
    requires DistinctRefs(es) && forall e :: e in active ==> e in es
    ensures LintValues(active, normalize) == SyncValues(Refs(active), ClaimIndex(es), normalize)
  {
    IndexOfDistinct(es);
    var refs, index := Refs(active), ClaimIndex(es);
    forall i | 0 <= i < |active|
      ensures refs[i] in index && index[refs[i]] == active[i].claim
    {
      assert active[i] in es;
    }
    forall v ensures v in LintValues(active, normalize) <==> v in SyncValues(refs, index, normalize) {
      if v in LintValues(active, normalize) {
        var i :| 0 <= i < |active| && normalize(active[i].claim.text) == v;
        assert refs[i] in index && normalize(index[refs[i]].text) == v;
      }
      if v in SyncValues(refs, index, normalize) {
        var i :| 0 <= i < |refs| && refs[i] in index && normalize(index[refs[i]].text) == v;
        assert normalize(active[i].claim.text) == v;
      }
    }
  }

  lemma SupersededAgree(es: seq<Entry>)
    requires DistinctRefs(es)
    ensures LintSuperseded(es) == SyncSuperseded(ClaimIndex(es))
    ensures LintExplicit(es) == SyncExplicit(ClaimIndex(es))
  {
    IndexOfDistinct(es);
    LintSupersededMembers(es);
    var index := ClaimIndex(es);
    forall t ensures t in LintSuperseded(es) <==> t in SyncSuperseded(index) {
      if t in LintSuperseded(es) {
        var i :| 0 <= i < |es| && t in es[i].claim.supersedes;
        assert es[i].ref in index;
      }
      if t in SyncSuperseded(index) {
        var ref :| ref in index && t in index[ref].supersedes;
        var i :| 0 <= i < |es| && es[i].ref == ref;
        assert t in es[i].claim.supersedes;
      }
    }
    forall p ensures p in LintExplicit(es) <==> p in SyncExplicit(index) {
      if p in LintExplicit(es) {
        var i, t :| 0 <= i < |es| && t in es[i].claim.contradicts && p == Ordered(es[i].ref, t);
        assert es[i].ref in index && t in index[es[i].ref].contradicts;
      }
      if p in SyncExplicit(index) {
        var ref, t :| ref in index && t in index[ref].contradicts && p == Ordered(ref, t);
        var i :| 0 <= i < |es| && es[i].ref == ref;
        assert t in es[i].claim.contradicts;
      }
    }
  }

  // For distinct claim references: one superseded set, one set of explicit pairs, the same
  // conflicting fact keys, and sync's pairs for a key are all two-element subsets of lint's refs.
  lemma LintAgreesWithSync(es: seq<Entry>, normalize: string -> string, key: string)
    requires DistinctRefs(es)
    ensures LintSuperseded(es) == SyncSuperseded(ClaimIndex(es))
    ensures LintExplicit(es) == SyncExplicit(ClaimIndex(es))
    ensures LintFlags(es, normalize, key) <==> SyncFlags(es, normalize, key)
    ensures LintRefs(es, key) == SyncRefs(es, key)
    ensures LintFlags(es, normalize, key) ==>
              forall a, b :: (a, b) in SyncPairs(es, normalize, key) <==>
                a in LintRefs(es, key) && b in LintRefs(es, key) && Precedes(a, b)
  {
    SupersededAgree(es);
    FactsAgree(es);
    if key in LintFacts(es) {
      var entries := LintFacts(es)[key];
      ActiveAgree(entries, LintSuperseded(es));
      ValuesAgree(es, LintActive(entries, LintSuperseded(es)), normalize);
      if LintFlags(es, normalize, key) {
        ActiveRefsDistinct(es, key);
        PairsAreTwoElementSubsets(LintRefs(es, key));
      }
    }
  }

  ghost predicate NoRepeats(xs: seq<string>) {
    forall i, j :: 0 <= i < j < |xs| ==> xs[i] != xs[j]
  }

  lemma {:induction false} FactsDistinct(es: seq<Entry>)
    requires DistinctRefs(es)
    ensures forall key :: key in LintFacts(es) ==> DistinctRefs(LintFacts(es)[key])
  {
    if es != [] {
      var front := es[..|es| - 1];
      FactsDistinct(front);
      FactsAgree(front);
      assert forall e :: e in front ==> e.ref != es[|es| - 1].ref;
    }
  }

  lemma {:induction false} ActiveDistinct(es: seq<Entry>, superseded: set<string>)
    requires DistinctRefs(es)
    ensures DistinctRefs(LintActive(es, superseded))
  {
    if es != [] {
      var front := es[..|es| - 1];
      ActiveDistinct(front, superseded);
      ActiveAgree(front, superseded);
      assert forall e :: e in front ==> e.ref != es[|es| - 1].ref;
    }
  }

  lemma ActiveRefsDistinct(es: seq<Entry>, key: string)
    requires DistinctRefs(es) && key in LintFacts(es)
    ensures NoRepeats(LintRefs(es, key))
  {
    FactsDistinct(es);
    ActiveDistinct(LintFacts(es)[key], LintSuperseded(es));
  }

  lemma PairsAreTwoElementSubsets(refs: seq<string>)
    requires NoRepeats(refs)
    ensures forall a, b :: (a, b) in Pairs(refs) <==> a in refs && b in refs && Precedes(a, b)
  {
    PrecedesIsStrictTotal();
    hide Precedes;
    forall a, b | (a, b) in Pairs(refs) ensures a in refs && b in refs && Precedes(a, b) {
      var i, j :| 0 <= i < j < |refs| && (a, b) == Ordered(refs[i], refs[j]);
      assert refs[i] != refs[j];
    }
    forall a, b | a in refs && b in refs && Precedes(a, b) ensures (a, b) in Pairs(refs) {
      var i :| 0 <= i < |refs| && refs[i] == a;
      var j :| 0 <= j < |refs| && refs[j] == b;
      if i < j {
        assert Ordered(refs[i], refs[j]) == (a, b);
      } else {
        assert i != j;
        assert Ordered(refs[j], refs[i]) == (a, b);
      }
    }
  }

  // ----- Distinct references are exactly what the agreement needs -----

  function File(refs: seq<string>, claims: seq<Claim>): seq<Entry>
    requires |refs| == |claims|
  {
    seq(|refs|, i requires 0 <= i < |refs| => Entry(refs[i], claims[i]))
  }

  lemma {:induction false} LastClaimWins(es: seq<Entry>, k: nat)
    requires k < |es| && forall j :: k < j < |es| ==> es[j].ref != es[k].ref
    ensures es[k].ref in ClaimIndex(es) && ClaimIndex(es)[es[k].ref] == es[k].claim
    decreases |es|
  {
    if k < |es| - 1 {
      LastClaimWins(es[..|es| - 1], k);
    }
  }

  // Whatever the claims say, lint and sync agree on superseded claims, if and only if the claim
  // references do not repeat: sync lets a later claim under a reference hide an earlier one.
  lemma DistinctRefsExactlyNeeded(refs: seq<string>, plain: Claim)
    requires plain.supersedes == []
    ensures NoRepeats(refs) <==>
            forall claims: seq<Claim> :: |claims| == |refs| ==>
              LintSuperseded(File(refs, claims)) == SyncSuperseded(ClaimIndex(File(refs, claims)))
  {
    if NoRepeats(refs) {
      forall claims: seq<Claim> | |claims| == |refs|
        ensures LintSuperseded(File(refs, claims)) == SyncSuperseded(ClaimIndex(File(refs, claims)))
      {
        SupersededAgree(File(refs, claims));
      }
    } else {
      var i, j :| 0 <= i < j < |refs| && refs[i] == refs[j];
      HiddenSupersession(refs, plain, i, j);
    }
  }

  lemma {:induction false} IndexedClaimIsFiled(es: seq<Entry>, ref: string)
    requires ref in ClaimIndex(es)
    ensures exists k :: 0 <= k < |es| && es[k] == Entry(ref, ClaimIndex(es)[ref]) && forall j :: k < j < |es| ==>
        es[j].ref != ref
  {
    if es[|es| - 1].ref == ref {
      assert es[|es| - 1] == Entry(ref, ClaimIndex(es)[ref]);
    } else {
      var front := es[..|es| - 1];
      IndexedClaimIsFiled(front, ref);
      var k :| 0 <= k < |front| && front[k] == Entry(ref, ClaimIndex(front)[ref]) && forall j :: k < j < |front| ==>
          front[j].ref != ref;
      assert es[k] == front[k];
      forall j | k < j < |es| ensures es[j].ref != ref {
        if j < |front| { assert es[j] == front[j]; }
      }
    }
  }

  lemma HiddenSupersession(refs: seq<string>, plain: Claim, i: nat, j: nat)
    requires plain.supersedes == [] && i < j < |refs| && refs[i] == refs[j]
    ensures exists claims: seq<Claim> :: |claims| == |refs| &&
              LintSuperseded(File(refs, claims)) != SyncSuperseded(ClaimIndex(File(refs, claims)))
  {
    var target := "wiki:old#claim";
    var claims := seq(|refs|, k => if k == i then plain.(supersedes := [target]) else plain);
    var es := File(refs, claims);
    assert target in LintSuperseded(es) by {
      LintSupersededMembers(es);
      assert target in es[i].claim.supersedes;
    }
    HiddenClaimIsNotIndexed(es, target, i, j);
    assert |claims| == |refs|;
  }

  // What only an overwritten claim supersedes, sync never hears of.
  lemma HiddenClaimIsNotIndexed(es: seq<Entry>, target: string, i: nat, j: nat)
    requires i < j < |es| && es[i].ref == es[j].ref
    requires forall m :: 0 <= m < |es| && m != i ==> target !in es[m].claim.supersedes
    ensures target !in SyncSuperseded(ClaimIndex(es))
  {
    forall ref | ref in ClaimIndex(es) ensures target !in ClaimIndex(es)[ref].supersedes {
      IndexedClaimIsFiled(es, ref);
      var k :| 0 <= k < |es| && es[k] == Entry(ref, ClaimIndex(es)[ref]) && forall m :: k < m < |es| ==>
          es[m].ref != ref;
      assert k != i;
    }
  }
}
