// Compiled wiki pages and the indexes that lint and graph sync build over their claims.
module WikiPages {
  import opened Common
  import opened Orders

  datatype PageStatus = Draft | Active | ReviewDue | Superseded

  datatype Claim = Claim(
    claimId: string,
    text: string,
    factKey: Option<string>,
    contradicts: seq<string>,
    supersedes: seq<string>,
    sourceRefs: seq<string>)

  // `reviewAfter` is an instant on the same clock as `now`.
  datatype Page = Page(slug: string, status: PageStatus, reviewAfter: Option<int>, claims: seq<Claim>)

  // A claim under the reference the indexes file it by.
  datatype Entry = Entry(ref: string, claim: Claim)

  function PageRef(page: Page): string {
    "wiki:" + page.slug
  }

  function ClaimRef(page: Page, claim: Claim): string {
    PageRef(page) + "#" + claim.claimId
  }

  predicate DueForReview(page: Page, now: int) {
    page.status.ReviewDue? || page.status.Superseded? || (page.reviewAfter.Some? && page.reviewAfter.value <= now)
  }

  function EntriesOf(page: Page, claims: seq<Claim>): seq<Entry> {
    if claims == [] then []
    else
      var last := claims[|claims| - 1];
      EntriesOf(page, claims[..|claims| - 1]) + [Entry(ClaimRef(page, last), last)]
  }

  // Every claim of every page, in the order both loops visit them.
  function Entries(pages: seq<Page>): seq<Entry> {
    if pages == [] then []
    else
      var last := pages[|pages| - 1];
      Entries(pages[..|pages| - 1]) + EntriesOf(last, last.claims)
  }

  lemma EntriesSnoc(pages: seq<Page>, k: nat)
    requires k < |pages|
    ensures Entries(pages[..k + 1]) == Entries(pages[..k]) + EntriesOf(pages[k], pages[k].claims)
  {
    assert pages[..k + 1][..k] == pages[..k];
  }

  lemma EntriesOfSnoc(page: Page, claims: seq<Claim>, k: nat)
    requires k < |claims|
    ensures EntriesOf(page, claims[..k + 1]) == EntriesOf(page, claims[..k])
        + [Entry(ClaimRef(page, claims[k]), claims[k])]
  {
    assert claims[..k + 1][..k] == claims[..k];
  }

  ghost predicate DistinctRefs(es: seq<Entry>) {
    forall i, j :: 0 <= i < j < |es| ==> es[i].ref != es[j].ref
  }

  // ----- The indexes of `lint` -----

  function LintSuperseded(es: seq<Entry>): set<string> {
    if es == [] then {}
    else LintSuperseded(es[..|es| - 1]) + SetOf(es[|es| - 1].claim.supersedes)
  }

  function LintFacts(es: seq<Entry>): map<string, seq<Entry>> {
    if es == [] then map[]
    else
      var rest := LintFacts(es[..|es| - 1]);
      var last := es[|es| - 1];
      if last.claim.factKey.None? then rest
      else
        var key := last.claim.factKey.value;
        rest[key := (if key in rest then rest[key] else []) + [last]]
  }

  function LintActive(es: seq<Entry>, superseded: set<string>): seq<Entry> {
    if es == [] then []
    else LintActive(es[..|es| - 1], superseded) + (if es[|es| - 1].ref !in superseded then [es[|es| - 1]] else [])
  }

  // ----- The indexes of `sync_all` -----

  // A later claim under the same reference replaces an earlier one.
  function ClaimIndex(es: seq<Entry>): map<string, Claim> {
    if es == [] then map[]
    else ClaimIndex(es[..|es| - 1])[es[|es| - 1].ref := es[|es| - 1].claim]
  }

  function SyncFacts(es: seq<Entry>): map<string, seq<string>> {
    if es == [] then map[]
    else
      var rest := SyncFacts(es[..|es| - 1]);
      var last := es[|es| - 1];
      if last.claim.factKey.None? then rest
      else
        var key := last.claim.factKey.value;
        rest[key := (if key in rest then rest[key] else []) + [last.ref]]
  }

  function SyncSuperseded(index: map<string, Claim>): set<string> {
    set ref, t | ref in index && t in index[ref].supersedes :: t
  }

  function SyncActive(refs: seq<string>, superseded: set<string>): seq<string> {
    if refs == [] then []
    else
      SyncActive(refs[..|refs| - 1], superseded)
      + (if refs[|refs| - 1] !in superseded then [refs[|refs| - 1]] else [])
  }

  // A pair in `sorted` order.
  function Ordered(a: string, b: string): (string, string) {
    if Precedes(b, a) then (b, a) else (a, b)
  }

  // `combinations(sorted(refs), 2)`: every two positions once, each pair in order.
  function Pairs(refs: seq<string>): set<(string, string)> {
    set i, j | 0 <= i < j < |refs| :: Ordered(refs[i], refs[j])
  }
}
