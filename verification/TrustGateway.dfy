// Trust Envelopes: taint, findings, sensitivity and trust of ingested content, and how they
// accumulate along derivations.
module TrustGateway {
  import opened Common
  import opened Orders

  const MAX_CONTENT_BYTES := 2 * 1024 * 1024

  datatype TrustClass =
    | TrustedOwner | TrustedControlPlane | AgentGenerated | VerifiedExternal
    | UntrustedExternal | Suspicious | Blocked

  datatype Sensitivity = Public | Internal | Confidential | Restricted

  function TrustRisk(t: TrustClass): nat {
    match t
    case TrustedOwner => 0
    case TrustedControlPlane => 0
    case AgentGenerated => 2
    case VerifiedExternal => 2
    case UntrustedExternal => 3
    case Suspicious => 4
    case Blocked => 5
  }

  function SensitivityRisk(s: Sensitivity): nat {
    match s
    case Public => 0
    case Internal => 1
    case Confidential => 2
    case Restricted => 3
  }

  // The stored text of a trust class, and its parser.
  function TrustName(t: TrustClass): string {
    match t
    case TrustedOwner => "trusted_owner"
    case TrustedControlPlane => "trusted_control_plane"
    case AgentGenerated => "agent_generated"
    case VerifiedExternal => "verified_external"
    case UntrustedExternal => "untrusted_external"
    case Suspicious => "suspicious"
    case Blocked => "blocked"
  }

  function ParseTrust(name: string): Option<TrustClass> {
    if name == "trusted_owner" then Some(TrustedOwner)
    else if name == "trusted_control_plane" then Some(TrustedControlPlane)
    else if name == "agent_generated" then Some(AgentGenerated)
    else if name == "verified_external" then Some(VerifiedExternal)
    else if name == "untrusted_external" then Some(UntrustedExternal)
    else if name == "suspicious" then Some(Suspicious)
    else if name == "blocked" then Some(Blocked)
    else None
  }

  lemma TrustNamesParse(t: TrustClass)
    ensures ParseTrust(TrustName(t)) == Some(t)
  {
    assert "trusted_owner"[0] == 't' && "agent_generated"[0] == 'a' && "verified_external"[0] == 'v'
        && "untrusted_external"[0] == 'u' && "suspicious"[0] == 's' && "blocked"[0] == 'b';
    assert |"trusted_owner"| != |"trusted_control_plane"|;
  }

  // The source kind, already stripped and lower-cased by its validator.
  datatype Source = Source(kind: string, locator: string)

  const EXTERNAL_SOURCE_KINDS: set<string> :=
    {"browser", "email", "github", "github_connector", "mcp_external", "package_metadata", "web", "webhook"}

  function DefaultSourceTrust(kind: string): TrustClass {
    if kind == "owner_input" then TrustedOwner
    else if kind == "forge_internal" || kind == "control_plane" then TrustedControlPlane
    else if kind == "subagent_output" then AgentGenerated
    else UntrustedExternal
  }

  datatype Finding = Finding(ruleId: string, severity: string, category: string)

  // A probe is a function of the text and its source.
  type Probe = (string, Source) -> seq<Finding>

  // Raw content: its size, and its text when it is UTF-8.
  datatype Content = Content(bytes: nat, text: Option<string>)

  datatype Envelope = Envelope(
    envelopeId: string, projectId: string, trust: string, taint: seq<string>,
    sensitivity: Sensitivity, findings: seq<Finding>, parentRefs: seq<string>)

  datatype Request = Request(
    envelopeId: string, projectId: string, content: Content, source: Source,
    sensitivity: Sensitivity, requestedTrust: Option<TrustClass>, parentIds: seq<string>)

  datatype Error =
    | TooLarge | NotUtf8 | CrossProject | UnknownTrust(name: string)
    | DuplicateParent | UnknownParent | DuplicateEnvelope

  // ----- Worst trust, largest sensitivity, findings as an ordered set -----

  // `max(values, key=risk)`: the first of the riskiest.
  function WorstTrust(values: seq<TrustClass>): (w: TrustClass)
    requires values != []
    ensures w in values
    ensures forall v :: v in values ==> TrustRisk(v) <= TrustRisk(w)
  {
    if |values| == 1 then values[0]
    else
      var w := WorstTrust(values[..|values| - 1]);
      var last := values[|values| - 1];
      if TrustRisk(last) > TrustRisk(w) then last else w
  }

  function MaxSensitivity(first: Sensitivity, second: Sensitivity): Sensitivity {
    if SensitivityRisk(second) > SensitivityRisk(first) then second else first
  }

  // Python's order on (rule_id, severity, category).
  predicate FindingPrecedes(a: Finding, b: Finding) {
    Precedes(a.ruleId, b.ruleId)
    || (a.ruleId == b.ruleId && Precedes(a.severity, b.severity))
    || (a.ruleId == b.ruleId && a.severity == b.severity && Precedes(a.category, b.category))
  }

  lemma FindingOrder()
    ensures StrictTotalOrder(FindingPrecedes)
  {
    hide Precedes;
    PrecedesIsStrictTotal();
    assert forall a, b: string :: a != b ==> Precedes(a, b) || Precedes(b, a);
    forall a: Finding, b: Finding | a != b ensures FindingPrecedes(a, b) || FindingPrecedes(b, a) {
      assert a.ruleId != b.ruleId || a.severity != b.severity || a.category != b.category;
    }
  }

  function SortedFindings(s: set<Finding>): (xs: seq<Finding>)
    ensures Ascending(xs, FindingPrecedes)
    ensures forall x :: x in xs <==> x in s
    ensures |xs| == |s|
  {
    FindingOrder();
    Sorted(s, FindingPrecedes)
  }

  method DeduplicateFindings(findings: seq<Finding>) returns (unique: seq<Finding>)
    ensures unique == SortedFindings(SetOf(findings))
  {
    var seen: set<Finding> := {};
    for i := 0 to |findings|
      invariant seen == SetOf(findings[..i])
    {
      seen := seen + {findings[i]};
    }
    assert findings[..|findings|] == findings;
    unique := SortedFindings(seen);
  }

  // ----- What one ingest contributes by itself -----

  function LocalFindings(probes: seq<Probe>, req: Request): set<Finding> {
    if req.content.text.None? then {}
    else ProbeFindings(probes, req.content.text.value, req.source)
  }

  function ProbeFindings(probes: seq<Probe>, text: string, source: Source): set<Finding> {
    if probes == [] then {}
    else ProbeFindings(probes[..|probes| - 1], text, source) + SetOf(probes[|probes| - 1](text, source))
  }

  // The marks of the source itself.
  function SourceTaint(req: Request): set<string> {
    (if req.source.kind in EXTERNAL_SOURCE_KINDS then {"external_content"} else {})
    + (if req.source.kind == "subagent_output" then {"agent_generated"} else {})
    + (if req.parentIds != [] then {"transformed_from_parent"} else {})
  }

  function LocalTaint(probes: seq<Probe>, req: Request): set<string> {
    SourceTaint(req) + (if LocalFindings(probes, req) != {} then {"prompt_injection_suspected"} else {})
  }

  function DesiredTrust(req: Request): TrustClass {
    if req.requestedTrust.Some? then req.requestedTrust.value else DefaultSourceTrust(req.source.kind)
  }

  // The trust risk an ingest would have without any parent.
  function LocalRisk(probes: seq<Probe>, req: Request): nat {
    Max(Max(TrustRisk(DefaultSourceTrust(req.source.kind)), TrustRisk(DesiredTrust(req))),
        Max(if LocalFindings(probes, req) != {} then TrustRisk(Suspicious) else 0,
            if req.source.kind in EXTERNAL_SOURCE_KINDS then TrustRisk(UntrustedExternal) else 0))
  }

  // ----- Ingest -----

  function ParentTaint(parents: seq<Envelope>): set<string> {
    set i, t | 0 <= i < |parents| && t in parents[i].taint :: t
  }

  function ParentFindings(parents: seq<Envelope>): set<Finding> {
    set i, f | 0 <= i < |parents| && f in parents[i].findings :: f
  }

  function ParentSensitivity(start: Sensitivity, parents: seq<Envelope>): Sensitivity {
    if parents == [] then start
    else MaxSensitivity(ParentSensitivity(start, parents[..|parents| - 1]), parents[|parents| - 1].sensitivity)
  }

  predicate TrustsKnown(parents: seq<Envelope>) {
    forall i :: 0 <= i < |parents| ==> ParseTrust(parents[i].trust).Some?
  }

  function ParentTrusts(parents: seq<Envelope>): seq<TrustClass>
    requires TrustsKnown(parents)
  {
    seq(|parents|, i requires 0 <= i < |parents| => ParseTrust(parents[i].trust).value)
  }

  // Suspicion and external content put a floor under the worst trust.
  function WithFloors(worst: TrustClass, suspicious: bool, external: bool): TrustClass {
    var suspected := if suspicious then WorstTrust([worst, Suspicious]) else worst;
    if external && TrustRisk(suspected) < TrustRisk(UntrustedExternal) then UntrustedExternal else suspected
  }

  // The trust after the worst-of, the suspicion floor and the external-content floor.
  function EffectiveTrust(req: Request, parents: seq<Envelope>, findings: set<Finding>, taint: set<string>): TrustClass
    requires TrustsKnown(parents)
  {
    WithFloors(WorstTrust([DefaultSourceTrust(req.source.kind), DesiredTrust(req)] + ParentTrusts(parents)),
               findings != {}, "external_content" in taint)
  }

  function AllFindings(probes: seq<Probe>, req: Request, parents: seq<Envelope>): set<Finding> {
    ParentFindings(parents) + LocalFindings(probes, req)
  }

  function AllTaint(probes: seq<Probe>, req: Request, parents: seq<Envelope>): set<string> {
    SourceTaint(req) + ParentTaint(parents)
    + (if AllFindings(probes, req, parents) != {} then {"prompt_injection_suspected"} else {})
  }

  function Ids(parents: seq<Envelope>): seq<string> {
    seq(|parents|, i requires 0 <= i < |parents| => parents[i].envelopeId)
  }

  function Ingested(probes: seq<Probe>, req: Request, parents: seq<Envelope>): Result<Envelope, Error> {
    if req.content.bytes > MAX_CONTENT_BYTES then Err(TooLarge)
    else if req.content.text.None? then Err(NotUtf8)
    else if exists i :: 0 <= i < |parents| && parents[i].projectId != req.projectId then Err(CrossProject)
    else if !TrustsKnown(parents) then Err(UnknownTrust(FirstUnknownTrust(parents)))
    else Ok(Composed(probes, req, parents))
  }

  // The envelope of an accepted ingest.
  function Composed(probes: seq<Probe>, req: Request, parents: seq<Envelope>): Envelope
    requires TrustsKnown(parents)
  {
    var findings := AllFindings(probes, req, parents);
    var taint := AllTaint(probes, req, parents);
    Envelope(req.envelopeId, req.projectId, TrustName(EffectiveTrust(req, parents, findings, taint)),
             SortedStrings(taint), ParentSensitivity(req.sensitivity, parents), SortedFindings(findings), Ids(parents))
  }

  function FirstUnknownTrust(parents: seq<Envelope>): string
    requires !TrustsKnown(parents)
  {
    if ParseTrust(parents[0].trust).None? then parents[0].trust else FirstUnknownTrust(parents[1..])
  }

  lemma ParentSnoc(parents: seq<Envelope>, k: nat, start: Sensitivity)
    requires k < |parents|
    ensures ParentTaint(parents[..k + 1]) == ParentTaint(parents[..k]) + SetOf(parents[k].taint)
    ensures ParentFindings(parents[..k + 1]) == ParentFindings(parents[..k]) + SetOf(parents[k].findings)
    ensures ParentSensitivity(start, parents[..k + 1]) == MaxSensitivity(ParentSensitivity(start, parents[..k]),
        parents[k].sensitivity)
  {
    var front, longer := parents[..k], parents[..k + 1];
    assert longer == front + [parents[k]];
    assert longer[..k] == front;
    forall t | t in ParentTaint(front) ensures t in ParentTaint(longer) {
      var i :| 0 <= i < |front| && t in front[i].taint;
      assert t in longer[i].taint;
    }
    forall t | t in parents[k].taint ensures t in ParentTaint(longer) { assert t in longer[k].taint; }
    forall f | f in ParentFindings(front) ensures f in ParentFindings(longer) {
      var i :| 0 <= i < |front| && f in front[i].findings;
      assert f in longer[i].findings;
    }
    forall f | f in parents[k].findings ensures f in ParentFindings(longer) { assert f in longer[k].findings; }
  }

  // Taint, findings, sensitivity and references inherited from the parents.
  method Inherit(req: Request, parents: seq<Envelope>)
    returns (taint: set<string>, findings: seq<Finding>, sensitivity: Sensitivity, parentRefs: seq<string>)
    ensures taint == SourceTaint(req) + ParentTaint(parents)
    ensures SetOf(findings) == ParentFindings(parents)
    ensures sensitivity == ParentSensitivity(req.sensitivity, parents)
    ensures parentRefs == Ids(parents)
  {
    hide ParentTaint, ParentFindings, MaxSensitivity, SourceTaint, ParentSensitivity;
    NothingInherited(req.sensitivity, parents[..0]);
    taint := SourceTaint(req);
    findings, parentRefs, sensitivity := [], [], req.sensitivity;
    for k := 0 to |parents|
      invariant taint == SourceTaint(req) + ParentTaint(parents[..k])
      invariant SetOf(findings) == ParentFindings(parents[..k])
      invariant sensitivity == ParentSensitivity(req.sensitivity, parents[..k])
      invariant parentRefs == Ids(parents)[..k]
    {
      var parent := parents[k];
      ParentSnoc(parents, k, req.sensitivity);
      parentRefs := parentRefs + [parent.envelopeId];
      taint := taint + SetOf(parent.taint);
      sensitivity := MaxSensitivity(sensitivity, parent.sensitivity);
      assert SetOf(findings + parent.findings) == SetOf(findings) + SetOf(parent.findings);
      findings := findings + parent.findings;
    }
    assert parents[..|parents|] == parents;
  }

  lemma NothingInherited(start: Sensitivity, parents: seq<Envelope>)
    requires parents == []
    ensures ParentTaint(parents) == {} && ParentFindings(parents) == {} && ParentSensitivity(start, parents) == start
  {
  }

  method RunProbes(probes: seq<Probe>, text: string, source: Source, inherited: seq<Finding>)
    returns (findings: seq<Finding>)
    ensures SetOf(findings) == SetOf(inherited) + ProbeFindings(probes, text, source)
  {
    findings := inherited;
    for k := 0 to |probes|
      invariant SetOf(findings) == SetOf(inherited) + ProbeFindings(probes[..k], text, source)
    {
      assert probes[..k + 1][..k] == probes[..k];
      var more := probes[k](text, source);
      assert SetOf(findings + more) == SetOf(findings) + SetOf(more);
      findings := findings + more;
    }
    assert probes[..|probes|] == probes;
  }

  // The floors, applied one after the other.
  method ApplyFloors(worst: TrustClass, findings: seq<Finding>, taint: set<string>) returns (effective: TrustClass)
    ensures effective == WithFloors(worst, findings != [], "external_content" in taint)
  {
    effective := worst;
    if findings != [] { effective := WorstTrust([effective, Suspicious]); }
    if "external_content" in taint && TrustRisk(effective) < TrustRisk(UntrustedExternal) {
      effective := UntrustedExternal;
    }
  }

  // The composed envelope, from what the loops have gathered.
  lemma ComposedFrom(probes: seq<Probe>, req: Request, parents: seq<Envelope>, findings: seq<Finding>,
                     taint: set<string>, effective: TrustClass)
    requires TrustsKnown(parents) && req.content.text.Some?
    requires findings
          == SortedFindings(ParentFindings(parents) + ProbeFindings(probes, req.content.text.value, req.source))
    requires taint
          == SourceTaint(req) + ParentTaint(parents) + if findings != [] then {"prompt_injection_suspected"} else {}
    requires var worst := WorstTrust([DefaultSourceTrust(req.source.kind), DesiredTrust(req)] + ParentTrusts(parents));
             effective == WithFloors(worst, findings != [], "external_content" in taint)
    ensures Composed(probes, req, parents)
         == Envelope(req.envelopeId, req.projectId, TrustName(effective), SortedStrings(taint),
                     ParentSensitivity(req.sensitivity, parents), findings, Ids(parents))
  {
    hide SourceTaint, ParentTaint, ParentFindings, ProbeFindings, WorstTrust, TrustName, DefaultSourceTrust;
    hide DesiredTrust, TrustRisk, ParentTrusts, ParentSensitivity, SortedFindings, SortedStrings, ParseTrust, Ids;
    assert findings != [] <==> AllFindings(probes, req, parents) != {};
  }

  // The part of `ingest` behind its checks.
  method Compose(probes: seq<Probe>, req: Request, parents: seq<Envelope>) returns (env: Envelope)
    requires req.parentIds == Ids(parents) && TrustsKnown(parents) && req.content.text.Some?
    ensures env == Composed(probes, req, parents)
  {
    hide *;
    var worst := WorstTrust([DefaultSourceTrust(req.source.kind), DesiredTrust(req)] + ParentTrusts(parents));
    var taint, inherited, sensitivity, parentRefs := Inherit(req, parents);
    var findings := RunProbes(probes, req.content.text.value, req.source, inherited);
    findings := DeduplicateFindings(findings);
    if findings != [] { taint := taint + {"prompt_injection_suspected"}; }
    var effective := ApplyFloors(worst, findings, taint);
    ComposedFrom(probes, req, parents, findings, taint, effective);
    env := Envelope(req.envelopeId, req.projectId, TrustName(effective), SortedStrings(taint), sensitivity, findings,
                    parentRefs);
  }

  // `TrustGateway.ingest`.
  method Ingest(probes: seq<Probe>, req: Request, parents: seq<Envelope>) returns (r: Result<Envelope, Error>)
    requires req.parentIds == Ids(parents)
    ensures r == Ingested(probes, req, parents)
  {
    hide Composed, Ids, TrustsKnown, FirstUnknownTrust;
    if req.content.bytes > MAX_CONTENT_BYTES { return Err(TooLarge); }
    if req.content.text.None? { return Err(NotUtf8); }
    for i := 0 to |parents|
      invariant forall k :: 0 <= k < i ==> parents[k].projectId == req.projectId
    {
      if parents[i].projectId != req.projectId { return Err(CrossProject); }
    }
    if !TrustsKnown(parents) { return Err(UnknownTrust(FirstUnknownTrust(parents))); }
    var env := Compose(probes, req, parents);
    r := Ok(env);
  }

  // ----- A ledger of envelopes, and derivation chains through it -----

  datatype Entry = Entry(env: Envelope, req: Request)

  function FindEnvelope(ledger: seq<Entry>, id: string): Option<nat> {
    if ledger == [] then None
    else if ledger[|ledger| - 1].env.envelopeId == id then Some(|ledger| - 1)
    else FindEnvelope(ledger[..|ledger| - 1], id)
  }

  // `trust_envelopes`: in the order asked for; a repeated or an unknown id is an error.
  function TrustEnvelopes(ledger: seq<Entry>, ids: seq<string>): Result<seq<Envelope>, Error> {
    if exists i, j :: 0 <= i < j < |ids| && ids[i] == ids[j] then Err(DuplicateParent)
    else if exists i :: 0 <= i < |ids| && FindEnvelope(ledger, ids[i]).None? then Err(UnknownParent)
    else Ok(Loaded(ledger, ids))
  }

  function Loaded(ledger: seq<Entry>, ids: seq<string>): seq<Envelope>
    requires forall i :: 0 <= i < |ids| ==> FindEnvelope(ledger, ids[i]).Some?
  {
    seq(|ids|, i requires 0 <= i < |ids| => FoundEnvelope(ledger, ids[i]))
  }

  function FoundEnvelope(ledger: seq<Entry>, id: string): (env: Envelope)
    requires FindEnvelope(ledger, id).Some?
    ensures env.envelopeId == id
    ensures exists j :: 0 <= j < |ledger| && ledger[j].env == env
  {
    FindsEnvelope(ledger, id);
    ledger[FindEnvelope(ledger, id).value].env
  }

  lemma {:induction false} FindsEnvelope(ledger: seq<Entry>, id: string)
    ensures var found := FindEnvelope(ledger, id);
            && (found.Some? ==> found.value < |ledger| && ledger[found.value].env.envelopeId == id)
            && (found.None? ==> forall j :: 0 <= j < |ledger| ==> ledger[j].env.envelopeId != id)
  {
    if ledger != [] {
      FindsEnvelope(ledger[..|ledger| - 1], id);
    }
  }

  // Load the parents, ingest, and insert the envelope under its primary key.
  function Submit(probes: seq<Probe>, ledger: seq<Entry>, req: Request): Result<Envelope, Error> {
    var parents := TrustEnvelopes(ledger, req.parentIds);
    if parents.Err? then Err(parents.error)
    else
      var r := Ingested(probes, req, parents.value);
      if r.Ok? && FindEnvelope(ledger, req.envelopeId).Some? then Err(DuplicateEnvelope) else r
  }

  // Any sequence of requests; the refused ones leave no trace.
  function Ledger(probes: seq<Probe>, requests: seq<Request>): seq<Entry> {
    if requests == [] then []
    else
      var before := Ledger(probes, requests[..|requests| - 1]);
      var req := requests[|requests| - 1];
      match Submit(probes, before, req)
      case Ok(env) => before + [Entry(env, req)]
      case Err(_) => before
  }

  ghost predicate Genuine(probes: seq<Probe>, ledger: seq<Entry>) {
    && (forall i :: 0 <= i < |ledger| ==> Submit(probes, ledger[..i], ledger[i].req) == Ok(ledger[i].env))
    && (forall i, j :: 0 <= i < j < |ledger| ==> ledger[i].env.envelopeId != ledger[j].env.envelopeId)
  }

  lemma SubmittedIdIsNew(probes: seq<Probe>, ledger: seq<Entry>, req: Request)
    requires Submit(probes, ledger, req).Ok?
    ensures forall j :: 0 <= j < |ledger| ==> ledger[j].env.envelopeId != req.envelopeId
    ensures Submit(probes, ledger, req).value.envelopeId == req.envelopeId
  {
    FindsEnvelope(ledger, req.envelopeId);
  }

  lemma {:induction false} LedgersAreGenuine(probes: seq<Probe>, requests: seq<Request>)
    ensures Genuine(probes, Ledger(probes, requests))
  {
    hide Submit, FindEnvelope;
    if requests != [] {
      var before := Ledger(probes, requests[..|requests| - 1]);
      LedgersAreGenuine(probes, requests[..|requests| - 1]);
      var req := requests[|requests| - 1];
      var r := Submit(probes, before, req);
      if r.Ok? {
        var ledger := before + [Entry(r.value, req)];
        SubmittedIdIsNew(probes, before, req);
        forall i | 0 <= i < |ledger| ensures Submit(probes, ledger[..i], ledger[i].req) == Ok(ledger[i].env) {
          assert ledger[..i] == before[..i];
          if i == |before| { assert before[..i] == before; }
        }
      }
    }
  }

  predicate IsParent(ledger: seq<Entry>, j: nat, i: nat)
    requires j < |ledger| && i < |ledger|
  {
    j < i && ledger[j].env.envelopeId in ledger[i].req.parentIds
  }

  // `a` is the content `i` was derived from, through any number of derivations, or `i` itself.
  ghost predicate Contributes(ledger: seq<Entry>, a: nat, i: nat)
    requires a < |ledger| && i < |ledger|
    decreases i
  {
    a == i || exists j: nat :: j < i && IsParent(ledger, j, i) && Contributes(ledger, a, j)
  }

  // An envelope together with the envelopes it was ingested from.
  lemma ParentsOf(probes: seq<Probe>, ledger: seq<Entry>, i: nat) returns (parents: seq<Envelope>)
    requires Genuine(probes, ledger) && i < |ledger|
    ensures Ingested(probes, ledger[i].req, parents) == Ok(ledger[i].env)
    ensures forall p :: p in parents ==> exists j: nat :: j < i && IsParent(ledger, j, i) && ledger[j].env == p
    ensures forall j: nat :: j < i && IsParent(ledger, j, i) ==> ledger[j].env in parents
    ensures parents == [] <==> ledger[i].req.parentIds == []
  {
    var ids := ledger[i].req.parentIds;
    var before := ledger[..i];
    assert Submit(probes, before, ledger[i].req) == Ok(ledger[i].env);
    parents := Loaded(before, ids);
    forall p | p in parents ensures exists j: nat :: j < i && IsParent(ledger, j, i) && ledger[j].env == p {
      var k :| 0 <= k < |parents| && parents[k] == p;
      assert p == FoundEnvelope(before, ids[k]);
      var j :| 0 <= j < |before| && before[j].env == p;
      assert ledger[j] == before[j];
      assert ids[k] in ids && IsParent(ledger, j, i);
    }
    forall j: nat | j < i && IsParent(ledger, j, i) ensures ledger[j].env in parents {
      var k :| 0 <= k < |ids| && ids[k] == ledger[j].env.envelopeId;
      var m :| 0 <= m < |before| && before[m].env == FoundEnvelope(before, ids[k]);
      assert ledger[m].env.envelopeId == ledger[j].env.envelopeId;
      assert m == j;
      assert parents[k] == ledger[j].env;
    }
  }

  // What one ingest does to each accumulated quantity.
  lemma IngestAccumulates(probes: seq<Probe>, req: Request, parents: seq<Envelope>, env: Envelope)
    requires Ingested(probes, req, parents) == Ok(env)
    ensures forall p :: p in parents ==> p.projectId == env.projectId && ParseTrust(p.trust).Some?
    ensures forall f :: f in env.findings <==>
        f in LocalFindings(probes, req) || exists p :: p in parents && f in p.findings
    ensures forall t :: t in env.taint <==>
              t in SourceTaint(req) || (exists p :: p in parents && t in p.taint)
              || (t == "prompt_injection_suspected" && env.findings != [])
    ensures env.projectId == req.projectId && ParseTrust(env.trust).Some?
  {
    hide SortedStrings, SortedFindings, ParseTrust, TrustName, EffectiveTrust, ParentSensitivity;
    hide SourceTaint, LocalFindings;
    TrustNamesParse(EffectiveTrust(req, parents, AllFindings(probes, req, parents), AllTaint(probes, req, parents)));
    forall f ensures f in ParentFindings(parents) <==> exists p :: p in parents && f in p.findings {
      if p :| p in parents && f in p.findings {
        var i :| 0 <= i < |parents| && parents[i] == p;
        assert f in parents[i].findings;
      }
    }
    forall t ensures t in ParentTaint(parents) <==> exists p :: p in parents && t in p.taint {
      if p :| p in parents && t in p.taint {
        var i :| 0 <= i < |parents| && parents[i] == p;
        assert t in parents[i].taint;
      }
    }
    assert env.findings == [] <==> AllFindings(probes, req, parents) == {};
  }

  function EnvelopeRisk(env: Envelope): nat {
    var t := ParseTrust(env.trust);
    if t.Some? then TrustRisk(t.value) else 0
  }

  // Suspicion and external content put a floor under the trust risk.
  ghost predicate Floored(env: Envelope) {
    && (env.findings != [] ==> EnvelopeRisk(env) >= TrustRisk(Suspicious))
    && ("external_content" in env.taint ==> EnvelopeRisk(env) >= TrustRisk(UntrustedExternal))
  }

  lemma EffectiveTrustFloors(req: Request, parents: seq<Envelope>, findings: set<Finding>, taint: set<string>)
    requires TrustsKnown(parents)
    ensures var r := TrustRisk(EffectiveTrust(req, parents, findings, taint));
            && r >= TrustRisk(DefaultSourceTrust(req.source.kind)) && r >= TrustRisk(DesiredTrust(req))
            && (forall p :: p in parents ==> r >= EnvelopeRisk(p))
            && (findings != {} ==> r >= TrustRisk(Suspicious))
            && ("external_content" in taint ==> r >= TrustRisk(UntrustedExternal))
            && (|| r == TrustRisk(DefaultSourceTrust(req.source.kind)) || r == TrustRisk(DesiredTrust(req))
                || (exists p :: p in parents && r == EnvelopeRisk(p))
                || (findings != {} && r == TrustRisk(Suspicious))
                || ("external_content" in taint && r == TrustRisk(UntrustedExternal)))
  {
    hide WorstTrust, DefaultSourceTrust, DesiredTrust, ParseTrust;
    var base := [DefaultSourceTrust(req.source.kind), DesiredTrust(req)] + ParentTrusts(parents);
    var worst := WorstTrust(base);
    assert base[0] in base && base[1] in base;
    forall p | p in parents ensures TrustRisk(worst) >= EnvelopeRisk(p) {
      var i :| 0 <= i < |parents| && parents[i] == p;
      assert base[2 + i] in base;
    }
    var k :| 0 <= k < |base| && base[k] == worst;
    assert k >= 2 ==> TrustRisk(worst) == EnvelopeRisk(parents[k - 2]) && parents[k - 2] in parents;
    assert [worst, Suspicious][0] in [worst, Suspicious] && [worst, Suspicious][1] in [worst, Suspicious];
  }

  lemma TaintNamesDiffer()
    ensures "external_content" != "prompt_injection_suspected" && "external_content" != "agent_generated"
    ensures "external_content" != "transformed_from_parent"
    ensures "prompt_injection_suspected" != "agent_generated"
        && "prompt_injection_suspected" != "transformed_from_parent"
  {
    assert "external_content"[0] == 'e' && "prompt_injection_suspected"[0] == 'p'
        && "agent_generated"[0] == 'a' && "transformed_from_parent"[0] == 't';
  }

  // One finding, or one mark, of an envelope comes from the ingest itself or from a parent.
  lemma FindingOrigin(probes: seq<Probe>, req: Request, parents: seq<Envelope>, env: Envelope, f: Finding)
    requires Ingested(probes, req, parents) == Ok(env)
    ensures f in env.findings <==> f in LocalFindings(probes, req) || exists p :: p in parents && f in p.findings
  {
    hide Ingested, LocalFindings;
    IngestAccumulates(probes, req, parents, env);
  }

  lemma MarkOrigin(probes: seq<Probe>, req: Request, parents: seq<Envelope>, env: Envelope, t: string)
    requires Ingested(probes, req, parents) == Ok(env)
    ensures t in env.taint <==>
              t in SourceTaint(req) || (exists p :: p in parents && t in p.taint)
              || (t == "prompt_injection_suspected" && env.findings != [])
  {
    hide Ingested, SourceTaint;
    IngestAccumulates(probes, req, parents, env);
  }

  lemma SuspicionOrigin(probes: seq<Probe>, req: Request, parents: seq<Envelope>, env: Envelope)
    requires Ingested(probes, req, parents) == Ok(env)
    ensures env.findings != [] <==> LocalFindings(probes, req) != {} || exists p :: p in parents && p.findings != []
  {
    hide Ingested, LocalFindings;
    if env.findings != [] {
      FindingOrigin(probes, req, parents, env, env.findings[0]);
      assert env.findings[0] in env.findings;
    }
    if f :| f in LocalFindings(probes, req) {
      FindingOrigin(probes, req, parents, env, f);
    }
    if p :| p in parents && p.findings != [] {
      assert p.findings[0] in p.findings;
      FindingOrigin(probes, req, parents, env, p.findings[0]);
    }
  }

  lemma ExternalOrigin(probes: seq<Probe>, req: Request, parents: seq<Envelope>, env: Envelope)
    requires Ingested(probes, req, parents) == Ok(env)
    ensures "external_content" in env.taint <==>
              req.source.kind in EXTERNAL_SOURCE_KINDS || exists p :: p in parents && "external_content" in p.taint
  {
    hide Ingested, EXTERNAL_SOURCE_KINDS;
    MarkOrigin(probes, req, parents, env, "external_content");
    TaintNamesDiffer();
  }

  // The effective class of an accepted ingest is the one its envelope carries.
  lemma EnvelopeCarriesTrust(probes: seq<Probe>, req: Request, parents: seq<Envelope>, env: Envelope)
    requires Ingested(probes, req, parents) == Ok(env)
    ensures TrustsKnown(parents)
    ensures exists findings, taint ::
              && EnvelopeRisk(env) == TrustRisk(EffectiveTrust(req, parents, findings, taint))
              && (findings != {} <==> env.findings != [])
              && ("external_content" in taint <==> "external_content" in env.taint)
  {
    hide ParseTrust, TrustName, EffectiveTrust, AllFindings, AllTaint;
    var findings, taint := AllFindings(probes, req, parents), AllTaint(probes, req, parents);
    TrustNamesParse(EffectiveTrust(req, parents, findings, taint));
  }

  // The risk of one ingest is the worst of its own contribution and its parents'.
  lemma RiskAccumulates(probes: seq<Probe>, req: Request, parents: seq<Envelope>, env: Envelope)
    requires Ingested(probes, req, parents) == Ok(env)
    requires forall p :: p in parents ==> Floored(p)
    ensures Floored(env)
    ensures EnvelopeRisk(env) >= LocalRisk(probes, req)
    ensures forall p :: p in parents ==> EnvelopeRisk(env) >= EnvelopeRisk(p)
    ensures EnvelopeRisk(env) == LocalRisk(probes, req) || exists p ::
        p in parents && EnvelopeRisk(env) == EnvelopeRisk(p)
  {
    hide Ingested, LocalFindings, EXTERNAL_SOURCE_KINDS, EffectiveTrust, EnvelopeRisk, DefaultSourceTrust, DesiredTrust;
    SuspicionOrigin(probes, req, parents, env);
    ExternalOrigin(probes, req, parents, env);
    EnvelopeCarriesTrust(probes, req, parents, env);
    var findings, taint :|
      && EnvelopeRisk(env) == TrustRisk(EffectiveTrust(req, parents, findings, taint))
      && (findings != {} <==> env.findings != [])
      && ("external_content" in taint <==> "external_content" in env.taint);
    EffectiveTrustFloors(req, parents, findings, taint);
  }

  lemma {:induction false} SensitivityAccumulates(start: Sensitivity, parents: seq<Envelope>)
    ensures var r := SensitivityRisk(ParentSensitivity(start, parents));
            && r >= SensitivityRisk(start)
            && (forall p :: p in parents ==> r >= SensitivityRisk(p.sensitivity))
            && (r == SensitivityRisk(start) || exists p :: p in parents && r == SensitivityRisk(p.sensitivity))
  {
    if parents != [] {
      var front := parents[..|parents| - 1];
      SensitivityAccumulates(start, front);
      var last := parents[|parents| - 1];
      assert last in parents && forall p :: p in parents <==> p in front || p == last;
    }
  }

  // ----- The main results -----

  // The whole ancestor closure of an entry, itself included.
  ghost function Ancestry(ledger: seq<Entry>, i: nat): (ancestors: set<nat>)
    requires i < |ledger|
    ensures forall a :: a in ancestors ==> a <= i
  {
    ContributorsAreEarlier(ledger, i);
    set a: nat | a < |ledger| && Contributes(ledger, a, i)
  }

  lemma {:induction false} ContributorsAreEarlier(ledger: seq<Entry>, i: nat)
    requires i < |ledger|
    ensures forall a: nat :: a < |ledger| && Contributes(ledger, a, i) ==> a <= i
    decreases i
  {
    forall a: nat | a < |ledger| && Contributes(ledger, a, i) ensures a <= i {
      if a != i {
        var j: nat :| j < i && IsParent(ledger, j, i) && Contributes(ledger, a, j);
        ContributorsAreEarlier(ledger, j);
      }
    }
  }

  lemma AncestryStep(ledger: seq<Entry>, i: nat)
    requires i < |ledger|
    ensures i in Ancestry(ledger, i)
    ensures forall j: nat :: j < i && IsParent(ledger, j, i) ==> Ancestry(ledger, j) <= Ancestry(ledger, i)
    ensures forall a :: a in Ancestry(ledger, i) && a != i ==>
              exists j: nat :: j < i && IsParent(ledger, j, i) && a in Ancestry(ledger, j)
  {
    forall a | a in Ancestry(ledger, i) && a != i
      ensures exists j: nat :: j < i && IsParent(ledger, j, i) && a in Ancestry(ledger, j)
    {
      var j: nat :| j < i && IsParent(ledger, j, i) && Contributes(ledger, a, j);
      assert a in Ancestry(ledger, j);
    }
  }

  // Everything an envelope carries, in terms of its ancestry's own contributions.
  ghost predicate Accumulated(probes: seq<Probe>, ledger: seq<Entry>, i: nat)
    requires i < |ledger|
  {
    var env, ancestry := ledger[i].env, Ancestry(ledger, i);
    && (forall f :: f in env.findings <==> exists a :: a in ancestry && f in LocalFindings(probes, ledger[a].req))
    && (forall t :: t in env.taint <==> exists a :: a in ancestry && t in LocalTaint(probes, ledger[a].req))
    && (forall a :: a in ancestry ==> SensitivityRisk(ledger[a].req.sensitivity) <= SensitivityRisk(env.sensitivity))
    && (exists a :: a in ancestry && SensitivityRisk(ledger[a].req.sensitivity) == SensitivityRisk(env.sensitivity))
    && (forall a :: a in ancestry ==> LocalRisk(probes, ledger[a].req) <= EnvelopeRisk(env))
    && (exists a :: a in ancestry && LocalRisk(probes, ledger[a].req) == EnvelopeRisk(env))
    && (forall a :: a in ancestry ==> ledger[a].env.projectId == env.projectId)
    && ("prompt_injection_suspected" in env.taint <==> env.findings != [])
  }

  lemma {:induction false} FindingsAccumulate(probes: seq<Probe>, ledger: seq<Entry>, i: nat, f: Finding)
    requires Genuine(probes, ledger) && i < |ledger|
    ensures f in ledger[i].env.findings <==> exists a ::
        a in Ancestry(ledger, i) && f in LocalFindings(probes, ledger[a].req)
    decreases i
  {
    hide Ingested, LocalFindings, Genuine, Ancestry;
    var parents := ParentsOf(probes, ledger, i);
    FindingOrigin(probes, ledger[i].req, parents, ledger[i].env, f);
    AncestryStep(ledger, i);
    if p :| p in parents && f in p.findings {
      var j: nat :| j < i && IsParent(ledger, j, i) && ledger[j].env == p;
      FindingsAccumulate(probes, ledger, j, f);
    }
    if a :| a in Ancestry(ledger, i) && a != i && f in LocalFindings(probes, ledger[a].req) {
      var j: nat :| j < i && IsParent(ledger, j, i) && a in Ancestry(ledger, j);
      FindingsAccumulate(probes, ledger, j, f);
    }
  }

  lemma {:induction false} SuspectedIffFindings(probes: seq<Probe>, ledger: seq<Entry>, i: nat)
    requires Genuine(probes, ledger) && i < |ledger|
    ensures "prompt_injection_suspected" in ledger[i].env.taint <==> ledger[i].env.findings != []
    decreases i
  {
    hide Ingested, LocalFindings, Genuine;
    var parents := ParentsOf(probes, ledger, i);
    MarkOrigin(probes, ledger[i].req, parents, ledger[i].env, "prompt_injection_suspected");
    SuspicionOrigin(probes, ledger[i].req, parents, ledger[i].env);
    TaintNamesDiffer();
    if p :| p in parents && "prompt_injection_suspected" in p.taint {
      var j: nat :| j < i && IsParent(ledger, j, i) && ledger[j].env == p;
      SuspectedIffFindings(probes, ledger, j);
    }
  }

  lemma {:induction false} TaintAccumulates(probes: seq<Probe>, ledger: seq<Entry>, i: nat, t: string)
    requires Genuine(probes, ledger) && i < |ledger|
    ensures t in ledger[i].env.taint <==> exists a :: a in Ancestry(ledger, i) && t in LocalTaint(probes, ledger[a].req)
    decreases i
  {
    hide Ingested, LocalFindings, Genuine, Ancestry, SourceTaint;
    var env := ledger[i].env;
    var parents := ParentsOf(probes, ledger, i);
    MarkOrigin(probes, ledger[i].req, parents, env, t);
    SuspicionOrigin(probes, ledger[i].req, parents, env);
    SuspectedIffFindings(probes, ledger, i);
    AncestryStep(ledger, i);
    if t in env.taint && t !in SourceTaint(ledger[i].req) && !(exists p :: p in parents && t in p.taint) {
      var f := env.findings[0];
      assert f in env.findings;
      FindingsAccumulate(probes, ledger, i, f);
      var a :| a in Ancestry(ledger, i) && f in LocalFindings(probes, ledger[a].req);
      assert t in LocalTaint(probes, ledger[a].req);
    }
    if p :| p in parents && t in p.taint {
      var j: nat :| j < i && IsParent(ledger, j, i) && ledger[j].env == p;
      TaintAccumulates(probes, ledger, j, t);
    }
    if a :| a in Ancestry(ledger, i) && a != i && t in LocalTaint(probes, ledger[a].req) {
      var j: nat :| j < i && IsParent(ledger, j, i) && a in Ancestry(ledger, j);
      TaintAccumulates(probes, ledger, j, t);
    }
  }

  lemma {:induction false} SensitivityIsMaximum(probes: seq<Probe>, ledger: seq<Entry>, i: nat)
    requires Genuine(probes, ledger) && i < |ledger|
    ensures var r, ancestry := SensitivityRisk(ledger[i].env.sensitivity), Ancestry(ledger, i);
            && (forall a :: a in ancestry ==> SensitivityRisk(ledger[a].req.sensitivity) <= r)
            && (exists a :: a in ancestry && SensitivityRisk(ledger[a].req.sensitivity) == r)
    decreases i
  {
    hide Genuine, Ancestry, SensitivityRisk;
    var r, req := SensitivityRisk(ledger[i].env.sensitivity), ledger[i].req;
    var parents := ParentsOf(probes, ledger, i);
    SensitivityAccumulates(req.sensitivity, parents);
    AncestryStep(ledger, i);
    forall a | a in Ancestry(ledger, i) ensures SensitivityRisk(ledger[a].req.sensitivity) <= r {
      if a != i {
        var j: nat :| j < i && IsParent(ledger, j, i) && a in Ancestry(ledger, j);
        SensitivityIsMaximum(probes, ledger, j);
      }
    }
    if r != SensitivityRisk(req.sensitivity) {
      var p :| p in parents && r == SensitivityRisk(p.sensitivity);
      var j: nat :| j < i && IsParent(ledger, j, i) && ledger[j].env == p;
      SensitivityIsMaximum(probes, ledger, j);
    }
  }

  lemma {:induction false} RiskIsMaximum(probes: seq<Probe>, ledger: seq<Entry>, i: nat)
    requires Genuine(probes, ledger) && i < |ledger|
    ensures Floored(ledger[i].env)
    ensures var r, ancestry := EnvelopeRisk(ledger[i].env), Ancestry(ledger, i);
            && (forall a :: a in ancestry ==> LocalRisk(probes, ledger[a].req) <= r)
            && (exists a :: a in ancestry && LocalRisk(probes, ledger[a].req) == r)
    decreases i
  {
    hide Ingested, Genuine, Ancestry, LocalRisk, EnvelopeRisk, Floored;
    var r, req := EnvelopeRisk(ledger[i].env), ledger[i].req;
    var parents := ParentsOf(probes, ledger, i);
    forall p | p in parents ensures Floored(p) {
      var j: nat :| j < i && IsParent(ledger, j, i) && ledger[j].env == p;
      RiskIsMaximum(probes, ledger, j);
    }
    RiskAccumulates(probes, req, parents, ledger[i].env);
    AncestryStep(ledger, i);
    forall a | a in Ancestry(ledger, i) ensures LocalRisk(probes, ledger[a].req) <= r {
      if a != i {
        var j: nat :| j < i && IsParent(ledger, j, i) && a in Ancestry(ledger, j);
        RiskIsMaximum(probes, ledger, j);
      }
    }
    if r != LocalRisk(probes, req) {
      var p :| p in parents && r == EnvelopeRisk(p);
      var j: nat :| j < i && IsParent(ledger, j, i) && ledger[j].env == p;
      RiskIsMaximum(probes, ledger, j);
    }
  }

  lemma {:induction false} AncestryInOneProject(probes: seq<Probe>, ledger: seq<Entry>, i: nat)
    requires Genuine(probes, ledger) && i < |ledger|
    ensures forall a :: a in Ancestry(ledger, i) ==> ledger[a].env.projectId == ledger[i].env.projectId
    decreases i
  {
    hide Ingested, Genuine, Ancestry;
    var parents := ParentsOf(probes, ledger, i);
    IngestAccumulates(probes, ledger[i].req, parents, ledger[i].env);
    AncestryStep(ledger, i);
    forall a | a in Ancestry(ledger, i) ensures ledger[a].env.projectId == ledger[i].env.projectId {
      if a != i {
        var j: nat :| j < i && IsParent(ledger, j, i) && a in Ancestry(ledger, j);
        AncestryInOneProject(probes, ledger, j);
      }
    }
  }

  // For every sequence of ingests, every envelope carries exactly the union of its ancestry's taint
  // and findings and the maximum of its sensitivity and trust risk, all within one project.
  lemma EnvelopesAccumulateTheirAncestry(probes: seq<Probe>, requests: seq<Request>, i: nat)
    requires i < |Ledger(probes, requests)|
    ensures Accumulated(probes, Ledger(probes, requests), i)
  {
    hide LocalFindings, LocalTaint, LocalRisk, EnvelopeRisk, SensitivityRisk, Ancestry, Ledger;
    var ledger := Ledger(probes, requests);
    LedgersAreGenuine(probes, requests);
    forall f
      ensures f in ledger[i].env.findings <==>
                exists a :: a in Ancestry(ledger, i) && f in LocalFindings(probes, ledger[a].req)
    {
      FindingsAccumulate(probes, ledger, i, f);
    }
    forall t
      ensures t in ledger[i].env.taint <==>
                exists a :: a in Ancestry(ledger, i) && t in LocalTaint(probes, ledger[a].req)
    {
      TaintAccumulates(probes, ledger, i, t);
    }
    SensitivityIsMaximum(probes, ledger, i);
    RiskIsMaximum(probes, ledger, i);
    AncestryInOneProject(probes, ledger, i);
    SuspectedIffFindings(probes, ledger, i);
  }

  lemma {:induction false} AncestryIsTransitive(ledger: seq<Entry>, a: nat, i: nat)
    requires i < |ledger| && a in Ancestry(ledger, i)
    ensures Ancestry(ledger, a) <= Ancestry(ledger, i)
    decreases i
  {
    hide Ancestry;
    AncestryStep(ledger, i);
    if a != i {
      var j: nat :| j < i && IsParent(ledger, j, i) && a in Ancestry(ledger, j);
      AncestryIsTransitive(ledger, a, j);
    }
  }

  // No chain of derivations loses taint or findings, or lowers sensitivity or trust risk.
  lemma DerivationNeverLaunders(probes: seq<Probe>, requests: seq<Request>, a: nat, i: nat)
    requires i < |Ledger(probes, requests)| && a in Ancestry(Ledger(probes, requests), i)
    ensures var ledger := Ledger(probes, requests);
            var from, to := ledger[a].env, ledger[i].env;
            && (forall t :: t in from.taint ==> t in to.taint)
            && (forall f :: f in from.findings ==> f in to.findings)
            && SensitivityRisk(from.sensitivity) <= SensitivityRisk(to.sensitivity)
            && EnvelopeRisk(from) <= EnvelopeRisk(to)
  {
    hide LocalFindings, LocalTaint, LocalRisk, EnvelopeRisk, SensitivityRisk, Ancestry, Ledger;
    var ledger := Ledger(probes, requests);
    EnvelopesAccumulateTheirAncestry(probes, requests, a);
    EnvelopesAccumulateTheirAncestry(probes, requests, i);
    AncestryIsTransitive(ledger, a, i);
  }

  // ----- What the ancestry was, field by field -----

  // Some probe finds `f` in the content.
  ghost predicate Found(probes: seq<Probe>, req: Request, f: Finding) {
    req.content.text.Some? && exists k :: 0 <= k < |probes| && f in probes[k](req.content.text.value, req.source)
  }

  ghost predicate Suspected(probes: seq<Probe>, req: Request) {
    exists f :: Found(probes, req, f)
  }

  predicate FromInside(kind: string) {
    kind == "owner_input" || kind == "forge_internal" || kind == "control_plane"
  }

  predicate FromOutside(kind: string) {
    || kind == "browser" || kind == "email" || kind == "github" || kind == "github_connector"
    || kind == "mcp_external" || kind == "package_metadata" || kind == "web" || kind == "webhook"
  }

  // What keeps an envelope from being trusted, what makes it untrusted, and what makes it suspicious.
  ghost predicate Distrusted(probes: seq<Probe>, req: Request) {
    || !FromInside(req.source.kind)
    || req.requestedTrust in {Some(AgentGenerated), Some(VerifiedExternal)}
    || Untrusted(probes, req)
  }

  ghost predicate Untrusted(probes: seq<Probe>, req: Request) {
    || (!FromInside(req.source.kind) && req.source.kind != "subagent_output")
    || req.requestedTrust == Some(UntrustedExternal)
    || Suspect(probes, req)
  }

  ghost predicate Suspect(probes: seq<Probe>, req: Request) {
    req.requestedTrust in {Some(Suspicious), Some(Blocked)} || Suspected(probes, req)
  }

  lemma {:induction false} FoundByProbe(probes: seq<Probe>, text: string, source: Source, f: Finding)
    ensures f in ProbeFindings(probes, text, source)
       <==> exists k :: 0 <= k < |probes| && f in probes[k](text, source)
  {
    if probes != [] {
      var front := probes[..|probes| - 1];
      FoundByProbe(front, text, source, f);
      assert forall k :: 0 <= k < |front| ==> front[k] == probes[k];
    }
  }

  lemma LocalFindingsAre(probes: seq<Probe>, req: Request)
    ensures forall f :: f in LocalFindings(probes, req) <==> Found(probes, req, f)
    ensures LocalFindings(probes, req) != {} <==> Suspected(probes, req)
  {
    forall f ensures f in LocalFindings(probes, req) <==> Found(probes, req, f) {
      if req.content.text.Some? { FoundByProbe(probes, req.content.text.value, req.source, f); }
    }
    if Suspected(probes, req) {
      var f :| Found(probes, req, f);
      assert f in LocalFindings(probes, req);
    }
  }

  lemma LocalRiskIs(probes: seq<Probe>, req: Request)
    ensures LocalRisk(probes, req) >= 1 <==> Distrusted(probes, req)
    ensures LocalRisk(probes, req) >= 3 <==> Untrusted(probes, req)
    ensures LocalRisk(probes, req) >= 4 <==> Suspect(probes, req)
    ensures LocalRisk(probes, req) >= 5 <==> req.requestedTrust == Some(Blocked)
  {
    hide LocalFindings, Suspected;
    LocalFindingsAre(probes, req);
    OutsideIsNotInside(req.source.kind);
  }

  lemma OutsideIsNotInside(kind: string)
    ensures kind in EXTERNAL_SOURCE_KINDS <==> FromOutside(kind)
    ensures FromOutside(kind) ==> !FromInside(kind) && kind != "subagent_output"
    ensures FromInside(kind) ==> kind != "subagent_output"
  {
  }

  lemma RiskIsNamed(env: Envelope)
    requires ParseTrust(env.trust).Some?
    ensures EnvelopeRisk(env) >= 1 <==> env.trust != "trusted_owner" && env.trust != "trusted_control_plane"
    ensures EnvelopeRisk(env) >= 3
       <==> env.trust == "untrusted_external" || env.trust == "suspicious" || env.trust == "blocked"
    ensures EnvelopeRisk(env) >= 4 <==> env.trust == "suspicious" || env.trust == "blocked"
    ensures EnvelopeRisk(env) >= 5 <==> env.trust == "blocked"
    ensures || env.trust == "trusted_owner" || env.trust == "trusted_control_plane" || env.trust == "agent_generated"
            || env.trust == "verified_external" || env.trust == "untrusted_external" || env.trust == "suspicious"
            || env.trust == "blocked"
  {
    var t := ParseTrust(env.trust).value;
    assert TrustName(t) == env.trust;
    TrustNamesParse(t);
    TrustNamesParse(TrustedOwner);
    TrustNamesParse(TrustedControlPlane);
    TrustNamesParse(UntrustedExternal);
    TrustNamesParse(Suspicious);
    TrustNamesParse(Blocked);
  }

  // The class of an envelope, from the kinds, requests and findings of its ancestry alone.
  ghost predicate TrustIsExact(probes: seq<Probe>, ledger: seq<Entry>, i: nat)
    requires i < |ledger|
  {
    var trust, ancestry := ledger[i].env.trust, Ancestry(ledger, i);
    && (|| trust == "trusted_owner" || trust == "trusted_control_plane" || trust == "agent_generated"
        || trust == "verified_external" || trust == "untrusted_external" || trust == "suspicious"
        || trust == "blocked")
    && (trust != "trusted_owner" && trust != "trusted_control_plane"
        <==> exists a :: a in ancestry && Distrusted(probes, ledger[a].req))
    && (trust == "untrusted_external" || trust == "suspicious" || trust == "blocked"
        <==> exists a :: a in ancestry && Untrusted(probes, ledger[a].req))
    && (trust == "suspicious" || trust == "blocked" <==> exists a :: a in ancestry && Suspect(probes, ledger[a].req))
    && (trust == "blocked" <==> exists a :: a in ancestry && ledger[a].req.requestedTrust == Some(Blocked))
  }

  lemma GenuineTrustParses(probes: seq<Probe>, ledger: seq<Entry>, i: nat)
    requires Genuine(probes, ledger) && i < |ledger|
    ensures ParseTrust(ledger[i].env.trust).Some?
  {
    hide *;
    var parents := ParentsOf(probes, ledger, i);
    IngestAccumulates(probes, ledger[i].req, parents, ledger[i].env);
  }

  // For every sequence of ingests: each step of the trust scale is taken exactly when some member of
  // the ancestry calls for it.
  lemma TrustExactlyFromAncestry(probes: seq<Probe>, requests: seq<Request>, i: nat)
    requires i < |Ledger(probes, requests)|
    ensures TrustIsExact(probes, Ledger(probes, requests), i)
  {
    hide Ledger, Ancestry, LocalRisk, EnvelopeRisk, Distrusted, Untrusted, Suspect, Genuine, ParseTrust, Floored;
    var ledger := Ledger(probes, requests);
    LedgersAreGenuine(probes, requests);
    GenuineTrustParses(probes, ledger, i);
    RiskIsNamed(ledger[i].env);
    RiskIsMaximum(probes, ledger, i);
    forall a | a in Ancestry(ledger, i)
      ensures && (LocalRisk(probes, ledger[a].req) >= 1 <==> Distrusted(probes, ledger[a].req))
              && (LocalRisk(probes, ledger[a].req) >= 3 <==> Untrusted(probes, ledger[a].req))
              && (LocalRisk(probes, ledger[a].req) >= 4 <==> Suspect(probes, ledger[a].req))
              && (LocalRisk(probes, ledger[a].req) >= 5 <==> ledger[a].req.requestedTrust == Some(Blocked))
    {
      LocalRiskIs(probes, ledger[a].req);
    }
  }

  lemma SourceTaintIs(req: Request)
    ensures "external_content" in SourceTaint(req) <==> FromOutside(req.source.kind)
    ensures "agent_generated" in SourceTaint(req) <==> req.source.kind == "subagent_output"
    ensures "transformed_from_parent" in SourceTaint(req) <==> req.parentIds != []
    ensures "prompt_injection_suspected" !in SourceTaint(req)
    ensures forall t :: t in SourceTaint(req)
              ==> t == "external_content" || t == "agent_generated" || t == "transformed_from_parent"
  {
    TaintNamesDiffer();
    OutsideIsNotInside(req.source.kind);
    assert "agent_generated"[0] == 'a' && "transformed_from_parent"[0] == 't';
  }

  ghost predicate LocalMarks(probes: seq<Probe>, req: Request) {
    && ("external_content" in LocalTaint(probes, req) <==> FromOutside(req.source.kind))
    && ("agent_generated" in LocalTaint(probes, req) <==> req.source.kind == "subagent_output")
    && ("transformed_from_parent" in LocalTaint(probes, req) <==> req.parentIds != [])
    && ("prompt_injection_suspected" in LocalTaint(probes, req) <==> Suspected(probes, req))
    && (forall t :: t in LocalTaint(probes, req) ==>
            || t == "external_content" || t == "agent_generated" || t == "transformed_from_parent"
            || t == "prompt_injection_suspected")
  }

  lemma LocalTaintIs(probes: seq<Probe>, req: Request)
    ensures LocalMarks(probes, req)
  {
    hide SourceTaint, LocalFindings, Suspected, FromOutside;
    LocalFindingsAre(probes, req);
    SourceTaintIs(req);
    TaintNamesDiffer();
  }

  // The marks, findings and sensitivity of an envelope, from the fields of its ancestry alone.
  ghost predicate MarksAreExact(probes: seq<Probe>, ledger: seq<Entry>, i: nat)
    requires i < |ledger|
  {
    var env, ancestry := ledger[i].env, Ancestry(ledger, i);
    && ("external_content" in env.taint <==> exists a :: a in ancestry && FromOutside(ledger[a].req.source.kind))
    && ("agent_generated" in env.taint
        <==> exists a :: a in ancestry && ledger[a].req.source.kind == "subagent_output")
    && ("transformed_from_parent" in env.taint <==> ledger[i].req.parentIds != [])
    && ("prompt_injection_suspected" in env.taint <==> exists a :: a in ancestry && Suspected(probes, ledger[a].req))
    && (forall t :: t in env.taint ==>
            || t == "external_content" || t == "agent_generated" || t == "transformed_from_parent"
            || t == "prompt_injection_suspected")
    && (forall f :: f in env.findings <==> exists a :: a in ancestry && Found(probes, ledger[a].req, f))
  }

  lemma OnlyDescendantsHaveParents(ledger: seq<Entry>, i: nat)
    requires i < |ledger|
    ensures (exists a :: a in Ancestry(ledger, i) && ledger[a].req.parentIds != [])
       <==> ledger[i].req.parentIds != []
  {
    hide Ancestry, Contributes;
    AncestryStep(ledger, i);
    if a :| a in Ancestry(ledger, i) && a != i {
      var j: nat :| j < i && IsParent(ledger, j, i) && a in Ancestry(ledger, j);
    }
  }

  lemma MarksExactlyFromAncestry(probes: seq<Probe>, requests: seq<Request>, i: nat)
    requires i < |Ledger(probes, requests)|
    ensures MarksAreExact(probes, Ledger(probes, requests), i)
  {
    hide Ledger, Ancestry, LocalTaint, LocalFindings, Suspected, Found, Genuine, FromOutside;
    var ledger := Ledger(probes, requests);
    LedgersAreGenuine(probes, requests);
    OnlyDescendantsHaveParents(ledger, i);
    forall t
      ensures t in ledger[i].env.taint
         <==> exists a :: a in Ancestry(ledger, i) && t in LocalTaint(probes, ledger[a].req)
    {
      TaintAccumulates(probes, ledger, i, t);
    }
    forall a | a in Ancestry(ledger, i) ensures LocalMarks(probes, ledger[a].req) {
      LocalTaintIs(probes, ledger[a].req);
    }
    forall f
      ensures f in ledger[i].env.findings <==> exists a :: a in Ancestry(ledger, i) && Found(probes, ledger[a].req, f)
    {
      FindingsAccumulate(probes, ledger, i, f);
      forall a | a in Ancestry(ledger, i)
        ensures f in LocalFindings(probes, ledger[a].req) <==> Found(probes, ledger[a].req, f)
      {
        LocalFindingsAre(probes, ledger[a].req);
      }
    }
  }

  // The sensitivity of an envelope is the greatest any member of its ancestry asked for.
  lemma SensitivityExactlyFromAncestry(probes: seq<Probe>, requests: seq<Request>, i: nat)
    requires i < |Ledger(probes, requests)|
    ensures var ledger := Ledger(probes, requests);
            var sensitivity, ancestry := ledger[i].env.sensitivity, Ancestry(ledger, i);
            && (sensitivity != Public <==> exists a :: a in ancestry && ledger[a].req.sensitivity != Public)
            && (sensitivity in {Confidential, Restricted}
                <==> exists a :: a in ancestry && ledger[a].req.sensitivity in {Confidential, Restricted})
            && (sensitivity == Restricted <==> exists a :: a in ancestry && ledger[a].req.sensitivity == Restricted)
  {
    hide Ledger, Ancestry, Genuine;
    LedgersAreGenuine(probes, requests);
    SensitivityIsMaximum(probes, Ledger(probes, requests), i);
  }

  // ----- What one ingest answers, field by field -----

  ghost predicate Leads(values: seq<TrustClass>, k: nat) {
    k < |values| && forall j :: 0 <= j < k ==> TrustRisk(values[j]) < TrustRisk(values[k])
  }

  // Python's `max` keeps the first of equals.
  lemma {:induction false} WorstIsFirst(values: seq<TrustClass>) returns (k: nat)
    requires values != []
    ensures Leads(values, k) && values[k] == WorstTrust(values)
  {
    hide TrustRisk;
    if |values| == 1 {
      k := 0;
    } else {
      var front := values[..|values| - 1];
      k := WorstIsFirst(front);
      if WorstTrust(values) != front[k] {
        k := |values| - 1;
        assert forall j :: 0 <= j < k ==> values[j] in front;
      }
    }
  }

  predicate IsMiddling(trust: string) {
    trust == "agent_generated" || trust == "verified_external"
  }

  // What the worst-of is taken over: the source, the request, and the parents in order.
  function Candidates(req: Request, parents: seq<Envelope>): seq<TrustClass>
    requires TrustsKnown(parents)
  {
    [DefaultSourceTrust(req.source.kind), DesiredTrust(req)] + ParentTrusts(parents)
  }

  // Below the floors, the class is the worst of the candidates.
  lemma UnflooredIsWorst(probes: seq<Probe>, req: Request, parents: seq<Envelope>, env: Envelope)
    returns (t: TrustClass)
    requires Ingested(probes, req, parents) == Ok(env)
    ensures TrustsKnown(parents)
    ensures env.trust == TrustName(t) && (TrustRisk(t) < 3 ==> t == WorstTrust(Candidates(req, parents)))
  {
    hide SortedFindings, SortedStrings, AllFindings, AllTaint, ParseTrust, TrustName, WorstTrust, Ids;
    hide ParentSensitivity, DefaultSourceTrust, DesiredTrust, ParentTrusts;
    t := EffectiveTrust(req, parents, AllFindings(probes, req, parents), AllTaint(probes, req, parents));
    var worst := WorstTrust(Candidates(req, parents));
    assert [worst, Suspicious][1] in [worst, Suspicious];
  }

  // Two classes share a step of the scale twice; the source, the request and then the parents in
  // order decide which of the two an envelope is given.
  lemma EqualRisksGoToTheFirst(probes: seq<Probe>, req: Request, parents: seq<Envelope>, env: Envelope)
    requires Ingested(probes, req, parents) == Ok(env)
    ensures env.trust == "trusted_owner" ==> req.source.kind == "owner_input"
    ensures env.trust == "trusted_control_plane" ==> req.source.kind != "owner_input"
    ensures IsMiddling(env.trust) ==>
              if req.source.kind == "subagent_output" || req.requestedTrust == Some(AgentGenerated) then
                env.trust == "agent_generated"
              else if req.requestedTrust == Some(VerifiedExternal) then env.trust == "verified_external"
              else ComesFromFirst(env.trust, parents)
  {
    hide Ingested, WorstTrust, ParseTrust, TrustName, Candidates, IsMiddling, ComesFromFirst;
    var t := UnflooredIsWorst(probes, req, parents, env);
    NamesAreRisks(t);
    if TrustRisk(t) < 3 {
      var k := WorstIsFirst(Candidates(req, parents));
      CandidatesAre(req, parents);
      if 2 <= k { ParentsLead(req, parents, k - 2); }
    }
  }

  lemma CandidatesAre(req: Request, parents: seq<Envelope>)
    requires TrustsKnown(parents)
    ensures |Candidates(req, parents)| == 2 + |parents|
    ensures Candidates(req, parents)[0] == DefaultSourceTrust(req.source.kind)
    ensures Candidates(req, parents)[1] == DesiredTrust(req)
    ensures forall j :: 0 <= j < |parents| ==> Candidates(req, parents)[j + 2] == ParseTrust(parents[j].trust).value
  {
    hide ParseTrust;
  }

  // The first parent on a middling step has this very class.
  ghost predicate ComesFromFirst(trust: string, parents: seq<Envelope>) {
    exists k :: 0 <= k < |parents| && parents[k].trust == trust
             && forall j :: 0 <= j < k ==> !IsMiddling(parents[j].trust)
  }

  lemma ParentsLead(req: Request, parents: seq<Envelope>, k: nat)
    requires TrustsKnown(parents) && k < |parents| && Leads(Candidates(req, parents), k + 2)
    requires TrustRisk(Candidates(req, parents)[k + 2]) == 2
    ensures ComesFromFirst(TrustName(Candidates(req, parents)[k + 2]), parents)
  {
    hide ParseTrust, TrustName, Candidates, TrustRisk, IsMiddling;
    CandidatesAre(req, parents);
    NameOfParsed(parents[k].trust);
    forall j | 0 <= j < k ensures !IsMiddling(parents[j].trust) {
      NameOfParsed(parents[j].trust);
      assert Candidates(req, parents)[j + 2] == ParseTrust(parents[j].trust).value;
    }
  }

  lemma NamesAreRisks(t: TrustClass)
    ensures TrustName(t) == "trusted_owner" <==> t == TrustedOwner
    ensures TrustName(t) == "trusted_control_plane" <==> t == TrustedControlPlane
    ensures TrustName(t) == "agent_generated" <==> t == AgentGenerated
    ensures TrustName(t) == "verified_external" <==> t == VerifiedExternal
    ensures IsMiddling(TrustName(t)) <==> TrustRisk(t) == 2
    ensures TrustName(t) == "trusted_owner" || TrustName(t) == "trusted_control_plane" <==> TrustRisk(t) == 0
  {
    hide ParseTrust;
    TrustNamesParse(t);
    TrustNamesParse(TrustedOwner);
    TrustNamesParse(TrustedControlPlane);
    TrustNamesParse(AgentGenerated);
    TrustNamesParse(VerifiedExternal);
  }

  lemma NameOfParsed(name: string)
    requires ParseTrust(name).Some?
    ensures TrustName(ParseTrust(name).value) == name
    ensures IsMiddling(name) <==> TrustRisk(ParseTrust(name).value) == 2
  {
    var t := ParseTrust(name).value;
    assert TrustName(t) == name;
    NamesAreRisks(t);
  }

  // ----- Which requests a ledger takes -----

  predicate Distinct(ids: seq<string>) {
    forall i, j :: 0 <= i < j < |ids| ==> ids[i] != ids[j]
  }

  ghost predicate Holds(ledger: seq<Entry>, id: string) {
    exists j :: 0 <= j < |ledger| && ledger[j].env.envelopeId == id
  }

  ghost predicate Loadable(ledger: seq<Entry>, ids: seq<string>) {
    Distinct(ids) && forall i :: 0 <= i < |ids| ==> Holds(ledger, ids[i])
  }

  ghost predicate Readable(req: Request) {
    req.content.bytes <= 2097152 && req.content.text.Some?
  }

  // Some parent asked for belongs to another project.
  ghost predicate Crosses(ledger: seq<Entry>, req: Request) {
    exists j :: 0 <= j < |ledger| && ledger[j].env.envelopeId in req.parentIds
             && ledger[j].env.projectId != req.projectId
  }

  ghost predicate Taken(ledger: seq<Entry>, req: Request) {
    && Loadable(ledger, req.parentIds) && Readable(req) && !Crosses(ledger, req)
    && !Holds(ledger, req.envelopeId)
  }

  lemma FoundIsHeld(ledger: seq<Entry>, id: string)
    ensures FindEnvelope(ledger, id).Some? <==> Holds(ledger, id)
  {
    FindsEnvelope(ledger, id);
  }

  // The loaded parents are the entries asked for, and all of one project unless the request crosses.
  lemma LoadedAre(probes: seq<Probe>, ledger: seq<Entry>, req: Request)
    requires Genuine(probes, ledger)
    ensures TrustEnvelopes(ledger, req.parentIds) == Err(DuplicateParent) <==> !Distinct(req.parentIds)
    ensures TrustEnvelopes(ledger, req.parentIds) == Err(UnknownParent)
       <==> Distinct(req.parentIds) && !Loadable(ledger, req.parentIds)
    ensures TrustEnvelopes(ledger, req.parentIds).Ok? <==> Loadable(ledger, req.parentIds)
  {
    hide Genuine, FindEnvelope, Holds;
    forall i | 0 <= i < |req.parentIds|
      ensures FindEnvelope(ledger, req.parentIds[i]).Some? <==> Holds(ledger, req.parentIds[i])
    {
      FoundIsHeld(ledger, req.parentIds[i]);
    }
  }

  lemma ParentsAreEntries(probes: seq<Probe>, ledger: seq<Entry>, req: Request, parents: seq<Envelope>)
    requires Genuine(probes, ledger) && TrustEnvelopes(ledger, req.parentIds) == Ok(parents)
    ensures Ids(parents) == req.parentIds && TrustsKnown(parents)
    ensures (exists i :: 0 <= i < |parents| && parents[i].projectId != req.projectId) <==> Crosses(ledger, req)
  {
    hide Submit, ParseTrust, FindEnvelope, Genuine;
    var ids := req.parentIds;
    forall i | 0 <= i < |ids|
      ensures ParseTrust(parents[i].trust).Some?
      ensures exists j: nat :: IsEntry(ledger, j, parents[i]) && parents[i].envelopeId == ids[i]
    {
      var j := EntryOf(ledger, ids[i]);
      GenuineTrustParses(probes, ledger, j);
    }
    if j :| 0 <= j < |ledger| && ledger[j].env.envelopeId in ids && ledger[j].env.projectId != req.projectId {
      var i :| 0 <= i < |ids| && ids[i] == ledger[j].env.envelopeId;
      var k: nat :| IsEntry(ledger, k, parents[i]) && parents[i].envelopeId == ids[i];
      SameEntry(probes, ledger, j, k);
    }
    if i :| 0 <= i < |parents| && parents[i].projectId != req.projectId {
      var k: nat :| IsEntry(ledger, k, parents[i]) && parents[i].envelopeId == ids[i];
    }
  }

  predicate IsEntry(ledger: seq<Entry>, j: nat, env: Envelope) {
    j < |ledger| && ledger[j].env == env
  }

  lemma EntryOf(ledger: seq<Entry>, id: string) returns (j: nat)
    requires FindEnvelope(ledger, id).Some?
    ensures IsEntry(ledger, j, FoundEnvelope(ledger, id)) && FoundEnvelope(ledger, id).envelopeId == id
  {
    FindsEnvelope(ledger, id);
    j := FindEnvelope(ledger, id).value;
  }

  lemma SameEntry(probes: seq<Probe>, ledger: seq<Entry>, j: nat, k: nat)
    requires Genuine(probes, ledger) && j < |ledger| && k < |ledger|
    requires ledger[j].env.envelopeId == ledger[k].env.envelopeId
    ensures j == k
  {
    hide Submit;
  }

  // Which requests are refused, and with what; the first failing check names the error.
  lemma AnswersExactly(probes: seq<Probe>, ledger: seq<Entry>, req: Request)
    requires Genuine(probes, ledger)
    ensures var answer, ids := Submit(probes, ledger, req), req.parentIds;
            && (answer == Err(DuplicateParent) <==> !Distinct(ids))
            && (answer == Err(UnknownParent) <==> Distinct(ids) && !Loadable(ledger, ids))
            && (answer == Err(TooLarge) <==> Loadable(ledger, ids) && req.content.bytes > 2097152)
            && (answer == Err(NotUtf8)
                <==> Loadable(ledger, ids) && req.content.bytes <= 2097152 && req.content.text.None?)
            && (answer == Err(CrossProject) <==> Loadable(ledger, ids) && Readable(req) && Crosses(ledger, req))
            && (answer == Err(DuplicateEnvelope)
                <==> Loadable(ledger, ids) && Readable(req) && !Crosses(ledger, req) && Holds(ledger, req.envelopeId))
            && (answer.Ok? <==> Taken(ledger, req))
  {
    hide Genuine, TrustEnvelopes, FindEnvelope, Composed, Distinct, Loadable, Crosses, Holds, TrustsKnown;
    LoadedAre(probes, ledger, req);
    FoundIsHeld(ledger, req.envelopeId);
    var parents := TrustEnvelopes(ledger, req.parentIds);
    if parents.Ok? {
      ParentsAreEntries(probes, ledger, req, parents.value);
    }
  }

  // A taken request is stored at the end of the ledger under its own id and project with the parents
  // it named, its marks in string order and its findings by rule, severity and category.
  lemma LedgerGrowsByTaken(probes: seq<Probe>, requests: seq<Request>, req: Request)
    ensures var ledger, after := Ledger(probes, requests), Ledger(probes, requests + [req]);
            if Taken(ledger, req) then
              && |after| == |ledger| + 1 && after[..|ledger|] == ledger
              && after[|ledger|].req == req && StoredFor(after[|ledger|].env, req)
            else after == ledger
  {
    hide Submit, Taken, StoredFor;
    var ledger := Ledger(probes, requests);
    assert (requests + [req])[..|requests|] == requests;
    LedgersAreGenuine(probes, requests);
    AnswersExactly(probes, ledger, req);
    var answer := Submit(probes, ledger, req);
    if answer.Ok? { AnswerIsStoredFor(probes, ledger, req); }
  }

  ghost predicate StoredFor(env: Envelope, req: Request) {
    && env.envelopeId == req.envelopeId && env.projectId == req.projectId && env.parentRefs == req.parentIds
    && (forall i, j :: 0 <= i < j < |env.taint| ==> Precedes(env.taint[i], env.taint[j]))
    && (forall i, j :: 0 <= i < j < |env.findings| ==>
            var f, g := env.findings[i], env.findings[j];
            if f.ruleId != g.ruleId then Precedes(f.ruleId, g.ruleId)
            else if f.severity != g.severity then Precedes(f.severity, g.severity)
            else Precedes(f.category, g.category))
  }

  lemma AnswerIsStoredFor(probes: seq<Probe>, ledger: seq<Entry>, req: Request)
    requires Genuine(probes, ledger) && Submit(probes, ledger, req).Ok?
    ensures StoredFor(Submit(probes, ledger, req).value, req)
  {
    hide TrustEnvelopes, FindEnvelope, AllFindings, AllTaint, EffectiveTrust, TrustName, Precedes, ParentSensitivity;
    hide Genuine, TrustsKnown, Ids;
    var parents := TrustEnvelopes(ledger, req.parentIds).value;
    ParentsAreEntries(probes, ledger, req, parents);
    var env := Submit(probes, ledger, req).value;
    assert Ascending(env.taint, Precedes);
    assert Ascending(env.findings, FindingPrecedes);
    PrecedesIsStrictTotal();
    forall i, j | 0 <= i < j < |env.findings|
      ensures var f, g := env.findings[i], env.findings[j];
              if f.ruleId != g.ruleId then Precedes(f.ruleId, g.ruleId)
              else if f.severity != g.severity then Precedes(f.severity, g.severity)
              else Precedes(f.category, g.category)
    {
      assert FindingPrecedes(env.findings[i], env.findings[j]);
    }
  }
}
