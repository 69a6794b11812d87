/** `gate_chain_violations` and `workorder_chain_violations` of v4_integrity.py: one exact chain from the
  Resolution to the WorkOrder. */
module GateChain {
  import opened Wrappers
  import opened ScopeChain
  import GateReport

  type Exact = GateReport.Exact

  /** A binding by identifier and digest. */
  datatype Resource = Resource(id: string, digest: string)

  datatype Context = Context(workspaceId: string, caseId: string)

  /** A place in a repository: what is built on, or what is built. */
  datatype Place = Place(targetRef: string, revision: string, contentDigest: string)

  datatype Criterion = Criterion(verifierKind: string, required: bool, content: string)

  datatype ResolutionRecord = ResolutionRecord(
    id: string, revision: Option<int>, digest: string, context: Context, terms: Resolution, criteria: seq<Criterion>)

  datatype CandidateRecord = CandidateRecord(
    id: string, revision: Option<int>, digest: string, context: Context, resolution: Resource, candidateId: string,
    plannedRevision: Option<int>, base: Place, terms: Candidate)

  datatype RevisionRecord = RevisionRecord(
    id: string, revision: Option<int>, digest: string, context: Context, resolution: Resource, candidate: Resource,
    candidateId: string, base: Place, target: Place, candidateArtifact: string, diffArtifact: string, recordedAt: int)

  datatype PlanRecord = PlanRecord(
    id: string, revision: Option<int>, digest: string, context: Context, resolution: Resource, candidate: Resource,
    plannedRevision: Option<int>, criteriaDigest: string, requiredTracks: seq<string>)

  datatype GateRecord = GateRecord(
    id: string, digest: string, context: Context, resolution: Resource, candidate: Resource, revision: Resource,
    plan: Resource, base: Place, target: Place, diffArtifact: string, report: GateReport.Report)

  datatype WorkTarget = WorkTarget(
    repositoryRef: string, baseRevision: string, baseDigest: string, targetRevision: string, targetDigest: string)

  datatype WorkOrderRecord = WorkOrderRecord(
    context: Context, resolution: Resource, candidate: Resource, revision: Resource, plan: Resource, gate: Resource,
    target: WorkTarget, candidateArtifact: string, diffArtifact: string, terms: WorkOrder)

  /** The records a Gate run is about, and the receipts it is given. */
  datatype Chain = Chain(
    resolution: ResolutionRecord, candidate: CandidateRecord, revision: RevisionRecord, plan: PlanRecord,
    gate: GateRecord, receipts: Option<seq<GateReport.TrackReceipt>>)

  /** The digests of a receipt and of a list of criteria, taken as given. */
  datatype Digests = Digests(
    receipt: GateReport.TrackReceipt -> Option<string>, criteria: seq<Criterion> -> string)

  datatype Violation =
    | InScope(inScope: ScopeChain.Violation)
    | InReport(inReport: GateReport.Violation)
    | CriteriaDigestMismatch
    | CriterionUnmapped
    | ReceiptSubjectMismatch(receipt: string)
    | ReceiptContextMismatch(receipt: string)
    | ReceiptTimeline(receipt: string)
    | GateBindingMismatch(record: string)
    | GateContextMismatch
    | ContractChainMismatch
    | CandidateBaseMismatch
    | BaseMismatch
    | TargetMismatch
    | DiffArtifactMismatch
    | StartedBeforeCandidate
    | WorkOrderBindingMismatch(record: string)
    | WorkOrderContextMismatch
    | ScopeExceedsCandidate(surface: string)
    | ForbiddenPathRequested
    | RiskDowngrade
    | HighRiskNeedsHuman
    | InvalidExpiry
    | CreatedBeforeGate
    | TargetChainMismatch
    | CandidateArtifactMismatch
    | WorkOrderDiffMismatch
    | GateNotPass

  // ---------- evaluation_plan_violations ----------

  function Required(criteria: seq<Criterion>): seq<Criterion> {
    if criteria == [] then []
    else (if criteria[0].required then [criteria[0]] else []) + Required(criteria[1..])
  }

  function Verifiers(criteria: seq<Criterion>): set<string> {
    set c | c in criteria && c.required :: c.verifierKind
  }

  ghost predicate PlanCovers(digests: Digests, plan: PlanRecord, resolution: ResolutionRecord) {
    && plan.criteriaDigest == digests.criteria(Required(resolution.criteria))
    && forall c | c in resolution.criteria && c.required :: c.verifierKind in plan.requiredTracks
  }

  method PlanViolations(digests: Digests, plan: PlanRecord, resolution: ResolutionRecord) returns (v: seq<Violation>)
    ensures v == [] <==> PlanCovers(digests, plan, resolution)
  {
    v := [];
    if plan.criteriaDigest != digests.criteria(Required(resolution.criteria)) {
      v := v + [CriteriaDigestMismatch];
    }
    var required, tracks := Verifiers(resolution.criteria), GateReport.Elements(plan.requiredTracks);
    if !(required <= tracks) {
      v := v + [CriterionUnmapped];
    }
    forall c | c in resolution.criteria && c.required ensures c.verifierKind in required {
    }
    assert required <= tracks ==> forall c | c in resolution.criteria && c.required :: c.verifierKind in tracks;
  }

  // ---------- gate_track_receipt_violations ----------

  function SubjectOf(ch: Chain): GateReport.Subject {
    var r, c, v, p := ch.resolution, ch.candidate, ch.revision, ch.plan;
    GateReport.Subject(
      GateReport.Exact("RESOLUTION_CONTRACT", r.id, r.revision, r.digest),
      GateReport.Exact("CANDIDATE_CONTRACT", c.id, c.revision, c.digest),
      GateReport.Exact("CANDIDATE_REVISION", v.id, v.revision, v.digest),
      GateReport.Exact("EVALUATION_PLAN", p.id, p.revision, p.digest), r.context.workspaceId, r.context.caseId)
  }

  /** A receipt about exactly these records. */
  predicate ReceiptFits(ch: Chain, r: GateReport.TrackReceipt) {
    r.subject == SubjectOf(ch) && r.startedAt <= r.completedAt
  }

  predicate Referenced(report: GateReport.Report, r: GateReport.TrackReceipt) {
    exists b | b in report.trackReceipts :: b.receipt.id == r.id
  }

  ghost predicate ReceiptsFit(ch: Chain) {
    ch.receipts.Some? ==> forall r | r in ch.receipts.value && Referenced(ch.gate.report, r) :: ReceiptFits(ch, r)
  }

  method ReceiptsViolations(ch: Chain) returns (v: seq<Violation>)
    ensures v == [] <==> ReceiptsFit(ch)
  {
    hide ReceiptFits;
    hide Referenced;
    v := [];
    if ch.receipts.None? {
      return;
    }
    var rs := ch.receipts.value;
    for k := 0 to |rs|
      invariant v == [] <==> forall i | 0 <= i < k && Referenced(ch.gate.report, rs[i]) :: ReceiptFits(ch, rs[i])
    {
      if Referenced(ch.gate.report, rs[k]) {
        var found := ReceiptViolations(ch, rs[k]);
        v := v + found;
      }
    }
  }

  method ReceiptViolations(ch: Chain, r: GateReport.TrackReceipt) returns (v: seq<Violation>)
    ensures v == [] <==> ReceiptFits(ch, r)
  {
    v := [];
    var s, expected := r.subject, SubjectOf(ch);
    if s.resolution != expected.resolution || s.candidate != expected.candidate || s.revision != expected.revision
       || s.plan != expected.plan {
      v := v + [ReceiptSubjectMismatch(r.id)];
    }
    if s.workspaceId != expected.workspaceId || s.caseId != expected.caseId {
      v := v + [ReceiptContextMismatch(r.id)];
    }
    if r.startedAt > r.completedAt {
      v := v + [ReceiptTimeline(r.id)];
    }
  }

  // ---------- gate_chain_violations ----------

  predicate GateBinds(ch: Chain) {
    && ch.gate.resolution == Resource(ch.resolution.id, ch.resolution.digest)
    && ch.gate.candidate == Resource(ch.candidate.id, ch.candidate.digest)
    && ch.gate.revision == Resource(ch.revision.id, ch.revision.digest)
    && ch.gate.plan == Resource(ch.plan.id, ch.plan.digest)
  }

  predicate GateContext(ch: Chain) {
    ch.gate.context == ch.resolution.context == ch.candidate.context == ch.revision.context == ch.plan.context
  }

  /** Candidate, revision and plan point at each other as the report says. */
  predicate ContractsLinked(ch: Chain) {
    && ch.candidate.resolution == ch.gate.resolution && ch.revision.resolution == ch.gate.resolution
    && ch.revision.candidate == ch.gate.candidate
    && ch.plan.resolution == ch.gate.resolution && ch.plan.candidate == ch.gate.candidate
    && ch.plan.plannedRevision == ch.candidate.plannedRevision
    && ch.revision.candidateId == ch.candidate.candidateId && ch.revision.revision == ch.candidate.plannedRevision
  }

  predicate BuiltAsPlanned(ch: Chain) {
    && ch.revision.base == ch.candidate.base && ch.gate.base == ch.revision.base && ch.gate.target == ch.revision.target
    && ch.gate.diffArtifact == ch.revision.diffArtifact
    && ch.revision.recordedAt <= ch.gate.report.startedAt
  }

  ghost predicate ReportAccepted(digests: Digests, ch: Chain) {
    GateReport.Accepted(digests.receipt, ch.gate.report, Some(ch.plan.requiredTracks), ch.receipts)
  }

  ghost predicate GateChainAccepted(digests: Digests, ch: Chain) {
    && CandidateAccepted(ch.candidate.terms, ch.resolution.terms)
    && PlanCovers(digests, ch.plan, ch.resolution)
    && ReportAccepted(digests, ch) && ReceiptsFit(ch)
    && GateBinds(ch) && GateContext(ch) && ContractsLinked(ch) && BuiltAsPlanned(ch)
  }

  method GateChainViolations(digests: Digests, ch: Chain) returns (v: seq<Violation>)
    ensures v == [] <==> GateChainAccepted(digests, ch)
  {
    hide CandidateAccepted;
    hide PlanCovers;
    hide GateReport.Accepted;
    hide ReceiptsFit;
    hide GateBinds;
    hide GateContext;
    hide ContractsLinked;
    hide BuiltAsPlanned;
    var scope := CandidateScopeViolations(ch.candidate.terms, ch.resolution.terms);
    var plan := PlanViolations(digests, ch.plan, ch.resolution);
    var report := GateReport.GateReportViolations(digests.receipt, ch.gate.report, Some(ch.plan.requiredTracks),
                                                  ch.receipts);
    var receipts := ReceiptsViolations(ch);
    var bindings := GateBindingViolations(ch);
    var links := LinkViolations(ch);
    v := (seq(|scope|, i requires 0 <= i < |scope| => InScope(scope[i]))) + plan
       + (seq(|report|, i requires 0 <= i < |report| => InReport(report[i]))) + receipts + bindings + links;
  }

  method GateBindingViolations(ch: Chain) returns (v: seq<Violation>)
    ensures v == [] <==> GateBinds(ch) && GateContext(ch)
  {
    var comparisons := [
      ("resolution_contract", ch.gate.resolution, Resource(ch.resolution.id, ch.resolution.digest)),
      ("candidate_contract", ch.gate.candidate, Resource(ch.candidate.id, ch.candidate.digest)),
      ("candidate_revision", ch.gate.revision, Resource(ch.revision.id, ch.revision.digest)),
      ("evaluation_plan", ch.gate.plan, Resource(ch.plan.id, ch.plan.digest)) ];
    v := [];
    for k := 0 to |comparisons|
      invariant v == [] <==> forall i | 0 <= i < k :: comparisons[i].1 == comparisons[i].2
    {
      if comparisons[k].1 != comparisons[k].2 {
        v := v + [GateBindingMismatch(comparisons[k].0)];
      }
    }
    assert comparisons[0].1 == ch.gate.resolution && comparisons[1].1 == ch.gate.candidate;
    assert comparisons[2].1 == ch.gate.revision && comparisons[3].1 == ch.gate.plan;
    if !GateContext(ch) {
      v := v + [GateContextMismatch];
    }
  }

  method LinkViolations(ch: Chain) returns (v: seq<Violation>)
    ensures v == [] <==> ContractsLinked(ch) && BuiltAsPlanned(ch)
  {
    v := [];
    if !ContractsLinked(ch) {
      v := v + [ContractChainMismatch];
    }
    if ch.revision.base != ch.candidate.base {
      v := v + [CandidateBaseMismatch];
    }
    if ch.gate.base != ch.revision.base {
      v := v + [BaseMismatch];
    }
    if ch.gate.target != ch.revision.target {
      v := v + [TargetMismatch];
    }
    if ch.gate.diffArtifact != ch.revision.diffArtifact {
      v := v + [DiffArtifactMismatch];
    }
    if ch.gate.report.startedAt < ch.revision.recordedAt {
      v := v + [StartedBeforeCandidate];
    }
  }

  // ---------- workorder_chain_violations ----------

  predicate WorkOrderBinds(w: WorkOrderRecord, ch: Chain) {
    && w.resolution == Resource(ch.resolution.id, ch.resolution.digest)
    && w.candidate == Resource(ch.candidate.id, ch.candidate.digest)
    && w.revision == Resource(ch.revision.id, ch.revision.digest)
    && w.plan == Resource(ch.plan.id, ch.plan.digest)
    && w.gate == Resource(ch.gate.id, ch.gate.digest)
  }

  predicate WorkOrderContext(w: WorkOrderRecord, ch: Chain) {
    w.context == ch.resolution.context == ch.candidate.context == ch.revision.context == ch.gate.context
  }

  /** The WorkOrder builds what the revision built, on the base the candidate named. */
  predicate WorkOrderBuilds(w: WorkOrderRecord, ch: Chain) {
    && w.target.repositoryRef == ch.candidate.base.targetRef == ch.revision.target.targetRef
    && w.target.baseRevision == ch.candidate.base.revision && w.target.baseDigest == ch.candidate.base.contentDigest
    && w.target.targetRevision == ch.revision.target.revision
       && w.target.targetDigest == ch.revision.target.contentDigest
    && w.candidateArtifact == ch.revision.candidateArtifact && w.diffArtifact == ch.revision.diffArtifact
  }

  ghost predicate TermsAccepted(w: WorkOrder, ch: Chain) {
    && AvoidsPaths(w.scope, ch.candidate.terms.forbiddenPaths)
    && RiskRank(ch.resolution.terms.riskClass, 4) <= RiskRank(w.riskClass, -1)
    && (w.riskClass in ["R2_HIGH_IMPACT", "R3_IRREVERSIBLE"] ==> w.requiredAuthorization == "HUMAN_APPROVAL")
    && ch.gate.report.completedAt <= w.createdAt < w.expiresAt
    && w.gateStatus == "PASS" && ch.gate.report.status == "PASS"
  }

  ghost predicate ChainAccepted(digests: Digests, w: WorkOrderRecord, ch: Chain) {
    && GateChainAccepted(digests, ch)
    && WorkOrderBinds(w, ch) && WorkOrderContext(w, ch) && WorkOrderBuilds(w, ch)
    && Within(w.terms.scope, ch.candidate.terms.scope) && TermsAccepted(w.terms, ch)
  }

  method WorkorderChainViolations(digests: Digests, w: WorkOrderRecord, ch: Chain) returns (v: seq<Violation>)
    ensures v == [] <==> ChainAccepted(digests, w, ch)
  {
    hide GateChainAccepted;
    hide WorkOrderBinds;
    hide WorkOrderContext;
    hide WorkOrderBuilds;
    hide Within;
    hide TermsAccepted;
    hide Exceeds;
    var gate := GateChainViolations(digests, ch);
    var bindings := WorkOrderBindingViolations(w, ch);
    var wide := SubsetViolations(w.terms.scope, ch.candidate.terms.scope);
    var terms := TermsViolations(w.terms, ch);
    var built := BuildViolations(w, ch);
    v := gate + bindings + (seq(|wide|, i requires 0 <= i < |wide| => ScopeExceedsCandidate(wide[i]))) + terms + built;
  }

  method WorkOrderBindingViolations(w: WorkOrderRecord, ch: Chain) returns (v: seq<Violation>)
    ensures v == [] <==> WorkOrderBinds(w, ch) && WorkOrderContext(w, ch)
  {
    var comparisons := [
      ("resolution_contract", w.resolution, Resource(ch.resolution.id, ch.resolution.digest)),
      ("candidate_contract", w.candidate, Resource(ch.candidate.id, ch.candidate.digest)),
      ("candidate_revision", w.revision, Resource(ch.revision.id, ch.revision.digest)),
      ("evaluation_plan", w.plan, Resource(ch.plan.id, ch.plan.digest)),
      ("gate_report", w.gate, Resource(ch.gate.id, ch.gate.digest)) ];
    v := [];
    for k := 0 to |comparisons|
      invariant v == [] <==> forall i | 0 <= i < k :: comparisons[i].1 == comparisons[i].2
    {
      if comparisons[k].1 != comparisons[k].2 {
        v := v + [WorkOrderBindingMismatch(comparisons[k].0)];
      }
    }
    assert comparisons[0].1 == w.resolution && comparisons[1].1 == w.candidate && comparisons[2].1 == w.revision;
    assert comparisons[3].1 == w.plan && comparisons[4].1 == w.gate;
    if !WorkOrderContext(w, ch) {
      v := v + [WorkOrderContextMismatch];
    }
  }

  method TermsViolations(w: WorkOrder, ch: Chain) returns (v: seq<Violation>)
    ensures v == [] <==> TermsAccepted(w, ch)
    ensures ForbiddenPathRequested in v <==>
              exists item | Has(w.scope, "files", item) :: !Clear(item.path, ch.candidate.terms.forbiddenPaths)
  {
    ClearExactly(w.scope, ch.candidate.terms.forbiddenPaths);
    v := [];
    var files := On(w.scope, "files");
    if exists item | item in files :: PathIsForbidden(item.path, ch.candidate.terms.forbiddenPaths) {
      v := v + [ForbiddenPathRequested];
    }
    if RiskRank(w.riskClass, -1) < RiskRank(ch.resolution.terms.riskClass, 4) {
      v := v + [RiskDowngrade];
    }
    if w.riskClass in ["R2_HIGH_IMPACT", "R3_IRREVERSIBLE"] && w.requiredAuthorization != "HUMAN_APPROVAL" {
      v := v + [HighRiskNeedsHuman];
    }
    if w.createdAt >= w.expiresAt {
      v := v + [InvalidExpiry];
    }
    if w.createdAt < ch.gate.report.completedAt {
      v := v + [CreatedBeforeGate];
    }
    if w.gateStatus != "PASS" || ch.gate.report.status != "PASS" {
      v := v + [GateNotPass];
    }
  }

  method BuildViolations(w: WorkOrderRecord, ch: Chain) returns (v: seq<Violation>)
    ensures v == [] <==> WorkOrderBuilds(w, ch)
  {
    v := [];
    var base, built := ch.candidate.base, ch.revision.target;
    if w.target.repositoryRef != base.targetRef || w.target.baseRevision != base.revision
       || w.target.baseDigest != base.contentDigest || w.target.repositoryRef != built.targetRef
       || w.target.targetRevision != built.revision || w.target.targetDigest != built.contentDigest {
      v := v + [TargetChainMismatch];
    }
    if w.candidateArtifact != ch.revision.candidateArtifact {
      v := v + [CandidateArtifactMismatch];
    }
    if w.diffArtifact != ch.revision.diffArtifact {
      v := v + [WorkOrderDiffMismatch];
    }
  }

  // ---------- end to end ----------

  /** What the terms of an accepted WorkOrder are. */
  lemma TermsAcceptedExactly(w: WorkOrder, ch: Chain)
    ensures TermsAccepted(w, ch) <==>
            && (forall item | Has(w.scope, "files", item) :: Clear(item.path, ch.candidate.terms.forbiddenPaths))
            && RiskKept(ch.resolution.terms.riskClass, w.riskClass)
            && (w.riskClass == "R2_HIGH_IMPACT" || w.riskClass == "R3_IRREVERSIBLE" ==>
                w.requiredAuthorization == "HUMAN_APPROVAL")
            && ch.gate.report.completedAt <= w.createdAt && w.createdAt < w.expiresAt
            && w.gateStatus == "PASS" && ch.gate.report.status == "PASS"
  {
    ClearExactly(w.scope, ch.candidate.terms.forbiddenPaths);
    RiskExactly(ch.resolution.terms.riskClass, w.riskClass);
    hide AvoidsPaths;
    hide Clear;
    hide RiskRank;
    hide RiskKept;
  }

  /** No file is one of the forbidden entries or lies below one that names a directory. */
  ghost predicate KeepsClear(scope: Scope, forbidden: seq<string>) {
    forall item, f | Has(scope, "files", item) && f in forbidden ::
      item.path != f && !(f != "" && f[|f| - 1] == '/' && f <= item.path)
  }

  /** Every item of an accepted WorkOrder is allowed by the Candidate and by the Resolution; no surface it uses is
    under a forbidden category; no file of it or of the Candidate is a forbidden path or below a forbidden
    directory; its risk is no lower than the Resolution's, and a high-risk Resolution means a human approves. */
  lemma ContainedEndToEnd(digests: Digests, w: WorkOrderRecord, ch: Chain)
    requires ChainAccepted(digests, w, ch)
    ensures Contained(w.terms.scope, ch.candidate.terms.scope) && Contained(w.terms.scope, ch.resolution.terms.scope)
    ensures var forbidden := ch.resolution.terms.forbiddenActions;
            && ("PROCESS_EXECUTION" in forbidden ==> Empty(w.terms.scope, "processes"))
            && ("NETWORK_ACCESS" in forbidden ==> Empty(w.terms.scope, "network"))
            && ("MCP_TOOL_CALL" in forbidden ==> Empty(w.terms.scope, "mcp_tools"))
            && ("CLOUD_ACTION" in forbidden ==> Empty(w.terms.scope, "cloud_actions"))
            && ("SECRET_ACCESS" in forbidden ==> Empty(w.terms.scope, "secret_refs"))
    ensures KeepsClear(w.terms.scope, ch.candidate.terms.forbiddenPaths)
    ensures KeepsClear(ch.candidate.terms.scope, ch.candidate.terms.forbiddenPaths)
    ensures RiskKept(ch.resolution.terms.riskClass, w.terms.riskClass)
    ensures ch.resolution.terms.riskClass in ["R2_HIGH_IMPACT", "R3_IRREVERSIBLE"]
            ==> w.terms.requiredAuthorization == "HUMAN_APPROVAL"
  {
    hide *;
    AcceptedParts(digests, w, ch);
    CandidateAcceptedExactly(ch.candidate.terms, ch.resolution.terms);
    TermsAcceptedExactly(w.terms, ch);
    WithinExactly(w.terms.scope, ch.candidate.terms.scope);
    ContainedTransitive(w.terms.scope, ch.candidate.terms.scope, ch.resolution.terms.scope);
    CategoriesInside(w.terms.scope, ch.candidate.terms.scope, ch.resolution.terms.forbiddenActions);
    ClearKept(w.terms.scope, ch.candidate.terms.forbiddenPaths);
    ClearKept(ch.candidate.terms.scope, ch.candidate.terms.forbiddenPaths);
    if ch.resolution.terms.riskClass in ["R2_HIGH_IMPACT", "R3_IRREVERSIBLE"] {
      HighRiskKept(ch.resolution.terms.riskClass, w.terms.riskClass);
    }
  }

  lemma ClearKept(scope: Scope, forbidden: seq<string>)
    requires forall item | Has(scope, "files", item) :: Clear(item.path, forbidden)
    ensures KeepsClear(scope, forbidden)
  {
    hide Has;
  }

  lemma CategoriesInside(inner: Scope, outer: Scope, forbidden: set<string>)
    requires Contained(inner, outer) && CategoriesKept(outer, forbidden)
    ensures "PROCESS_EXECUTION" in forbidden ==> Empty(inner, "processes")
    ensures "NETWORK_ACCESS" in forbidden ==> Empty(inner, "network")
    ensures "MCP_TOOL_CALL" in forbidden ==> Empty(inner, "mcp_tools")
    ensures "CLOUD_ACTION" in forbidden ==> Empty(inner, "cloud_actions")
    ensures "SECRET_ACCESS" in forbidden ==> Empty(inner, "secret_refs")
  {
    hide Contained;
    hide Empty;
    EmptyInside(inner, outer, "processes");
    EmptyInside(inner, outer, "network");
    EmptyInside(inner, outer, "mcp_tools");
    EmptyInside(inner, outer, "cloud_actions");
    EmptyInside(inner, outer, "secret_refs");
  }

  lemma AcceptedParts(digests: Digests, w: WorkOrderRecord, ch: Chain)
    requires ChainAccepted(digests, w, ch)
    ensures CandidateAccepted(ch.candidate.terms, ch.resolution.terms) && TermsAccepted(w.terms, ch)
    ensures Within(w.terms.scope, ch.candidate.terms.scope)
  {
  }

  lemma HighRiskKept(resolution: string, workorder: string)
    requires RiskKept(resolution, workorder) && resolution in ["R2_HIGH_IMPACT", "R3_IRREVERSIBLE"]
    ensures workorder == "R2_HIGH_IMPACT" || workorder == "R3_IRREVERSIBLE"
  {
    var r0, r1, r2, r3 := "R0_READ_ONLY", "R1_REVERSIBLE", "R2_HIGH_IMPACT", "R3_IRREVERSIBLE";
    assert r0[1] == '0' && r1[1] == '1' && r2[1] == '2' && r3[1] == '3';
  }

  lemma ContainedTransitive(a: Scope, b: Scope, c: Scope)
    requires Contained(a, b) && Contained(b, c)
    ensures Contained(a, c)
  {
    forall surface, item | surface in ["files", "processes", "network", "mcp_tools", "cloud_actions", "secret_refs"]
      && Has(a, surface, item) ensures Allows(c, surface, item)
    {
      assert Allows(b, surface, item);
      var other :| Has(b, surface, other) && other.canonical == item.canonical;
      assert Allows(c, surface, other);
    }
  }

  lemma EmptyInside(inner: Scope, outer: Scope, surface: string)
    requires Contained(inner, outer) && surface in ["processes", "network", "mcp_tools", "cloud_actions", "secret_refs"]
    ensures Empty(outer, surface) ==> Empty(inner, surface)
  {
    if !Empty(inner, surface) {
      var item :| Has(inner, surface, item);
      assert Allows(outer, surface, item);
    }
  }

  /** When one canonical form means one item, a WorkOrder's cloud actions are Candidate items themselves, so
    no repository action the Resolution forbids is among them. */
  lemma NoForbiddenRepositoryAction(digests: Digests, w: WorkOrderRecord, ch: Chain, item: Item)
    requires ChainAccepted(digests, w, ch) && Has(w.terms.scope, "cloud_actions", item)
    requires forall other | Has(ch.candidate.terms.scope, "cloud_actions", other) ::
               other.canonical == item.canonical ==> other == item
    ensures Has(ch.candidate.terms.scope, "cloud_actions", item)
    ensures item.action !in ch.resolution.terms.forbiddenActions
  {
    AcceptedParts(digests, w, ch);
    CandidateAcceptedExactly(ch.candidate.terms, ch.resolution.terms);
    WithinExactly(w.terms.scope, ch.candidate.terms.scope);
    hide CandidateAccepted;
    hide Within;
    hide ChainAccepted;
    assert Allows(ch.candidate.terms.scope, "cloud_actions", item);
  }

  ghost predicate AboutRecords(s: GateReport.Subject, ch: Chain) {
    && s.resolution.kind == "RESOLUTION_CONTRACT" && s.resolution.id == ch.resolution.id
    && s.resolution.revision == ch.resolution.revision && s.resolution.digest == ch.resolution.digest
    && s.candidate.kind == "CANDIDATE_CONTRACT" && s.candidate.id == ch.candidate.id
    && s.candidate.revision == ch.candidate.revision && s.candidate.digest == ch.candidate.digest
    && s.revision.kind == "CANDIDATE_REVISION" && s.revision.id == ch.revision.id
    && s.revision.revision == ch.revision.revision && s.revision.digest == ch.revision.digest
    && s.plan.kind == "EVALUATION_PLAN" && s.plan.id == ch.plan.id
    && s.plan.revision == ch.plan.revision && s.plan.digest == ch.plan.digest
    && s.workspaceId == ch.resolution.context.workspaceId && s.caseId == ch.resolution.context.caseId
  }

  lemma AboutExactly(s: GateReport.Subject, ch: Chain)
    ensures s == SubjectOf(ch) <==> AboutRecords(s, ch)
  {
  }

  /** Which receipts the check on subjects is about, and what it asks of them. */
  lemma ReceiptsFitExactly(ch: Chain)
    ensures ReceiptsFit(ch) <==>
            (ch.receipts.Some? ==>
               forall r, b | r in ch.receipts.value && b in ch.gate.report.trackReceipts && b.receipt.id == r.id ::
                 AboutRecords(r.subject, ch) && r.startedAt <= r.completedAt)
  {
    hide AboutRecords;
    hide SubjectOf;
    if ch.receipts.Some? {
      forall r | r in ch.receipts.value
        ensures ReceiptFits(ch, r) <==> AboutRecords(r.subject, ch) && r.startedAt <= r.completedAt
      {
        AboutExactly(r.subject, ch);
      }
      hide ReceiptFits;
      forall r, b | r in ch.receipts.value && b in ch.gate.report.trackReceipts && b.receipt.id == r.id
        ensures Referenced(ch.gate.report, r)
      {
      }
    }
  }

  /** The required criteria in order: what the plan's digest is over. */
  lemma {:induction false} RequiredExactly(criteria: seq<Criterion>)
    ensures forall c :: c in Required(criteria) <==> c in criteria && c.required
    ensures (forall c | c in criteria :: c.required) ==> Required(criteria) == criteria
  {
    if criteria != [] {
      RequiredExactly(criteria[1..]);
      assert criteria == [criteria[0]] + criteria[1..];
    }
  }

  /** The receipt behind an acceptance criterion: sound, passed and complete, of the Gate's own execution, about
    exactly the records of the chain, and between the candidate's build and the WorkOrder. */
  ghost predicate Vouches(digests: Digests, w: WorkOrderRecord, ch: Chain, kind: string, r: GateReport.TrackReceipt)
    requires ch.receipts.Some?
  {
    && r in ch.receipts.value && r.track == kind && r.status == "PASS" && r.completeness == "COMPLETE"
    && GateReport.SoundPlainly(digests.receipt, r)
    && r.gateExecutionId == ch.gate.report.gateExecutionId && r.startedAt <= r.completedAt
    && AboutRecords(r.subject, ch)
    && ch.revision.recordedAt <= ch.gate.report.startedAt <= r.completedAt <= ch.gate.report.completedAt
    && r.completedAt <= w.terms.createdAt < w.terms.expiresAt
  }

  /** Behind an accepted WorkOrder every required acceptance criterion has such a receipt for its verifier, and
    criteria with different verifiers have different receipts. */
  lemma EveryCriterionBacked(digests: Digests, w: WorkOrderRecord, ch: Chain)
    returns (backing: map<string, GateReport.TrackReceipt>)
    requires ChainAccepted(digests, w, ch)
    ensures ch.receipts.Some?
    ensures forall c | c in ch.resolution.criteria && c.required ::
              c.verifierKind in backing && Vouches(digests, w, ch, c.verifierKind, backing[c.verifierKind])
    ensures forall k, k' | k in backing && k' in backing && k != k' :: backing[k].id != backing[k'].id
  {
    var report, rs := ch.gate.report, ch.receipts.value;
    TracksOfPlan(digests, ch);
    backing := GateReport.TracksBijectReceipts(digests.receipt, report, Some(ch.plan.requiredTracks), rs);
    forall c | c in ch.resolution.criteria && c.required
      ensures c.verifierKind in backing && Vouches(digests, w, ch, c.verifierKind, backing[c.verifierKind])
    {
      RequiredIsTrack(digests, ch, c);
      BackingVouches(digests, w, ch, c.verifierKind, backing[c.verifierKind]);
    }
  }

  lemma RequiredIsTrack(digests: Digests, ch: Chain, c: Criterion)
    requires PlanCovers(digests, ch.plan, ch.resolution) && c in ch.resolution.criteria && c.required
    ensures c.verifierKind in GateReport.Elements(ch.plan.requiredTracks)
  {
    assert c.verifierKind in ch.plan.requiredTracks;
  }

  lemma BackingVouches(digests: Digests, w: WorkOrderRecord, ch: Chain, kind: string, r: GateReport.TrackReceipt)
    requires ChainAccepted(digests, w, ch) && ch.receipts.Some?
    requires GateReport.Backs(digests.receipt, ch.gate.report, ch.receipts.value, kind, r)
    requires GateReport.PassComplete(r)
    ensures Vouches(digests, w, ch, kind, r)
  {
    TimesOrdered(digests, w, ch);
    BackingFits(digests, ch, kind, r);
    AboutExactly(r.subject, ch);
    GateReport.SoundExactly(digests.receipt, r);
    hide ChainAccepted;
    hide AboutRecords;
    hide SubjectOf;
    hide GateReport.ExactBinding;
    hide GateReport.Sound;
    hide GateReport.SoundPlainly;
  }

  lemma TimesOrdered(digests: Digests, w: WorkOrderRecord, ch: Chain)
    requires ChainAccepted(digests, w, ch)
    ensures GateChainAccepted(digests, ch) && ch.revision.recordedAt <= ch.gate.report.startedAt
    ensures ch.gate.report.completedAt <= w.terms.createdAt < w.terms.expiresAt
  {
    assert BuiltAsPlanned(ch) && TermsAccepted(w.terms, ch);
    hide ReportAccepted;
    hide PlanCovers;
    hide ReceiptsFit;
    hide CandidateAccepted;
    hide Within;
    hide AvoidsPaths;
  }

  lemma BackingFits(digests: Digests, ch: Chain, kind: string, r: GateReport.TrackReceipt)
    requires GateChainAccepted(digests, ch) && ch.receipts.Some?
    requires GateReport.Backs(digests.receipt, ch.gate.report, ch.receipts.value, kind, r)
    ensures r.subject == SubjectOf(ch) && r.startedAt <= r.completedAt
  {
    assert Referenced(ch.gate.report, r);
    assert ReceiptFits(ch, r) by {
      assert ReceiptsFit(ch);
      hide GateChainAccepted;
      hide SubjectOf;
    }
    hide GateChainAccepted;
  }

  lemma TracksOfPlan(digests: Digests, ch: Chain)
    requires ReportAccepted(digests, ch)
    ensures ch.receipts.Some?
    ensures GateReport.Elements(ch.gate.report.requiredTracks) == GateReport.Elements(ch.plan.requiredTracks)
  {
  }

  /** All records share one workspace and Case and name each other by the same identifier and digest, and what
    the WorkOrder builds is what the Gate judged, on the base the Candidate planned. */
  ghost predicate SubjectKept(w: WorkOrderRecord, ch: Chain) {
    && w.context == ch.gate.context == ch.plan.context == ch.revision.context == ch.candidate.context
       == ch.resolution.context
    && w.resolution == ch.gate.resolution == ch.plan.resolution == ch.revision.resolution == ch.candidate.resolution
    && w.candidate == ch.gate.candidate == ch.plan.candidate == ch.revision.candidate
    && w.revision == ch.gate.revision && w.plan == ch.gate.plan
    && w.resolution == Resource(ch.resolution.id, ch.resolution.digest)
    && w.candidate == Resource(ch.candidate.id, ch.candidate.digest)
    && w.revision == Resource(ch.revision.id, ch.revision.digest)
    && w.plan == Resource(ch.plan.id, ch.plan.digest) && w.gate == Resource(ch.gate.id, ch.gate.digest)
    && ch.revision.candidateId == ch.candidate.candidateId
    && ch.revision.revision == ch.candidate.plannedRevision == ch.plan.plannedRevision
    && ch.gate.base == ch.revision.base == ch.candidate.base && ch.gate.target == ch.revision.target
    && w.candidateArtifact == ch.revision.candidateArtifact
    && w.diffArtifact == ch.gate.diffArtifact == ch.revision.diffArtifact
    && w.target == WorkTarget(ch.gate.target.targetRef, ch.gate.base.revision, ch.gate.base.contentDigest,
                              ch.gate.target.revision, ch.gate.target.contentDigest)
    && ch.gate.base.targetRef == ch.gate.target.targetRef
  }

  /** A chain is accepted exactly when its records have one subject, built before the Gate started, and scope,
    plan, report, receipts and terms are. */
  lemma OneSubject(digests: Digests, w: WorkOrderRecord, ch: Chain)
    ensures ChainAccepted(digests, w, ch) <==>
            && SubjectKept(w, ch) && ch.revision.recordedAt <= ch.gate.report.startedAt
            && CandidateAccepted(ch.candidate.terms, ch.resolution.terms)
            && PlanCovers(digests, ch.plan, ch.resolution)
            && ReportAccepted(digests, ch) && ReceiptsFit(ch)
            && Within(w.terms.scope, ch.candidate.terms.scope) && TermsAccepted(w.terms, ch)
  {
    hide ReportAccepted;
    hide PlanCovers;
    hide ReceiptsFit;
    hide CandidateAccepted;
    hide TermsAccepted;
    hide Within;
  }
}
