/** The WorkOrder row of release_admin.py and the blocks that run while it is locked. */
module WorkOrder {
  import opened Wrappers
  import opened Json
  import opened Jcs
  import WorkorderHash

  datatype Status = DRAFT | FREEZE_PENDING | FROZEN

  /** The part of the draft payload a WorkOrder is built from; no tool changes it after drafting. */
  datatype Draft = Draft(
    baseDigest: Text, targetDigest: Text, inputVersions: Value, diff: Value, targetVersionset: Option<Text>,
    targetRevision: Option<Text>, declaredTarget: Option<Text>)

  datatype Row = Row(
    workorderId: Text,
    caseId: Text,
    channel: Text,
    createdBy: Text,
    draft: Draft,
    status: Status,
    gateReportRef: Text,
    gateReportDigest: Text,
    frozenPayload: Option<seq<Field>>,
    hash: Option<string>)

  /** What one call draws afresh: the clock and the nonce. */
  datatype Stamp = Stamp(now: Text, expiry: Text, nonce: Text)

  datatype FreezeError =
    | BadToken
    | BadReportHash
    | ReportNotFound
    | OtherWorkOrder
    | ReportHashMismatch
    | TargetMismatch
    | GateNotPassed
    | ControllerUnreachable
    | ControllerMismatch
    | GateMissing
    | Unserialisable
    | IntentCorrupt
    | IntentChanged
    | NotFrozen
    | FieldMissing

  /** How the first locked block ends: nothing to do, a payload to register, or an error. */
  datatype Intent = AlreadyFrozen(hash: Option<string>) | Register(payload: seq<Field>) | Refused(error: FreezeError)

  function Lookup(fs: seq<Field>, k: Text): Option<Value> {
    if fs == [] then None else if fs[0].key == k then Some(fs[0].val) else Lookup(fs[1..], k)
  }

  const PREFIX: Text := T("sha256:")

  function StripPrefix(digest: Text): Text {
    if PREFIX <= digest then digest[|PREFIX|..] else digest
  }

  function BuildPayload(row: Row, stamp: Stamp): seq<Field> {
    [ Field(T("schema_version"), Str(T("0.1.0"))),
      Field(T("workorder_id"), Str(row.workorderId)),
      Field(T("case_id"), Str(row.caseId)),
      Field(T("channel"), Str(row.channel)),
      Field(T("base_versionset_digest"), Str(row.draft.baseDigest)),
      Field(T("target_versionset_digest"), Str(row.draft.targetDigest)),
      Field(T("input_versions"), row.draft.inputVersions),
      Field(T("diff"), row.draft.diff),
      Field(T("gate_report_ref"), Obj([Field(T("uri"), Str(row.gateReportRef)),
                                       Field(T("digest"), Str(PREFIX + StripPrefix(row.gateReportDigest)))])),
      Field(T("expiry"), Str(stamp.expiry)),
      Field(T("nonce"), Str(stamp.nonce)),
      Field(T("created_at"), Str(stamp.now)),
      Field(T("created_by"), Str(row.createdBy)),
      Field(T("hash_rule"), Str(T("jcs-rfc8785+sha256"))) ]
  }

  function WithHash(payload: seq<Field>, hash: string): seq<Field> {
    payload + [Field(WorkorderHash.HASH, Str(T(hash)))]
  }

  /** The first locked block of `workorder_freeze`: the row afterwards and how the block ends. */
  function LockIntent(sha: string -> string, row: Row, stamp: Stamp): (Row, Intent) {
    match row.status
    case FROZEN => (row, AlreadyFrozen(row.hash))
    case DRAFT =>
      if row.gateReportRef == [] || row.gateReportDigest == [] then (row, Refused(GateMissing))
      else
        var sealed := Seal(sha, BuildPayload(row, stamp));
        if sealed.Err? then (row, Refused(Unserialisable)) else
        var (payload, hash) := sealed.value;
        (row.(status := FREEZE_PENDING, frozenPayload := Some(payload), hash := Some(hash)), Register(payload))
    case FREEZE_PENDING =>
      if IntentIntact(sha, row.frozenPayload, row.hash) then (row, Register(row.frozenPayload.value))
      else (row, Refused(IntentCorrupt))
  }

  /** The payload with its hash stored in it, and the hash. */
  function Seal(sha: string -> string, body: seq<Field>): Result<(seq<Field>, string), JcsError> {
    var hash :- WorkorderHash.Hash(sha, body);
    Ok((WithHash(body, hash), hash))
  }

  predicate IntentIntact(sha: string -> string, frozenPayload: Option<seq<Field>>, hash: Option<string>) {
    && frozenPayload.Some? && frozenPayload.value != [] && hash.Some?
    && Lookup(frozenPayload.value, WorkorderHash.HASH) == Some(Str(T(hash.value)))
    && WorkorderHash.Hash(sha, frozenPayload.value) == Ok(hash.value)
  }

  /** The second locked block, after a valid receipt for `payload`; Some(e) when it raises. */
  function LockFinish(row: Row, payload: seq<Field>): (Row, Option<FreezeError>) {
    if row.hash.None? || Lookup(payload, WorkorderHash.HASH) != Some(Str(T(row.hash.value)))
       || row.frozenPayload.None? || !PyEqual(Obj(row.frozenPayload.value), Obj(payload))
       || row.status == DRAFT then
      (row, Some(IntentChanged))
    else
      (row.(status := FROZEN), None)
  }

  // ---------- gate_submit ----------

  const PASSED := T("passed")

  /** A gate report as the evaluation runner stored it: the status of each track, None where it is missing. */
  datatype Report = Report(
    rule: Option<Text>, judge: Option<Text>, deterministic: Option<Text>, live: Option<Text>, overall: Option<Text>,
    targetDigest: Option<Text>)

  datatype EvalRun = EvalRun(
    workorderId: Text, status: Text, reportHash: Text, report: Option<Report>, targetVersionset: Option<Text>,
    targetRevision: Option<Text>, candidateDigest: Option<Text>, evidenceDigest: Option<Text>)

  /** The controller's own copy of the report. */
  datatype Authoritative = Authoritative(
    reportHash: Option<Text>, workorderId: Option<Text>, candidateDigest: Option<Text>, evidenceDigest: Option<Text>,
    overall: Option<Text>)

  predicate IsHexText(t: Text) {
    |t| == 64 && forall i | 0 <= i < |t| ::
      '0' as int <= t[i] <= '9' as int || 'a' as int <= t[i] <= 'f' as int || 'A' as int <= t[i] <= 'F' as int
  }

  predicate TargetsDraft(draft: Draft, run: EvalRun, report: Report) {
    && run.targetVersionset == draft.targetVersionset && run.targetRevision == draft.targetRevision
    && report.targetDigest == draft.declaredTarget
  }

  predicate AllPassed(report: Report) {
    && report.overall == Some(PASSED) && report.rule == Some(PASSED) && report.judge == Some(PASSED)
    && report.deterministic == Some(PASSED) && report.live == Some(PASSED)
  }

  predicate ControllerAgrees(workorderId: Text, reportHash: Text, run: EvalRun, copy: Authoritative) {
    && copy.reportHash == Some(reportHash) && copy.workorderId == Some(workorderId)
    && copy.candidateDigest == run.candidateDigest && copy.evidenceDigest == run.evidenceDigest
    && copy.overall == Some(PASSED)
  }

  /** What the tool is given and finds: the stored run of the evaluation, and the controller's copy, None when
    it cannot be reached. `hashOf` recomputes the hash of a report. */
  datatype Submission = Submission(
    evalId: Text, reportHash: Text, run: Option<EvalRun>, copy: Option<Authoritative>, hashOf: Report -> Text)

  /** What a report must be for its reference to be attached to this WorkOrder: a completed run of it with the
    hash it was given under, about the draft's target, passed overall and on all four tracks, and the controller
    holds the same. */
  ghost predicate GateHolds(workorderId: Text, draft: Draft, g: Submission) {
    && |g.reportHash| == 64
    && (forall i | 0 <= i < 64 ::
          '0' as int <= g.reportHash[i] <= '9' as int || 'a' as int <= g.reportHash[i] <= 'f' as int
          || 'A' as int <= g.reportHash[i] <= 'F' as int)
    && g.run.Some? && g.run.value.report.Some? && g.copy.Some?
    && var run, report, copy := g.run.value, g.run.value.report.value, g.copy.value;
       && run.status == T("completed") && run.workorderId == workorderId
       && run.reportHash == g.reportHash && g.hashOf(report) == g.reportHash
       && run.targetVersionset == draft.targetVersionset && run.targetRevision == draft.targetRevision
       && report.targetDigest == draft.declaredTarget
       && report.overall == Some(T("passed")) && report.rule == Some(T("passed")) && report.judge == Some(T("passed"))
       && report.deterministic == Some(T("passed")) && report.live == Some(T("passed"))
       && copy.reportHash == Some(g.reportHash) && copy.workorderId == Some(workorderId)
       && copy.candidateDigest == run.candidateDigest && copy.evidenceDigest == run.evidenceDigest
       && copy.overall == Some(T("passed"))
  }

  /** `gate_submit`, once its checks on the report have passed: no look at the status. */
  function AttachGate(row: Row, ref: Text, digest: Text): Row {
    row.(gateReportRef := ref, gateReportDigest := digest)
  }

  /** What `approval_request` sends for the row. */
  datatype ApprovalAsk = ApprovalAsk(hash: string, nonce: Value, expiry: Value)

  function RequestApproval(row: Row): Result<ApprovalAsk, FreezeError> {
    if row.status != FROZEN || row.frozenPayload.None? || row.frozenPayload.value == [] then Err(NotFrozen)
    else if row.gateReportRef == [] then Err(GateMissing)
    else
      var nonce, expiry := Lookup(row.frozenPayload.value, T("nonce")), Lookup(row.frozenPayload.value, T("expiry"));
      if row.hash.None? || row.hash.value == "" || Absent(nonce) || Absent(expiry) then Err(FieldMissing)
      else Ok(ApprovalAsk(row.hash.value, nonce.value, expiry.value))
  }

  predicate Absent(v: Option<Value>) {
    v.None? || v.value == Null || v.value == Str([])
  }

  /** The row as the object the session holds, updated field by field under its lock. */
  class WorkOrderDraft {
    const workorderId: Text
    const caseId: Text
    const channel: Text
    const createdBy: Text
    const draft: Draft
    var status: Status
    var gateReportRef: Text
    var gateReportDigest: Text
    var frozenPayload: Option<seq<Field>>
    var hash: Option<string>

    function Snapshot(): Row
      reads this
    {
      Row(workorderId, caseId, channel, createdBy, draft, status, gateReportRef, gateReportDigest, frozenPayload, hash)
    }

    constructor (workorderId: Text, caseId: Text, channel: Text, createdBy: Text, draft: Draft)
      ensures Snapshot() == Row(workorderId, caseId, channel, createdBy, draft, DRAFT, [], [], None, None)
    {
      this.workorderId, this.caseId, this.channel, this.createdBy := workorderId, caseId, channel, createdBy;
      this.draft := draft;
      status, gateReportRef, gateReportDigest, frozenPayload, hash := DRAFT, [], [], None, None;
    }

    method SubmitGate(g: Submission) returns (error: Option<FreezeError>)
      modifies this
      ensures error.None? <==> GateHolds(workorderId, draft, g)
      ensures Snapshot() == if error.None? then
        AttachGate(old(Snapshot()), T("eval://") + g.evalId, PREFIX + g.reportHash)
                            else old(Snapshot())
    {
      error := CheckGate(g);
      if error.None? {
        gateReportRef := T("eval://") + g.evalId;
        gateReportDigest := PREFIX + g.reportHash;
      }
    }

    /** The checks of `gate_submit` in order. */
    method CheckGate(g: Submission) returns (error: Option<FreezeError>)
      ensures error.None? <==> GateHolds(workorderId, draft, g)
    {
      if !IsHexText(g.reportHash) {
        return Some(BadReportHash);
      }
      if g.run.None? || g.run.value.report.None? || g.run.value.status != T("completed") {
        return Some(ReportNotFound);
      }
      var run, report := g.run.value, g.run.value.report.value;
      if run.workorderId != workorderId {
        return Some(OtherWorkOrder);
      }
      if run.reportHash != g.reportHash || g.hashOf(report) != g.reportHash {
        return Some(ReportHashMismatch);
      }
      if !TargetsDraft(draft, run, report) {
        return Some(TargetMismatch);
      }
      if !AllPassed(report) {
        return Some(GateNotPassed);
      }
      if g.copy.None? {
        return Some(ControllerUnreachable);
      }
      if !ControllerAgrees(workorderId, g.reportHash, run, g.copy.value) {
        return Some(ControllerMismatch);
      }
      return None;
    }

    method BeginFreeze(sha: string -> string, stamp: Stamp, fencingToken: int) returns (intent: Intent)
      modifies this
      ensures fencingToken <= 0 ==> Snapshot() == old(Snapshot()) && intent == Refused(BadToken)
      ensures fencingToken > 0 ==> (Snapshot(), intent) == LockIntent(sha, old(Snapshot()), stamp)
    {
      hide BuildPayload;
      if fencingToken <= 0 {
        return Refused(BadToken);
      }
      if status == FROZEN {
        return AlreadyFrozen(hash);
      }
      if status == DRAFT {
        if gateReportRef == [] || gateReportDigest == [] {
          return Refused(GateMissing);
        }
        var sealed := Seal(sha, BuildPayload(Snapshot(), stamp));
        if sealed.Err? {
          return Refused(Unserialisable);
        }
        status := FREEZE_PENDING;
        frozenPayload := Some(sealed.value.0);
        hash := Some(sealed.value.1);
        return Register(sealed.value.0);
      }
      if !IntentIntact(sha, frozenPayload, hash) {
        return Refused(IntentCorrupt);
      }
      return Register(frozenPayload.value);
    }

    method FinishFreeze(payload: seq<Field>) returns (error: Option<FreezeError>)
      modifies this
      ensures (Snapshot(), error) == LockFinish(old(Snapshot()), payload)
    {
      if hash.None? || Lookup(payload, WorkorderHash.HASH) != Some(Str(T(hash.value)))
         || frozenPayload.None? || !PyEqual(Obj(frozenPayload.value), Obj(payload)) || status == DRAFT {
        return Some(IntentChanged);
      }
      if status == FROZEN {
        return None;
      }
      status := FROZEN;
      return None;
    }
  }
}
