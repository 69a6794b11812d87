/** What the frozen payload says, field by field, on every behaviour of the freeze protocol. */
module FreezeFields {
  import opened Wrappers
  import opened Json
  import opened WorkOrder
  import opened WorkorderHash
  import opened FreezeProtocol

  ghost predicate Says(payload: seq<Field>, key: string, val: Value) {
    Lookup(payload, T(key)) == Some(val)
  }

  /** The payload says of every field what the row, its draft and the stamp of the freeze say. */
  ghost predicate SaysAll(payload: seq<Field>, row: Row, stamp: Stamp) {
    && Says(payload, "workorder_id", Str(row.workorderId)) && Says(payload, "case_id", Str(row.caseId))
    && Says(payload, "channel", Str(row.channel)) && Says(payload, "created_by", Str(row.createdBy))
    && Says(payload, "base_versionset_digest", Str(row.draft.baseDigest))
    && Says(payload, "target_versionset_digest", Str(row.draft.targetDigest))
    && Says(payload, "input_versions", row.draft.inputVersions) && Says(payload, "diff", row.draft.diff)
    && Says(payload, "nonce", Str(stamp.nonce)) && Says(payload, "created_at", Str(stamp.now))
    && Says(payload, "expiry", Str(stamp.expiry))
    && Says(payload, "schema_version", Str(T("0.1.0"))) && Says(payload, "hash_rule", Str(T("jcs-rfc8785+sha256")))
  }

  ghost predicate SaysGate(payload: seq<Field>, uri: Text, digest: Text) {
    Says(payload, "gate_report_ref", Obj([Field(T("uri"), Str(uri)), Field(T("digest"), Str(digest))]))
  }

  // ---------- one freeze ----------

  lemma {:induction false} LookupAt(fs: seq<Field>, i: nat)
    requires Distinct(fs) && i < |fs|
    ensures Lookup(fs, fs[i].key) == Some(fs[i].val)
  {
    if i > 0 {
      assert fs[0].key != fs[i].key;
      assert fs[1..][i - 1] == fs[i];
      LookupAt(fs[1..], i - 1);
    }
  }

  lemma {:induction false} LookupBefore(fs: seq<Field>, f: Field, k: Text)
    requires Lookup(fs, k).Some?
    ensures Lookup(fs + [f], k) == Lookup(fs, k)
  {
    if fs[0].key != k {
      assert (fs + [f])[1..] == fs[1..] + [f];
      LookupBefore(fs[1..], f, k);
    }
  }

  lemma SealedSays(row: Row, stamp: Stamp, hash: string, i: nat)
    requires i < 14
    ensures |BuildPayload(row, stamp)| == 14
    ensures Says(WithHash(BuildPayload(row, stamp), hash), KEYS[i], BuildPayload(row, stamp)[i].val)
  {
    hide BuildPayload;
    PayloadKeys(row, stamp);
    PayloadDistinct(row, stamp);
    LookupAt(BuildPayload(row, stamp), i);
    LookupBefore(BuildPayload(row, stamp), Field(HASH, Str(T(hash))), T(KEYS[i]));
  }

  lemma SealedSaysAll(row: Row, stamp: Stamp, hash: string)
    ensures SaysAll(WithHash(BuildPayload(row, stamp), hash), row, stamp)
    ensures SaysGate(WithHash(BuildPayload(row, stamp), hash), row.gateReportRef,
                     PREFIX + StripPrefix(row.gateReportDigest))
  {
    PayloadValues(row, stamp);
    KeyNames();
    hide BuildPayload;
    hide Says;
    hide WithHash;
    hide StripPrefix;
    hide T;
    SealedValue(row, stamp, hash, 0, "schema_version", Str(T("0.1.0")));
    SealedValue(row, stamp, hash, 1, "workorder_id", Str(row.workorderId));
    SealedValue(row, stamp, hash, 2, "case_id", Str(row.caseId));
    SealedValue(row, stamp, hash, 3, "channel", Str(row.channel));
    SealedValue(row, stamp, hash, 4, "base_versionset_digest", Str(row.draft.baseDigest));
    SealedValue(row, stamp, hash, 5, "target_versionset_digest", Str(row.draft.targetDigest));
    SealedValue(row, stamp, hash, 6, "input_versions", row.draft.inputVersions);
    SealedValue(row, stamp, hash, 7, "diff", row.draft.diff);
    SealedValue(row, stamp, hash, 9, "expiry", Str(stamp.expiry));
    SealedValue(row, stamp, hash, 10, "nonce", Str(stamp.nonce));
    SealedValue(row, stamp, hash, 11, "created_at", Str(stamp.now));
    SealedValue(row, stamp, hash, 12, "created_by", Str(row.createdBy));
    SealedValue(row, stamp, hash, 13, "hash_rule", Str(T("jcs-rfc8785+sha256")));
    SealedValue(row, stamp, hash, 8, "gate_report_ref", BuildPayload(row, stamp)[8].val);
  }

  lemma SealedValue(row: Row, stamp: Stamp, hash: string, i: nat, key: string, val: Value)
    requires i < 14 && KEYS[i] == key && |BuildPayload(row, stamp)| == 14 && BuildPayload(row, stamp)[i].val == val
    ensures Says(WithHash(BuildPayload(row, stamp), hash), key, val)
  {
    SealedSays(row, stamp, hash, i);
  }

  lemma KeyNames()
    ensures KEYS[0] == "schema_version" && KEYS[1] == "workorder_id" && KEYS[2] == "case_id" && KEYS[3] == "channel"
    ensures KEYS[4] == "base_versionset_digest" && KEYS[5] == "target_versionset_digest"
    ensures KEYS[6] == "input_versions" && KEYS[7] == "diff" && KEYS[8] == "gate_report_ref" && KEYS[9] == "expiry"
    ensures KEYS[10] == "nonce" && KEYS[11] == "created_at" && KEYS[12] == "created_by" && KEYS[13] == "hash_rule"
  {
  }

  lemma PayloadValues(row: Row, stamp: Stamp)
    ensures |BuildPayload(row, stamp)| == 14
    ensures var p := BuildPayload(row, stamp);
            && p[0].val == Str(T("0.1.0")) && p[1].val == Str(row.workorderId) && p[2].val == Str(row.caseId)
            && p[3].val == Str(row.channel) && p[4].val == Str(row.draft.baseDigest)
            && p[5].val == Str(row.draft.targetDigest) && p[6].val == row.draft.inputVersions
            && p[7].val == row.draft.diff && p[9].val == Str(stamp.expiry) && p[10].val == Str(stamp.nonce)
            && p[11].val == Str(stamp.now) && p[12].val == Str(row.createdBy)
            && p[13].val == Str(T("jcs-rfc8785+sha256"))
            && p[8].val == Obj([Field(T("uri"), Str(row.gateReportRef)),
                                Field(T("digest"), Str(PREFIX + StripPrefix(row.gateReportDigest)))])
  {
  }

  // ---------- the gate reference ----------

  /** A row names no gate report, or one that held for this WorkOrder when it was attached. */
  ghost predicate NamesGate(row: Row, g: Submission) {
    && GateHolds(row.workorderId, row.draft, g)
    && row.gateReportRef == T("eval://") + g.evalId && row.gateReportDigest == T("sha256:") + g.reportHash
  }

  ghost predicate GateInv(row: Row) {
    (row.gateReportRef == [] && row.gateReportDigest == []) || exists g :: NamesGate(row, g)
  }

  lemma GateInvStep(sha: string -> string, s: State, s': State, step: Step)
    requires Inv(sha, s) && GateInv(s.row) && NextStep(sha, s, s', step)
    ensures GateInv(s'.row)
  {
    hide GateHolds;
    hide LockIntent;
    hide LockFinish;
    match step
    case GateStep(g) => assert NamesGate(s'.row, g);
    case BeginStep(c, stamp) =>
      BeginKeeps(sha, s.row, stamp);
      GateInvSame(s.row, s'.row);
    case FinishStep(c) =>
      FinishKeeps(sha, s, c);
      GateInvSame(s.row, s'.row);
    case _ =>
  }

  lemma GateInvSame(row: Row, row': Row)
    requires GateInv(row) && SameDraft(row, row')
    requires row'.gateReportRef == row.gateReportRef && row'.gateReportDigest == row.gateReportDigest
    ensures GateInv(row')
  {
    hide GateHolds;
    if exists g :: NamesGate(row, g) {
      var g :| NamesGate(row, g);
      assert NamesGate(row', g);
    }
  }

  lemma {:induction false} BehaviourGateInv(sha: string -> string, b: seq<State>, i: nat)
    requires Behaviour(sha, b) && i < |b|
    ensures GateInv(b[i].row)
  {
    hide Inv;
    hide NextStep;
    if i > 0 {
      BehaviourGateInv(sha, b, i - 1);
      BehaviourInv(sha, b, i - 1);
      assert Next(sha, b[i - 1], b[i]);
      var step :| NextStep(sha, b[i - 1], b[i], step);
      hide GateInv;
      GateInvStep(sha, b[i - 1], b[i], step);
    }
  }

  // ---------- over whole runs ----------

  /** The step out of DRAFT stores a payload that says what the row and the stamp say. */
  lemma FreezingStep(sha: string -> string, s: State, s': State, step: Step)
    requires Inv(sha, s) && GateInv(s.row) && NextStep(sha, s, s', step)
    requires s.row.status == DRAFT && s'.row.status != DRAFT
    ensures step.BeginStep? && s'.row.status == FREEZE_PENDING && s'.row.frozenPayload.Some?
    ensures SaysAll(s'.row.frozenPayload.value, s.row, step.stamp)
    ensures SaysGate(s'.row.frozenPayload.value, s.row.gateReportRef, s.row.gateReportDigest)
    ensures exists g :: NamesGate(s.row, g)
  {
    hide GateHolds;
    hide BuildPayload;
    hide Hash;
    match step
    case BeginStep(c, stamp) =>
      var sealed := Seal(sha, BuildPayload(s.row, stamp));
      assert sealed.Ok? && s'.row.frozenPayload == Some(sealed.value.0);
      SealedSaysAll(s.row, stamp, sealed.value.1);
      var g :| NamesGate(s.row, g);
      assert (T("sha256:") + g.reportHash)[|PREFIX|..] == g.reportHash;
    case FinishStep(c) =>
      FinishKeeps(sha, s, c);
    case _ =>
  }

  /** The frozen payload says of every field what the row and the stamp say, and its gate reference is the one
    attached when it was frozen and names a report that had passed for this WorkOrder. */
  ghost predicate FrozenAs(row: Row, before: Row, stamp: Stamp, g: Submission) {
    && row.frozenPayload.Some? && SaysAll(row.frozenPayload.value, row, stamp)
    && SaysGate(row.frozenPayload.value, before.gateReportRef, before.gateReportDigest)
    && SaysGate(row.frozenPayload.value, T("eval://") + g.evalId, T("sha256:") + g.reportHash)
    && GateHolds(row.workorderId, row.draft, g)
  }

  /** Past DRAFT, every field of the frozen payload has the value that the row, its draft and the stamp of the one
    freezing call had, and its gate reference names a report that had passed for this WorkOrder. */
  lemma {:induction false} FrozenSays(sha: string -> string, b: seq<State>, i: nat)
    returns (k: nat, c: nat, stamp: Stamp, g: Submission)
    requires Behaviour(sha, b) && i < |b| && b[i].row.status != DRAFT
    ensures k + 1 <= i && NextStep(sha, b[k], b[k + 1], BeginStep(c, stamp)) && b[k].row.status == DRAFT
    ensures FrozenAs(b[i].row, b[k].row, stamp, g)
    decreases i
  {
    hide *;
    NotAtFirst(sha, b, i);
    RunStepForward(sha, b, i);
    if b[i - 1].row.status != DRAFT {
      k, c, stamp, g := FrozenSays(sha, b, i - 1);
      StillFrozen(b[i - 1], b[i], b[k].row, stamp, g);
    } else {
      k := i - 1;
      BehaviourInv(sha, b, k);
      BehaviourGateInv(sha, b, k);
      c, stamp, g := FirstFrozen(sha, b[k], b[i]);
    }
  }

  lemma StillFrozen(s: State, s': State, before: Row, stamp: Stamp, g: Submission)
    requires Forward(s, s') && s.row.status != DRAFT && FrozenAs(s.row, before, stamp, g)
    ensures FrozenAs(s'.row, before, stamp, g)
  {
    SaysAllSame(s.row.frozenPayload.value, s.row, s'.row, stamp);
    hide SaysAll;
    hide SaysGate;
    hide GateHolds;
  }

  lemma NotAtFirst(sha: string -> string, b: seq<State>, i: nat)
    requires Behaviour(sha, b) && i < |b| && b[i].row.status != DRAFT
    ensures i > 0 && Next(sha, b[i - 1], b[i])
  {
    hide Next;
  }

  lemma FirstFrozen(sha: string -> string, s: State, s': State) returns (c: nat, stamp: Stamp, g: Submission)
    requires Inv(sha, s) && GateInv(s.row) && Next(sha, s, s') && Forward(s, s')
    requires s.row.status == DRAFT && s'.row.status != DRAFT
    ensures NextStep(sha, s, s', BeginStep(c, stamp)) && FrozenAs(s'.row, s.row, stamp, g)
  {
    hide Inv;
    hide GateHolds;
    hide SaysAll;
    hide SaysGate;
    hide NextStep;
    var step :| NextStep(sha, s, s', step);
    FreezingStep(sha, s, s', step);
    c, stamp := step.caller, step.stamp;
    g :| NamesGate(s.row, g);
    SaysAllSame(s'.row.frozenPayload.value, s.row, s'.row, stamp);
  }

  lemma SaysAllSame(payload: seq<Field>, row: Row, row': Row, stamp: Stamp)
    requires SameDraft(row, row') && SaysAll(payload, row, stamp)
    ensures SaysAll(payload, row', stamp)
  {
    hide Says;
  }

  /** The same of every registration ever sent, by whichever caller, and it names the row's creator as worker. */
  lemma RegisteredSays(sha: string -> string, b: seq<State>, i: nat, r: Registration)
    returns (k: nat, c: nat, stamp: Stamp, g: Submission)
    requires Behaviour(sha, b) && i < |b| && r in b[i].sent
    ensures k + 1 <= i && NextStep(sha, b[k], b[k + 1], BeginStep(c, stamp)) && b[k].row.status == DRAFT
    ensures SaysAll(r.payload, b[i].row, stamp) && GateHolds(b[i].row.workorderId, b[i].row.draft, g)
    ensures SaysGate(r.payload, T("eval://") + g.evalId, T("sha256:") + g.reportHash)
    ensures r.workerId == b[i].row.createdBy && r.fencingToken > 0
  {
    hide NextStep;
    hide GateHolds;
    hide Says;
    SentPastDraft(sha, b, i, r);
    SentByCreator(sha, b, i, r);
    hide Behaviour;
    k, c, stamp, g := FrozenSays(sha, b, i);
  }

  lemma SentPastDraft(sha: string -> string, b: seq<State>, i: nat, r: Registration)
    requires Behaviour(sha, b) && i < |b| && r in b[i].sent
    ensures b[i].row.status != DRAFT && b[i].row.frozenPayload == Some(r.payload)
  {
    BehaviourInv(sha, b, i);
  }

  lemma {:induction false} SentByCreator(sha: string -> string, b: seq<State>, i: nat, r: Registration)
    requires Behaviour(sha, b) && i < |b| && r in b[i].sent
    ensures r.workerId == b[i].row.createdBy && r.fencingToken > 0
  {
    if i > 0 {
      RunStepForward(sha, b, i);
      if r in b[i - 1].sent {
        SentByCreator(sha, b, i - 1, r);
      } else {
        assert Next(sha, b[i - 1], b[i]);
        var step :| NextStep(sha, b[i - 1], b[i], step);
        hide LockIntent;
        hide LockFinish;
        hide GateHolds;
        assert step.SendStep?;
      }
    }
  }

  // ---------- receipts and approvals ----------

  /** A receipt ever given names this WorkOrder and the hash in its frozen payload, and says whether it is a
    duplicate. */
  ghost predicate Acknowledged(s: State) {
    && s.row.frozenPayload.Some?
    && exists r | r in s.receipts ::
         && r.workorderId == Some(s.row.workorderId) && r.hash.Some? && r.hasDuplicateFlag
         && Lookup(s.row.frozenPayload.value, T("hash")) == Some(Str(r.hash.value))
  }

  ghost predicate AcknowledgedInv(s: State) {
    (s.row.status == FROZEN || exists c | c in s.callers :: s.callers[c].Receipted?) ==> Acknowledged(s)
  }

  lemma AcknowledgedKept(s: State, s': State)
    requires Acknowledged(s) && s.receipts <= s'.receipts && SameDraft(s.row, s'.row)
    requires s'.row.frozenPayload == s.row.frozenPayload
    ensures Acknowledged(s')
  {
  }

  lemma AcknowledgedStep(sha: string -> string, s: State, s': State, step: Step)
    requires Inv(sha, s) && AcknowledgedInv(s) && NextStep(sha, s, s', step)
    ensures AcknowledgedInv(s')
  {
    hide GateHolds;
    hide BuildPayload;
    hide IntentIntact;
    hide Hash;
    match step
    case BeginStep(c, stamp) =>
      BeginKeeps(sha, s.row, stamp);
      hide LockIntent;
      hide RowInv;
      if Acknowledged(s) {
        AcknowledgedKept(s, s');
      }
    case FinishStep(c) =>
      FinishKeeps(sha, s, c);
      hide LockFinish;
      AcknowledgedKept(s, s');
    case ReceiveStep(c, r) =>
      if ReceiptAccepted(s, s.callers[c].payload, r) {
        assert Acknowledged(s');
      } else if Acknowledged(s) {
        AcknowledgedKept(s, s');
      }
    case _ =>
      hide RowInv;
      if Acknowledged(s) {
        AcknowledgedKept(s, s');
      }
  }

  /** A FROZEN row was acknowledged: some receipt named exactly this WorkOrder and hash. */
  lemma {:induction false} FrozenIsAcknowledged(sha: string -> string, b: seq<State>, i: nat)
    requires Behaviour(sha, b) && i < |b|
    ensures AcknowledgedInv(b[i])
  {
    if i > 0 {
      FrozenIsAcknowledged(sha, b, i - 1);
      BehaviourInv(sha, b, i - 1);
      hide Inv;
      hide AcknowledgedInv;
      hide NextStep;
      assert Next(sha, b[i - 1], b[i]);
      var step :| NextStep(sha, b[i - 1], b[i], step);
      AcknowledgedStep(sha, b[i - 1], b[i], step);
    }
  }

  /** An approval can be asked for exactly when a frozen payload and a gate report are there and hash, nonce and
    expiry are filled in; it is asked for those three. */
  lemma AskExactly(row: Row)
    ensures var nonce, expiry := Lookup(if row.frozenPayload.Some? then row.frozenPayload.value else [], T("nonce")),
                                 Lookup(if row.frozenPayload.Some? then row.frozenPayload.value else [], T("expiry"));
            var ask := RequestApproval(row);
            && (ask.Ok? <==>
                  && row.status == FROZEN && row.frozenPayload.Some? && row.gateReportRef != []
                  && row.hash.Some? && row.hash.value != ""
                  && nonce.Some? && nonce.value != Null && nonce.value != Str([])
                  && expiry.Some? && expiry.value != Null && expiry.value != Str([]))
            && (ask.Ok? ==> row.hash == Some(ask.value.hash) && nonce == Some(ask.value.nonce)
                            && expiry == Some(ask.value.expiry))
  {
  }
}
