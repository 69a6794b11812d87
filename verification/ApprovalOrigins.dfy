/** Where an authorisation comes from: the human decision behind every consume and every acceptance. */
module ApprovalOrigins {
  import opened Wrappers
  import opened Json
  import opened WorkorderHash
  import opened Approval
  import opened ApprovalRuns
  import WorkOrder

  // ---------- one call, in plain terms ----------

  predicate HexDigit(c: char) {
    '0' <= c <= '9' || 'a' <= c <= 'f' || 'A' <= c <= 'F'
  }

  /** The same hexadecimal text, upper-case letters turned to lower case. */
  ghost predicate Lowered(given: string, stored: string) {
    |stored| == |given| && forall i | 0 <= i < |given| ::
      if 'A' <= given[i] <= 'Z' then stored[i] as int == given[i] as int + 32 else stored[i] == given[i]
  }

  /** Exactly when a grant is recorded. */
  lemma GrantedExactly(sha: string -> string, ttl: int, rows: Rows, op: Op, now: int)
    requires op.Grant?
    ensures Apply(sha, ttl, rows, op, now).1 == Granted <==>
            && op.approverIsHuman && (op.decision == "approved" || op.decision == "rejected")
            && |op.workorderHash| == 64 && (forall i | 0 <= i < 64 :: HexDigit(op.workorderHash[i]))
            && now < op.expiry <= now + ttl
            && (forall id | id in rows :: rows[id].nonce != op.nonce) && op.approvalId !in rows
            && (op.givenProof.Some? ==> op.givenProof.value.how == "server_recorded")
            && (if op.givenUri != "" then "audit://" <= op.givenUri
                else op.givenProof.Some? ==> "audit://" <= op.givenProof.value.ref)
  {
    HexExactly(op.workorderHash);
    DefaultUri(op.approvalId);
    hide IsHex64;
  }

  lemma DefaultUri(approvalId: string)
    ensures "audit://" <= "audit://mcp/approval/" + approvalId
  {
    var uri := "audit://mcp/approval/" + approvalId;
    assert uri[..8] == "audit://";
  }

  lemma HexExactly(s: string)
    ensures IsHex64(s) <==> |s| == 64 && forall i | 0 <= i < 64 :: HexDigit(s[i])
  {
    if |s| == 64 {
      assert forall i | 0 <= i < 64 :: ('0' <= Lower(s)[i] <= '9' || 'a' <= Lower(s)[i] <= 'f') <==> HexDigit(s[i]);
    }
  }

  /** Exactly when a WorkOrder is accepted. */
  lemma AcceptedExactly(sha: string -> string, ttl: int, rows: Rows, id: string, presented: seq<Field>, now: int)
    ensures Apply(sha, ttl, rows, Validate(id, presented), now).1 == Accepted <==>
            && id in rows && !rows[id].status.Consumed? && !rows[id].nonceConsumed && !rows[id].status.Rejected?
            && now < rows[id].expiry && Hash(sha, presented) == Ok(rows[id].workorderHash)
            && (WorkOrder.Lookup(presented, T("nonce")) == Some(Str(rows[id].nonce))
                || (WorkOrder.Lookup(presented, T("nonce")).None? && rows[id].nonce == []))
            && rows[id].proof.how == "server_recorded" && "audit://" <= rows[id].auditUri
  {
    hide Hash;
  }

  /** Which refused validations call the approval used up and which call it expired, and what each leaves: only a
    pending row reported as expired changes, and only in its status. */
  lemma RefusedExactly(sha: string -> string, ttl: int, rows: Rows, id: string, presented: seq<Field>, now: int)
    ensures var (rows', o) := Apply(sha, ttl, rows, Validate(id, presented), now);
            && (o == Failed(ApprovalReplayed) <==> id in rows && (rows[id].status.Consumed? || rows[id].nonceConsumed))
            && (o == Failed(ApprovalExpired) <==>
                && id in rows && !rows[id].status.Consumed? && !rows[id].nonceConsumed && !rows[id].status.Rejected?
                && rows[id].expiry <= now)
            && (rows' == if o == Failed(ApprovalExpired) && rows[id].status.Pending?
                         then rows[id := rows[id].(status := Expired)] else rows)
  {
    hide Hash;
  }

  /** Which refused grants are called expired and which replayed: after the checks on approver, decision, hash and
    longest life, in that order. */
  lemma GrantRefusedExactly(sha: string -> string, ttl: int, rows: Rows, op: Op, now: int)
    requires op.Grant?
    ensures var (rows', o) := Apply(sha, ttl, rows, op, now);
            var first := op.approverIsHuman && (op.decision == "approved" || op.decision == "rejected")
                         && |op.workorderHash| == 64 && (forall i | 0 <= i < 64 :: HexDigit(op.workorderHash[i]))
                         && op.expiry <= now + ttl;
            && (o == Failed(ApprovalExpired) <==> first && op.expiry <= now)
            && (o == Failed(ApprovalReplayed) <==>
                first && now < op.expiry && exists id | id in rows :: rows[id].nonce == op.nonce)
            && (o != Granted ==> rows' == rows)
  {
    HexExactly(op.workorderHash);
    hide IsHex64;
    hide ProofOf;
  }

  // ---------- the grant behind a row ----------

  /** The row is what the call recorded, its status aside; a rejection stays one. */
  ghost predicate FromGrant(row: GrantRow, call: Call) {
    && call.committed && call.op.Grant? && call.op.approverIsHuman
    && row.nonce == call.op.nonce && row.expiry == call.op.expiry && row.createdAt == call.now
    && Lowered(call.op.workorderHash, row.workorderHash)
    && (call.op.decision == "approved" || (call.op.decision == "rejected" && row.status.Rejected? && !row.approved))
    && (call.op.decision == "approved" ==> row.approved)
  }

  lemma NewRowFromGrant(rows: Rows, call: Call, ttl: int)
    requires call.committed && call.op.Grant? && GrantCheck(rows, call.op, call.now, ttl).None?
    ensures FromGrant(NewRow(call.op, call.now), call)
  {
    assert "approved"[0] == 'a' && "rejected"[0] == 'r';
    hide IsHex64;
  }

  lemma FromGrantForward(row: GrantRow, row': GrantRow, call: Call)
    requires FromGrant(row, call) && RowForward(row, row')
    ensures FromGrant(row', call)
  {
  }

  /** Every row of the table was recorded by a committed grant under its id. */
  lemma {:induction false} RowOrigin(sha: string -> string, ttl: int, calls: seq<Call>, n: nat, id: string)
    returns (g: nat)
    requires n <= |calls| && id in After(sha, ttl, calls, n)
    ensures g < n && ApprovalRuns.Result(sha, ttl, calls, g) == Granted
    ensures FromGrant(After(sha, ttl, calls, n)[id], calls[g]) && calls[g].op.approvalId == id
  {
    hide FromGrant;
    hide GrantCheck;
    hide ValidateCheck;
    hide NewRow;
    var before, call := After(sha, ttl, calls, n - 1), calls[n - 1];
    AfterInv(sha, ttl, calls, n - 1);
    ApplyKeeps(sha, ttl, before, call.op, call.now);
    hide TableInv;
    if id in before {
      g := RowOrigin(sha, ttl, calls, n - 1, id);
      FromGrantForward(before[id], After(sha, ttl, calls, n)[id], calls[g]);
    } else {
      g := n - 1;
      OnlyGrantsAdd(sha, ttl, before, call.op, call.now, id);
      NewRowFromGrant(before, call, ttl);
    }
  }

  lemma OnlyGrantsAdd(sha: string -> string, ttl: int, rows: Rows, op: Op, now: int, id: string)
    requires id !in rows && id in Apply(sha, ttl, rows, op, now).0
    ensures op.Grant? && op.approvalId == id && GrantCheck(rows, op, now, ttl).None?
    ensures Apply(sha, ttl, rows, op, now) == (rows[id := NewRow(op, now)], Granted)
  {
    hide GrantCheck;
    hide ValidateCheck;
  }

  // ---------- the decision behind an authorisation ----------

  /** A committed call in which a human approved this nonce under this id. */
  ghost predicate Approves(sha: string -> string, ttl: int, calls: seq<Call>, g: nat, id: string, nonce: Text)
    requires g < |calls|
  {
    && calls[g].committed && calls[g].op.Grant? && ApprovalRuns.Result(sha, ttl, calls, g) == Granted
    && calls[g].op.approvalId == id && calls[g].op.nonce == nonce
    && calls[g].op.decision == "approved" && calls[g].op.approverIsHuman
  }

  /** Behind every successful consume is an earlier committed grant of that nonce under that id, in which a human
    decided "approved". */
  lemma ConsumeHasApproval(sha: string -> string, ttl: int, calls: seq<Call>, j: nat) returns (g: nat)
    requires j < |calls| && calls[j].op.Consume? && ApprovalRuns.Result(sha, ttl, calls, j) == ConsumeResult(true)
    ensures g < j && Approves(sha, ttl, calls, g, calls[j].op.approvalId, calls[j].op.nonce)
    ensures var rows := After(sha, ttl, calls, j); var id := calls[j].op.approvalId;
            id in rows && Lowered(calls[g].op.workorderHash, rows[id].workorderHash)
  {
    hide After;
    g := RowOrigin(sha, ttl, calls, j, calls[j].op.approvalId);
    assert "approved"[0] == 'a' && "rejected"[0] == 'r';
  }

  /** A nonce that no human approved is never consumed, whatever was granted with a rejection. */
  lemma UnapprovedNeverConsumed(sha: string -> string, ttl: int, calls: seq<Call>, j: nat)
    requires j < |calls| && calls[j].op.Consume?
    requires forall g | 0 <= g < j && calls[g].op.Grant? && calls[g].op.nonce == calls[j].op.nonce ::
               calls[g].op.decision != "approved"
    ensures ApprovalRuns.Result(sha, ttl, calls, j) == ConsumeResult(false)
  {
    if ApprovalRuns.Result(sha, ttl, calls, j) == ConsumeResult(true) {
      var g := ConsumeHasApproval(sha, ttl, calls, j);
    }
  }

  /** Behind every acceptance is such a grant too: of the presented WorkOrder's own hash and nonce, and not yet
    expired. */
  lemma AcceptanceHasApproval(sha: string -> string, ttl: int, calls: seq<Call>, j: nat) returns (g: nat, nonce: Text)
    requires j < |calls| && calls[j].op.Validate? && ApprovalRuns.Result(sha, ttl, calls, j) == Accepted
    ensures g < j && Approves(sha, ttl, calls, g, calls[j].op.approvalId, nonce)
    ensures Hash(sha, calls[j].op.presented).Ok?
    ensures Lowered(calls[g].op.workorderHash, Hash(sha, calls[j].op.presented).value)
    ensures WorkOrder.Lookup(calls[j].op.presented, T("nonce")) == Some(Str(nonce))
            || (WorkOrder.Lookup(calls[j].op.presented, T("nonce")).None? && nonce == [])
    ensures calls[g].now < calls[g].op.expiry <= calls[g].now + ttl && calls[j].now < calls[g].op.expiry
  {
    hide After;
    hide Hash;
    var rows, id := After(sha, ttl, calls, j), calls[j].op.approvalId;
    AcceptedExactly(sha, ttl, rows, id, calls[j].op.presented, calls[j].now);
    g := RowOrigin(sha, ttl, calls, j, id);
    nonce := rows[id].nonce;
    GrantedExactly(sha, ttl, After(sha, ttl, calls, g), calls[g].op, calls[g].now);
    hide Apply;
    assert "approved"[0] == 'a' && "rejected"[0] == 'r';
  }
}
