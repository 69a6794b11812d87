/** One-shot approvals: `grant`, `validate_for_release` and `consume_nonce` of approval.py. */
module Approval {
  import opened Wrappers
  import opened Json
  import opened WorkorderHash
  import WorkOrder

  datatype GrantStatus = Pending | Consumed | Rejected | Expired

  datatype Proof = Proof(how: string, ref: string)

  datatype GrantRow = GrantRow(
    workorderHash: string,
    nonce: Text,
    status: GrantStatus,
    approved: bool,
    createdAt: int,
    expiry: int,
    nonceConsumed: bool,
    proof: Proof,
    auditUri: string)

  datatype ApprovalError = ValidationFailed | ApprovalExpired | ApprovalReplayed | ApprovalMismatch | DuplicateId

  datatype Op =
    | Grant(approvalId: string, workorderHash: string, nonce: Text, expiry: int, approverIsHuman: bool,
        decision: string, givenProof: Option<Proof>, givenUri: string)
    | Validate(approvalId: string, presented: seq<Field>)
    | Consume(approvalId: string, nonce: Text)

  datatype Outcome = Granted | Accepted | ConsumeResult(done: bool) | Failed(error: ApprovalError)

  type Rows = map<string, GrantRow>

  // ---------- grant ----------

  function Lower(s: string): string {
    seq(|s|, i requires 0 <= i < |s| => if 'A' <= s[i] <= 'Z' then ((s[i] as int) + 32) as char else s[i])
  }

  predicate IsHex64(s: string) {
    |s| == 64 && forall i | 0 <= i < |Lower(s)| :: '0' <= Lower(s)[i] <= '9' || 'a' <= Lower(s)[i] <= 'f'
  }

  predicate HasNonce(rows: Rows, nonce: Text) {
    exists id | id in rows :: rows[id].nonce == nonce
  }

  /** The audit URI and proof that are stored, or None when they are refused. */
  function ProofOf(approvalId: string, givenProof: Option<Proof>, givenUri: string): Option<(Proof, string)> {
    var default := if givenUri != "" then givenUri else "audit://mcp/approval/" + approvalId;
    var proof := if givenProof.Some? then givenProof.value else Proof("server_recorded", default);
    var uri := if givenUri != "" then givenUri else proof.ref;
    if proof.how != "server_recorded" || !("audit://" <= uri) then None else Some((proof, uri))
  }

  function GrantCheck(rows: Rows, op: Op, now: int, ttl: int): Option<ApprovalError>
    requires op.Grant?
  {
    if !op.approverIsHuman || op.decision !in ["approved", "rejected"] || !IsHex64(op.workorderHash) then
      Some(ValidationFailed)
    else if op.expiry > now + ttl then Some(ValidationFailed)
    else if op.expiry <= now then Some(ApprovalExpired)
    else if HasNonce(rows, op.nonce) then Some(ApprovalReplayed)
    else if ProofOf(op.approvalId, op.givenProof, op.givenUri).None? then Some(ValidationFailed)
    else if op.approvalId in rows then Some(DuplicateId)
    else None
  }

  function NewRow(op: Op, now: int): GrantRow
    requires op.Grant? && ProofOf(op.approvalId, op.givenProof, op.givenUri).Some?
  {
    var (proof, uri) := ProofOf(op.approvalId, op.givenProof, op.givenUri).value;
    GrantRow(Lower(op.workorderHash), op.nonce, if op.decision == "approved" then Pending else Rejected,
             op.decision == "approved", now, op.expiry, false, proof, uri)
  }

  // ---------- validate_for_release ----------

  function ValidateCheck(sha: string -> string, row: GrantRow, presented: seq<Field>, now: int): Option<ApprovalError> {
    if row.status.Consumed? || row.nonceConsumed then Some(ApprovalReplayed)
    else if row.status.Rejected? then Some(ApprovalMismatch)
    else if row.expiry <= now then Some(ApprovalExpired)
    else
      var recomputed := Hash(sha, presented);
      var nonce := WorkOrder.Lookup(presented, T("nonce"));
      if recomputed.Err? then Some(ValidationFailed)
      else if recomputed.value != row.workorderHash then Some(ApprovalMismatch)
      else if (if nonce.Some? then nonce.value else Str([])) != Str(row.nonce) then Some(ApprovalMismatch)
      else if row.proof.how != "server_recorded" || !("audit://" <= row.auditUri) then Some(ApprovalMismatch)
      else None
  }

  // ---------- one call ----------

  /** The table after a call at time `now`, and what the caller sees. */
  function Apply(sha: string -> string, ttl: int, rows: Rows, op: Op, now: int): (Rows, Outcome) {
    match op
    case Grant(id, _, _, _, _, _, _, _) =>
      var refused := GrantCheck(rows, op, now, ttl);
      if refused.Some? then (rows, Failed(refused.value)) else (rows[id := NewRow(op, now)], Granted)
    case Validate(id, presented) =>
      if id !in rows then (rows, Failed(ApprovalMismatch))
      else
        var refused := ValidateCheck(sha, rows[id], presented, now);
        if refused == Some(ApprovalExpired) && rows[id].status.Pending? then
          (rows[id := rows[id].(status := Expired)], Failed(ApprovalExpired))
        else if refused.Some? then (rows, Failed(refused.value))
        else (rows, Accepted)
    case Consume(id, nonce) =>
      if id in rows && rows[id].nonce == nonce && rows[id].status.Pending? && !rows[id].nonceConsumed then
        (rows[id := rows[id].(status := Consumed, nonceConsumed := true)], ConsumeResult(true))
      else
        (rows, ConsumeResult(false))
  }

  class ApprovalService {
    const sha: string -> string
    const ttl: int
    var rows: Rows

    constructor (sha: string -> string, ttl: int)
      ensures this.sha == sha && this.ttl == ttl && rows == map[]
    {
      this.sha, this.ttl, rows := sha, ttl, map[];
    }

    method GrantApproval(op: Op, now: int) returns (outcome: Outcome)
      requires op.Grant?
      modifies this
      ensures (rows, outcome) == Apply(sha, ttl, old(rows), op, now)
    {
      var refused := GrantCheck(rows, op, now, ttl);
      if refused.Some? {
        return Failed(refused.value);
      }
      rows := rows[op.approvalId := NewRow(op, now)];
      return Granted;
    }

    method ValidateForRelease(approvalId: string, presented: seq<Field>, now: int) returns (outcome: Outcome)
      modifies this
      ensures (rows, outcome) == Apply(sha, ttl, old(rows), Validate(approvalId, presented), now)
    {
      if approvalId !in rows {
        return Failed(ApprovalMismatch);
      }
      var refused := ValidateCheck(sha, rows[approvalId], presented, now);
      if refused.None? {
        return Accepted;
      }
      if refused.value.ApprovalExpired? {
        MarkExpired(approvalId);
      }
      return Failed(refused.value);
    }

    method MarkExpired(approvalId: string)
      requires approvalId in rows
      modifies this
      ensures rows == if old(rows)[approvalId].status.Pending?
                      then old(rows)[approvalId := old(rows)[approvalId].(status := Expired)] else old(rows)
    {
      if rows[approvalId].status.Pending? {
        rows := rows[approvalId := rows[approvalId].(status := Expired)];
      }
    }

    /** `UPDATE ... WHERE` in one statement: true when it changed one row. */
    method ConsumeNonce(approvalId: string, nonce: Text, now: int) returns (done: bool)
      modifies this
      ensures (rows, ConsumeResult(done)) == Apply(sha, ttl, old(rows), Consume(approvalId, nonce), now)
    {
      if approvalId in rows && rows[approvalId].nonce == nonce && rows[approvalId].status.Pending?
         && !rows[approvalId].nonceConsumed {
        rows := rows[approvalId := rows[approvalId].(status := Consumed, nonceConsumed := true)];
        return true;
      }
      return false;
    }

    /** One call inside `session_scope`: an exception rolls back all the call did, and so does a commit that
      fails. */
    method InSessionScope(op: Op, now: int, commitWorks: bool) returns (outcome: Outcome)
      modifies this
      ensures outcome == Apply(sha, ttl, old(rows), op, now).1
      ensures rows == if commitWorks && !outcome.Failed? then Apply(sha, ttl, old(rows), op, now).0 else old(rows)
    {
      var before := rows;
      match op {
        case Grant(_, _, _, _, _, _, _, _) =>
          outcome := GrantApproval(op, now);
        case Validate(approvalId, presented) =>
          outcome := ValidateForRelease(approvalId, presented, now);
        case Consume(approvalId, nonce) =>
          var done := ConsumeNonce(approvalId, nonce, now);
          outcome := ConsumeResult(done);
      }
      if outcome.Failed? || !commitWorks {
        rows := before;
      }
    }
  }
}
