/** What holds over any sequence of approval calls. */
module ApprovalRuns {
  import opened Wrappers
  import opened Json
  import opened WorkorderHash
  import opened Approval
  import WorkOrder

  /** One call in its own transaction, which is committed or rolled back. */
  datatype Call = Call(op: Op, now: int, committed: bool)

  /** The table after the first n calls, from an empty one: what was not committed never happened. */
  function After(sha: string -> string, ttl: int, calls: seq<Call>, n: nat): Rows
    requires n <= |calls|
  {
    if n == 0 then map[]
    else if calls[n - 1].committed then
      Apply(sha, ttl, After(sha, ttl, calls, n - 1), calls[n - 1].op, calls[n - 1].now).0
    else After(sha, ttl, calls, n - 1)
  }

  /** What call i returns. */
  function Result(sha: string -> string, ttl: int, calls: seq<Call>, i: nat): Outcome
    requires i < |calls|
  {
    Apply(sha, ttl, After(sha, ttl, calls, i), calls[i].op, calls[i].now).1
  }

  // ---------- the table ----------

  ghost predicate RowInv(row: GrantRow, ttl: int) {
    && row.createdAt < row.expiry <= row.createdAt + ttl
    && (row.nonceConsumed <==> row.status.Consumed?)
    && (row.approved <==> !row.status.Rejected?)
  }

  ghost predicate TableInv(rows: Rows, ttl: int) {
    && (forall id | id in rows :: RowInv(rows[id], ttl))
    && (forall id, id' | id in rows && id' in rows && rows[id].nonce == rows[id'].nonce :: id == id')
  }

  /** A row keeps everything but its status, and leaves Pending for good. */
  ghost predicate RowForward(row: GrantRow, row': GrantRow) {
    && row' == row.(status := row'.status, nonceConsumed := row'.nonceConsumed)
    && (!row.status.Pending? ==> row'.status == row.status && row'.nonceConsumed == row.nonceConsumed)
  }

  ghost predicate TableForward(rows: Rows, rows': Rows) {
    forall id | id in rows :: id in rows' && RowForward(rows[id], rows'[id])
  }

  lemma GrantKeeps(rows: Rows, op: Op, now: int, ttl: int)
    requires TableInv(rows, ttl) && op.Grant? && GrantCheck(rows, op, now, ttl).None?
    ensures TableInv(rows[op.approvalId := NewRow(op, now)], ttl)
    ensures TableForward(rows, rows[op.approvalId := NewRow(op, now)])
  {
    hide IsHex64;
    hide ProofOf;
    hide Lower;
    forall id | id in rows ensures rows[id].nonce != op.nonce {
      assert !HasNonce(rows, op.nonce);
    }
  }

  lemma StatusChangeKeeps(rows: Rows, id: string, row: GrantRow, ttl: int)
    requires TableInv(rows, ttl) && id in rows && RowForward(rows[id], row) && RowInv(row, ttl)
    ensures TableInv(rows[id := row], ttl) && TableForward(rows, rows[id := row])
  {
  }

  lemma ApplyKeeps(sha: string -> string, ttl: int, rows: Rows, op: Op, now: int)
    requires TableInv(rows, ttl)
    ensures var rows' := Apply(sha, ttl, rows, op, now).0; TableInv(rows', ttl) && TableForward(rows, rows')
  {
    hide ValidateCheck;
    hide GrantCheck;
    hide NewRow;
    hide TableInv;
    if op.Grant? && GrantCheck(rows, op, now, ttl).None? {
      GrantKeeps(rows, op, now, ttl);
    } else if !op.Grant? && op.approvalId in rows {
      var id := op.approvalId;
      RowOf(rows, id, ttl);
      if rows[id].status.Pending? {
        StatusChangeKeeps(rows, id, rows[id].(status := Expired), ttl);
        StatusChangeKeeps(rows, id, rows[id].(status := Consumed, nonceConsumed := true), ttl);
      }
    }
  }

  lemma RowOf(rows: Rows, id: string, ttl: int)
    requires TableInv(rows, ttl) && id in rows
    ensures RowInv(rows[id], ttl)
  {
  }

  lemma {:induction false} AfterInv(sha: string -> string, ttl: int, calls: seq<Call>, n: nat)
    requires n <= |calls|
    ensures TableInv(After(sha, ttl, calls, n), ttl)
  {
    if n > 0 {
      AfterInv(sha, ttl, calls, n - 1);
      ApplyKeeps(sha, ttl, After(sha, ttl, calls, n - 1), calls[n - 1].op, calls[n - 1].now);
    }
  }

  lemma {:induction false} AfterForward(sha: string -> string, ttl: int, calls: seq<Call>, m: nat, n: nat, id: string)
    requires m <= n <= |calls| && id in After(sha, ttl, calls, m)
    ensures id in After(sha, ttl, calls, n) && RowForward(After(sha, ttl, calls, m)[id], After(sha, ttl, calls, n)[id])
    decreases n
  {
    hide Apply;
    hide TableInv;
    if m < n {
      AfterForward(sha, ttl, calls, m, n - 1, id);
      AfterInv(sha, ttl, calls, n - 1);
      ApplyKeeps(sha, ttl, After(sha, ttl, calls, n - 1), calls[n - 1].op, calls[n - 1].now);
    }
  }

  // ---------- one shot ----------

  /** A call at i that succeeded in consuming a nonce. */
  ghost predicate Consumes(sha: string -> string, ttl: int, calls: seq<Call>, i: nat, nonce: Text)
    requires i < |calls|
  {
    calls[i].op.Consume? && calls[i].op.nonce == nonce && Result(sha, ttl, calls, i) == ConsumeResult(true)
  }

  /** Each nonce is consumed at most once, whatever approval ids the calls name: of two calls that succeed
    the earlier one was rolled back. */
  lemma NonceConsumedOnce(sha: string -> string, ttl: int, calls: seq<Call>, i: nat, j: nat, nonce: Text)
    requires i < j < |calls| && Consumes(sha, ttl, calls, i, nonce) && Consumes(sha, ttl, calls, j, nonce)
    ensures !calls[i].committed
  {
    if calls[i].committed {
      SecondConsumeFails(sha, ttl, calls, i, j);
    }
  }

  lemma SecondConsumeFails(sha: string -> string, ttl: int, calls: seq<Call>, i: nat, j: nat)
    requires i < j < |calls| && calls[i].committed
    requires calls[i].op.Consume? && calls[j].op.Consume? && calls[i].op.nonce == calls[j].op.nonce
    requires Result(sha, ttl, calls, i) == ConsumeResult(true)
    ensures Result(sha, ttl, calls, j) == ConsumeResult(false)
  {
    ConsumeMarks(sha, ttl, calls, i);
    hide After;
    hide Apply;
    AfterForward(sha, ttl, calls, i + 1, j, calls[i].op.approvalId);
    AfterInv(sha, ttl, calls, j);
    ConsumedNonceFails(sha, ttl, After(sha, ttl, calls, j), calls[i].op.approvalId, calls[j].op, calls[j].now);
  }

  lemma ConsumeMarks(sha: string -> string, ttl: int, calls: seq<Call>, i: nat)
    requires i < |calls| && calls[i].committed && calls[i].op.Consume?
    requires Result(sha, ttl, calls, i) == ConsumeResult(true)
    ensures var rows := After(sha, ttl, calls, i + 1); var id := calls[i].op.approvalId;
            id in rows && rows[id].status.Consumed? && rows[id].nonce == calls[i].op.nonce
  {
  }

  lemma ConsumedNonceFails(sha: string -> string, ttl: int, rows: Rows, id: string, op: Op, now: int)
    requires TableInv(rows, ttl) && id in rows && rows[id].status.Consumed? && op.Consume? && op.nonce == rows[id].nonce
    ensures Apply(sha, ttl, rows, op, now).1 == ConsumeResult(false)
  {
  }

  /** A consumed nonce belongs to a grant a human approved, and was never marked expired. */
  lemma ConsumedMeansApproved(sha: string -> string, ttl: int, calls: seq<Call>, i: nat)
    requires i < |calls| && calls[i].op.Consume? && Result(sha, ttl, calls, i) == ConsumeResult(true)
    ensures var rows := After(sha, ttl, calls, i); var id := calls[i].op.approvalId;
            id in rows && rows[id].approved && rows[id].nonce == calls[i].op.nonce && rows[id].status.Pending?
  {
    AfterInv(sha, ttl, calls, i);
  }

  /** Once a consume is committed, the approval validates nothing any more. */
  lemma NothingAfterConsume(sha: string -> string, ttl: int, calls: seq<Call>, i: nat, j: nat)
    requires i < j < |calls| && calls[i].committed && calls[i].op.Consume?
    requires Result(sha, ttl, calls, i) == ConsumeResult(true)
    requires calls[j].op.Validate? && calls[j].op.approvalId == calls[i].op.approvalId
    ensures Result(sha, ttl, calls, j) == Failed(ApprovalReplayed)
  {
    ConsumeMarks(sha, ttl, calls, i);
    AfterForward(sha, ttl, calls, i + 1, j, calls[i].op.approvalId);
    hide After;
  }

  // ---------- what an acceptance binds ----------

  lemma AcceptedFacts(sha: string -> string, ttl: int, calls: seq<Call>, i: nat)
    requires i < |calls| && calls[i].op.Validate? && Result(sha, ttl, calls, i) == Accepted
    ensures var rows := After(sha, ttl, calls, i); var id := calls[i].op.approvalId;
            && id in rows && rows[id].approved && !rows[id].nonceConsumed
            && Hash(sha, calls[i].op.presented) == Ok(rows[id].workorderHash)
            && calls[i].now < rows[id].expiry
  {
    AfterInv(sha, ttl, calls, i);
  }

  /** Every acceptance comes strictly before the time of the grant plus the time to live. */
  lemma AcceptedWithinTtl(sha: string -> string, ttl: int, calls: seq<Call>, i: nat)
    requires i < |calls| && calls[i].op.Validate? && Result(sha, ttl, calls, i) == Accepted
    ensures var rows := After(sha, ttl, calls, i); var id := calls[i].op.approvalId;
            id in rows && calls[i].now < rows[id].createdAt + ttl
  {
    AfterInv(sha, ttl, calls, i);
    AcceptedFacts(sha, ttl, calls, i);
  }

  /** Two WorkOrders accepted under one approval agree on every field but `hash`. */
  lemma OneWorkOrderPerApproval(sha: string -> string, ttl: int, calls: seq<Call>, i: nat, j: nat)
    requires Injective(sha) && i <= j < |calls|
    requires calls[i].op.Validate? && calls[j].op.Validate? && calls[i].op.approvalId == calls[j].op.approvalId
    requires Result(sha, ttl, calls, i) == Accepted && Result(sha, ttl, calls, j) == Accepted
    requires WellFormed(Obj(calls[i].op.presented)) && PairFree(Obj(calls[i].op.presented))
    requires WellFormed(Obj(calls[j].op.presented)) && PairFree(Obj(calls[j].op.presented))
    ensures AgreeOutsideHash(calls[i].op.presented, calls[j].op.presented)
  {
    AcceptedFacts(sha, ttl, calls, i);
    AcceptedFacts(sha, ttl, calls, j);
    AfterForward(sha, ttl, calls, i, j, calls[i].op.approvalId);
    HashBindsEveryOtherField(sha, calls[i].op.presented, calls[j].op.presented);
  }

  // ---------- expiry ----------

  /** After an expiry is reported, the approval is accepted again only by a clock that has gone back. */
  lemma ExpiredStaysExpired(sha: string -> string, ttl: int, calls: seq<Call>, i: nat, j: nat)
    requires i < j < |calls| && calls[i].op.Validate? && Result(sha, ttl, calls, i) == Failed(ApprovalExpired)
    requires calls[j].op.Validate? && calls[j].op.approvalId == calls[i].op.approvalId
    requires Result(sha, ttl, calls, j) == Accepted
    ensures calls[j].now < calls[i].now
  {
    AfterForward(sha, ttl, calls, i, j, calls[i].op.approvalId);
  }

  /** Once an expiry report is committed, the nonce is never consumed. */
  lemma NoConsumeAfterExpiryReport(sha: string -> string, ttl: int, calls: seq<Call>, i: nat, j: nat)
    requires i < j < |calls| && CommittedReport(sha, ttl, calls, i, calls[j].op.approvalId) && calls[j].op.Consume?
    ensures Result(sha, ttl, calls, j) == ConsumeResult(false)
  {
    ReportMarks(sha, ttl, calls, i);
    AfterForward(sha, ttl, calls, i + 1, j, calls[i].op.approvalId);
    hide After;
  }

  /** A validation that reported the expiry, in a transaction that was committed all the same. */
  ghost predicate CommittedReport(sha: string -> string, ttl: int, calls: seq<Call>, i: nat, id: string)
    requires i < |calls|
  {
    && calls[i].committed && calls[i].op.Validate? && calls[i].op.approvalId == id
    && Result(sha, ttl, calls, i) == Failed(ApprovalExpired)
  }

  lemma ReportMarks(sha: string -> string, ttl: int, calls: seq<Call>, i: nat)
    requires i < |calls| && CommittedReport(sha, ttl, calls, i, calls[i].op.approvalId)
    ensures var rows := After(sha, ttl, calls, i + 1); var id := calls[i].op.approvalId;
            id in rows && !rows[id].status.Pending?
  {
  }

  /** The requirements `consume_nonce` makes of a grant, its status aside. */
  ghost predicate Consumable(rows: Rows, id: string, nonce: Text) {
    id in rows && rows[id].nonce == nonce && rows[id].approved && !rows[id].nonceConsumed
  }

  /** Exactly when a consume call succeeds: the grant is approved and unconsumed, and no validation has
    committed a report of its expiry before. */
  lemma ConsumeExactly(sha: string -> string, ttl: int, calls: seq<Call>, j: nat)
    requires j < |calls| && calls[j].op.Consume?
    ensures Result(sha, ttl, calls, j) == ConsumeResult(true)
            <==> && Consumable(After(sha, ttl, calls, j), calls[j].op.approvalId, calls[j].op.nonce)
                 && forall i | 0 <= i < j :: !CommittedReport(sha, ttl, calls, i, calls[j].op.approvalId)
  {
    var id, rows := calls[j].op.approvalId, After(sha, ttl, calls, j);
    AfterInv(sha, ttl, calls, j);
    if Result(sha, ttl, calls, j) == ConsumeResult(true) {
      forall i | 0 <= i < j ensures !CommittedReport(sha, ttl, calls, i, id) {
        if CommittedReport(sha, ttl, calls, i, id) {
          NoConsumeAfterExpiryReport(sha, ttl, calls, i, j);
        }
      }
    } else if Consumable(rows, id, calls[j].op.nonce) {
      assert rows[id].status.Expired?;
      var i := WhenMarked(sha, ttl, calls, j, id);
    }
  }

  /** A row marked Expired was marked by a validation that reported it and was committed. */
  lemma {:induction false} WhenMarked(sha: string -> string, ttl: int, calls: seq<Call>, n: nat, id: string)
    returns (i: nat)
    requires n <= |calls| && id in After(sha, ttl, calls, n) && After(sha, ttl, calls, n)[id].status.Expired?
    ensures i < n && CommittedReport(sha, ttl, calls, i, id)
  {
    var before := After(sha, ttl, calls, n - 1);
    if id in before && before[id].status.Expired? {
      i := WhenMarked(sha, ttl, calls, n - 1, id);
    } else {
      i := n - 1;
      OnlyReportsMark(sha, ttl, before, calls[i].op, calls[i].now, id);
    }
  }

  /** A call that leaves a row Expired that was not is a validation of it reporting the expiry. */
  lemma OnlyReportsMark(sha: string -> string, ttl: int, rows: Rows, op: Op, now: int, id: string)
    requires !(id in rows && rows[id].status.Expired?)
    requires var rows' := Apply(sha, ttl, rows, op, now).0; id in rows' && rows'[id].status.Expired?
    ensures op.Validate? && op.approvalId == id && Apply(sha, ttl, rows, op, now).1 == Failed(ApprovalExpired)
  {
    hide ValidateCheck;
    hide GrantCheck;
  }

  // ---------- under session_scope ----------

  /** Every call runs in `session_scope`, which rolls back whatever raises. */
  ghost predicate SessionScoped(sha: string -> string, ttl: int, calls: seq<Call>) {
    forall i | 0 <= i < |calls| :: Result(sha, ttl, calls, i).Failed? ==> !calls[i].committed
  }

  /** There the mark of an expired grant is always lost with the error that reports it: a consume succeeds
    exactly on an approved, unconsumed grant with that nonce, however late and whatever was reported. */
  lemma ConsumeInSessionScope(sha: string -> string, ttl: int, calls: seq<Call>, j: nat)
    requires SessionScoped(sha, ttl, calls) && j < |calls| && calls[j].op.Consume?
    ensures Result(sha, ttl, calls, j) == ConsumeResult(true)
            <==> Consumable(After(sha, ttl, calls, j), calls[j].op.approvalId, calls[j].op.nonce)
  {
    ConsumeExactly(sha, ttl, calls, j);
    forall i | 0 <= i < j ensures !CommittedReport(sha, ttl, calls, i, calls[j].op.approvalId) {
      assert Result(sha, ttl, calls, i).Failed? ==> !calls[i].committed;
    }
  }

  // ---------- two runs ----------

  /** `consume_nonce` itself does not look at the expiry: an approval granted at 0 with expiry 10 is
    consumed at time 21, although a validation at 20 reported the expiry and was rolled back. */
  lemma ConsumedAfterExpiry(sha: string -> string, hash: string, presented: seq<Field>)
    requires IsHex64(hash)
    ensures var calls := LateCalls(hash, presented);
            && SessionScoped(sha, 30, calls)
            && Result(sha, 30, calls, 0) == Granted && Result(sha, 30, calls, 1) == Failed(ApprovalExpired)
            && Result(sha, 30, calls, 2) == ConsumeResult(true)
            && "a" in After(sha, 30, calls, 2) && After(sha, 30, calls, 2)["a"].expiry < calls[2].now
  {
    var calls := LateCalls(hash, presented);
    LateGrant(sha, hash, presented);
    assert After(sha, 30, calls, 2) == After(sha, 30, calls, 1);
  }

  function LateCalls(hash: string, presented: seq<Field>): seq<Call> {
    [Call(Grant("a", hash, T("n"), 10, true, "approved", None, ""), 0, true),
     Call(Validate("a", presented), 20, false), Call(Consume("a", T("n")), 21, true)]
  }

  lemma LateGrant(sha: string -> string, hash: string, presented: seq<Field>)
    requires IsHex64(hash)
    ensures var calls := LateCalls(hash, presented);
            && Result(sha, 30, calls, 0) == Granted && After(sha, 30, calls, 1).Keys == {"a"}
            && var row := After(sha, 30, calls, 1)["a"];
               row.nonce == T("n") && row.expiry == 10 && row.status.Pending? && !row.nonceConsumed
  {
    var calls := LateCalls(hash, presented);
    var uri := "audit://mcp/approval/" + "a";
    assert uri[..8] == "audit://";
    assert ProofOf("a", None, "").Some?;
    assert After(sha, 30, calls, 0) == map[];
    assert After(sha, 30, calls, 1) == map["a" := NewRow(calls[0].op, 0)];
  }
}
