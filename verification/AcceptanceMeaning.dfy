/** What a call that accepts a task result needed and wrote, and the call behind every receipt. */
module AcceptanceMeaning {
  import opened Wrappers
  import opened Acceptance

  /** The decision on a result of this status. */
  ghost predicate Decides(resultStatus: string, accepted: bool, decision: string) {
    || (resultStatus == "SUCCESS" && decision == if accepted then "completed" else "revision")
    || (resultStatus == "SUCCESS_WITH_NOTES" && decision == if accepted then "completed" else "revision")
    || (resultStatus == "REVISION_NEEDED" && !accepted && decision == "revision")
    || (resultStatus == "BLOCKED" && !accepted && decision == "blocked")
    || (resultStatus == "INTERRUPTED" && !accepted && decision == "blocked")
  }

  lemma DecidesExactly(resultStatus: string, accepted: bool, decision: string)
    ensures NodeStatus(resultStatus, accepted) == Ok(decision) <==> Decides(resultStatus, accepted, decision)
  {
    StatusesDiffer();
  }

  lemma StatusesDiffer()
    ensures |"SUCCESS"| == 7 && |"SUCCESS_WITH_NOTES"| == 18 && |"REVISION_NEEDED"| == 15
    ensures "BLOCKED"[0] == 'B' && "INTERRUPTED"[0] == 'I' && "SUCCESS"[0] == 'S' && "REVISION_NEEDED"[0] == 'R'
  {
  }

  /** The task is one of this active project, submitted with a result of the status the request names. */
  ghost predicate IsSubmitted(d: Disk, req: Request) {
    && d.active && req.taskId in d.metas && req.taskId in d.results
    && d.metas[req.taskId].projectId == d.projectId && d.metas[req.taskId].status == "submitted"
    && d.results[req.taskId].status == req.resultStatus
  }

  /** The result file and all deliverables are there, under shared/, and a success delivers something. */
  ghost predicate Delivered(files: Files, result: TaskResult) {
    && files.result != None
    && (result.status == "SUCCESS" || result.status == "SUCCESS_WITH_NOTES" ==> result.deliverables != [])
    && forall path | path in result.deliverables :: IsShared(path) && files.resolve(path) != None
  }

  ghost predicate IsShared(path: string) {
    exists rest :: path == "shared/" + rest
  }

  /** The plan has the task, and every node of it is delegated. */
  ghost predicate IsDelegated(plan: seq<Node>, taskId: string) {
    && (exists node | node in plan :: node.taskId == taskId)
    && (forall node | node in plan && node.taskId == taskId :: node.status == "delegated")
  }

  /** A call goes through exactly when the leader makes it on a submitted task with its files, for which there is
    a decision, a delegated node and no receipt yet. */
  lemma ProceedsExactly(d: Disk, req: Request, leader: bool, files: Files)
    ensures Proceeds(d, req, leader, files) <==>
            && leader && IsSubmitted(d, req) && Delivered(files, d.results[req.taskId])
            && (exists decision :: Decides(req.resultStatus, req.accepted, decision))
            && IsDelegated(d.plan, req.taskId) && req.taskId !in d.receipts
  {
    if req.taskId in d.results {
      DeliveredExactly(files, d.results[req.taskId]);
    }
    if NodeStatus(req.resultStatus, req.accepted).Ok? {
      DecidesExactly(req.resultStatus, req.accepted, NodeStatus(req.resultStatus, req.accepted).value);
    }
    forall decision | Decides(req.resultStatus, req.accepted, decision)
      ensures NodeStatus(req.resultStatus, req.accepted).Ok?
    {
      DecidesExactly(req.resultStatus, req.accepted, decision);
    }
    DelegatedExactly(d.plan, req.taskId);
    hide Delivered;
    hide FilesFault;
    hide NodeStatus;
    hide Decides;
    hide Awaiting;
    hide IsDelegated;
  }

  lemma DeliveredExactly(files: Files, result: TaskResult)
    ensures FilesFault(files, result).None? <==> Delivered(files, result)
  {
    var paths := result.deliverables;
    forall i | 0 <= i < |paths|
      ensures Resolves(files, paths[i]) <==> IsShared(paths[i]) && files.resolve(paths[i]) != None
    {
      SharedExactly(paths[i]);
    }
    hide IsShared;
    hide Resolves;
    assert forall path | path in paths :: exists i | 0 <= i < |paths| :: paths[i] == path;
  }

  lemma SharedExactly(path: string)
    ensures "shared/" <= path <==> IsShared(path)
  {
    if "shared/" <= path {
      assert path == "shared/" + path[7..];
    }
  }

  lemma DelegatedExactly(plan: seq<Node>, taskId: string)
    ensures Awaiting(plan, taskId) <==> IsDelegated(plan, taskId)
  {
  }

  /** The first check that fails names the refusal. */
  lemma RefusedExactly(d: Disk, req: Request, leader: bool)
    ensures var fault, t := CheckTask(d, req, leader), req.taskId;
            && (fault == None <==> leader && IsSubmitted(d, req))
            && (fault == Some(NotLeader) <==> !leader)
            && (fault == Some(ProjectInactive) <==> leader && !d.active)
            && (fault == Some(TaskUnknown) <==> leader && d.active && (t !in d.metas || t !in d.results))
            && (fault == Some(WrongProject) <==>
                leader && d.active && t in d.metas && t in d.results && d.metas[t].projectId != d.projectId)
            && (fault == Some(NotSubmitted) <==>
                && leader && d.active && t in d.metas && t in d.results && d.metas[t].projectId == d.projectId
                && d.metas[t].status != "submitted")
  {
  }

  /** The receipt says what the request and the task say: run, decision, reason, result and deliverables. */
  ghost predicate Records(req: Request, files: Files, result: TaskResult, r: Receipt) {
    && r.runId == req.runId && r.reason == req.summary && r.resultStatus == req.resultStatus
    && Decides(req.resultStatus, req.accepted, r.decision) && (r.accepted <==> r.decision == "completed")
    && files.result == Some(r.resultSha256) && |r.deliverables| == |result.deliverables|
    && forall i | 0 <= i < |r.deliverables| ::
         && r.deliverables[i].path == result.deliverables[i]
         && files.resolve(result.deliverables[i]) == Some((r.deliverables[i].sha256, r.deliverables[i].size))
  }

  /** The node of the task shows the decision, the others are as they were. */
  ghost predicate Replaced(plan: seq<Node>, plan': seq<Node>, taskId: string, decision: string) {
    && |plan'| == |plan|
    && forall i | 0 <= i < |plan| ::
         && plan'[i].taskId == plan[i].taskId && plan'[i].title == plan[i].title
         && plan'[i].assignedTo == plan[i].assignedTo && plan'[i].dependsOn == plan[i].dependsOn
         && plan'[i].status == if plan[i].taskId == taskId then decision else plan[i].status
  }

  /** What a call leaves on disk when it stops after n writes: nothing if it does not go through, is a dry run or
    stops before the first; else the receipt, committed after the third, and from the second on the plan. */
  lemma WritesExactly(d: Disk, req: Request, leader: bool, files: Files, n: nat)
    ensures var d' := AfterWrites(d, req, leader, files, n);
            if !Proceeds(d, req, leader, files) || req.dryRun || n == 0 then d' == d
            else
              && req.taskId in d.results && req.taskId in d'.receipts
              && var r := d'.receipts[req.taskId];
                 && Records(req, files, d.results[req.taskId], r) && (r.committed <==> n >= 3)
                 && d'.receipts == d.receipts[req.taskId := r]
                 && (if n == 1 then d'.plan == d.plan else Replaced(d.plan, d'.plan, req.taskId, r.decision))
                 && d' == d.(receipts := d'.receipts, plan := d'.plan)
  {
    if Proceeds(d, req, leader, files) && !req.dryRun && n > 0 {
      ReceiptRecords(d, req, leader, files, false);
      ReceiptRecords(d, req, leader, files, true);
      hide Proceeds;
      hide Decide;
      hide Records;
      hide ReceiptFor;
      hide FilesFault;
    }
  }

  lemma ReceiptRecords(d: Disk, req: Request, leader: bool, files: Files, committed: bool)
    requires Proceeds(d, req, leader, files)
    ensures req.taskId in d.results && FilesFault(files, d.results[req.taskId]).None?
    ensures var r := ReceiptFor(d, req, files, Decide(d, req, leader, files).value, committed);
            && Records(req, files, d.results[req.taskId], r) && r.committed == committed
            && r.decision == Decide(d, req, leader, files).value
  {
    var result := d.results[req.taskId];
    DecidesExactly(req.resultStatus, req.accepted, Decide(d, req, leader, files).value);
    var r := ReceiptFor(d, req, files, Decide(d, req, leader, files).value, committed);
    hide Decide;
    hide Decides;
    forall i | 0 <= i < |r.deliverables|
      ensures r.deliverables[i].path == result.deliverables[i]
      ensures files.resolve(result.deliverables[i]) == Some((r.deliverables[i].sha256, r.deliverables[i].size))
    {
      assert Resolves(files, result.deliverables[i]);
      var hash := files.resolve(result.deliverables[i]).value;
      assert r.deliverables[i] == HashOf(files, result.deliverables[i]);
      assert r.deliverables[i] == Deliverable(result.deliverables[i], hash.0, hash.1);
    }
  }

  /** The event is a call that wrote this receipt on this disk. */
  ghost predicate Wrote(d: Disk, e: Event, t: string, r: Receipt) {
    && e.Accept? && e.leader && e.req.taskId == t && !e.req.dryRun && e.crashAfter > 0
    && IsSubmitted(d, e.req) && Delivered(e.files, d.results[t]) && IsDelegated(d.plan, t)
    && Records(e.req, e.files, d.results[t], r) && (r.committed <==> e.crashAfter >= 3)
  }

  /** Behind every receipt that was not there at first stands the one call that wrote it: the leader's, on a
    submitted and delegated task whose files were there, with what the receipt says. */
  lemma {:induction false} ReceiptFromCall(d: Disk, events: seq<Event>, t: string) returns (j: nat)
    requires t !in d.receipts && t in After(d, events).receipts
    ensures j < |events| && t !in After(d, events[..j]).receipts
    ensures Wrote(After(d, events[..j]), events[j], t, After(d, events).receipts[t])
  {
    var n := |events| - 1;
    var before, e := After(d, events[..n]), events[n];
    assert After(d, events) == Apply(before, e);
    if t in before.receipts {
      ReceiptKept(before, e, t);
      j := ReceiptFromCall(d, events[..n], t);
      assert events[..n][..j] == events[..j];
    } else {
      j := n;
      NewReceipt(before, e, t);
    }
  }

  lemma NewReceipt(d: Disk, e: Event, t: string)
    requires t !in d.receipts && t in Apply(d, e).receipts
    ensures Wrote(d, e, t, Apply(d, e).receipts[t])
  {
    assert e.Accept?;
    WritesExactly(d, e.req, e.leader, e.files, e.crashAfter);
    ProceedsExactly(d, e.req, e.leader, e.files);
    hide Proceeds;
    hide AfterWrites;
    hide IsSubmitted;
    hide Delivered;
    hide IsDelegated;
    hide Records;
    hide Replaced;
  }
}
