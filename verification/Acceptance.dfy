/** Crash-ordered acceptance of a task result (agent_station_projectflow.py): receipt, plan, receipt. */
module Acceptance {
  import opened Wrappers

  datatype Node = Node(taskId: string, title: string, assignedTo: string, dependsOn: seq<string>, status: string)

  datatype TaskResult = TaskResult(status: string, deliverables: seq<string>)

  datatype TaskMeta = TaskMeta(projectId: string, status: string)

  datatype Deliverable = Deliverable(path: string, sha256: string, size: nat)

  datatype Receipt = Receipt(
    committed: bool, runId: string, decision: string, accepted: bool, resultStatus: string, reason: string,
    resultSha256: string, deliverables: seq<Deliverable>)

  /** The task directory: what each path resolves to, with its content hash and size, or None where
    resolution raises (a link, a missing file, a path outside, not a regular file). */
  datatype Files = Files(result: Option<string>, resolve: string -> Option<(string, nat)>)

  /** What one project keeps on disk: the plan, one acceptance receipt file per task, and the tasks. */
  datatype Disk = Disk(
    projectId: string, active: bool, plan: seq<Node>, receipts: map<string, Receipt>, metas: map<string, TaskMeta>,
    results: map<string, TaskResult>)

  datatype Request = Request(taskId: string, resultStatus: string, accepted: bool, summary: string, runId: string,
      dryRun: bool)

  datatype TaskflowError =
    | NotLeader
    | ProjectInactive
    | TaskUnknown
    | WrongProject
    | NotSubmitted
    | ResultMismatch
    | BadResultFile
    | NoDeliverable
    | BadDeliverable(path: string)
    | CannotAccept
    | UnsupportedStatus
    | NotAwaiting
    | NotInPlan
    | ReceiptExists

  // ---------- decisions ----------

  function NodeStatus(resultStatus: string, accepted: bool): Result<string, TaskflowError> {
    if IsSuccess(resultStatus) then Ok(if accepted then "completed" else "revision")
    else if resultStatus == "REVISION_NEEDED" then if accepted then Err(CannotAccept) else Ok("revision")
    else if resultStatus == "BLOCKED" || resultStatus == "INTERRUPTED" then
      if accepted then Err(CannotAccept) else Ok("blocked")
    else Err(UnsupportedStatus)
  }

  /** `completed` needs an accepted success. */
  lemma CompletedNeedsSuccess(resultStatus: string, accepted: bool)
    ensures NodeStatus(resultStatus, accepted) == Ok("completed")
            <==> accepted && (resultStatus == "SUCCESS" || resultStatus == "SUCCESS_WITH_NOTES")
    ensures NodeStatus(resultStatus, accepted) != Ok("delegated")
  {
    assert "revision"[0] == 'r' && "blocked"[0] == 'b' && "completed"[0] == 'c' && "delegated"[0] == 'd';
  }

  // ---------- the plan ----------

  predicate InPlan(plan: seq<Node>, taskId: string) {
    exists i | 0 <= i < |plan| :: plan[i].taskId == taskId
  }

  ghost predicate Awaiting(plan: seq<Node>, taskId: string) {
    && InPlan(plan, taskId)
    && (forall i | 0 <= i < |plan| && plan[i].taskId == taskId :: plan[i].status == "delegated")
  }

  function WithStatus(plan: seq<Node>, taskId: string, status: string): (updated: seq<Node>)
    ensures |updated| == |plan|
    ensures forall i | 0 <= i < |plan| ::
              updated[i] == if plan[i].taskId == taskId then plan[i].(status := status) else plan[i]
  {
    seq(|plan|, i requires 0 <= i < |plan| => if plan[i].taskId == taskId then plan[i].(status := status) else plan[i])
  }

  /** `_replace_status`: a copy of the plan with the node's status replaced, if the node awaits acceptance. */
  method ReplaceStatus(plan: seq<Node>, taskId: string, status: string) returns (r: Result<seq<Node>, TaskflowError>)
    ensures r.Ok? <==> Awaiting(plan, taskId)
    ensures r.Ok? ==> r.value == WithStatus(plan, taskId, status)
    ensures r.Err? ==> r.error == if InPlan(plan, taskId) then NotAwaiting else NotInPlan
  {
    var found, updated := false, [];
    for k := 0 to |plan|
      invariant found <==> exists i | 0 <= i < k :: plan[i].taskId == taskId
      invariant forall i | 0 <= i < k && plan[i].taskId == taskId :: plan[i].status == "delegated"
      invariant updated == WithStatus(plan, taskId, status)[..k]
    {
      if plan[k].taskId == taskId {
        found := true;
        if plan[k].status != "delegated" {
          return Err(NotAwaiting);
        }
        updated := updated + [plan[k].(status := status)];
      } else {
        updated := updated + [plan[k]];
      }
    }
    r := if found then Ok(updated) else Err(NotInPlan);
  }

  // ---------- the files ----------

  predicate Resolves(files: Files, path: string) {
    "shared/" <= path && files.resolve(path).Some?
  }

  predicate IsSuccess(resultStatus: string) {
    resultStatus == "SUCCESS" || resultStatus == "SUCCESS_WITH_NOTES"
  }

  function HashOf(files: Files, path: string): Deliverable
    requires Resolves(files, path)
  {
    var (sha256, size) := files.resolve(path).value;
    Deliverable(path, sha256, size)
  }

  function Hashed(files: Files, paths: seq<string>): (ds: seq<Deliverable>)
    requires forall i | 0 <= i < |paths| :: Resolves(files, paths[i])
    ensures |ds| == |paths|
    ensures forall i | 0 <= i < |ds| :: ds[i] == HashOf(files, paths[i])
  {
    seq(|paths|, i requires 0 <= i < |paths| => assert Resolves(files, paths[i]); HashOf(files, paths[i]))
  }

  /** The first path that does not resolve. */
  function FirstBad(files: Files, paths: seq<string>): (bad: Option<string>)
    ensures bad.None? <==> forall i | 0 <= i < |paths| :: Resolves(files, paths[i])
  {
    if paths == [] then None
    else if !Resolves(files, paths[0]) then Some(paths[0])
    else
      assert forall i | 0 < i < |paths| :: paths[i] == paths[1..][i - 1];
      FirstBad(files, paths[1..])
  }

  function FilesFault(files: Files, result: TaskResult): Option<TaskflowError> {
    if files.result.None? then Some(BadResultFile)
    else if IsSuccess(result.status) && result.deliverables == [] then Some(NoDeliverable)
    else
      match FirstBad(files, result.deliverables)
      case Some(path) => Some(BadDeliverable(path))
      case None => None
  }

  /** `_hash_task_files`: the hash of the result and of every deliverable, or the first fault. */
  method HashTaskFiles(files: Files, result: TaskResult) returns (r: Result<(string, seq<Deliverable>), TaskflowError>)
    ensures r.Err? <==> FilesFault(files, result).Some?
    ensures r.Err? ==> r.error == FilesFault(files, result).value
    ensures r.Ok? ==> files.result == Some(r.value.0) && r.value.1 == Hashed(files, result.deliverables)
  {
    if files.result.None? {
      return Err(BadResultFile);
    }
    if IsSuccess(result.status) && result.deliverables == [] {
      return Err(NoDeliverable);
    }
    var paths := result.deliverables;
    var hashed: seq<Deliverable> := [];
    for k := 0 to |paths|
      invariant forall i | 0 <= i < k :: Resolves(files, paths[i])
      invariant FirstBad(files, paths) == FirstBad(files, paths[k..])
      invariant hashed == Hashed(files, paths[..k])
    {
      if !Resolves(files, paths[k]) {
        return Err(BadDeliverable(paths[k]));
      }
      assert paths[k..][1..] == paths[k + 1..];
      hashed := hashed + [HashOf(files, paths[k])];
    }
    assert paths[..|paths|] == paths;
    r := Ok((files.result.value, hashed));
  }

  // ---------- one call ----------

  /** The checks on the caller, the project and the task. */
  function CheckTask(d: Disk, req: Request, leader: bool): (fault: Option<TaskflowError>)
    ensures fault.None? ==> req.taskId in d.results && d.results[req.taskId].status == req.resultStatus
  {
    if !leader then Some(NotLeader)
    else if !d.active then Some(ProjectInactive)
    else if req.taskId !in d.metas || req.taskId !in d.results then Some(TaskUnknown)
    else if d.metas[req.taskId].projectId != d.projectId then Some(WrongProject)
    else if d.metas[req.taskId].status != "submitted" then Some(NotSubmitted)
    else if d.results[req.taskId].status != req.resultStatus then Some(ResultMismatch)
    else None
  }

  /** Everything checked before the first write, in order; the decision when all of it passes. */
  function Decide(d: Disk, req: Request, leader: bool, files: Files): Result<string, TaskflowError> {
    if CheckTask(d, req, leader).Some? then Err(CheckTask(d, req, leader).value)
    else if FilesFault(files, d.results[req.taskId]).Some? then Err(FilesFault(files, d.results[req.taskId]).value)
    else NodeStatus(req.resultStatus, req.accepted)
  }

  function ReceiptFor(d: Disk, req: Request, files: Files, status: string, committed: bool): Receipt
    requires req.taskId in d.results && FilesFault(files, d.results[req.taskId]).None?
  {
    Receipt(committed, req.runId, status, status == "completed", req.resultStatus, req.summary, files.result.value,
            Hashed(files, d.results[req.taskId].deliverables))
  }

  /** The call goes through to its writes. */
  ghost predicate Proceeds(d: Disk, req: Request, leader: bool, files: Files) {
    Decide(d, req, leader, files).Ok? && Awaiting(d.plan, req.taskId) && req.taskId !in d.receipts
  }

  /** The disk after n of the call's writes; each write replaces one file at once. */
  ghost function AfterWrites(d: Disk, req: Request, leader: bool, files: Files, n: nat): Disk {
    if !Proceeds(d, req, leader, files) || req.dryRun || n == 0 then d
    else
      var status := Decide(d, req, leader, files).value;
      var pending := d.(receipts := d.receipts[req.taskId := ReceiptFor(d, req, files, status, false)]);
      if n == 1 then pending
      else
        var planned := pending.(plan := WithStatus(d.plan, req.taskId, status));
        if n == 2 then planned
        else planned.(receipts := planned.receipts[req.taskId := ReceiptFor(d, req, files, status, true)])
  }

  class ProjectStore {
    var disk: Disk

    constructor (disk: Disk)
      ensures this.disk == disk
    {
      this.disk := disk;
    }

    /** The call with a crash after `crashAfter` writes; three or more is no crash at all. The result is what
      the caller would see without the crash. */
    method AcceptTaskResult(req: Request, leader: bool, files: Files, crashAfter: nat)
      returns (r: Result<string, TaskflowError>)
      modifies this
      ensures disk == AfterWrites(old(disk), req, leader, files, crashAfter)
      ensures r.Ok? <==> Proceeds(old(disk), req, leader, files)
      ensures r.Ok? || Decide(old(disk), req, leader, files).Err? ==> r == Decide(old(disk), req, leader, files)
      ensures Decide(old(disk), req, leader, files).Ok? && !Awaiting(old(disk).plan, req.taskId)
              ==> r == Err(if InPlan(old(disk).plan, req.taskId) then NotAwaiting else NotInPlan)
      ensures Decide(old(disk), req, leader, files).Ok? && Awaiting(old(disk).plan, req.taskId) ==>
                (req.taskId in old(disk).receipts ==> r == Err(ReceiptExists))
    {
      var checked := CheckTask(disk, req, leader);
      if checked.Some? {
        return Err(checked.value);
      }
      var hashed := HashTaskFiles(files, disk.results[req.taskId]);
      if hashed.Err? {
        return Err(hashed.error);
      }
      var decided := NodeStatus(req.resultStatus, req.accepted);
      if decided.Err? {
        return decided;
      }
      var status := decided.value;
      var updated := ReplaceStatus(disk.plan, req.taskId, status);
      if updated.Err? {
        return Err(updated.error);
      }
      if req.taskId in disk.receipts {
        return Err(ReceiptExists);
      }
      r := Ok(status);
      if req.dryRun || crashAfter == 0 {
        return;
      }
      var receipt := Receipt(false, req.runId, status, status == "completed", req.resultStatus, req.summary,
                             hashed.value.0, hashed.value.1);
      disk := disk.(receipts := disk.receipts[req.taskId := receipt]);
      if crashAfter == 1 {
        return;
      }
      disk := disk.(plan := updated.value);
      if crashAfter == 2 {
        return;
      }
      disk := disk.(receipts := disk.receipts[req.taskId := receipt.(committed := true)]);
    }
  }

  // ---------- runs ----------

  /** One call of the leader, crash included, or a worker submitting a result. */
  datatype Event =
    | Accept(req: Request, leader: bool, files: Files, crashAfter: nat)
    | Submit(taskId: string, meta: TaskMeta, result: TaskResult)

  ghost function Apply(d: Disk, e: Event): Disk {
    match e
    case Accept(req, leader, files, crashAfter) => AfterWrites(d, req, leader, files, crashAfter)
    case Submit(t, meta, result) => d.(metas := d.metas[t := meta], results := d.results[t := result])
  }

  ghost function After(d: Disk, events: seq<Event>): Disk {
    if events == [] then d else Apply(After(d, events[..|events| - 1]), events[|events| - 1])
  }

  ghost predicate Shows(plan: seq<Node>, taskId: string, status: string) {
    && (exists i | 0 <= i < |plan| :: plan[i].taskId == taskId)
    && (forall i | 0 <= i < |plan| && plan[i].taskId == taskId :: plan[i].status == status)
  }

  /** A receipt is sound, and the plan shows its decision, or still awaits it while it is pending. */
  ghost predicate ReceiptInv(plan: seq<Node>, t: string, r: Receipt) {
    && r.decision in ["completed", "revision", "blocked"]
    && (r.accepted <==> r.decision == "completed")
    && (r.accepted ==> IsSuccess(r.resultStatus) && r.deliverables != [])
    && (Shows(plan, t, r.decision) || (!r.committed && Shows(plan, t, "delegated")))
  }

  ghost predicate Inv(d: Disk) {
    forall t | t in d.receipts :: ReceiptInv(d.plan, t, d.receipts[t])
  }

  lemma DecisionFacts(d: Disk, req: Request, leader: bool, files: Files)
    requires Decide(d, req, leader, files).Ok?
    ensures req.taskId in d.results && FilesFault(files, d.results[req.taskId]).None?
    ensures var status := Decide(d, req, leader, files).value;
            && status in ["completed", "revision", "blocked"] && status != "delegated"
            && (status == "completed" ==> IsSuccess(req.resultStatus) && d.results[req.taskId].deliverables != [])
  {
    CompletedNeedsSuccess(req.resultStatus, req.accepted);
    assert "revision"[0] == 'r' && "blocked"[0] == 'b' && "completed"[0] == 'c' && "delegated"[0] == 'd';
  }

  lemma ShowsUpdated(plan: seq<Node>, taskId: string, status: string)
    requires Awaiting(plan, taskId)
    ensures Shows(plan, taskId, "delegated") && Shows(WithStatus(plan, taskId, status), taskId, status)
  {
    var i :| 0 <= i < |plan| && plan[i].taskId == taskId;
    assert WithStatus(plan, taskId, status)[i].taskId == taskId;
  }

  lemma ShowsOther(plan: seq<Node>, taskId: string, status: string, other: string, s: string)
    requires other != taskId && Shows(plan, other, s)
    ensures Shows(WithStatus(plan, taskId, status), other, s)
  {
    var i :| 0 <= i < |plan| && plan[i].taskId == other;
    assert WithStatus(plan, taskId, status)[i].taskId == other;
  }

  lemma ApplyKeeps(d: Disk, e: Event)
    requires Inv(d)
    ensures Inv(Apply(d, e))
  {
    match e
    case Submit(_, _, _) =>
    case Accept(req, leader, files, crashAfter) =>
      if Proceeds(d, req, leader, files) && !req.dryRun && crashAfter > 0 {
        var status := Decide(d, req, leader, files).value;
        DecisionFacts(d, req, leader, files);
        ShowsUpdated(d.plan, req.taskId, status);
        var d' := Apply(d, e);
        hide Decide;
        hide Shows;
        hide ReceiptInv;
        forall t | t in d'.receipts ensures ReceiptInv(d'.plan, t, d'.receipts[t]) {
          if t == req.taskId {
            OwnReceipt(d, req, files, status, d'.receipts[t].committed, d'.plan);
          } else {
            OtherReceipt(d.plan, req.taskId, status, t, d.receipts[t]);
          }
        }
      }
  }

  lemma OwnReceipt(d: Disk, req: Request, files: Files, status: string, committed: bool, plan: seq<Node>)
    requires req.taskId in d.results && FilesFault(files, d.results[req.taskId]).None?
    requires status in ["completed", "revision", "blocked"]
    requires status == "completed" ==> IsSuccess(req.resultStatus) && d.results[req.taskId].deliverables != []
    requires Shows(plan, req.taskId, status) || (!committed && Shows(plan, req.taskId, "delegated"))
    ensures ReceiptInv(plan, req.taskId, ReceiptFor(d, req, files, status, committed))
  {
    hide Shows;
  }

  lemma OtherReceipt(plan: seq<Node>, taskId: string, status: string, other: string, r: Receipt)
    requires other != taskId && ReceiptInv(plan, other, r)
    ensures ReceiptInv(WithStatus(plan, taskId, status), other, r)
  {
    if Shows(plan, other, r.decision) {
      ShowsOther(plan, taskId, status, other, r.decision);
    } else {
      ShowsOther(plan, taskId, status, other, "delegated");
    }
  }

  /** In every reachable state a committed receipt's decision is what the plan shows, and a `completed`
    decision stands on a success with at least one deliverable. */
  lemma {:induction false} RunsKeepInv(d: Disk, events: seq<Event>)
    requires Inv(d)
    ensures Inv(After(d, events))
  {
    if events != [] {
      RunsKeepInv(d, events[..|events| - 1]);
      ApplyKeeps(After(d, events[..|events| - 1]), events[|events| - 1]);
    }
  }

  lemma StepLeavesDelegated(d: Disk, e: Event, i: nat)
    requires i < |d.plan|
    ensures |Apply(d, e).plan| == |d.plan| && Apply(d, e).plan[i] == d.plan[i].(status := Apply(d, e).plan[i].status)
    ensures d.plan[i].taskId in d.receipts ==> Apply(d, e).plan[i] == d.plan[i]
    ensures Apply(d, e).plan[i] != d.plan[i] ==>
              && d.plan[i].taskId in Apply(d, e).receipts
              && Apply(d, e).receipts[d.plan[i].taskId].decision == Apply(d, e).plan[i].status
  {
  }

  /** Over any run, a node that has left `delegated` did so under a receipt that records the status it has. */
  lemma {:induction false} LeavesDelegatedUnderReceipt(d: Disk, events: seq<Event>, i: nat)
    requires i < |d.plan|
    ensures |After(d, events).plan| == |d.plan|
    ensures After(d, events).plan[i] == d.plan[i].(status := After(d, events).plan[i].status)
    ensures After(d, events).plan[i] != d.plan[i] ==>
              && d.plan[i].taskId in After(d, events).receipts
              && After(d, events).receipts[d.plan[i].taskId].decision == After(d, events).plan[i].status
  {
    if events != [] {
      var before, e := After(d, events[..|events| - 1]), events[|events| - 1];
      LeavesDelegatedUnderReceipt(d, events[..|events| - 1], i);
      StepLeavesDelegated(before, e, i);
      ReceiptKept(before, e, d.plan[i].taskId);
      hide Apply;
    }
  }

  lemma ReceiptKept(d: Disk, e: Event, t: string)
    ensures t in d.receipts ==> t in Apply(d, e).receipts && Apply(d, e).receipts[t] == d.receipts[t]
  {
  }

  /** The order of the writes: at every moment of a call, a plan that differs is already covered by the
    receipt on disk. */
  lemma PlanNeverAheadOfReceipt(d: Disk, req: Request, leader: bool, files: Files, n: nat)
    ensures var d' := AfterWrites(d, req, leader, files, n);
            d'.plan != d.plan ==>
                req.taskId in d'.receipts && Shows(d'.plan, req.taskId, d'.receipts[req.taskId].decision)
  {
    if Proceeds(d, req, leader, files) {
      ShowsUpdated(d.plan, req.taskId, Decide(d, req, leader, files).value);
    }
  }

  /** No event changes a node of another task. */
  lemma OtherNodesUntouched(d: Disk, e: Event, i: nat)
    requires i < |d.plan| && (e.Accept? ==> d.plan[i].taskId != e.req.taskId)
    ensures |Apply(d, e).plan| == |d.plan| && Apply(d, e).plan[i] == d.plan[i]
  {
  }

  /** A receipt that exists before an event is the same after it. */
  lemma {:induction false} ReceiptsNeverOverwritten(d: Disk, events: seq<Event>, t: string)
    requires t in d.receipts
    ensures t in After(d, events).receipts && After(d, events).receipts[t] == d.receipts[t]
  {
    if events != [] {
      ReceiptsNeverOverwritten(d, events[..|events| - 1], t);
    }
  }

  /** What a crash between the receipt and the plan costs: the pending receipt refuses every retry, and
    the node stays delegated for good. */
  lemma {:induction false} PendingReceiptSticks(d: Disk, events: seq<Event>, t: string)
    requires t in d.receipts && Shows(d.plan, t, "delegated")
    ensures Shows(After(d, events).plan, t, "delegated")
    ensures forall req: Request, leader, files | req.taskId == t :: !Proceeds(After(d, events), req, leader, files)
  {
    ReceiptsNeverOverwritten(d, events, t);
    if events != [] {
      var before, e := After(d, events[..|events| - 1]), events[|events| - 1];
      PendingReceiptSticks(d, events[..|events| - 1], t);
      ReceiptsNeverOverwritten(d, events[..|events| - 1], t);
      if e.Accept? && Proceeds(before, e.req, e.leader, e.files) {
        ShowsOther(before.plan, e.req.taskId, Decide(before, e.req, e.leader, e.files).value, t, "delegated");
      }
    }
  }

  /** After a crash anywhere in a call, the same call goes through exactly when no receipt is on disk. */
  lemma RetryProceedsExactly(d: Disk, req: Request, leader: bool, files: Files, n: nat)
    requires Proceeds(d, req, leader, files) && !req.dryRun
    ensures var d' := AfterWrites(d, req, leader, files, n);
            Proceeds(d', req, leader, files) <==> req.taskId !in d'.receipts
  {
    var d' := AfterWrites(d, req, leader, files, n);
    assert req.taskId !in d'.receipts ==> d' == d;
  }
}
