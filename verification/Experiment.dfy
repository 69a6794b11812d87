/** `ExperimentRunner._run_round`: five arms, every probe, every repetition, with resume. */
module Experiment {
  import opened Wrappers
  import opened Protocol

  datatype Versions = Versions(prompt: string, kb: string, model: string)

  datatype EvalResult = EvalResult(versionsetId: string, versions: Versions, answer: string)

  /** What the runner calls out to: probe texts, the deterministic provider, the judge, the
    artifact store and the checkpoint callback. */
  datatype World = World(
    inputs: map<string, string>,
    versionsets: map<string, string>,
    provider: (string, string) -> EvalResult,
    judge: (string, string) -> bool,
    persist: (Key, EvalResult) -> (string, string),
    checkpoint: (string, ProbeRun) -> Option<ProbeRun>,
    frozenRefs: map<string, string>)

  datatype RunError =
    | BadBinding
    | UnexpectedPrior(key: Key)
    | UnknownProbe(probeId: string)
    | MalformedPrior(key: Key)
    | ArmNotSelected
    | WrongVersionset(arm: string)
    | WrongComponents(arm: string)
    | CallbackChangedResult

  /** A cell under construction; `calls` and `reused` count provider calls and checkpointed trials. */
  datatype Cell = Cell(runs: seq<ProbeRun>, versions: Option<Versions>, calls: nat, reused: nat)

  // ---------- the driver ----------

  /** Exactly the five arms, each bound to a VersionSet id. */
  predicate BindsArms(armVersionsets: map<string, string>) {
    && armVersionsets.Keys == (set arm | arm in ARMS)
    && forall arm | arm in armVersionsets :: "vs_" <= armVersionsets[arm] || "vset_" <= armVersionsets[arm]
  }

  /** The same with the names spelled out. */
  ghost predicate BindsFive(armVersionsets: map<string, string>) {
    && armVersionsets.Keys == {"C", "RP", "RK", "RM", "G"}
    && forall arm | arm in armVersionsets :: IsVersionSetId(armVersionsets[arm])
  }

  ghost predicate IsVersionSetId(v: string) {
    exists id :: v == "vs_" + id || v == "vset_" + id
  }

  lemma BindsExactly(armVersionsets: map<string, string>)
    ensures BindsArms(armVersionsets) <==> BindsFive(armVersionsets)
  {
    assert (set arm | arm in ARMS) == {"C", "RP", "RK", "RM", "G"} by {
      assert ARMS[0] == "C" && ARMS[1] == "RP" && ARMS[2] == "RK" && ARMS[3] == "RM" && ARMS[4] == "G";
    }
    forall arm | arm in armVersionsets
      ensures IsVersionSetId(armVersionsets[arm]) <==> "vs_" <= armVersionsets[arm] || "vset_" <= armVersionsets[arm]
    {
      var v := armVersionsets[arm];
      assert "vs_" <= v ==> v == "vs_" + v[3..];
      assert "vset_" <= v ==> v == "vset_" + v[5..];
    }
  }

  class ImmutableVersionSetDriver {
    const armVersionsets: map<string, string>
    var currentVersionsetId: Option<string>

    constructor (armVersionsets: map<string, string>)
      requires BindsArms(armVersionsets)
      ensures this.armVersionsets == armVersionsets && currentVersionsetId == None
    {
      this.armVersionsets := armVersionsets;
      currentVersionsetId := None;
    }

    /** The constructor as callers meet it, with its ValueError. */
    static method Create(armVersionsets: map<string, string>) returns (r: Result<ImmutableVersionSetDriver, RunError>)
      ensures BindsFive(armVersionsets) ==>
                r.Ok? && fresh(r.value) && r.value.armVersionsets == armVersionsets
                  && r.value.currentVersionsetId == None
      ensures !BindsFive(armVersionsets) ==> r == Err(BadBinding)
    {
      BindsExactly(armVersionsets);
      if !BindsArms(armVersionsets) {
        return Err(BadBinding);
      }
      var driver := new ImmutableVersionSetDriver(armVersionsets);
      r := Ok(driver);
    }

    method Setup(arm: string)
      requires arm in armVersionsets
      modifies this
      ensures currentVersionsetId == Some(armVersionsets[arm])
    {
      currentVersionsetId := Some(armVersionsets[arm]);
    }

    method Evaluate(w: World, message: string) returns (r: Result<EvalResult, RunError>)
      ensures r == match currentVersionsetId
                   case None => Err(ArmNotSelected)
                   case Some(id) => Ok(w.provider(id, message))
    {
      match currentVersionsetId
      case None => r := Err(ArmNotSelected);
      case Some(id) => r := Ok(w.provider(id, message));
    }
  }

  // ---------- what one round is ----------

  /** The component digests each arm must show: the baseline 0 for the replaced layer, the fault 1 elsewhere. */
  function VersionKeys(arm: string): (string, string, string) {
    if arm == "RP" then ("P0", "K1", "M1")
    else if arm == "RK" then ("P1", "K0", "M1")
    else if arm == "RM" then ("P1", "K1", "M0")
    else if arm == "G" then ("P0", "K0", "M0")
    else ("P1", "K1", "M1")
  }

  function Digest(digests: map<string, string>, key: string): string {
    if key in digests then digests[key] else ""
  }

  function ExpectedVersions(plan: Plan, arm: string): Option<Versions> {
    var (p, k, m) := VersionKeys(arm);
    var v := Versions(Digest(plan.versionDigests, p), Digest(plan.versionDigests, k), Digest(plan.versionDigests, m));
    if v.prompt != "" && v.kb != "" && v.model != "" then Some(v) else None
  }

  predicate WellFormedPrior(run: ProbeRun, key: Key) {
    run.probeId == key.probeId && run.repetition == key.repetition && run.outputRef != "" && run.outputDigest != ""
  }

  /** Judge, store and checkpoint one provider answer. */
  function Record(w: World, key: Key, cell: Cell, result: EvalResult): Result<Cell, RunError> {
    if key.arm in w.frozenRefs && result.versionsetId != w.frozenRefs[key.arm] then
      Err(WrongVersionset(key.arm))
    else if cell.versions.Some? && result.versions != cell.versions.value then
      Err(WrongComponents(key.arm))
    else
      var (ref, digest) := w.persist(key, result);
      var run := ProbeRun(key.probeId, key.repetition, w.judge(key.probeId, result.answer), ref, digest, result.answer);
      var replacement := w.checkpoint(key.arm, run);
      if replacement.Some? && replacement.value != run.(outputRef := replacement.value.outputRef,
                                                        outputDigest := replacement.value.outputDigest) then
        Err(CallbackChangedResult)
      else
        var kept := if replacement.Some? then replacement.value else run;
        Ok(Cell(cell.runs + [kept], Some(result.versions), cell.calls + 1, cell.reused))
  }

  function RunTrial(w: World, prior: map<Key, ProbeRun>, key: Key, cell: Cell): Result<Cell, RunError>
    requires key.arm in w.versionsets && key.probeId in w.inputs
  {
    if key in prior then
      if WellFormedPrior(prior[key], key) then
        Ok(cell.(runs := cell.runs + [prior[key]], reused := cell.reused + 1))
      else
        Err(MalformedPrior(key))
    else
      Record(w, key, cell, w.provider(w.versionsets[key.arm], w.inputs[key.probeId]))
  }

  /** Repetitions 1..n of one probe. */
  function RunReps(w: World, prior: map<Key, ProbeRun>, arm: string, probeId: string, cell: Cell, n: nat)
    : Result<Cell, RunError>
    requires arm in w.versionsets && probeId in w.inputs
  {
    if n == 0 then Ok(cell)
    else
      var before :- RunReps(w, prior, arm, probeId, cell, n - 1);
      RunTrial(w, prior, Key(arm, probeId, n), before)
  }

  /** The first k probes of the order. */
  function RunProbes(w: World, prior: map<Key, ProbeRun>, arm: string, order: seq<string>, reps: nat, cell: Cell,
                     k: nat)
    : Result<Cell, RunError>
    requires arm in w.versionsets && k <= |order|
  {
    if k == 0 then Ok(cell)
    else
      var before :- RunProbes(w, prior, arm, order, reps, cell, k - 1);
      if order[k - 1] !in w.inputs then Err(UnknownProbe(order[k - 1]))
      else RunReps(w, prior, arm, order[k - 1], before, reps)
  }

  function Repetitions(plan: Plan): nat {
    if plan.repetitions < 0 then 0 else plan.repetitions
  }

  function RunCell(w: World, plan: Plan, prior: map<Key, ProbeRun>, arm: string, order: seq<string>)
    : Result<Cell, RunError>
    requires arm in w.versionsets
  {
    RunProbes(w, prior, arm, order, Repetitions(plan), Cell([], ExpectedVersions(plan, arm), 0, 0), |order|)
  }

  /** The first k arms. */
  function RunArms(w: World, plan: Plan, prior: map<Key, ProbeRun>, armOrder: seq<string>, order: seq<string>, k: nat)
    : Result<map<string, Cell>, RunError>
    requires k <= |armOrder| && forall i | 0 <= i < |armOrder| :: armOrder[i] in w.versionsets
  {
    if k == 0 then Ok(map[])
    else
      var before :- RunArms(w, plan, prior, armOrder, order, k - 1);
      var cell :- RunCell(w, plan, prior, armOrder[k - 1], order);
      Ok(before[armOrder[k - 1] := cell])
  }

  predicate InProtocol(plan: Plan, order: seq<string>, key: Key) {
    key.arm in ARMS && key.probeId in order && 1 <= key.repetition <= plan.repetitions
  }

  /** The trial is one of the frozen plan. */
  ghost predicate IsPlanned(plan: Plan, key: Key) {
    && key.arm in ["C", "RP", "RK", "RM", "G"]
    && (key.probeId in plan.discovery || key.probeId in plan.hiddenConfirmation
        || key.probeId in plan.unaffectedControls)
    && 1 <= key.repetition && key.repetition <= plan.repetitions
  }

  lemma PlannedExactly(plan: Plan, armOrder: seq<string>, order: seq<string>, key: Key)
    requires IsShuffle(plan, armOrder, order)
    ensures InProtocol(plan, order, key) <==> IsPlanned(plan, key)
  {
    assert key.probeId in order <==> key.probeId in multiset(order);
    assert key.probeId in plan.Affected() + plan.unaffectedControls
           <==> key.probeId in multiset(plan.Affected() + plan.unaffectedControls);
  }

  /** The shuffles of one seed: some order of the arms, and of the probes within each group. */
  ghost predicate IsShuffle(plan: Plan, armOrder: seq<string>, order: seq<string>) {
    && multiset(armOrder) == multiset(ARMS)
    && multiset(order) == multiset(plan.Affected() + plan.unaffectedControls)
  }

  /** The runner: the driver is pointed at each arm in turn, and the cells come out as `RunArms` says. */
  method RunRound(w: World, plan: Plan, driver: ImmutableVersionSetDriver, armOrder: seq<string>, order: seq<string>,
                  prior: map<Key, ProbeRun>)
    returns (r: Result<map<string, Cell>, RunError>)
    requires IsShuffle(plan, armOrder, order)
    requires driver.armVersionsets == w.versionsets && forall arm | arm in ARMS :: arm in w.versionsets
    modifies driver
    ensures (exists key | key in prior :: !IsPlanned(plan, key))
            ==> r.Err? && r.error.UnexpectedPrior? && r.error.key in prior && !IsPlanned(plan, r.error.key)
    ensures (forall key | key in prior :: IsPlanned(plan, key))
            ==> (forall i | 0 <= i < |armOrder| :: armOrder[i] in w.versionsets)
                && r == RunArms(w, plan, prior, armOrder, order, |armOrder|)
  {
    forall key | key in prior ensures InProtocol(plan, order, key) <==> IsPlanned(plan, key) {
      PlannedExactly(plan, armOrder, order, key);
    }
    hide InProtocol;
    hide IsPlanned;
    var unexpected := set key | key in prior && !InProtocol(plan, order, key);
    if unexpected != {} {
      var key :| key in unexpected;
      return Err(UnexpectedPrior(key));
    }
    NothingUnexpected(plan, order, prior, unexpected);
    ShuffledArms(armOrder);
    r := ExecuteArms(w, plan, driver, armOrder, order, prior);
  }

  method ExecuteArms(w: World, plan: Plan, driver: ImmutableVersionSetDriver, armOrder: seq<string>, order: seq<string>,
                     prior: map<Key, ProbeRun>)
    returns (r: Result<map<string, Cell>, RunError>)
    requires driver.armVersionsets == w.versionsets && forall i | 0 <= i < |armOrder| :: armOrder[i] in w.versionsets
    modifies driver
    ensures r == RunArms(w, plan, prior, armOrder, order, |armOrder|)
  {
    hide RunCell;
    var cells := map[];
    for a := 0 to |armOrder|
      invariant RunArms(w, plan, prior, armOrder, order, a) == Ok(cells)
    {
      driver.Setup(armOrder[a]);
      var cell := ExecuteCell(w, plan, driver, armOrder[a], order, prior);
      if cell.Err? {
        ArmErrorSurfaces(w, plan, prior, armOrder, order, a + 1, |armOrder|);
        return Err(cell.error);
      }
      cells := cells[armOrder[a] := cell.value];
    }
    r := Ok(cells);
  }

  /** The trials of the arm the driver points at. */
  method ExecuteCell(w: World, plan: Plan, driver: ImmutableVersionSetDriver, arm: string, order: seq<string>,
                     prior: map<Key, ProbeRun>)
    returns (r: Result<Cell, RunError>)
    requires arm in w.versionsets && driver.currentVersionsetId == Some(w.versionsets[arm])
    ensures r == RunCell(w, plan, prior, arm, order)
  {
    hide RunReps;
    hide ExpectedVersions;
    hide Repetitions;
    var reps, start := Repetitions(plan), Cell([], ExpectedVersions(plan, arm), 0, 0);
    var cell := start;
    for k := 0 to |order|
      invariant RunProbes(w, prior, arm, order, reps, start, k) == Ok(cell)
    {
      if order[k] !in w.inputs {
        ProbeErrorSurfaces(w, prior, arm, order, reps, start, k + 1, |order|);
        return Err(UnknownProbe(order[k]));
      }
      var probed := ExecuteProbe(w, driver, arm, order[k], reps, prior, cell);
      if probed.Err? {
        ProbeErrorSurfaces(w, prior, arm, order, reps, start, k + 1, |order|);
        return probed;
      }
      cell := probed.value;
    }
    r := Ok(cell);
  }

  method ExecuteProbe(w: World, driver: ImmutableVersionSetDriver, arm: string, probeId: string, reps: nat,
                      prior: map<Key, ProbeRun>, start: Cell)
    returns (r: Result<Cell, RunError>)
    requires arm in w.versionsets && driver.currentVersionsetId == Some(w.versionsets[arm]) && probeId in w.inputs
    ensures r == RunReps(w, prior, arm, probeId, start, reps)
  {
    var cell := start;
    for done := 0 to reps
      invariant RunReps(w, prior, arm, probeId, start, done) == Ok(cell)
    {
      var key := Key(arm, probeId, done + 1);
      var next: Result<Cell, RunError>;
      if key in prior {
        next := if WellFormedPrior(prior[key], key)
                then Ok(cell.(runs := cell.runs + [prior[key]], reused := cell.reused + 1))
                else Err(MalformedPrior(key));
      } else {
        var result := driver.Evaluate(w, w.inputs[probeId]);
        next := Record(w, key, cell, result.value);
      }
      if next.Err? {
        RepErrorSurfaces(w, prior, arm, probeId, start, done + 1, reps);
        return next;
      }
      cell := next.value;
    }
    r := Ok(cell);
  }

  lemma NothingUnexpected(plan: Plan, order: seq<string>, prior: map<Key, ProbeRun>, unexpected: set<Key>)
    requires unexpected == set key | key in prior && !InProtocol(plan, order, key)
    ensures unexpected == {} <==> forall key | key in prior :: InProtocol(plan, order, key)
  {
    if unexpected == {} {
      forall key | key in prior ensures InProtocol(plan, order, key) {
        assert key !in unexpected;
      }
    }
  }

  lemma ShuffledArms(armOrder: seq<string>)
    requires multiset(armOrder) == multiset(ARMS)
    ensures forall i | 0 <= i < |armOrder| :: armOrder[i] in ARMS
  {
    forall i | 0 <= i < |armOrder| ensures armOrder[i] in ARMS {
      assert armOrder[i] in multiset(armOrder);
    }
  }

  // ---------- an error is final ----------

  lemma {:induction false} RepErrorSurfaces(w: World, prior: map<Key, ProbeRun>, arm: string, probeId: string,
                                            cell: Cell, m: nat, n: nat)
    requires arm in w.versionsets && probeId in w.inputs && m <= n
    requires RunReps(w, prior, arm, probeId, cell, m).Err?
    ensures RunReps(w, prior, arm, probeId, cell, n) == RunReps(w, prior, arm, probeId, cell, m)
  {
    if m < n {
      RepErrorSurfaces(w, prior, arm, probeId, cell, m, n - 1);
    }
  }

  lemma {:induction false} ProbeErrorSurfaces(w: World, prior: map<Key, ProbeRun>, arm: string, order: seq<string>,
                                              reps: nat, cell: Cell, m: nat, n: nat)
    requires arm in w.versionsets && m <= n <= |order|
    requires RunProbes(w, prior, arm, order, reps, cell, m).Err?
    ensures RunProbes(w, prior, arm, order, reps, cell, n) == RunProbes(w, prior, arm, order, reps, cell, m)
  {
    if m < n {
      ProbeErrorSurfaces(w, prior, arm, order, reps, cell, m, n - 1);
    }
  }

  lemma {:induction false} ArmErrorSurfaces(w: World, plan: Plan, prior: map<Key, ProbeRun>, armOrder: seq<string>,
                                            order: seq<string>, m: nat, n: nat)
    requires m <= n <= |armOrder| && forall i | 0 <= i < |armOrder| :: armOrder[i] in w.versionsets
    requires RunArms(w, plan, prior, armOrder, order, m).Err?
    ensures RunArms(w, plan, prior, armOrder, order, n) == RunArms(w, plan, prior, armOrder, order, m)
  {
    if m < n {
      ArmErrorSurfaces(w, plan, prior, armOrder, order, m, n - 1);
    }
  }
}
