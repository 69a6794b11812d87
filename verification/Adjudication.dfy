/** Aggregation of probe runs and the ordered rules R1-R5 of adjudicate.py. */
module Adjudication {
  import opened Wrappers
  import opened Protocol
  import opened Stats

  datatype CellStats = CellStats(
    recoveryRate: real,
    nTrials: int,
    controlPassRate: real,
    hiddenRecoveryRate: real,
    hiddenTrials: int)

  datatype ArmEffect = ArmEffect(significant: bool, hiddenReproduced: bool)

  datatype Decision = Attributed | Inconclusive | Confounded

  datatype Reason = EnvUntrusted | BaselineNotRestored | ConfirmationMismatch

  datatype Verdict = Verdict(
    decision: Decision,
    layer: Option<string>,
    reason: Option<Reason>,
    interactionDetected: bool,
    fullFactorialRequired: bool,
    hiddenReproduced: bool)

  const SINGLE_FACTOR_ARMS: seq<string> := ["RP", "RK", "RM"]

  function Layer(arm: string): string {
    if arm == "RP" then "prompt" else if arm == "RK" then "kb" else "model_params"
  }

  // ---------- _aggregate ----------

  function CountRuns(runs: seq<ProbeRun>, wanted: ProbeRun -> bool): nat {
    if runs == [] then 0 else (if wanted(runs[0]) then 1 else 0) + CountRuns(runs[1..], wanted)
  }

  /** Recovered over all of the wanted runs, and 0 when there are none. */
  function Share(runs: seq<ProbeRun>, wanted: ProbeRun -> bool): real {
    var total := CountRuns(runs, wanted);
    if total == 0 then 0.0
    else CountRuns(runs, (r: ProbeRun) => wanted(r) && r.recovered) as real / total as real
  }

  function IsAffected(plan: Plan): ProbeRun -> bool {
    (r: ProbeRun) => r.probeId in plan.Affected()
  }

  function IsControl(plan: Plan): ProbeRun -> bool {
    (r: ProbeRun) => r.probeId !in plan.Affected()
  }

  function IsHidden(plan: Plan): ProbeRun -> bool {
    (r: ProbeRun) => r.probeId in plan.hiddenConfirmation
  }

  function AggregateCell(plan: Plan, runs: seq<ProbeRun>): CellStats {
    CellStats(Share(runs, IsAffected(plan)), CountRuns(runs, IsAffected(plan)), Share(runs, IsControl(plan)),
              Share(runs, IsHidden(plan)), CountRuns(runs, IsHidden(plan)))
  }

  function Aggregate(plan: Plan, runs: map<string, seq<ProbeRun>>): (cells: map<string, CellStats>)
    ensures cells.Keys == runs.Keys
  {
    map arm | arm in runs :: AggregateCell(plan, runs[arm])
  }

  // ---------- _effect and adjudicate ----------

  function Effect(sqrt: real -> real, arm: CellStats, c: CellStats, deltaMin: real): Result<ArmEffect, StatsError> {
    var ci :- NewcombeWilsonDiff(sqrt, arm.recoveryRate, arm.nTrials, c.recoveryRate, c.nTrials, Z_975);
    var significant := SignificantPositive(ci.lower, deltaMin);
    if arm.hiddenTrials > 0 && c.hiddenTrials > 0 then
      var hidden :- NewcombeWilsonDiff(sqrt, arm.hiddenRecoveryRate, arm.hiddenTrials,
                                       c.hiddenRecoveryRate, c.hiddenTrials, Z_975);
      Ok(ArmEffect(significant, arm.hiddenRecoveryRate - c.hiddenRecoveryRate > 0.0 && hidden.lower > 0.0))
    else
      Ok(ArmEffect(significant, false))
  }

  function Adjudicate(sqrt: real -> real, cells: map<string, CellStats>, deltaMin: real): Result<Verdict, StatsError>
    requires forall arm | arm in ARMS :: arm in cells
  {
    var c := cells["C"];
    var rp :- Effect(sqrt, cells["RP"], c, deltaMin);
    var rk :- Effect(sqrt, cells["RK"], c, deltaMin);
    var rm :- Effect(sqrt, cells["RM"], c, deltaMin);
    var g :- Effect(sqrt, cells["G"], c, deltaMin);
    Ok(Rules((exists arm | arm in cells :: cells[arm].controlPassRate < 1.0), rp, rk, rm, g))
  }

  /** R1 to R5, the first that applies. */
  function Rules(controlFailed: bool, rp: ArmEffect, rk: ArmEffect, rm: ArmEffect, g: ArmEffect): Verdict {
    if controlFailed then
      Verdict(Inconclusive, None, Some(EnvUntrusted), false, false, false)
    else if !g.significant then
      Verdict(Inconclusive, None, Some(BaselineNotRestored), false, false, false)
    else
      var sigArms := (if rp.significant then ["RP"] else []) + (if rk.significant then ["RK"] else [])
                     + (if rm.significant then ["RM"] else []);
      if |sigArms| >= 2 || |sigArms| == 0 then
        Verdict(Confounded, None, None, true, true, false)
      else
        var arm := sigArms[0];
        var eff := if arm == "RP" then rp else if arm == "RK" then rk else rm;
        if eff.hiddenReproduced then
          Verdict(Attributed, Some(Layer(arm)), None, false, false, true)
        else
          Verdict(Inconclusive, None, Some(ConfirmationMismatch), false, false, false)
  }
}
