/** What a verdict says of the runs it was drawn from, on sets of trials and the bounds themselves. */
module VerdictMeaning {
  import opened Wrappers
  import opened Protocol
  import opened Stats
  import opened Newcombe
  import opened Adjudication
  import opened AdjudicationProofs

  // ---------- the statistics of a cell ----------

  ghost function AffectedTrials(plan: Plan, runs: seq<ProbeRun>): set<nat> {
    set i: nat | i < |runs| && (runs[i].probeId in plan.discovery || runs[i].probeId in plan.hiddenConfirmation)
  }

  ghost function ControlTrials(plan: Plan, runs: seq<ProbeRun>): set<nat> {
    set i: nat | i < |runs| && runs[i].probeId !in plan.discovery && runs[i].probeId !in plan.hiddenConfirmation
  }

  ghost function HiddenTrials(plan: Plan, runs: seq<ProbeRun>): set<nat> {
    set i: nat | i < |runs| && runs[i].probeId in plan.hiddenConfirmation
  }

  /** The share of the trials that recovered, 0 where there are none. */
  ghost function RateOn(runs: seq<ProbeRun>, trials: set<nat>): real {
    if trials == {} then 0.0
    else |set i | i in trials && i < |runs| && runs[i].recovered| as real / |trials| as real
  }

  /** The statistics of an arm are counts of its trials and shares of them that recovered. */
  lemma CellSays(plan: Plan, runs: seq<ProbeRun>)
    ensures AggregateCell(plan, runs)
            == CellStats(RateOn(runs, AffectedTrials(plan, runs)), |AffectedTrials(plan, runs)|,
                         RateOn(runs, ControlTrials(plan, runs)),
                         RateOn(runs, HiddenTrials(plan, runs)), |HiddenTrials(plan, runs)|)
  {
    assert AffectedTrials(plan, runs) == At(runs, IsAffected(plan));
    assert ControlTrials(plan, runs) == At(runs, IsControl(plan));
    assert HiddenTrials(plan, runs) == At(runs, IsHidden(plan));
    ShareSays(runs, IsAffected(plan));
    ShareSays(runs, IsControl(plan));
    ShareSays(runs, IsHidden(plan));
    hide AffectedTrials;
    hide ControlTrials;
    hide HiddenTrials;
    hide At;
    hide RateOn;
    hide CountRuns;
    hide Share;
  }

  ghost function At(runs: seq<ProbeRun>, wanted: ProbeRun -> bool): set<nat> {
    set i: nat | i < |runs| && wanted(runs[i])
  }

  lemma ShareSays(runs: seq<ProbeRun>, wanted: ProbeRun -> bool)
    ensures CountRuns(runs, wanted) == |At(runs, wanted)|
    ensures Share(runs, wanted) == RateOn(runs, At(runs, wanted))
  {
    var hit := (r: ProbeRun) => wanted(r) && r.recovered;
    var trials := At(runs, wanted);
    CountIsSize(runs, wanted);
    CountIsSize(runs, hit);
    assert (set i | i in trials && i < |runs| && runs[i].recovered) == At(runs, hit);
    assert Share(runs, wanted) == if |trials| == 0 then 0.0 else CountRuns(runs, hit) as real / |trials| as real;
  }

  lemma {:induction false} CountIsSize(runs: seq<ProbeRun>, wanted: ProbeRun -> bool)
    ensures CountRuns(runs, wanted) == |At(runs, wanted)|
  {
    if runs == [] {
      assert At(runs, wanted) == {};
    } else {
      var n := |runs| - 1;
      var front, last := runs[..n], [runs[n]];
      assert runs == front + last && last[1..] == [];
      CountSplit(front, last, wanted);
      CountIsSize(front, wanted);
      assert At(runs, wanted) == At(front, wanted) + if wanted(runs[n]) then {n} else {};
      assert n !in At(front, wanted);
    }
  }

  // ---------- the verdict ----------

  /** The lower bound of the arm's interval against the control, at the 97.5 % quantile, lies above δ_min. */
  ghost predicate Beats(sqrt: real -> real, arm: CellStats, c: CellStats, deltaMin: real) {
    var ci := NewcombeWilsonDiff(sqrt, arm.recoveryRate, arm.nTrials, c.recoveryRate, c.nTrials, 1.959964);
    ci.Ok? && ci.value.lower > deltaMin
  }

  /** Both arms ran hidden probes, and on those the arm is ahead with its lower bound above 0. */
  ghost predicate Reproduces(sqrt: real -> real, arm: CellStats, c: CellStats) {
    && arm.hiddenTrials > 0 && c.hiddenTrials > 0 && arm.hiddenRecoveryRate > c.hiddenRecoveryRate
    && var ci := NewcombeWilsonDiff(sqrt, arm.hiddenRecoveryRate, arm.hiddenTrials, c.hiddenRecoveryRate,
                                    c.hiddenTrials, 1.959964);
       ci.Ok? && ci.value.lower > 0.0
  }

  ghost predicate ControlsPassed(cells: map<string, CellStats>) {
    forall arm | arm in cells :: cells[arm].controlPassRate >= 1.0
  }

  /** Exactly when each verdict is given. */
  lemma VerdictExactly(sqrt: real -> real, cells: map<string, CellStats>, deltaMin: real)
    requires forall arm | arm in ["C", "RP", "RK", "RM", "G"] :: arm in cells
    requires Adjudicate(sqrt, cells, deltaMin).Ok?
    ensures "C" in cells && "RP" in cells && "RK" in cells && "RM" in cells && "G" in cells
    ensures var v, c := Adjudicate(sqrt, cells, deltaMin).value, cells["C"];
            var rp, rk := Beats(sqrt, cells["RP"], c, deltaMin), Beats(sqrt, cells["RK"], c, deltaMin);
            var rm, g := Beats(sqrt, cells["RM"], c, deltaMin), Beats(sqrt, cells["G"], c, deltaMin);
            var none := Verdict(Inconclusive, None, None, false, false, false);
            v == if !ControlsPassed(cells) then none.(reason := Some(EnvUntrusted))
                 else if !g then none.(reason := Some(BaselineNotRestored))
                 else if rp && !rk && !rm && Reproduces(sqrt, cells["RP"], c)
                   then Verdict(Attributed, Some("prompt"), None, false, false, true)
                 else if !rp && rk && !rm && Reproduces(sqrt, cells["RK"], c)
                   then Verdict(Attributed, Some("kb"), None, false, false, true)
                 else if !rp && !rk && rm && Reproduces(sqrt, cells["RM"], c)
                   then Verdict(Attributed, Some("model_params"), None, false, false, true)
                 else if (rp && !rk && !rm) || (!rp && rk && !rm) || (!rp && !rk && rm)
                   then none.(reason := Some(ConfirmationMismatch))
                 else Verdict(Confounded, None, None, true, true, false)
  {
    assert ["C", "RP", "RK", "RM", "G"] == ARMS;
    EffectsComputed(sqrt, cells, deltaMin);
    assert ControlsPassed(cells) <==> !ControlFailed(cells);
    hide Rules;
    hide ControlFailed;
    hide Adjudicate;
    EffectSays(sqrt, cells, "RP", deltaMin);
    EffectSays(sqrt, cells, "RK", deltaMin);
    EffectSays(sqrt, cells, "RM", deltaMin);
    EffectSays(sqrt, cells, "G", deltaMin);
    hide EffectOf;
    hide Computable;
    hide Beats;
    hide Reproduces;
    hide ControlsPassed;
    RulesInOrder(ControlFailed(cells),
                 EffectOf(sqrt, cells, "RP", deltaMin), EffectOf(sqrt, cells, "RK", deltaMin),
                 EffectOf(sqrt, cells, "RM", deltaMin), EffectOf(sqrt, cells, "G", deltaMin));
  }

  lemma EffectSays(sqrt: real -> real, cells: map<string, CellStats>, arm: string, deltaMin: real)
    requires arm in cells && "C" in cells && Computable(sqrt, cells, arm, deltaMin)
    ensures EffectOf(sqrt, cells, arm, deltaMin)
            == ArmEffect(Beats(sqrt, cells[arm], cells["C"], deltaMin), Reproduces(sqrt, cells[arm], cells["C"]))
  {
    hide NewcombeWilsonDiff;
  }

  lemma RulesInOrder(controlFailed: bool, rp: ArmEffect, rk: ArmEffect, rm: ArmEffect, g: ArmEffect)
    ensures Rules(controlFailed, rp, rk, rm, g)
            == if controlFailed then Verdict(Inconclusive, None, Some(EnvUntrusted), false, false, false)
               else if !g.significant then Verdict(Inconclusive, None, Some(BaselineNotRestored), false, false, false)
               else if rp.significant && !rk.significant && !rm.significant && rp.hiddenReproduced
                 then Verdict(Attributed, Some("prompt"), None, false, false, true)
               else if !rp.significant && rk.significant && !rm.significant && rk.hiddenReproduced
                 then Verdict(Attributed, Some("kb"), None, false, false, true)
               else if !rp.significant && !rk.significant && rm.significant && rm.hiddenReproduced
                 then Verdict(Attributed, Some("model_params"), None, false, false, true)
               else if (rp.significant && !rk.significant && !rm.significant)
                 || (!rp.significant && rk.significant && !rm.significant)
                 || (!rp.significant && !rk.significant && rm.significant)
                 then Verdict(Inconclusive, None, Some(ConfirmationMismatch), false, false, false)
               else Verdict(Confounded, None, None, true, true, false)
  {
    assert "RP"[1] == 'P' && "RK"[1] == 'K' && "RM"[1] == 'M';
  }

  // ---------- on runs ----------

  /** Aggregated runs are adjudicated exactly when each of the five arms has a trial on an affected probe. */
  lemma AdjudicatedExactly(sqrt: real -> real, plan: Plan, runs: map<string, seq<ProbeRun>>)
    requires IsSqrt(sqrt) && forall arm | arm in ARMS :: arm in runs
    requires "C" in runs && "RP" in runs && "RK" in runs && "RM" in runs && "G" in runs
    ensures Adjudicate(sqrt, Aggregate(plan, runs), plan.deltaMin).Ok? <==>
            && AffectedTrials(plan, runs["C"]) != {} && AffectedTrials(plan, runs["RP"]) != {}
            && AffectedTrials(plan, runs["RK"]) != {} && AffectedTrials(plan, runs["RM"]) != {}
            && AffectedTrials(plan, runs["G"]) != {}
  {
    var cells := Aggregate(plan, runs);
    EffectsComputed(sqrt, cells, plan.deltaMin);
    ArmDefined(sqrt, plan, runs, "RP");
    ArmDefined(sqrt, plan, runs, "RK");
    ArmDefined(sqrt, plan, runs, "RM");
    ArmDefined(sqrt, plan, runs, "G");
    hide *;
  }

  lemma ArmDefined(sqrt: real -> real, plan: Plan, runs: map<string, seq<ProbeRun>>, arm: string)
    requires IsSqrt(sqrt) && "C" in runs && arm in runs
    ensures Computable(sqrt, Aggregate(plan, runs), arm, plan.deltaMin)
            <==> AffectedTrials(plan, runs[arm]) != {} && AffectedTrials(plan, runs["C"]) != {}
  {
    var cells := Aggregate(plan, runs);
    assert cells["C"] == AggregateCell(plan, runs["C"]) && cells[arm] == AggregateCell(plan, runs[arm]);
    CellRates(plan, runs["C"]);
    CellRates(plan, runs[arm]);
    hide AggregateCell;
    hide AffectedTrials;
    hide Aggregate;
    EffectDefined(sqrt, cells, arm, plan.deltaMin);
    hide Computable;
  }

  lemma CellRates(plan: Plan, runs: seq<ProbeRun>)
    ensures var cell := AggregateCell(plan, runs);
            && (cell.nTrials > 0 <==> AffectedTrials(plan, runs) != {})
            && 0.0 <= cell.recoveryRate <= 1.0 && 0.0 <= cell.hiddenRecoveryRate <= 1.0
  {
    CellSays(plan, runs);
    ShareIsOne(runs, IsAffected(plan));
    ShareIsOne(runs, IsHidden(plan));
    hide AffectedTrials;
    hide Share;
  }

  lemma EffectDefined(sqrt: real -> real, cells: map<string, CellStats>, arm: string, deltaMin: real)
    requires IsSqrt(sqrt) && arm in cells && "C" in cells
    requires 0.0 <= cells[arm].recoveryRate <= 1.0 && 0.0 <= cells[arm].hiddenRecoveryRate <= 1.0
    requires 0.0 <= cells["C"].recoveryRate <= 1.0 && 0.0 <= cells["C"].hiddenRecoveryRate <= 1.0
    ensures Computable(sqrt, cells, arm, deltaMin) <==> cells[arm].nTrials > 0 && cells["C"].nTrials > 0
  {
    var a, c := cells[arm], cells["C"];
    HoldsDifference(sqrt, a.recoveryRate, a.nTrials, c.recoveryRate, c.nTrials, Z_975);
    HoldsDifference(sqrt, a.hiddenRecoveryRate, a.hiddenTrials, c.hiddenRecoveryRate, c.hiddenTrials, Z_975);
    hide NewcombeWilsonDiff;
  }

  /** There are control trials, and all of them recovered. */
  ghost predicate ControlsRecovered(plan: Plan, runs: seq<ProbeRun>) {
    ControlTrials(plan, runs) != {} && forall i | i in ControlTrials(plan, runs) :: runs[i].recovered
  }

  /** The share that recovered is higher than the other by more than the gap. */
  ghost predicate Ahead(runs: seq<ProbeRun>, trials: set<nat>, others: seq<ProbeRun>, theirs: set<nat>, gap: real) {
    RateOn(runs, trials) - RateOn(others, theirs) > gap
  }

  /** Behind an attribution to an arm's layer: all controls ran and passed in every arm, and the share of affected
    trials that recovered is higher than the control's by more than δ_min in the baseline arm and in the
    blamed arm, as is the blamed arm's share of hidden trials. */
  lemma AttributedOnRuns(sqrt: real -> real, plan: Plan, runs: map<string, seq<ProbeRun>>) returns (blamed: string)
    requires IsSqrt(sqrt) && forall arm | arm in ARMS :: arm in runs
    requires var r := Adjudicate(sqrt, Aggregate(plan, runs), plan.deltaMin); r.Ok? && r.value.decision.Attributed?
    ensures (blamed, Adjudicate(sqrt, Aggregate(plan, runs), plan.deltaMin).value.layer)
            in [("RP", Some("prompt")), ("RK", Some("kb")), ("RM", Some("model_params"))]
    ensures "C" in runs && "G" in runs && blamed in runs
    ensures forall arm | arm in runs :: ControlsRecovered(plan, runs[arm])
    ensures Ahead(runs["G"], AffectedTrials(plan, runs["G"]), runs["C"], AffectedTrials(plan, runs["C"]), plan.deltaMin)
    ensures Ahead(runs[blamed], AffectedTrials(plan, runs[blamed]), runs["C"], AffectedTrials(plan, runs["C"]),
                  plan.deltaMin)
    ensures Ahead(runs[blamed], HiddenTrials(plan, runs[blamed]), runs["C"], HiddenTrials(plan, runs["C"]), 0.0)
  {
    hide *;
    blamed := AttributedSound(sqrt, plan, runs);
    LayersDiffer();
    forall arm | arm in runs ensures ControlsRecovered(plan, runs[arm]) {
      ControlsSay(plan, runs[arm]);
    }
    SharesSay(plan, runs["C"]);
    SharesSay(plan, runs["G"]);
    SharesSay(plan, runs[blamed]);
    AheadBy(runs["G"], AffectedTrials(plan, runs["G"]), runs["C"], AffectedTrials(plan, runs["C"]), plan.deltaMin);
    AheadBy(runs[blamed], AffectedTrials(plan, runs[blamed]), runs["C"], AffectedTrials(plan, runs["C"]),
            plan.deltaMin);
    AheadBy(runs[blamed], HiddenTrials(plan, runs[blamed]), runs["C"], HiddenTrials(plan, runs["C"]), 0.0);
  }

  lemma AheadBy(runs: seq<ProbeRun>, trials: set<nat>, others: seq<ProbeRun>, theirs: set<nat>, gap: real)
    ensures Ahead(runs, trials, others, theirs, gap) <==> RateOn(runs, trials) - RateOn(others, theirs) > gap
  {
  }

  lemma ControlsSay(plan: Plan, runs: seq<ProbeRun>)
    requires EveryControlPassed(plan, runs)
    ensures ControlsRecovered(plan, runs)
  {
    var i :| 0 <= i < |runs| && runs[i].probeId !in plan.Affected();
    assert i in ControlTrials(plan, runs);
  }

  lemma SharesSay(plan: Plan, runs: seq<ProbeRun>)
    ensures Share(runs, IsAffected(plan)) == RateOn(runs, AffectedTrials(plan, runs))
    ensures Share(runs, IsHidden(plan)) == RateOn(runs, HiddenTrials(plan, runs))
  {
    CellSays(plan, runs);
    hide RateOn;
    hide Share;
    hide AffectedTrials;
    hide HiddenTrials;
  }
}
