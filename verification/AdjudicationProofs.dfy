/** What a verdict means for the runs it was drawn from. */
module AdjudicationProofs {
  import opened Wrappers
  import opened Protocol
  import opened Stats
  import opened Wilson
  import opened Newcombe
  import opened Adjudication

  // ---------- the meaning of the aggregated rates ----------

  lemma {:induction false} CountBounds(runs: seq<ProbeRun>, wanted: ProbeRun -> bool)
    ensures CountRuns(runs, (r: ProbeRun) => wanted(r) && r.recovered) <= CountRuns(runs, wanted)
    ensures CountRuns(runs, (r: ProbeRun) => wanted(r) && r.recovered) == CountRuns(runs, wanted)
            <==> forall i | 0 <= i < |runs| && wanted(runs[i]) :: runs[i].recovered
    ensures CountRuns(runs, wanted) > 0 <==> exists i | 0 <= i < |runs| :: wanted(runs[i])
  {
    if runs != [] {
      CountBounds(runs[1..], wanted);
      assert forall i | 0 <= i < |runs| :: runs[i] == if i == 0 then runs[0] else runs[1..][i - 1];
      if CountRuns(runs[1..], wanted) > 0 {
        var i :| 0 <= i < |runs[1..]| && wanted(runs[1..][i]);
        assert wanted(runs[i + 1]);
      }
    }
  }

  /** A share is below 1 unless there are wanted runs and all of them recovered. */
  lemma ShareIsOne(runs: seq<ProbeRun>, wanted: ProbeRun -> bool)
    ensures 0.0 <= Share(runs, wanted) <= 1.0
    ensures Share(runs, wanted) >= 1.0
            <==> && (exists i | 0 <= i < |runs| :: wanted(runs[i]))
                 && (forall i | 0 <= i < |runs| && wanted(runs[i]) :: runs[i].recovered)
  {
    CountBounds(runs, wanted);
    var total, hits := CountRuns(runs, wanted), CountRuns(runs, (r: ProbeRun) => wanted(r) && r.recovered);
    if total > 0 {
      RateRange(hits, total);
      assert Share(runs, wanted) == Rate(hits, total);
      if hits < total {
        assert Rate(hits, total) * total as real < total as real;
      } else {
        AllRate(total);
      }
    }
  }

  // ---------- ATTRIBUTED is sound ----------

  lemma SignificantMeansMore(sqrt: real -> real, arm: CellStats, c: CellStats, deltaMin: real)
    requires IsSqrt(sqrt) && Effect(sqrt, arm, c, deltaMin).Ok?
    ensures var e := Effect(sqrt, arm, c, deltaMin).value;
            && (e.significant ==> arm.recoveryRate - c.recoveryRate > deltaMin)
            && (e.hiddenReproduced ==> arm.hiddenTrials > 0 && c.hiddenTrials > 0
                                       && arm.hiddenRecoveryRate > c.hiddenRecoveryRate)
  {
    HoldsDifference(sqrt, arm.recoveryRate, arm.nTrials, c.recoveryRate, c.nTrials, Z_975);
  }

  /** An arm's effect against the control, when it can be computed. */
  function EffectOf(sqrt: real -> real, cells: map<string, CellStats>, arm: string, deltaMin: real): ArmEffect
    requires arm in cells && "C" in cells
  {
    var e := Effect(sqrt, cells[arm], cells["C"], deltaMin);
    if e.Ok? then e.value else ArmEffect(false, false)
  }

  ghost predicate OnlySignificantArm(sqrt: real -> real, cells: map<string, CellStats>, arm: string, deltaMin: real)
    requires "C" in cells && "RP" in cells && "RK" in cells && "RM" in cells
  {
    && arm in ["RP", "RK", "RM"]
    && (EffectOf(sqrt, cells, "RP", deltaMin).significant <==> arm == "RP")
    && (EffectOf(sqrt, cells, "RK", deltaMin).significant <==> arm == "RK")
    && (EffectOf(sqrt, cells, "RM", deltaMin).significant <==> arm == "RM")
  }

  /** `arm` is the only single-factor arm that recovers significantly, and it does so on hidden probes too. */
  ghost predicate OnlyReproducedArm(sqrt: real -> real, cells: map<string, CellStats>, arm: string, deltaMin: real)
    requires "C" in cells && "RP" in cells && "RK" in cells && "RM" in cells
  {
    arm in cells && EffectOf(sqrt, cells, arm, deltaMin).hiddenReproduced
      && OnlySignificantArm(sqrt, cells, arm, deltaMin)
  }

  ghost predicate Trusted(sqrt: real -> real, cells: map<string, CellStats>, deltaMin: real)
    requires "C" in cells && "G" in cells
  {
    !ControlFailed(cells) && EffectOf(sqrt, cells, "G", deltaMin).significant
  }

  lemma RulesTable(controlFailed: bool, rp: ArmEffect, rk: ArmEffect, rm: ArmEffect, g: ArmEffect)
    ensures var v := Rules(controlFailed, rp, rk, rm, g);
            var trusted := !controlFailed && g.significant;
            && (v.decision.Attributed? <==> v.layer.Some?)
            && (v.layer == Some("prompt") <==>
                trusted && rp.significant && !rk.significant && !rm.significant && rp.hiddenReproduced)
            && (v.layer == Some("kb") <==>
                trusted && !rp.significant && rk.significant && !rm.significant && rk.hiddenReproduced)
            && (v.layer == Some("model_params") <==>
                trusted && !rp.significant && !rk.significant && rm.significant && rm.hiddenReproduced)
            && (v.layer.Some? ==> v.layer.value in ["prompt", "kb", "model_params"])
  {
    assert "prompt"[0] == 'p' && "kb"[0] == 'k' && "model_params"[0] == 'm';
    assert "RP"[1] == 'P' && "RK"[1] == 'K' && "RM"[1] == 'M';
  }

  ghost predicate Computable(sqrt: real -> real, cells: map<string, CellStats>, arm: string, deltaMin: real)
    requires arm in cells && "C" in cells
  {
    Effect(sqrt, cells[arm], cells["C"], deltaMin).Ok?
  }

  ghost predicate ControlFailed(cells: map<string, CellStats>) {
    exists arm | arm in cells :: cells[arm].controlPassRate < 1.0
  }

  lemma EffectsComputed(sqrt: real -> real, cells: map<string, CellStats>, deltaMin: real)
    requires forall arm | arm in ARMS :: arm in cells
    ensures "C" in cells && "RP" in cells && "RK" in cells && "RM" in cells && "G" in cells
    ensures var r := Adjudicate(sqrt, cells, deltaMin);
            && (r.Ok? <==> Computable(sqrt, cells, "RP", deltaMin) && Computable(sqrt, cells, "RK", deltaMin)
                           && Computable(sqrt, cells, "RM", deltaMin) && Computable(sqrt, cells, "G", deltaMin))
            && (r.Ok? ==> r.value == Rules(ControlFailed(cells),
                            EffectOf(sqrt, cells, "RP", deltaMin), EffectOf(sqrt, cells, "RK", deltaMin),
                            EffectOf(sqrt, cells, "RM", deltaMin), EffectOf(sqrt, cells, "G", deltaMin)))
  {
    assert ARMS[0] == "C" && ARMS[1] == "RP" && ARMS[2] == "RK" && ARMS[3] == "RM" && ARMS[4] == "G";
    assert ARMS[0] in cells && ARMS[1] in cells && ARMS[2] in cells && ARMS[3] in cells && ARMS[4] in cells;
  }

  /** Exactly when a verdict attributes the fault, and to which layer. */
  lemma AttributedExactly(sqrt: real -> real, cells: map<string, CellStats>, deltaMin: real)
    requires forall arm | arm in ARMS :: arm in cells
    requires Adjudicate(sqrt, cells, deltaMin).Ok?
    ensures "C" in cells && "RP" in cells && "RK" in cells && "RM" in cells && "G" in cells
    ensures var v := Adjudicate(sqrt, cells, deltaMin).value;
            && (v.decision.Attributed? <==> v.layer.Some?)
            && (v.layer.Some? ==> v.layer.value in ["prompt", "kb", "model_params"])
            && forall arm | arm in ["RP", "RK", "RM"] ::
                 v.layer == Some(Layer(arm))
                 <==> Trusted(sqrt, cells, deltaMin) && OnlyReproducedArm(sqrt, cells, arm, deltaMin)
  {
    EffectsComputed(sqrt, cells, deltaMin);
    RulesTable(ControlFailed(cells),
               EffectOf(sqrt, cells, "RP", deltaMin), EffectOf(sqrt, cells, "RK", deltaMin),
               EffectOf(sqrt, cells, "RM", deltaMin), EffectOf(sqrt, cells, "G", deltaMin));
    assert "RP"[1] == 'P' && "RK"[1] == 'K' && "RM"[1] == 'M';
  }

  /** Exactly when each of the other verdicts is given, and that only a confounded one asks for the full
    factorial. */
  lemma VerdictClassified(sqrt: real -> real, cells: map<string, CellStats>, deltaMin: real)
    requires forall arm | arm in ARMS :: arm in cells
    requires Adjudicate(sqrt, cells, deltaMin).Ok?
    ensures "C" in cells && "RP" in cells && "RK" in cells && "RM" in cells && "G" in cells
    ensures var v := Adjudicate(sqrt, cells, deltaMin).value;
            var single := exists arm | arm in ["RP", "RK", "RM"] :: OnlySignificantArm(sqrt, cells, arm, deltaMin);
            && (v.reason == Some(EnvUntrusted) <==> ControlFailed(cells))
            && (v.reason == Some(BaselineNotRestored) <==>
                !ControlFailed(cells) && !EffectOf(sqrt, cells, "G", deltaMin).significant)
            && (v.decision.Confounded? <==> Trusted(sqrt, cells, deltaMin) && !single)
            && (v.reason == Some(ConfirmationMismatch) <==>
                && Trusted(sqrt, cells, deltaMin)
                && exists arm | arm in ["RP", "RK", "RM"] && OnlySignificantArm(sqrt, cells, arm, deltaMin) ::
                     !EffectOf(sqrt, cells, arm, deltaMin).hiddenReproduced)
            && (v.decision.Inconclusive? <==> v.reason.Some?)
            && (v.fullFactorialRequired <==> v.decision.Confounded?) && (v.hiddenReproduced <==> v.decision.Attributed?)
  {
    EffectsComputed(sqrt, cells, deltaMin);
    var rp, rk := EffectOf(sqrt, cells, "RP", deltaMin), EffectOf(sqrt, cells, "RK", deltaMin);
    var rm, g := EffectOf(sqrt, cells, "RM", deltaMin), EffectOf(sqrt, cells, "G", deltaMin);
    hide Adjudicate;
    hide EffectOf;
    hide ControlFailed;
    assert "RP"[1] == 'P' && "RK"[1] == 'K' && "RM"[1] == 'M';
    assert OnlySignificantArm(sqrt, cells, "RP", deltaMin) <==> rp.significant && !rk.significant && !rm.significant;
    assert OnlySignificantArm(sqrt, cells, "RK", deltaMin) <==> !rp.significant && rk.significant && !rm.significant;
    assert OnlySignificantArm(sqrt, cells, "RM", deltaMin) <==> !rp.significant && !rk.significant && rm.significant;
    if g.significant {
      RulesByCount(rp, rk, rm, g);
    }
    hide OnlySignificantArm;
  }

  ghost predicate EveryControlPassed(plan: Plan, runs: seq<ProbeRun>) {
    && (exists i | 0 <= i < |runs| :: runs[i].probeId !in plan.Affected())
    && (forall i | 0 <= i < |runs| && runs[i].probeId !in plan.Affected() :: runs[i].recovered)
  }

  /** Soundness: behind an attribution, every control run passed in every arm, the baseline arm and the
    blamed arm beat the control by more than δ_min in raw recovery rate, the blamed arm alone among the
    single-factor arms is significant, and it beats the control on hidden probes as well. */
  lemma AttributedSound(sqrt: real -> real, plan: Plan, runs: map<string, seq<ProbeRun>>) returns (blamed: string)
    requires IsSqrt(sqrt) && forall arm | arm in ARMS :: arm in runs
    requires var r := Adjudicate(sqrt, Aggregate(plan, runs), plan.deltaMin); r.Ok? && r.value.decision.Attributed?
    ensures forall arm | arm in runs :: EveryControlPassed(plan, runs[arm])
    ensures "C" in runs && "RP" in runs && "RK" in runs && "RM" in runs && "G" in runs
    ensures Share(runs["G"], IsAffected(plan)) - Share(runs["C"], IsAffected(plan)) > plan.deltaMin
    ensures blamed in ["RP", "RK", "RM"] && blamed in runs
    ensures Adjudicate(sqrt, Aggregate(plan, runs), plan.deltaMin).value.layer == Some(Layer(blamed))
    ensures OnlyReproducedArm(sqrt, Aggregate(plan, runs), blamed, plan.deltaMin)
    ensures Share(runs[blamed], IsAffected(plan)) - Share(runs["C"], IsAffected(plan)) > plan.deltaMin
    ensures Share(runs[blamed], IsHidden(plan)) > Share(runs["C"], IsHidden(plan))
  {
    hide Rules;
    hide Adjudicate;
    hide Effect;
    hide Share;
    hide CountRuns;
    var cells := Aggregate(plan, runs);
    EffectsComputed(sqrt, cells, plan.deltaMin);
    AttributedExactly(sqrt, cells, plan.deltaMin);
    var layer := Adjudicate(sqrt, cells, plan.deltaMin).value.layer.value;
    blamed := if layer == "prompt" then "RP" else if layer == "kb" then "RK" else "RM";
    assert layer == Layer(blamed);
    forall arm | arm in runs ensures EveryControlPassed(plan, runs[arm]) {
      assert cells[arm].controlPassRate >= 1.0;
      ShareIsOne(runs[arm], IsControl(plan));
    }
    SignificantMeansMore(sqrt, cells["G"], cells["C"], plan.deltaMin);
    SignificantMeansMore(sqrt, cells[blamed], cells["C"], plan.deltaMin);
  }

  // ---------- what the verdict does not say ----------

  /** The upper Wilson bound of no success in thirty trials. */
  const ZERO_OF_THIRTY: real := Z_975 * Z_975 / (30.0 + Z_975 * Z_975)

  lemma ThirtyTrials(sqrt: real -> real)
    requires IsSqrt(sqrt)
    ensures Rate(0, 30) == 0.0 && Rate(30, 30) == 1.0
    ensures Upper(sqrt, 0.0, 30, Z_975) == ZERO_OF_THIRTY && Lower(sqrt, 1.0, 30, Z_975) == 1.0 - ZERO_OF_THIRTY
    ensures 0.11 < ZERO_OF_THIRTY < 0.12
  {
    ZeroOfThirty();
    AllRate(30);
    AllSuccesses(sqrt, 30, Z_975);
    IntervalEncloses(sqrt, 30, 30, Z_975);
    hide Lower;
    hide Upper;
    hide WilsonInterval;
    Complement(sqrt, 0.0, 30, Z_975);
  }

  lemma ZeroOfThirty()
    ensures ZERO_OF_THIRTY == 1.0 - 30.0 / (30.0 + Z_975 * Z_975) && 0.11 < ZERO_OF_THIRTY < 0.12
  {
  }

  /** An arm with every trial recovered against a control with none is significant and reproduced;
    one with a single recovery in thirty is not, although its raw rate is higher than the control's. */
  lemma AllOneAndNone(sqrt: real -> real)
    requires IsSqrt(sqrt)
    ensures var all := Difference(sqrt, 30, 30, 0, 30, Z_975); all.Ok? && all.value.lower > 0.0
    ensures var one := Difference(sqrt, 1, 30, 0, 30, Z_975); one.Ok? && one.value.lower <= 0.0
    ensures var none := Difference(sqrt, 0, 30, 0, 30, Z_975); none.Ok? && none.value.lower <= 0.0
  {
    ThirtyTrials(sqrt);
    DifferenceUnclamped(sqrt, 30, 30, 0, 30, Z_975);
    DifferenceUnclamped(sqrt, 1, 30, 0, 30, Z_975);
    DifferenceUnclamped(sqrt, 0, 30, 0, 30, Z_975);
    ReachAtMostSum(sqrt, 1.0 - Lower(sqrt, 1.0, 30, Z_975), Upper(sqrt, 0.0, 30, Z_975) - 0.0);
    ReachAtLeast(sqrt, Rate(1, 30) - Lower(sqrt, Rate(1, 30), 30, Z_975), Upper(sqrt, 0.0, 30, Z_975) - 0.0);
    ReachAtLeast(sqrt, 0.0 - Lower(sqrt, 0.0, 30, Z_975), Upper(sqrt, 0.0, 30, Z_975) - 0.0);
  }

  function Thirty(recovered: nat): CellStats {
    CellStats(Rate(recovered, 30), 30, 1.0, Rate(recovered, 30), 30)
  }

  lemma ThirtyEffects(sqrt: real -> real)
    requires IsSqrt(sqrt)
    ensures Effect(sqrt, Thirty(30), Thirty(0), 0.0) == Ok(ArmEffect(true, true))
    ensures Effect(sqrt, Thirty(1), Thirty(0), 0.0).Ok? && !Effect(sqrt, Thirty(1), Thirty(0), 0.0).value.significant
    ensures Effect(sqrt, Thirty(0), Thirty(0), 0.0).Ok? && !Effect(sqrt, Thirty(0), Thirty(0), 0.0).value.significant
    ensures Thirty(30).recoveryRate > Thirty(0).recoveryRate && Thirty(1).recoveryRate > Thirty(0).recoveryRate
    ensures Thirty(0).controlPassRate == Thirty(1).controlPassRate == Thirty(30).controlPassRate == 1.0
  {
    AllOneAndNone(sqrt);
    ThirtyTrials(sqrt);
  }

  /** ATTRIBUTED does not mean that only the blamed arm beats the control by more than δ_min in raw rate:
    only the significance is exclusive. */
  lemma RawRateNotExclusive(sqrt: real -> real, cells: map<string, CellStats>)
    requires IsSqrt(sqrt)
    requires cells == map["C" := Thirty(0), "RP" := Thirty(30), "RK" := Thirty(1), "RM" := Thirty(0), "G" := Thirty(30)]
    ensures forall arm | arm in ARMS :: arm in cells
    ensures var r := Adjudicate(sqrt, cells, 0.0); r.Ok? && r.value.layer == Some("prompt")
    ensures cells["RP"].recoveryRate - cells["C"].recoveryRate > 0.0
    ensures cells["RK"].recoveryRate - cells["C"].recoveryRate > 0.0
  {
    ThirtyEffects(sqrt);
    hide Rules;
    hide Adjudicate;
    hide Effect;
    hide Thirty;
    hide EffectOf;
    hide ControlFailed;
    assert "RP"[1] == 'P' && "RK"[1] == 'K' && "RM"[1] == 'M' && "C"[0] == 'C' && "G"[0] == 'G';
    ThirtyCells(sqrt, cells);
    EffectsComputed(sqrt, cells, 0.0);
    RulesTable(false, EffectOf(sqrt, cells, "RP", 0.0), EffectOf(sqrt, cells, "RK", 0.0),
               EffectOf(sqrt, cells, "RM", 0.0), EffectOf(sqrt, cells, "G", 0.0));
  }

  lemma ThirtyCells(sqrt: real -> real, cells: map<string, CellStats>)
    requires IsSqrt(sqrt)
    requires cells == map["C" := Thirty(0), "RP" := Thirty(30), "RK" := Thirty(1), "RM" := Thirty(0), "G" := Thirty(30)]
    ensures forall arm | arm in ARMS :: arm in cells
    ensures cells["C"] == Thirty(0) && cells["RP"] == Thirty(30) && cells["RK"] == Thirty(1) && cells["G"] == Thirty(30)
    ensures !ControlFailed(cells)
    ensures Computable(sqrt, cells, "RP", 0.0) && EffectOf(sqrt, cells, "RP", 0.0) == ArmEffect(true, true)
    ensures Computable(sqrt, cells, "G", 0.0) && EffectOf(sqrt, cells, "G", 0.0) == ArmEffect(true, true)
    ensures Computable(sqrt, cells, "RK", 0.0) && !EffectOf(sqrt, cells, "RK", 0.0).significant
    ensures Computable(sqrt, cells, "RM", 0.0) && !EffectOf(sqrt, cells, "RM", 0.0).significant
  {
    ThirtyEffects(sqrt);
    hide *;
    FiveArms(cells, Thirty(0), Thirty(1), Thirty(30));
    EffectOfCell(sqrt, cells, "RP", 0.0);
    EffectOfCell(sqrt, cells, "RK", 0.0);
    EffectOfCell(sqrt, cells, "RM", 0.0);
    EffectOfCell(sqrt, cells, "G", 0.0);
  }

  lemma FiveArms(cells: map<string, CellStats>, none: CellStats, one: CellStats, all: CellStats)
    requires cells == map["C" := none, "RP" := all, "RK" := one, "RM" := none, "G" := all]
    ensures forall arm | arm in ARMS :: arm in cells
    ensures cells["C"] == none && cells["RP"] == all && cells["RK"] == one && cells["RM"] == none && cells["G"] == all
    ensures none.controlPassRate == one.controlPassRate == all.controlPassRate == 1.0 ==> !ControlFailed(cells)
  {
    assert "RP"[1] == 'P' && "RK"[1] == 'K' && "RM"[1] == 'M' && "C"[0] == 'C' && "G"[0] == 'G';
  }

  lemma EffectOfCell(sqrt: real -> real, cells: map<string, CellStats>, arm: string, deltaMin: real)
    requires arm in cells && "C" in cells
    ensures Computable(sqrt, cells, arm, deltaMin) == Effect(sqrt, cells[arm], cells["C"], deltaMin).Ok?
    ensures Effect(sqrt, cells[arm], cells["C"], deltaMin).Ok?
            ==> EffectOf(sqrt, cells, arm, deltaMin) == Effect(sqrt, cells[arm], cells["C"], deltaMin).value
  {
    hide Effect;
  }

  /** Under an attribution the significant single-factor arm is the blamed one. */
  lemma SignificantIffBlamed(sqrt: real -> real, cells: map<string, CellStats>, arm: string, deltaMin: real)
    requires arm in ["RP", "RK", "RM"] && forall a | a in ARMS :: a in cells
    requires var r := Adjudicate(sqrt, cells, deltaMin); r.Ok? && r.value.decision.Attributed?
    ensures arm in cells && "C" in cells
    ensures EffectOf(sqrt, cells, arm, deltaMin).significant
            <==> Adjudicate(sqrt, cells, deltaMin).value.layer == Some(Layer(arm))
  {
    AttributedExactly(sqrt, cells, deltaMin);
    hide Adjudicate;
    hide EffectOf;
    var layer := Adjudicate(sqrt, cells, deltaMin).value.layer.value;
    var blamed := if layer == "prompt" then "RP" else if layer == "kb" then "RK" else "RM";
    assert layer == Layer(blamed);
    assert OnlyReproducedArm(sqrt, cells, blamed, deltaMin);
  }

  // ---------- order of runs, names of arms ----------

  /** Take one run out of a sequence that holds it. */
  lemma Pull(runs: seq<ProbeRun>, x: ProbeRun, wanted: ProbeRun -> bool) returns (rest: seq<ProbeRun>)
    requires x in runs
    ensures multiset(runs) == multiset(rest) + multiset{x}
    ensures CountRuns(runs, wanted) == (if wanted(x) then 1 else 0) + CountRuns(rest, wanted)
  {
    var i :| 0 <= i < |runs| && runs[i] == x;
    var front, back := runs[..i], runs[i + 1..];
    rest := front + back;
    assert runs == front + ([x] + back);
    assert ([x] + back)[1..] == back;
    CountSplit(front, [x] + back, wanted);
    CountSplit(front, back, wanted);
  }

  lemma {:induction false} CountPermuted(runs: seq<ProbeRun>, others: seq<ProbeRun>, wanted: ProbeRun -> bool)
    requires multiset(runs) == multiset(others)
    ensures CountRuns(runs, wanted) == CountRuns(others, wanted)
  {
    assert |runs| == |multiset(runs)| == |others|;
    if runs != [] {
      assert runs[0] in multiset(others);
      var rest := Pull(others, runs[0], wanted);
      assert runs == [runs[0]] + runs[1..];
      assert multiset(runs) == multiset(runs[1..]) + multiset{runs[0]};
      assert multiset(runs[1..]) == multiset(runs) - multiset{runs[0]};
      assert multiset(rest) == multiset(others) - multiset{runs[0]};
      CountPermuted(runs[1..], rest, wanted);
    }
  }

  lemma {:induction false} CountSplit(a: seq<ProbeRun>, b: seq<ProbeRun>, wanted: ProbeRun -> bool)
    ensures CountRuns(a + b, wanted) == CountRuns(a, wanted) + CountRuns(b, wanted)
  {
    if a == [] {
      assert a + b == b;
    } else {
      assert (a + b)[1..] == a[1..] + b;
      CountSplit(a[1..], b, wanted);
    }
  }

  /** What the statistics see of a run: not where its output is stored, nor what the answer was. */
  function Bare(r: ProbeRun): ProbeRun {
    r.(outputRef := "", outputDigest := "", answer := "")
  }

  function AllBare(runs: seq<ProbeRun>): seq<ProbeRun> {
    seq(|runs|, i requires 0 <= i < |runs| => Bare(runs[i]))
  }

  lemma {:induction false} CountBare(runs: seq<ProbeRun>, wanted: ProbeRun -> bool)
    requires forall r :: wanted(Bare(r)) == wanted(r)
    ensures CountRuns(AllBare(runs), wanted) == CountRuns(runs, wanted)
  {
    if runs != [] {
      assert AllBare(runs)[1..] == AllBare(runs[1..]);
      CountBare(runs[1..], wanted);
    }
  }

  lemma ShareBare(runs: seq<ProbeRun>, wanted: ProbeRun -> bool)
    requires forall r :: wanted(Bare(r)) == wanted(r)
    ensures CountRuns(AllBare(runs), wanted) == CountRuns(runs, wanted)
    ensures Share(AllBare(runs), wanted) == Share(runs, wanted)
  {
    CountBare(runs, wanted);
    CountBare(runs, (r: ProbeRun) => wanted(r) && r.recovered);
  }

  /** The same probes, repetitions and bits in any order, with any answers stored anywhere, give the same
    statistics, hence the same verdict. */
  lemma OrderFree(plan: Plan, runs: map<string, seq<ProbeRun>>, others: map<string, seq<ProbeRun>>)
    requires runs.Keys == others.Keys
    requires forall arm | arm in runs :: multiset(AllBare(runs[arm])) == multiset(AllBare(others[arm]))
    ensures Aggregate(plan, runs) == Aggregate(plan, others)
  {
    forall arm | arm in runs ensures AggregateCell(plan, runs[arm]) == AggregateCell(plan, others[arm]) {
      CellOrderFree(plan, runs[arm], others[arm]);
    }
    hide AggregateCell;
  }

  lemma CellOrderFree(plan: Plan, runs: seq<ProbeRun>, others: seq<ProbeRun>)
    requires multiset(AllBare(runs)) == multiset(AllBare(others))
    ensures AggregateCell(plan, runs) == AggregateCell(plan, others)
  {
    hide Share;
    hide CountRuns;
    hide AllBare;
    SharePermuted(AllBare(runs), AllBare(others), IsAffected(plan));
    SharePermuted(AllBare(runs), AllBare(others), IsControl(plan));
    SharePermuted(AllBare(runs), AllBare(others), IsHidden(plan));
    ShareBare(runs, IsAffected(plan));
    ShareBare(runs, IsControl(plan));
    ShareBare(runs, IsHidden(plan));
    ShareBare(others, IsAffected(plan));
    ShareBare(others, IsControl(plan));
    ShareBare(others, IsHidden(plan));
  }

  lemma SharePermuted(runs: seq<ProbeRun>, others: seq<ProbeRun>, wanted: ProbeRun -> bool)
    requires multiset(runs) == multiset(others)
    ensures CountRuns(runs, wanted) == CountRuns(others, wanted)
    ensures Share(runs, wanted) == Share(others, wanted)
  {
    CountPermuted(runs, others, wanted);
    CountPermuted(runs, others, (r: ProbeRun) => wanted(r) && r.recovered);
  }

  function Renamed(arm: string, a: string, b: string): string {
    if arm == a then b else if arm == b then a else arm
  }

  function Relabelled(v: Verdict, a: string, b: string): Verdict {
    v.(layer := if v.layer == Some(Layer(a)) then Some(Layer(b))
                else if v.layer == Some(Layer(b)) then Some(Layer(a)) else v.layer)
  }

  /** The verdict by the number of significant arms, for trusted cells. */
  lemma RulesByCount(rp: ArmEffect, rk: ArmEffect, rm: ArmEffect, g: ArmEffect)
    requires g.significant
    ensures var v := Rules(false, rp, rk, rm, g);
            var only := (if rp.significant then 1 else 0) + (if rk.significant then 1 else 0)
                        + (if rm.significant then 1 else 0);
            var eff := if rp.significant then rp else if rk.significant then rk else rm;
            var layer := if rp.significant then "prompt" else if rk.significant then "kb" else "model_params";
            v == if only != 1 then Verdict(Confounded, None, None, true, true, false)
                 else if eff.hiddenReproduced then Verdict(Attributed, Some(layer), None, false, false, true)
                 else Verdict(Inconclusive, None, Some(ConfirmationMismatch), false, false, false)
  {
    assert "RP"[1] == 'P' && "RK"[1] == 'K' && "RM"[1] == 'M';
  }

  lemma LayersDiffer()
    ensures Layer("RP") == "prompt" && Layer("RK") == "kb" && Layer("RM") == "model_params"
    ensures "prompt" != "kb" && "kb" != "model_params" && "prompt" != "model_params"
  {
    assert "prompt"[0] == 'p' && "kb"[0] == 'k' && "model_params"[0] == 'm';
    assert "RP"[1] == 'P' && "RK"[1] == 'K' && "RM"[1] == 'M';
  }

  lemma RulesSymmetric(controlFailed: bool, rp: ArmEffect, rk: ArmEffect, rm: ArmEffect, g: ArmEffect)
    ensures var v := Rules(controlFailed, rp, rk, rm, g);
            && Rules(controlFailed, rk, rp, rm, g) == Relabelled(v, "RP", "RK")
            && Rules(controlFailed, rm, rk, rp, g) == Relabelled(v, "RP", "RM")
            && Rules(controlFailed, rp, rm, rk, g) == Relabelled(v, "RK", "RM")
  {
    LayersDiffer();
    if !controlFailed && g.significant {
      hide Rules;
      RulesByCount(rp, rk, rm, g);
      RulesByCount(rk, rp, rm, g);
      RulesByCount(rm, rk, rp, g);
      RulesByCount(rp, rm, rk, g);
    }
  }

  lemma SwapKeepsControls(cells: map<string, CellStats>, a: string, b: string)
    requires a in cells && b in cells
    ensures ControlFailed(cells[a := cells[b]][b := cells[a]]) <==> ControlFailed(cells)
  {
    var swapped := cells[a := cells[b]][b := cells[a]];
    if ControlFailed(cells) {
      var arm :| arm in cells && cells[arm].controlPassRate < 1.0;
      assert swapped[Renamed(arm, a, b)] == cells[arm];
    }
    if ControlFailed(swapped) {
      var arm :| arm in swapped && swapped[arm].controlPassRate < 1.0;
      assert cells[Renamed(arm, a, b)] == swapped[arm];
    }
  }

  /** Exchanging the data of two single-factor arms exchanges their layers and nothing else. */
  lemma RelabellingEquivariant(sqrt: real -> real, cells: map<string, CellStats>, a: string, b: string, deltaMin: real)
    requires forall arm | arm in ARMS :: arm in cells
    requires (a, b) in [("RP", "RK"), ("RP", "RM"), ("RK", "RM")] && a in cells && b in cells
    requires forall arm | arm in ARMS :: arm in cells[a := cells[b]][b := cells[a]]
    ensures var r := Adjudicate(sqrt, cells, deltaMin);
            var s := Adjudicate(sqrt, cells[a := cells[b]][b := cells[a]], deltaMin);
            (r.Ok? <==> s.Ok?) && (r.Ok? ==> s.value == Relabelled(r.value, a, b))
  {
    hide Rules;
    hide Effect;
    hide Adjudicate;
    hide ControlFailed;
    hide Relabelled;
    assert "RP"[1] == 'P' && "RK"[1] == 'K' && "RM"[1] == 'M' && "C"[0] == 'C' && "G"[0] == 'G';
    EffectsComputed(sqrt, cells, deltaMin);
    EffectsComputed(sqrt, cells[a := cells[b]][b := cells[a]], deltaMin);
    SwapKeepsControls(cells, a, b);
    RulesSymmetric(ControlFailed(cells), EffectOf(sqrt, cells, "RP", deltaMin), EffectOf(sqrt, cells, "RK", deltaMin),
                   EffectOf(sqrt, cells, "RM", deltaMin), EffectOf(sqrt, cells, "G", deltaMin));
  }
}
