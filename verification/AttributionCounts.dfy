/** An attribution seen on the recovered counts themselves: how the blamed arm compares with the others. */
module AttributionCounts {
  import opened Wrappers
  import opened Protocol
  import opened Stats
  import opened Newcombe
  import opened Adjudication
  import opened AdjudicationProofs

  // ---------- counts ----------

  /** Recovered trials and trials of an arm on the affected probes. */
  datatype Tally = Tally(recovered: nat, trials: nat)

  function TallyOf(plan: Plan, runs: seq<ProbeRun>): (t: Tally)
    ensures t.recovered <= t.trials
  {
    CountBounds(runs, IsAffected(plan));
    Tally(CountRuns(runs, (r: ProbeRun) => IsAffected(plan)(r) && r.recovered), CountRuns(runs, IsAffected(plan)))
  }

  /** The arm's interval against the control lies above δ_min. */
  predicate Significant(sqrt: real -> real, arm: Tally, c: Tally, deltaMin: real) {
    var ci := Difference(sqrt, arm.recovered, arm.trials, c.recovered, c.trials, Z_975);
    ci.Ok? && SignificantPositive(ci.value.lower, deltaMin)
  }

  /** The arm's raw recovery rate exceeds the control's by more than δ_min. */
  predicate RawlyAhead(arm: Tally, c: Tally, deltaMin: real)
    requires arm.trials > 0 && c.trials > 0
  {
    Rate(arm.recovered, arm.trials) - Rate(c.recovered, c.trials) > deltaMin
  }

  /** The least count from s on that makes an arm of n trials significant; n + 1 if there is none. */
  function LeastSignificant(sqrt: real -> real, s: nat, n: nat, c: Tally, deltaMin: real): (least: nat)
    requires s <= n + 1
    ensures s <= least <= n + 1
    decreases n + 1 - s
  {
    if s == n + 1 || Significant(sqrt, Tally(s, n), c, deltaMin) then s
    else LeastSignificant(sqrt, s + 1, n, c, deltaMin)
  }

  lemma {:induction false} LeastFacts(sqrt: real -> real, s: nat, n: nat, c: Tally, deltaMin: real)
    requires s <= n + 1
    ensures var least := LeastSignificant(sqrt, s, n, c, deltaMin);
            && (least <= n ==> Significant(sqrt, Tally(least, n), c, deltaMin))
            && forall k | s <= k < least :: !Significant(sqrt, Tally(k, n), c, deltaMin)
    decreases n + 1 - s
  {
    hide Significant;
    if s <= n && !Significant(sqrt, Tally(s, n), c, deltaMin) {
      LeastFacts(sqrt, s + 1, n, c, deltaMin);
    }
  }

  /** Significance is a threshold on the count. */
  lemma SignificantFromLeastOn(sqrt: real -> real, arm: Tally, c: Tally, deltaMin: real)
    requires IsSqrt(sqrt) && IsSample(arm.recovered, arm.trials) && IsSample(c.recovered, c.trials)
    ensures Significant(sqrt, arm, c, deltaMin)
            <==> arm.recovered >= LeastSignificant(sqrt, 0, arm.trials, c, deltaMin)
  {
    var least := LeastSignificant(sqrt, 0, arm.trials, c, deltaMin);
    LeastFacts(sqrt, 0, arm.trials, c, deltaMin);
    assert arm == Tally(arm.recovered, arm.trials);
    if least <= arm.recovered {
      SignificanceKept(sqrt, least, arm.recovered, arm.trials, c.recovered, c.recovered, c.trials, deltaMin);
    }
  }

  // ---------- from runs to counts ----------

  lemma CellOfTally(plan: Plan, runs: seq<ProbeRun>)
    ensures var cell, t := AggregateCell(plan, runs), TallyOf(plan, runs);
            cell.nTrials == t.trials && (t.trials > 0 ==> cell.recoveryRate == Rate(t.recovered, t.trials))
  {
  }

  /** The verdict's significance flag is the significance of the counts. */
  lemma EffectOnCounts(sqrt: real -> real, plan: Plan, arm: seq<ProbeRun>, c: seq<ProbeRun>)
    requires IsSqrt(sqrt)
    requires Effect(sqrt, AggregateCell(plan, arm), AggregateCell(plan, c), plan.deltaMin).Ok?
    ensures var t, tc := TallyOf(plan, arm), TallyOf(plan, c);
            && t.trials > 0 && tc.trials > 0
            && Effect(sqrt, AggregateCell(plan, arm), AggregateCell(plan, c), plan.deltaMin).value.significant
               == Significant(sqrt, t, tc, plan.deltaMin)
  {
    CellOfTally(plan, arm);
    CellOfTally(plan, c);
    hide AggregateCell;
    hide TallyOf;
  }

  ghost predicate Attributes(sqrt: real -> real, plan: Plan, runs: map<string, seq<ProbeRun>>, blamed: string)
    requires forall arm | arm in ARMS :: arm in runs
  {
    var r := Adjudicate(sqrt, Aggregate(plan, runs), plan.deltaMin);
    blamed in ["RP", "RK", "RM"] && r.Ok? && r.value.decision.Attributed? && r.value.layer == Some(Layer(blamed))
  }

  /** Under an attribution the counts of the blamed arm alone reach significance. */
  lemma BlamedOnCounts(sqrt: real -> real, plan: Plan, runs: map<string, seq<ProbeRun>>, blamed: string, arm: string)
    requires IsSqrt(sqrt) && forall a | a in ARMS :: a in runs
    requires Attributes(sqrt, plan, runs, blamed) && arm in ["RP", "RK", "RM"]
    ensures arm in runs && "C" in runs
    ensures TallyOf(plan, runs[arm]).trials > 0 && TallyOf(plan, runs["C"]).trials > 0
    ensures Significant(sqrt, TallyOf(plan, runs[arm]), TallyOf(plan, runs["C"]), plan.deltaMin) <==> arm == blamed
  {
    hide Adjudicate;
    hide Effect;
    hide AggregateCell;
    hide TallyOf;
    hide Significant;
    var cells := Aggregate(plan, runs);
    assert ARMS[0] == "C" && ARMS[1] == "RP" && ARMS[2] == "RK" && ARMS[3] == "RM";
    assert ARMS[0] in runs && ARMS[1] in runs && ARMS[2] in runs && ARMS[3] in runs;
    EffectsComputed(sqrt, cells, plan.deltaMin);
    SignificantIffBlamed(sqrt, cells, arm, plan.deltaMin);
    assert Computable(sqrt, cells, arm, plan.deltaMin);
    EffectOnCounts(sqrt, plan, runs[arm], runs["C"]);
    assert Layer(arm) == Layer(blamed) <==> arm == blamed by {
      assert "RP"[1] == 'P' && "RK"[1] == 'K' && "RM"[1] == 'M';
      assert "prompt"[0] == 'p' && "kb"[0] == 'k' && "model_params"[0] == 'm';
    }
  }

  // ---------- how the blamed arm compares ----------

  /** Among single-factor arms with as many trials, the blamed arm has strictly more recoveries. */
  lemma BlamedArmRecoversMost(sqrt: real -> real, plan: Plan, runs: map<string, seq<ProbeRun>>, blamed: string,
                              other: string)
    requires IsSqrt(sqrt) && forall a | a in ARMS :: a in runs
    requires Attributes(sqrt, plan, runs, blamed) && other in ["RP", "RK", "RM"] && other != blamed
    requires other in runs && blamed in runs
    requires TallyOf(plan, runs[other]).trials == TallyOf(plan, runs[blamed]).trials
    ensures TallyOf(plan, runs[other]).recovered < TallyOf(plan, runs[blamed]).recovered
  {
    assert blamed in ["RP", "RK", "RM"];
    hide TallyOf;
    hide Attributes;
    BlamedOnCounts(sqrt, plan, runs, blamed, blamed);
    BlamedOnCounts(sqrt, plan, runs, blamed, other);
    hide Significant;
    hide LeastSignificant;
    var c, t, u := TallyOf(plan, runs["C"]), TallyOf(plan, runs[blamed]), TallyOf(plan, runs[other]);
    SignificantFromLeastOn(sqrt, t, c, plan.deltaMin);
    SignificantFromLeastOn(sqrt, u, c, plan.deltaMin);
  }

  /** A count in the grey zone: ahead of the control by more than δ_min in raw rate, yet below the least
    count that is significant. */
  ghost predicate InGreyZone(sqrt: real -> real, arm: Tally, c: Tally, deltaMin: real)
    requires arm.trials > 0 && c.trials > 0
  {
    RawlyAhead(arm, c, deltaMin) && arm.recovered < LeastSignificant(sqrt, 0, arm.trials, c, deltaMin)
  }

  /** The blamed arm is always ahead in raw rate; it is alone in that exactly when no single-factor arm's
    count lies in the grey zone. */
  lemma RawRateExclusiveExactly(sqrt: real -> real, plan: Plan, runs: map<string, seq<ProbeRun>>, blamed: string)
    requires IsSqrt(sqrt) && forall a | a in ARMS :: a in runs
    requires Attributes(sqrt, plan, runs, blamed)
    ensures "C" in runs && TallyOf(plan, runs["C"]).trials > 0
    ensures forall arm | arm in ["RP", "RK", "RM"] :: arm in runs && TallyOf(plan, runs[arm]).trials > 0
    ensures blamed in runs && RawlyAhead(TallyOf(plan, runs[blamed]), TallyOf(plan, runs["C"]), plan.deltaMin)
    ensures (forall arm | arm in ["RP", "RK", "RM"] && arm != blamed ::
               !RawlyAhead(TallyOf(plan, runs[arm]), TallyOf(plan, runs["C"]), plan.deltaMin))
            <==> forall arm | arm in ["RP", "RK", "RM"] ::
                   !InGreyZone(sqrt, TallyOf(plan, runs[arm]), TallyOf(plan, runs["C"]), plan.deltaMin)
  {
    assert blamed in ["RP", "RK", "RM"];
    hide TallyOf;
    hide Attributes;
    hide Significant;
    hide LeastSignificant;
    hide RawlyAhead;
    BlamedOnCounts(sqrt, plan, runs, blamed, blamed);
    var c := TallyOf(plan, runs["C"]);
    forall arm | arm in ["RP", "RK", "RM"]
      ensures arm in runs && TallyOf(plan, runs[arm]).trials > 0
      ensures arm == blamed
              <==> TallyOf(plan, runs[arm]).recovered
                   >= LeastSignificant(sqrt, 0, TallyOf(plan, runs[arm]).trials, c, plan.deltaMin)
    {
      BlamedOnCounts(sqrt, plan, runs, blamed, arm);
      SignificantFromLeastOn(sqrt, TallyOf(plan, runs[arm]), c, plan.deltaMin);
    }
    SignificantIsAhead(sqrt, TallyOf(plan, runs[blamed]), c, plan.deltaMin);
  }

  lemma SignificantIsAhead(sqrt: real -> real, arm: Tally, c: Tally, deltaMin: real)
    requires IsSqrt(sqrt) && arm.trials > 0 && c.trials > 0 && Significant(sqrt, arm, c, deltaMin)
    ensures RawlyAhead(arm, c, deltaMin)
  {
    HoldsDifference(sqrt, Rate(arm.recovered, arm.trials), arm.trials, Rate(c.recovered, c.trials), c.trials, Z_975);
  }

  // ---------- runs that are attributed ----------

  function ExamplePlan(): Plan {
    Plan(30, [], ["h"], ["c"], map[], 0.0)
  }

  /** One control that passes, and n trials of a hidden probe of which the first k recover. */
  function Batch(n: nat, k: nat): seq<ProbeRun> {
    if n == 0 then [ProbeRun("c", 1, true, "", "", "")] else [ProbeRun("h", n, n <= k, "", "", "")] + Batch(n - 1, k)
  }

  lemma {:induction false} BatchCounts(n: nat, k: nat)
    ensures CountRuns(Batch(n, k), IsAffected(ExamplePlan())) == n == CountRuns(Batch(n, k), IsHidden(ExamplePlan()))
    ensures CountRuns(Batch(n, k), IsControl(ExamplePlan())) == 1
    ensures var least := if n < k then n else k;
            && CountRuns(Batch(n, k), (r: ProbeRun) => IsAffected(ExamplePlan())(r) && r.recovered) == least
            && CountRuns(Batch(n, k), (r: ProbeRun) => IsHidden(ExamplePlan())(r) && r.recovered) == least
    ensures CountRuns(Batch(n, k), (r: ProbeRun) => IsControl(ExamplePlan())(r) && r.recovered) == 1
  {
    assert "c"[0] == 'c' && "h"[0] == 'h';
    assert ExamplePlan().Affected() == ["h"];
    if n == 0 {
      assert Batch(0, k)[1..] == [];
    } else {
      assert Batch(n, k)[1..] == Batch(n - 1, k);
      BatchCounts(n - 1, k);
    }
  }

  lemma BatchCell(k: nat)
    requires k <= 30
    ensures AggregateCell(ExamplePlan(), Batch(30, k)) == Thirty(k)
    ensures TallyOf(ExamplePlan(), Batch(30, k)) == Tally(k, 30)
  {
    BatchCounts(30, k);
    hide CountRuns;
    hide Batch;
  }

  function ExampleRuns(): map<string, seq<ProbeRun>> {
    map["C" := Batch(30, 0), "RP" := Batch(30, 30), "RK" := Batch(30, 1), "RM" := Batch(30, 0), "G" := Batch(30, 30)]
  }

  lemma AggregateFive(plan: Plan, none: seq<ProbeRun>, one: seq<ProbeRun>, all: seq<ProbeRun>)
    ensures Aggregate(plan, map["C" := none, "RP" := all, "RK" := one, "RM" := none, "G" := all])
            == map["C" := AggregateCell(plan, none), "RP" := AggregateCell(plan, all), "RK" := AggregateCell(plan, one),
                   "RM" := AggregateCell(plan, none), "G" := AggregateCell(plan, all)]
  {
    hide AggregateCell;
  }

  lemma ExampleCells()
    ensures Aggregate(ExamplePlan(), ExampleRuns())
            == map["C" := Thirty(0), "RP" := Thirty(30), "RK" := Thirty(1), "RM" := Thirty(0), "G" := Thirty(30)]
  {
    BatchCell(0);
    BatchCell(1);
    BatchCell(30);
    hide AggregateCell;
    hide TallyOf;
    hide Batch;
    hide Thirty;
    hide Aggregate;
    AggregateFive(ExamplePlan(), Batch(30, 0), Batch(30, 1), Batch(30, 30));
  }

  lemma ExampleArms()
    ensures forall arm | arm in ARMS :: arm in ExampleRuns()
  {
    hide Batch;
  }

  lemma ThirtyAttributed(sqrt: real -> real, cells: map<string, CellStats>)
    requires IsSqrt(sqrt)
    requires cells == map["C" := Thirty(0), "RP" := Thirty(30), "RK" := Thirty(1), "RM" := Thirty(0), "G" := Thirty(30)]
    ensures forall arm | arm in ARMS :: arm in cells
    ensures var r := Adjudicate(sqrt, cells, 0.0);
            r.Ok? && r.value.decision.Attributed? && r.value.layer == Some("prompt")
  {
    hide Thirty;
    hide Adjudicate;
    RawRateNotExclusive(sqrt, cells);
    AttributedExactly(sqrt, cells, 0.0);
  }

  /** The theorems above are about something: runs attributed to the prompt. */
  lemma ExampleAttributed(sqrt: real -> real)
    requires IsSqrt(sqrt)
    ensures forall arm | arm in ARMS :: arm in ExampleRuns()
    ensures Attributes(sqrt, ExamplePlan(), ExampleRuns(), "RP")
  {
    ExampleArms();
    ExampleCells();
    hide ExampleRuns;
    hide Aggregate;
    hide Adjudicate;
    hide Thirty;
    ThirtyAttributed(sqrt, Aggregate(ExamplePlan(), ExampleRuns()));
    assert Layer("RP") == "prompt";
  }

  /** ... with a second arm in the grey zone. */
  lemma ExampleGrey(sqrt: real -> real)
    requires IsSqrt(sqrt)
    ensures InGreyZone(sqrt, TallyOf(ExamplePlan(), Batch(30, 1)), TallyOf(ExamplePlan(), Batch(30, 0)), 0.0)
  {
    BatchCell(0);
    BatchCell(1);
    OneInThirtyIsGrey(sqrt);
    hide TallyOf;
    hide Batch;
    hide InGreyZone;
  }

  lemma OneInThirtyIsGrey(sqrt: real -> real)
    requires IsSqrt(sqrt)
    ensures InGreyZone(sqrt, Tally(1, 30), Tally(0, 30), 0.0)
  {
    AllOneAndNone(sqrt);
    hide Difference;
    SignificantFromLeastOn(sqrt, Tally(1, 30), Tally(0, 30), 0.0);
    assert Rate(1, 30) - Rate(0, 30) > 0.0;
  }
}
