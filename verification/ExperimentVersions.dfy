/** What each arm of a round runs: one immutable VersionSet, differing from the control in one layer. */
module ExperimentVersions {
  import opened Wrappers
  import opened Protocol
  import opened Experiment
  import Adjudication

  // ---------- one layer per arm ----------

  /** The control's components with one layer taken from the good baseline. */
  function WithLayer(control: Versions, good: Versions, layer: string): Versions {
    if layer == "prompt" then control.(prompt := good.prompt)
    else if layer == "kb" then control.(kb := good.kb)
    else if layer == "model_params" then control.(model := good.model)
    else control
  }

  /** The layer a verdict names for an arm is the one layer in which that arm differs from the control. */
  lemma ArmReplacesItsLayer(plan: Plan, arm: string)
    requires ExpectedVersions(plan, "C").Some? && ExpectedVersions(plan, "G").Some? && arm in ["RP", "RK", "RM"]
    ensures ExpectedVersions(plan, arm)
            == Some(WithLayer(ExpectedVersions(plan, "C").value, ExpectedVersions(plan, "G").value,
                              Adjudication.Layer(arm)))
  {
    assert "RP"[1] == 'P' && "RK"[1] == 'K' && "RM"[1] == 'M' && "C"[0] == 'C' && "G"[0] == 'G';
    assert "prompt"[0] == 'p' && "kb"[0] == 'k' && "model_params"[0] == 'm';
  }

  /** The arm is expected to show these three of the plan's digests; nothing is expected if one is missing. */
  ghost predicate Shows(plan: Plan, arm: string, prompt: string, kb: string, model: string) {
    var d, v := plan.versionDigests, ExpectedVersions(plan, arm);
    && (v.Some? <==> prompt in d && d[prompt] != "" && kb in d && d[kb] != "" && model in d && d[model] != "")
    && (v.Some? ==> v.value == Versions(d[prompt], d[kb], d[model]))
  }

  /** The control shows the fault's digests, the baseline the good ones, each single-factor arm one good layer. */
  lemma ArmsShow(plan: Plan)
    ensures Shows(plan, "C", "P1", "K1", "M1") && Shows(plan, "G", "P0", "K0", "M0")
    ensures Shows(plan, "RP", "P0", "K1", "M1") && Shows(plan, "RK", "P1", "K0", "M1")
    ensures Shows(plan, "RM", "P1", "K1", "M0")
  {
    assert "RP"[1] == 'P' && "RK"[1] == 'K' && "RM"[1] == 'M' && "C"[0] == 'C' && "G"[0] == 'G';
  }

  // ---------- one trial ----------

  /** The run a fresh trial leads to, before the callback sees it. */
  ghost function Fresh(w: World, key: Key): ProbeRun
    requires key.arm in w.versionsets && key.probeId in w.inputs
  {
    var result := w.provider(w.versionsets[key.arm], w.inputs[key.probeId]);
    var stored := w.persist(key, result);
    ProbeRun(key.probeId, key.repetition, w.judge(key.probeId, result.answer), stored.0, stored.1, result.answer)
  }

  /** A trial with a checkpoint is reused exactly when that is the run of this trial with its output; a fresh one
    is kept exactly when the provider answered from the frozen VersionSet with the cell's components and the
    callback gave back nothing or the same run stored elsewhere. */
  lemma TrialExactly(w: World, prior: map<Key, ProbeRun>, key: Key, cell: Cell)
    requires key.arm in w.versionsets && key.probeId in w.inputs
    ensures key in prior ==>
              var p, r := prior[key], RunTrial(w, prior, key, cell);
              && (r.Ok? <==> p.probeId == key.probeId && p.repetition == key.repetition && p.outputRef != ""
                             && p.outputDigest != "")
              && (r.Ok? ==> r.value == Cell(cell.runs + [p], cell.versions, cell.calls, cell.reused + 1))
    ensures key !in prior ==>
              var result := w.provider(w.versionsets[key.arm], w.inputs[key.probeId]);
              var run, r := Fresh(w, key), RunTrial(w, prior, key, cell);
              var back := w.checkpoint(key.arm, run);
              && (r.Ok? <==>
                    && (key.arm in w.frozenRefs ==> w.frozenRefs[key.arm] == result.versionsetId)
                    && (cell.versions.Some? ==> cell.versions.value == result.versions)
                    && (back.Some? ==> back.value.probeId == run.probeId && back.value.repetition == run.repetition
                                       && back.value.recovered == run.recovered && back.value.answer == run.answer))
              && (r.Ok? ==> r.value == Cell(cell.runs + [if back.Some? then back.value else run],
                                            Some(result.versions), cell.calls + 1, cell.reused))
  {
  }

  // ---------- one VersionSet per arm ----------

  /** Some trial of the probe is not checkpointed, so the provider is asked. */
  ghost predicate Asked(prior: map<Key, ProbeRun>, arm: string, probeId: string, n: nat) {
    exists rep | 1 <= rep <= n :: Key(arm, probeId, rep) !in prior
  }

  /** The provider answers a probe from the arm's frozen VersionSet, with these components. */
  ghost predicate AnswersFrom(w: World, arm: string, probeId: string, versions: Option<Versions>)
    requires arm in w.versionsets && probeId in w.inputs
  {
    var result := w.provider(w.versionsets[arm], w.inputs[probeId]);
    versions == Some(result.versions) && (arm in w.frozenRefs ==> result.versionsetId == w.frozenRefs[arm])
  }

  lemma TrialVersions(w: World, prior: map<Key, ProbeRun>, key: Key, cell: Cell)
    requires key.arm in w.versionsets && key.probeId in w.inputs && RunTrial(w, prior, key, cell).Ok?
    ensures var c := RunTrial(w, prior, key, cell).value;
            && (cell.versions.Some? || key in prior ==> c.versions == cell.versions)
            && (key !in prior ==> AnswersFrom(w, key.arm, key.probeId, c.versions))
  {
  }

  lemma {:induction false} RepsVersions(w: World, prior: map<Key, ProbeRun>, arm: string, probeId: string,
                                        cell: Cell, n: nat)
    requires arm in w.versionsets && probeId in w.inputs && RunReps(w, prior, arm, probeId, cell, n).Ok?
    ensures var c := RunReps(w, prior, arm, probeId, cell, n).value;
            && (cell.versions.Some? ==> c.versions == cell.versions)
            && (Asked(prior, arm, probeId, n) ==> AnswersFrom(w, arm, probeId, c.versions))
  {
    hide RunTrial;
    if n > 0 {
      RepsVersions(w, prior, arm, probeId, cell, n - 1);
      TrialVersions(w, prior, Key(arm, probeId, n), RunReps(w, prior, arm, probeId, cell, n - 1).value);
    }
  }

  lemma {:induction false} ProbesVersions(w: World, prior: map<Key, ProbeRun>, arm: string, order: seq<string>,
                                          reps: nat, cell: Cell, k: nat)
    requires arm in w.versionsets && k <= |order| && RunProbes(w, prior, arm, order, reps, cell, k).Ok?
    ensures var c := RunProbes(w, prior, arm, order, reps, cell, k).value;
            && (cell.versions.Some? ==> c.versions == cell.versions)
            && forall i | 0 <= i < k :: order[i] in w.inputs
                 && (Asked(prior, arm, order[i], reps) ==> AnswersFrom(w, arm, order[i], c.versions))
  {
    hide RunReps;
    hide Asked;
    if k > 0 {
      ProbesVersions(w, prior, arm, order, reps, cell, k - 1);
      RepsVersions(w, prior, arm, order[k - 1], RunProbes(w, prior, arm, order, reps, cell, k - 1).value, reps);
    }
  }

  /** In a finished cell every provider answer comes from the arm's frozen VersionSet and shows the cell's
    components, which are the expected ones wherever the plan freezes them. */
  lemma OneVersionSetPerArm(w: World, plan: Plan, prior: map<Key, ProbeRun>, arm: string, order: seq<string>)
    requires arm in w.versionsets && RunCell(w, plan, prior, arm, order).Ok?
    ensures var c := RunCell(w, plan, prior, arm, order).value;
            && (ExpectedVersions(plan, arm).Some? ==> c.versions == ExpectedVersions(plan, arm))
            && forall i | 0 <= i < |order| :: order[i] in w.inputs
                 && (Asked(prior, arm, order[i], Repetitions(plan)) ==> AnswersFrom(w, arm, order[i], c.versions))
  {
    hide AnswersFrom;
    hide Asked;
    ProbesVersions(w, prior, arm, order, Repetitions(plan), Cell([], ExpectedVersions(plan, arm), 0, 0), |order|);
  }
}
