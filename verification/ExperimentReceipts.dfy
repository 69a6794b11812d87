/** Resuming from the receipts an interrupted run left behind. */
module ExperimentReceipts {
  import opened Wrappers
  import opened Protocol
  import opened Experiment
  import opened ExperimentResume
  import opened EvalRunner

  /** The receipt written when the runner, at some point of a cell, ran this trial and kept the run. */
  ghost predicate Writes(w: World, t: TrialReceipt, key: Key, cell: Cell) {
    && key.arm in w.versionsets && key.probeId in w.inputs && RunTrial(w, map[], key, cell).Ok?
    && |RunTrial(w, map[], key, cell).value.runs| == |cell.runs| + 1
    && var run := RunTrial(w, map[], key, cell).value.runs[|cell.runs|];
       && t.cell == Some(key.arm) && t.probeId == Some(run.probeId) && t.repetition == Some(run.repetition)
       && t.recovered == Some(run.recovered) && t.outputRef == Some(run.outputRef)
       && t.outputDigest == Some(run.outputDigest)
  }

  ghost predicate Written(w: World, t: TrialReceipt) {
    exists key, cell :: Writes(w, t, key, cell)
  }

  lemma WrittenReadsBack(w: World, t: TrialReceipt, key: Key, run: ProbeRun)
    requires Written(w, t) && ValidReceipt(t) && ReadAs(t, key, run)
    ensures key.arm in w.versionsets && key.probeId in w.inputs && WellFormedPrior(run, key)
    ensures run.recovered == w.judge(key.probeId, w.provider(w.versionsets[key.arm], w.inputs[key.probeId]).answer)
  {
    var written, cell :| Writes(w, t, written, cell);
    assert written == key;
    assert run.outputRef[0] == 'd' && run.outputDigest[0] == 's';
  }

  /** Receipts of trials the runner recorded are read back as valid checkpoints. */
  lemma ReceiptsAreCheckpoints(w: World, items: seq<TrialReceipt>, prior: map<Key, ProbeRun>)
    requires Recorded(items, prior) && forall i | 0 <= i < |items| :: Written(w, items[i])
    ensures Checkpointed(w, prior)
  {
    hide Written;
    hide ValidReceipt;
    forall key | key in prior && key.arm in w.versionsets && key.probeId in w.inputs
      ensures WellFormedPrior(prior[key], key) && prior[key].recovered == Bit(w, map[], key)
    {
      var i: nat :| ComesFrom(key, prior[key], items, i);
      assert InMap(items[i], prior);
      WrittenReadsBack(w, items[i], key, prior[key]);
    }
  }

  /** A round resumed from such receipts finishes whenever the uninterrupted one does, with the same trials and
    bits. */
  lemma ResumeFromReceipts(w: World, plan: Plan, items: seq<TrialReceipt>, prior: map<Key, ProbeRun>,
                           armOrder: seq<string>, order: seq<string>)
    requires Recorded(items, prior) && forall i | 0 <= i < |items| :: Written(w, items[i])
    requires forall i | 0 <= i < |armOrder| :: armOrder[i] in w.versionsets
    requires RunArms(w, plan, map[], armOrder, order, |armOrder|).Ok?
    ensures RunArms(w, plan, prior, armOrder, order, |armOrder|).Ok?
    ensures var resumed := RunArms(w, plan, prior, armOrder, order, |armOrder|).value;
            var plain := RunArms(w, plan, map[], armOrder, order, |armOrder|).value;
            resumed.Keys == plain.Keys && forall arm | arm in plain :: SameBits(resumed[arm].runs, plain[arm].runs)
  {
    hide Recorded;
    hide Written;
    ReceiptsAreCheckpoints(w, items, prior);
    ResumeEqualsUninterrupted(w, plan, prior, armOrder, order, |armOrder|);
  }
}
