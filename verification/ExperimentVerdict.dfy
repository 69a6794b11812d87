/** The verdict of an experiment depends on the plan and the provider alone. */
module ExperimentVerdict {
  import opened Wrappers
  import opened Protocol
  import opened Experiment
  import opened ExperimentResume
  import Adjudication
  import opened AdjudicationProofs

  /** The bare run of a trial that was never interrupted. */
  function PlainRun(w: World, key: Key): ProbeRun {
    var bit := key.arm in w.versionsets && key.probeId in w.inputs && Bit(w, map[], key);
    ProbeRun(key.probeId, key.repetition, bit, "", "", "")
  }

  function PlainRuns(w: World, ks: seq<Key>): seq<ProbeRun> {
    seq(|ks|, i requires 0 <= i < |ks| => PlainRun(w, ks[i]))
  }

  /** Runs that cover some trials, checkpointed or not, are bare copies of the plain runs of those trials. */
  lemma CoveredIsPlain(w: World, prior: map<Key, ProbeRun>, ks: seq<Key>, runs: seq<ProbeRun>)
    requires Checkpointed(w, prior) && Covers(w, prior, ks, runs)
    ensures AllBare(runs) == PlainRuns(w, ks)
  {
    forall i | 0 <= i < |ks| ensures Bare(runs[i]) == PlainRun(w, ks[i]) {
      assert Shows(w, prior, ks[i], runs[i]);
    }
  }

  lemma PlainRunsConcat(w: World, ks: seq<Key>, ls: seq<Key>)
    ensures PlainRuns(w, ks + ls) == PlainRuns(w, ks) + PlainRuns(w, ls)
  {
    hide PlainRun;
  }

  /** Take one key out of a sequence that holds it. */
  lemma PullKey(w: World, ks: seq<Key>, key: Key) returns (rest: seq<Key>)
    requires key in ks
    ensures multiset(ks) == multiset(rest) + multiset{key}
    ensures multiset(PlainRuns(w, ks)) == multiset(PlainRuns(w, rest)) + multiset{PlainRun(w, key)}
  {
    hide PlainRun;
    var i :| 0 <= i < |ks| && ks[i] == key;
    var front, back := ks[..i], ks[i + 1..];
    rest := front + back;
    assert ks == front + ([key] + back);
    PlainRunsConcat(w, front, back);
    PlainRunsConcat(w, front, [key] + back);
    PlainRunsConcat(w, [key], back);
    assert PlainRuns(w, [key]) == [PlainRun(w, key)];
    hide PlainRuns;
  }

  lemma {:induction false} PlainRunsPermuted(w: World, ks: seq<Key>, ls: seq<Key>)
    requires multiset(ks) == multiset(ls)
    ensures multiset(PlainRuns(w, ks)) == multiset(PlainRuns(w, ls))
    decreases |ks|
  {
    hide PlainRun;
    assert |ks| == |multiset(ks)| == |ls|;
    if ks == [] {
      assert ks == ls;
    } else {
      assert ks[0] in multiset(ls);
      var before := PullKey(w, ks, ks[0]);
      var after := PullKey(w, ls, ks[0]);
      hide PlainRuns;
      assert |ks| == |multiset(before) + multiset{ks[0]}| == |before| + 1;
      assert multiset(before) == multiset(ks) - multiset{ks[0]} == multiset(after);
      PlainRunsPermuted(w, before, after);
    }
  }

  lemma ArmKeysPermuted(arm: string, order: seq<string>, order': seq<string>, reps: nat)
    requires multiset(order) == multiset(order')
    ensures multiset(ArmKeys(arm, order, reps, |order|)) == multiset(ArmKeys(arm, order', reps, |order'|))
  {
    var ks, ls := ArmKeys(arm, order, reps, |order|), ArmKeys(arm, order', reps, |order'|);
    forall key ensures multiset(ks)[key] == multiset(ls)[key] {
      ArmKeysCount(arm, order, reps, |order|, key);
      ArmKeysCount(arm, order', reps, |order'|, key);
      CountIsMultiplicity(ks, key);
      CountIsMultiplicity(ls, key);
      CountIsMultiplicity(order, key.probeId);
      CountIsMultiplicity(order', key.probeId);
      assert order[..|order|] == order && order'[..|order'|] == order';
    }
  }

  function RunsOf(cells: map<string, Cell>): (runs: map<string, seq<ProbeRun>>)
    ensures runs.Keys == cells.Keys
  {
    map arm | arm in cells :: cells[arm].runs
  }

  ghost predicate Finishes(w: World, plan: Plan, prior: map<Key, ProbeRun>, armOrder: seq<string>, order: seq<string>)
    requires forall arm | arm in ARMS :: arm in w.versionsets
  {
    && IsShuffle(plan, armOrder, order) && Checkpointed(w, prior)
    && (forall i | 0 <= i < |armOrder| :: armOrder[i] in w.versionsets)
    && RunArms(w, plan, prior, armOrder, order, |armOrder|).Ok?
  }

  /** The aggregated cells of a finished round. */
  function Statistics(w: World, plan: Plan, prior: map<Key, ProbeRun>, armOrder: seq<string>, order: seq<string>)
    : (cells: map<string, Adjudication.CellStats>)
    requires forall arm | arm in ARMS :: arm in w.versionsets
    requires Finishes(w, plan, prior, armOrder, order)
    ensures forall arm | arm in ARMS :: arm in cells
  {
    RoundCovers(w, plan, prior, armOrder, order);
    Adjudication.Aggregate(plan, RunsOf(RunArms(w, plan, prior, armOrder, order, |armOrder|).value))
  }

  /** Whatever the seed, hence the order of arms and probes, and whatever subset of the trials was
    checkpointed by an interrupted run, two finished rounds are adjudicated alike. */
  lemma OneVerdict(sqrt: real -> real, w: World, plan: Plan,
                   prior: map<Key, ProbeRun>, armOrder: seq<string>, order: seq<string>,
                   prior': map<Key, ProbeRun>, armOrder': seq<string>, order': seq<string>)
    requires forall arm | arm in ARMS :: arm in w.versionsets
    requires Finishes(w, plan, prior, armOrder, order) && Finishes(w, plan, prior', armOrder', order')
    ensures Adjudication.Adjudicate(sqrt, Statistics(w, plan, prior, armOrder, order), plan.deltaMin)
            == Adjudication.Adjudicate(sqrt, Statistics(w, plan, prior', armOrder', order'), plan.deltaMin)
  {
    hide Covers;
    hide ArmKeys;
    hide AllBare;
    hide PlainRuns;
    hide Checkpointed;
    hide RunArms;
    hide Adjudication.Aggregate;
    hide Adjudication.Adjudicate;
    RoundCovers(w, plan, prior, armOrder, order);
    RoundCovers(w, plan, prior', armOrder', order');
    var cells := RunArms(w, plan, prior, armOrder, order, |armOrder|).value;
    var cells' := RunArms(w, plan, prior', armOrder', order', |armOrder'|).value;
    var reps := Repetitions(plan);
    forall arm | arm in cells ensures multiset(AllBare(cells[arm].runs)) == multiset(AllBare(cells'[arm].runs)) {
      var ks, ls := ArmKeys(arm, order, reps, |order|), ArmKeys(arm, order', reps, |order'|);
      CoveredIsPlain(w, prior, ks, cells[arm].runs);
      CoveredIsPlain(w, prior', ls, cells'[arm].runs);
      ArmKeysPermuted(arm, order, order', reps);
      PlainRunsPermuted(w, ks, ls);
    }
    OrderFree(plan, RunsOf(cells), RunsOf(cells'));
  }
}
