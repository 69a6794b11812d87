/** A round covers the frozen protocol exactly, and resuming it changes nothing. */
module ExperimentResume {
  import opened Wrappers
  import opened Protocol
  import opened Experiment

  // ---------- the trials of one round, in order ----------

  function RepKeys(arm: string, probeId: string, n: nat): (ks: seq<Key>)
    ensures |ks| == n
    ensures forall i | 0 <= i < n :: ks[i] == Key(arm, probeId, i + 1)
  {
    if n == 0 then [] else RepKeys(arm, probeId, n - 1) + [Key(arm, probeId, n)]
  }

  function ArmKeys(arm: string, order: seq<string>, reps: nat, k: nat): seq<Key>
    requires k <= |order|
  {
    if k == 0 then [] else ArmKeys(arm, order, reps, k - 1) + RepKeys(arm, order[k - 1], reps)
  }

  function RoundKeys(armOrder: seq<string>, order: seq<string>, reps: nat, a: nat): seq<Key>
    requires a <= |armOrder|
  {
    if a == 0 then [] else RoundKeys(armOrder, order, reps, a - 1) + ArmKeys(armOrder[a - 1], order, reps, |order|)
  }

  function CountIn(ks: seq<Key>, prior: map<Key, ProbeRun>): nat {
    if ks == [] then 0
    else CountIn(ks[..|ks| - 1], prior) + if ks[|ks| - 1] in prior then 1 else 0
  }

  lemma {:induction false} CountInConcat(ks: seq<Key>, ls: seq<Key>, prior: map<Key, ProbeRun>)
    ensures CountIn(ks + ls, prior) == CountIn(ks, prior) + CountIn(ls, prior)
  {
    if ls == [] {
      assert ks + ls == ks;
    } else {
      assert (ks + ls)[..|ks + ls| - 1] == ks + ls[..|ls| - 1];
      CountInConcat(ks, ls[..|ls| - 1], prior);
    }
  }

  // ---------- coverage ----------

  /** The recovered bit of a trial: the checkpointed one if there is one, else the judge's. */
  function Bit(w: World, prior: map<Key, ProbeRun>, key: Key): bool
    requires key.arm in w.versionsets && key.probeId in w.inputs
  {
    if key in prior then prior[key].recovered
    else w.judge(key.probeId, w.provider(w.versionsets[key.arm], w.inputs[key.probeId]).answer)
  }

  ghost predicate Shows(w: World, prior: map<Key, ProbeRun>, key: Key, run: ProbeRun) {
    && key.arm in w.versionsets && key.probeId in w.inputs
    && run.probeId == key.probeId && run.repetition == key.repetition
    && run.recovered == Bit(w, prior, key)
    && (if key in prior then run == prior[key]
        else run.answer == w.provider(w.versionsets[key.arm], w.inputs[key.probeId]).answer)
  }

  /** The runs are those of the keys, one each and in order. */
  ghost predicate Covers(w: World, prior: map<Key, ProbeRun>, ks: seq<Key>, runs: seq<ProbeRun>) {
    |runs| == |ks| && forall i | 0 <= i < |ks| :: Shows(w, prior, ks[i], runs[i])
  }

  ghost predicate Extends(w: World, prior: map<Key, ProbeRun>, cell: Cell, ks: seq<Key>, c: Cell) {
    && |cell.runs| <= |c.runs| && c.runs[..|cell.runs|] == cell.runs
    && Covers(w, prior, ks, c.runs[|cell.runs|..])
    && c.reused == cell.reused + CountIn(ks, prior)
    && c.calls + c.reused == cell.calls + cell.reused + |ks|
  }

  lemma ExtendsConcat(w: World, prior: map<Key, ProbeRun>, c0: Cell, ks: seq<Key>, c1: Cell, ls: seq<Key>, c2: Cell)
    requires Extends(w, prior, c0, ks, c1) && Extends(w, prior, c1, ls, c2)
    ensures Extends(w, prior, c0, ks + ls, c2)
  {
    hide Covers;
    CountInConcat(ks, ls, prior);
    var first, second := c1.runs[|c0.runs|..], c2.runs[|c1.runs|..];
    assert c2.runs[..|c0.runs|] == c2.runs[..|c1.runs|][..|c0.runs|] == c0.runs;
    assert c2.runs == c1.runs + second;
    assert c2.runs[|c0.runs|..] == first + second;
    CoversConcat(w, prior, ks, first, ls, second);
  }

  lemma CoversConcat(w: World, prior: map<Key, ProbeRun>, ks: seq<Key>, first: seq<ProbeRun>, ls: seq<Key>,
                     second: seq<ProbeRun>)
    requires Covers(w, prior, ks, first) && Covers(w, prior, ls, second)
    ensures Covers(w, prior, ks + ls, first + second)
  {
    hide Shows;
  }

  lemma ExtendsSelf(w: World, prior: map<Key, ProbeRun>, cell: Cell)
    ensures Extends(w, prior, cell, [], cell)
  {
    assert cell.runs[..|cell.runs|] == cell.runs;
  }

  lemma TrialExtends(w: World, prior: map<Key, ProbeRun>, key: Key, cell: Cell)
    requires key.arm in w.versionsets && key.probeId in w.inputs && RunTrial(w, prior, key, cell).Ok?
    ensures Extends(w, prior, cell, [key], RunTrial(w, prior, key, cell).value)
  {
    var c := RunTrial(w, prior, key, cell).value;
    assert c.runs[..|cell.runs|] == cell.runs;
    assert [key][..0] == [];
    assert CountIn([key], prior) == CountIn([], prior) + if key in prior then 1 else 0;
  }

  lemma {:induction false} RepsExtend(w: World, prior: map<Key, ProbeRun>, arm: string, probeId: string, cell: Cell,
                                      n: nat)
    requires arm in w.versionsets && probeId in w.inputs && RunReps(w, prior, arm, probeId, cell, n).Ok?
    ensures Extends(w, prior, cell, RepKeys(arm, probeId, n), RunReps(w, prior, arm, probeId, cell, n).value)
  {
    hide Extends;
    hide RunTrial;
    if n == 0 {
      ExtendsSelf(w, prior, cell);
    } else {
      var before := RunReps(w, prior, arm, probeId, cell, n - 1).value;
      RepsExtend(w, prior, arm, probeId, cell, n - 1);
      TrialExtends(w, prior, Key(arm, probeId, n), before);
      ExtendsConcat(w, prior, cell, RepKeys(arm, probeId, n - 1), before, [Key(arm, probeId, n)],
                    RunReps(w, prior, arm, probeId, cell, n).value);
    }
  }

  lemma {:induction false} ProbesExtend(w: World, prior: map<Key, ProbeRun>, arm: string, order: seq<string>, reps: nat,
                                        cell: Cell, k: nat)
    requires arm in w.versionsets && k <= |order| && RunProbes(w, prior, arm, order, reps, cell, k).Ok?
    ensures Extends(w, prior, cell, ArmKeys(arm, order, reps, k), RunProbes(w, prior, arm, order, reps, cell, k).value)
  {
    hide Extends;
    hide RunReps;
    if k == 0 {
      ExtendsSelf(w, prior, cell);
    } else {
      var before := RunProbes(w, prior, arm, order, reps, cell, k - 1).value;
      ProbesExtend(w, prior, arm, order, reps, cell, k - 1);
      RepsExtend(w, prior, arm, order[k - 1], before, reps);
      ExtendsConcat(w, prior, cell, ArmKeys(arm, order, reps, k - 1), before, RepKeys(arm, order[k - 1], reps),
                    RunProbes(w, prior, arm, order, reps, cell, k).value);
    }
  }

  lemma CellCovers(w: World, plan: Plan, prior: map<Key, ProbeRun>, arm: string, order: seq<string>)
    requires arm in w.versionsets && RunCell(w, plan, prior, arm, order).Ok?
    ensures var cell := RunCell(w, plan, prior, arm, order).value;
            var ks := ArmKeys(arm, order, Repetitions(plan), |order|);
            && Covers(w, prior, ks, cell.runs)
            && cell.reused == CountIn(ks, prior)
            && cell.calls + cell.reused == |ks|
  {
    var start := Cell([], ExpectedVersions(plan, arm), 0, 0);
    ProbesExtend(w, prior, arm, order, Repetitions(plan), start, |order|);
    var cell := RunCell(w, plan, prior, arm, order).value;
    assert cell.runs[0..] == cell.runs;
  }

  // ---------- each trial once ----------

  function Count<T(==)>(s: seq<T>, x: T): nat {
    if s == [] then 0 else (if s[0] == x then 1 else 0) + Count(s[1..], x)
  }

  lemma {:induction false} CountConcat<T>(s: seq<T>, t: seq<T>, x: T)
    ensures Count(s + t, x) == Count(s, x) + Count(t, x)
  {
    if s == [] {
      assert s + t == t;
    } else {
      assert (s + t)[1..] == s[1..] + t;
      CountConcat(s[1..], t, x);
    }
  }

  lemma CountTake<T>(s: seq<T>, k: nat, x: T)
    requires 0 < k <= |s|
    ensures Count(s[..k], x) == Count(s[..k - 1], x) + if s[k - 1] == x then 1 else 0
  {
    assert s[..k] == s[..k - 1] + [s[k - 1]];
    CountConcat(s[..k - 1], [s[k - 1]], x);
  }

  lemma {:induction false} CountIsMultiplicity<T>(s: seq<T>, x: T)
    ensures Count(s, x) == multiset(s)[x]
  {
    if s != [] {
      CountIsMultiplicity(s[1..], x);
      assert s == [s[0]] + s[1..];
    }
  }

  lemma {:induction false} ArmKeysCount(arm: string, order: seq<string>, reps: nat, k: nat, key: Key)
    requires k <= |order|
    ensures Count(ArmKeys(arm, order, reps, k), key)
            == if key.arm == arm && 1 <= key.repetition <= reps then Count(order[..k], key.probeId) else 0
  {
    if k > 0 {
      ArmKeysCount(arm, order, reps, k - 1, key);
      RepKeysCount(arm, order[k - 1], reps, key);
      CountConcat(ArmKeys(arm, order, reps, k - 1), RepKeys(arm, order[k - 1], reps), key);
      CountTake(order, k, key.probeId);
    }
  }

  lemma {:induction false} RepKeysCount(arm: string, probeId: string, n: nat, key: Key)
    ensures Count(RepKeys(arm, probeId, n), key)
            == if key.arm == arm && key.probeId == probeId && 1 <= key.repetition <= n then 1 else 0
  {
    if n > 0 {
      RepKeysCount(arm, probeId, n - 1, key);
      CountConcat(RepKeys(arm, probeId, n - 1), [Key(arm, probeId, n)], key);
    }
  }

  lemma NothingCounted(arms: seq<string>, key: Key)
    ensures Count(arms[..0], key.arm) == 0 && Count<Key>([], key) == 0
  {
  }

  lemma {:induction false} RoundKeysCount(armOrder: seq<string>, order: seq<string>, reps: nat, a: nat, key: Key)
    requires a <= |armOrder|
    ensures Count(RoundKeys(armOrder, order, reps, a), key)
            == if 1 <= key.repetition <= reps then Count(armOrder[..a], key.arm) * Count(order, key.probeId) else 0
  {
    hide ArmKeys;
    hide Count;
    if a == 0 {
      NothingCounted(armOrder, key);
    } else {
      RoundKeysCount(armOrder, order, reps, a - 1, key);
      ArmKeysCount(armOrder[a - 1], order, reps, |order|, key);
      assert order[..|order|] == order;
      CountConcat(RoundKeys(armOrder, order, reps, a - 1), ArmKeys(armOrder[a - 1], order, reps, |order|), key);
      CountTake(armOrder, a, key.arm);
      var n, copies := Count(armOrder[..a - 1], key.arm), Count(order, key.probeId);
      assert (n + 1) * copies == n * copies + copies;
    }
  }

  /** For a shuffle of the frozen protocol every (arm, probe, repetition) occurs exactly as often as its
    probe is listed: once when the probe lists do not repeat a probe, and nothing else occurs. */
  lemma ExactlyOnce(plan: Plan, armOrder: seq<string>, order: seq<string>, key: Key)
    requires IsShuffle(plan, armOrder, order)
    ensures Count(RoundKeys(armOrder, order, Repetitions(plan), |armOrder|), key)
            == if key.arm in ARMS && 1 <= key.repetition <= plan.repetitions
               then Count(plan.Affected() + plan.unaffectedControls, key.probeId) else 0
  {
    RoundKeysCount(armOrder, order, Repetitions(plan), |armOrder|, key);
    assert armOrder[..|armOrder|] == armOrder;
    ArmsOnce(key.arm);
    CountIsMultiplicity(ARMS, key.arm);
    CountIsMultiplicity(armOrder, key.arm);
    CountIsMultiplicity(order, key.probeId);
    CountIsMultiplicity(plan.Affected() + plan.unaffectedControls, key.probeId);
  }

  lemma ArmsOnce(arm: string)
    ensures multiset(ARMS)[arm] == if arm in ARMS then 1 else 0
  {
    var c, rp, rk, rm, g := "C", "RP", "RK", "RM", "G";
    assert c[0] == 'C' && g[0] == 'G' && rp[1] == 'P' && rk[1] == 'K' && rm[1] == 'M';
    assert multiset(ARMS) == multiset{c, rp, rk, rm, g};
  }

  // ---------- a whole round ----------

  ghost predicate Distinct(armOrder: seq<string>) {
    forall i, j | 0 <= i < j < |armOrder| :: armOrder[i] != armOrder[j]
  }

  lemma ShuffleDistinct(armOrder: seq<string>)
    requires multiset(armOrder) == multiset(ARMS)
    ensures Distinct(armOrder) && |armOrder| == 5
    ensures forall arm :: arm in armOrder <==> arm in ARMS
  {
    assert |multiset(armOrder)| == |multiset(ARMS)|;
    forall i, j | 0 <= i < j < |armOrder| ensures armOrder[i] != armOrder[j] {
      if armOrder[i] == armOrder[j] {
        CountIsMultiplicity(armOrder, armOrder[i]);
        ArmsOnce(armOrder[i]);
        CountTwice(armOrder, i, j);
        assert false;
      }
    }
    forall arm ensures arm in armOrder <==> arm in ARMS {
      assert arm in multiset(armOrder) <==> arm in multiset(ARMS);
    }
  }

  lemma CountTwice<T>(s: seq<T>, i: nat, j: nat)
    requires i < j < |s| && s[i] == s[j]
    ensures Count(s, s[i]) >= 2
  {
    assert s == s[..i] + [s[i]] + s[i + 1..j] + [s[j]] + s[j + 1..];
    CountConcat(s[..i] + [s[i]] + s[i + 1..j] + [s[j]], s[j + 1..], s[i]);
    CountConcat(s[..i] + [s[i]] + s[i + 1..j], [s[j]], s[i]);
    CountConcat(s[..i] + [s[i]], s[i + 1..j], s[i]);
    CountConcat(s[..i], [s[i]], s[i]);
  }

  lemma {:induction false} RoundCells(w: World, plan: Plan, prior: map<Key, ProbeRun>, armOrder: seq<string>,
                                      order: seq<string>, k: nat)
    requires k <= |armOrder| && Distinct(armOrder) && forall i | 0 <= i < |armOrder| :: armOrder[i] in w.versionsets
    requires RunArms(w, plan, prior, armOrder, order, k).Ok?
    ensures var cells := RunArms(w, plan, prior, armOrder, order, k).value;
            && cells.Keys == (set i | 0 <= i < k :: armOrder[i])
            && forall i | 0 <= i < k ::
              armOrder[i] in cells && RunCell(w, plan, prior, armOrder[i], order) == Ok(cells[armOrder[i]])
  {
    hide RunCell;
    if k > 0 {
      RoundCells(w, plan, prior, armOrder, order, k - 1);
    }
  }

  /** Every cell of a finished round holds the frozen trials of its arm, in order, with the right bits. */
  lemma RoundCovers(w: World, plan: Plan, prior: map<Key, ProbeRun>, armOrder: seq<string>, order: seq<string>)
    requires IsShuffle(plan, armOrder, order) && forall arm | arm in ARMS :: arm in w.versionsets
    requires forall i | 0 <= i < |armOrder| :: armOrder[i] in w.versionsets
    requires RunArms(w, plan, prior, armOrder, order, |armOrder|).Ok?
    ensures var cells := RunArms(w, plan, prior, armOrder, order, |armOrder|).value;
            && cells.Keys == (set arm | arm in ARMS)
            && forall arm | arm in ARMS ::
                 Covers(w, prior, ArmKeys(arm, order, Repetitions(plan), |order|), cells[arm].runs)
  {
    ShuffleDistinct(armOrder);
    RoundCells(w, plan, prior, armOrder, order, |armOrder|);
    var cells := RunArms(w, plan, prior, armOrder, order, |armOrder|).value;
    forall arm | arm in ARMS
      ensures arm in cells && Covers(w, prior, ArmKeys(arm, order, Repetitions(plan), |order|), cells[arm].runs)
    {
      assert arm in armOrder;
      CellCovers(w, plan, prior, arm, order);
    }
    forall arm ensures arm in cells <==> arm in ARMS {
      assert arm in armOrder <==> exists i | 0 <= i < |armOrder| :: armOrder[i] == arm;
    }
  }

  function Calls(cells: map<string, Cell>, arms: seq<string>): nat
    requires forall i | 0 <= i < |arms| :: arms[i] in cells
  {
    if arms == [] then 0 else Calls(cells, arms[..|arms| - 1]) + cells[arms[|arms| - 1]].calls
  }

  function Reused(cells: map<string, Cell>, arms: seq<string>): nat
    requires forall i | 0 <= i < |arms| :: arms[i] in cells
  {
    if arms == [] then 0 else Reused(cells, arms[..|arms| - 1]) + cells[arms[|arms| - 1]].reused
  }

  lemma {:induction false} ArmKeysLength(arm: string, order: seq<string>, reps: nat, k: nat)
    requires k <= |order|
    ensures |ArmKeys(arm, order, reps, k)| == k * reps
  {
    if k > 0 {
      ArmKeysLength(arm, order, reps, k - 1);
      assert k * reps == (k - 1) * reps + reps;
    }
  }

  lemma {:induction false} CallsUpTo(w: World, plan: Plan, prior: map<Key, ProbeRun>, armOrder: seq<string>,
                                     order: seq<string>, cells: map<string, Cell>, k: nat)
    requires k <= |armOrder|
    requires forall i | 0 <= i < |armOrder| ::
               && armOrder[i] in w.versionsets && armOrder[i] in cells
               && RunCell(w, plan, prior, armOrder[i], order) == Ok(cells[armOrder[i]])
    ensures Reused(cells, armOrder[..k]) == CountIn(RoundKeys(armOrder, order, Repetitions(plan), k), prior)
    ensures Calls(cells, armOrder[..k]) + Reused(cells, armOrder[..k]) == k * (|order| * Repetitions(plan))
  {
    hide RunCell;
    hide ArmKeys;
    hide CountIn;
    hide Repetitions;
    hide Covers;
    if k == 0 {
      NoCalls(cells, armOrder, prior);
    } else {
      var n := |order| * Repetitions(plan);
      CallsUpTo(w, plan, prior, armOrder, order, cells, k - 1);
      assert armOrder[..k][..k - 1] == armOrder[..k - 1];
      CellCovers(w, plan, prior, armOrder[k - 1], order);
      ArmKeysLength(armOrder[k - 1], order, Repetitions(plan), |order|);
      CountInConcat(RoundKeys(armOrder, order, Repetitions(plan), k - 1),
                    ArmKeys(armOrder[k - 1], order, Repetitions(plan), |order|), prior);
      OneMore(k, n);
    }
  }

  lemma OneMore(k: nat, n: nat)
    requires k > 0
    ensures k * n == (k - 1) * n + n
  {
  }

  lemma NoCalls(cells: map<string, Cell>, armOrder: seq<string>, prior: map<Key, ProbeRun>)
    ensures Calls(cells, armOrder[..0]) == 0 == Reused(cells, armOrder[..0]) == CountIn([], prior)
  {
  }

  lemma {:induction false} CountInWithout(ks: seq<Key>, prior: map<Key, ProbeRun>, key: Key)
    requires Count(ks, key) == 0
    ensures CountIn(ks, prior - {key}) == CountIn(ks, prior)
  {
    if ks != [] {
      assert ks == ks[..|ks| - 1] + [ks[|ks| - 1]];
      CountConcat(ks[..|ks| - 1], [ks[|ks| - 1]], key);
      CountInWithout(ks[..|ks| - 1], prior, key);
    }
  }

  /** If each checkpointed key occurs once, exactly as many trials are reused as were checkpointed. */
  lemma {:induction false} EachReusedOnce(ks: seq<Key>, prior: map<Key, ProbeRun>)
    requires forall key | key in prior :: Count(ks, key) == 1
    ensures CountIn(ks, prior) == |prior|
  {
    if ks == [] {
      assert forall key :: key in prior ==> Count(ks, key) == 0;
      assert prior.Keys == {};
    } else {
      var init, last := ks[..|ks| - 1], ks[|ks| - 1];
      assert ks == init + [last];
      forall key ensures Count(ks, key) == Count(init, key) + if last == key then 1 else 0 {
        CountLast(init, last, key);
      }
      hide Count;
      var fewer := prior - {last};
      EachReusedOnce(init, fewer);
      if last in prior {
        CountInWithout(init, prior, last);
        assert fewer.Keys == prior.Keys - {last};
      } else {
        assert fewer == prior;
      }
    }
  }

  lemma CountLast<T>(s: seq<T>, last: T, x: T)
    ensures Count(s + [last], x) == Count(s, x) + if last == x then 1 else 0
  {
    CountConcat(s, [last], x);
  }

  /** Conservation: every trial of the protocol is either one provider call or one reused checkpoint. */
  lemma CallsConserved(w: World, plan: Plan, prior: map<Key, ProbeRun>, armOrder: seq<string>, order: seq<string>)
    requires IsShuffle(plan, armOrder, order) && forall i | 0 <= i < |armOrder| :: armOrder[i] in w.versionsets
    requires RunArms(w, plan, prior, armOrder, order, |armOrder|).Ok?
    ensures var cells := RunArms(w, plan, prior, armOrder, order, |armOrder|).value;
            && (forall i | 0 <= i < |armOrder| :: armOrder[i] in cells)
            && Reused(cells, armOrder) == CountIn(RoundKeys(armOrder, order, Repetitions(plan), |armOrder|), prior)
            && Calls(cells, armOrder) + Reused(cells, armOrder) == 5 * (|order| * Repetitions(plan))
  {
    hide RunCell;
    hide RoundKeys;
    hide CountIn;
    ShuffleDistinct(armOrder);
    RoundCells(w, plan, prior, armOrder, order, |armOrder|);
    var cells := RunArms(w, plan, prior, armOrder, order, |armOrder|).value;
    hide RunArms;
    CallsUpTo(w, plan, prior, armOrder, order, cells, |armOrder|);
    assert armOrder[..|armOrder|] == armOrder;
  }

  /** With no probe listed twice, no checkpointed trial is paid for again. */
  lemma CheckpointsNotRepaid(plan: Plan, prior: map<Key, ProbeRun>, armOrder: seq<string>, order: seq<string>)
    requires IsShuffle(plan, armOrder, order)
    requires forall key | key in prior :: InProtocol(plan, order, key)
    requires forall p | p in order :: Count(plan.Affected() + plan.unaffectedControls, p) == 1
    ensures CountIn(RoundKeys(armOrder, order, Repetitions(plan), |armOrder|), prior) == |prior|
  {
    var ks := RoundKeys(armOrder, order, Repetitions(plan), |armOrder|);
    forall key | key in prior ensures Count(ks, key) == 1 {
      ExactlyOnce(plan, armOrder, order, key);
    }
    EachReusedOnce(ks, prior);
  }

  // ---------- resume ----------

  /** Trials checkpointed by an earlier, interrupted run against the same provider. */
  ghost predicate Checkpointed(w: World, prior: map<Key, ProbeRun>) {
    forall key | key in prior && key.arm in w.versionsets && key.probeId in w.inputs ::
      WellFormedPrior(prior[key], key) && prior[key].recovered == Bit(w, map[], key)
  }

  ghost predicate SameBits(runs: seq<ProbeRun>, others: seq<ProbeRun>) {
    |runs| == |others| && forall i | 0 <= i < |runs| ::
      && runs[i].probeId == others[i].probeId && runs[i].repetition == others[i].repetition
      && runs[i].recovered == others[i].recovered
  }

  /** A resumed cell against the same cell of an uninterrupted run: the same bits, and component digests
    that are either not seen yet or the same. */
  ghost predicate Tracks(resumed: Cell, plain: Cell) {
    SameBits(resumed.runs, plain.runs) && (resumed.versions.Some? ==> resumed.versions == plain.versions)
  }

  lemma TrialTracks(w: World, prior: map<Key, ProbeRun>, key: Key, resumed: Cell, plain: Cell)
    requires key.arm in w.versionsets && key.probeId in w.inputs && Checkpointed(w, prior)
    requires Tracks(resumed, plain) && RunTrial(w, map[], key, plain).Ok?
    ensures RunTrial(w, prior, key, resumed).Ok?
    ensures Tracks(RunTrial(w, prior, key, resumed).value, RunTrial(w, map[], key, plain).value)
  {
  }

  lemma {:induction false} RepsTrack(w: World, prior: map<Key, ProbeRun>, arm: string, probeId: string, resumed: Cell,
                                     plain: Cell, n: nat)
    requires arm in w.versionsets && probeId in w.inputs && Checkpointed(w, prior)
    requires Tracks(resumed, plain) && RunReps(w, map[], arm, probeId, plain, n).Ok?
    ensures RunReps(w, prior, arm, probeId, resumed, n).Ok?
    ensures Tracks(RunReps(w, prior, arm, probeId, resumed, n).value, RunReps(w, map[], arm, probeId, plain, n).value)
  {
    if n > 0 {
      RepsTrack(w, prior, arm, probeId, resumed, plain, n - 1);
      TrialTracks(w, prior, Key(arm, probeId, n), RunReps(w, prior, arm, probeId, resumed, n - 1).value,
                  RunReps(w, map[], arm, probeId, plain, n - 1).value);
    }
  }

  lemma {:induction false} ProbesTrack(w: World, prior: map<Key, ProbeRun>, arm: string, order: seq<string>, reps: nat,
                                       start: Cell, k: nat)
    requires arm in w.versionsets && k <= |order| && Checkpointed(w, prior)
    requires RunProbes(w, map[], arm, order, reps, start, k).Ok?
    ensures RunProbes(w, prior, arm, order, reps, start, k).Ok?
    ensures Tracks(RunProbes(w, prior, arm, order, reps, start, k).value,
                   RunProbes(w, map[], arm, order, reps, start, k).value)
  {
    if k > 0 {
      ProbesTrack(w, prior, arm, order, reps, start, k - 1);
      RepsTrack(w, prior, arm, order[k - 1], RunProbes(w, prior, arm, order, reps, start, k - 1).value,
                RunProbes(w, map[], arm, order, reps, start, k - 1).value, reps);
    }
  }

  /** If the uninterrupted run finishes, so does the run resumed from any of its checkpoints, and every
    cell shows the same trials with the same recovered bits. */
  lemma {:induction false} ResumeEqualsUninterrupted(w: World, plan: Plan, prior: map<Key, ProbeRun>,
                                                     armOrder: seq<string>, order: seq<string>, k: nat)
    requires k <= |armOrder| && forall i | 0 <= i < |armOrder| :: armOrder[i] in w.versionsets
    requires Checkpointed(w, prior) && RunArms(w, plan, map[], armOrder, order, k).Ok?
    ensures RunArms(w, plan, prior, armOrder, order, k).Ok?
    ensures var resumed := RunArms(w, plan, prior, armOrder, order, k).value;
            var plain := RunArms(w, plan, map[], armOrder, order, k).value;
            resumed.Keys == plain.Keys && forall arm | arm in plain :: SameBits(resumed[arm].runs, plain[arm].runs)
  {
    if k > 0 {
      ResumeEqualsUninterrupted(w, plan, prior, armOrder, order, k - 1);
      var arm := armOrder[k - 1];
      ProbesTrack(w, prior, arm, order, Repetitions(plan), Cell([], ExpectedVersions(plan, arm), 0, 0), |order|);
    }
  }

  /** A run whose trial was stored by the checkpoint callback is a valid checkpoint. */
  lemma RecordedTrialIsCheckpoint(w: World, key: Key, cell: Cell)
    requires key.arm in w.versionsets && key.probeId in w.inputs && RunTrial(w, map[], key, cell).Ok?
    ensures var run := RunTrial(w, map[], key, cell).value.runs[|cell.runs|];
            run.outputRef != "" && run.outputDigest != "" ==> Checkpointed(w, map[key := run])
  {
  }
}
