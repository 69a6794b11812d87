/** eval_runner.py: one execution body per experiment, the prior-trial map, the arm order. */
module EvalRunner {
  import opened Wrappers
  import opened Protocol

  // ---------- the thread registry ----------

  /** Where a thread is in `run_tracked`; it is alive until Exited, unless `start` itself failed. */
  datatype Phase = NotStarted | Body | Ended | Cleaned | Exited

  datatype Thread = Thread(experimentId: string, phase: Phase)

  datatype Registry = Registry(threads: seq<Thread>, entries: map<string, nat>)

  predicate IsAlive(r: Registry, t: nat) {
    t < |r.threads| && r.threads[t].phase in [Body, Ended, Cleaned]
  }

  /** The locked part of `experiment_execute`: nothing if the registered thread is alive, else a new one. */
  function Execute(r: Registry, experimentId: string, starts: bool): Registry {
    if experimentId in r.entries && IsAlive(r, r.entries[experimentId]) then r
    else
      Registry(r.threads + [Thread(experimentId, if starts then Body else NotStarted)],
               r.entries[experimentId := |r.threads|])
  }

  function WithPhase(r: Registry, t: nat, phase: Phase): Registry
    requires t < |r.threads|
  {
    r.(threads := r.threads[t := r.threads[t].(phase := phase)])
  }

  /** The locked part of `finally`: a thread removes only its own entry. */
  function CleanUp(r: Registry, t: nat): Registry
    requires t < |r.threads|
  {
    var id := r.threads[t].experimentId;
    var cleaned := WithPhase(r, t, Cleaned);
    if id in r.entries && r.entries[id] == t then cleaned.(entries := r.entries - {id}) else cleaned
  }

  datatype Step =
    | ExecuteStep(experimentId: string, starts: bool)
    | EndBodyStep(thread: nat)
    | CleanUpStep(thread: nat)
    | ExitStep(thread: nat)

  ghost predicate NextStep(r: Registry, r': Registry, step: Step) {
    match step
    case ExecuteStep(id, starts) => r' == Execute(r, id, starts)
    case EndBodyStep(t) => t < |r.threads| && r.threads[t].phase.Body? && r' == WithPhase(r, t, Ended)
    case CleanUpStep(t) => t < |r.threads| && r.threads[t].phase.Ended? && r' == CleanUp(r, t)
    case ExitStep(t) => t < |r.threads| && r.threads[t].phase.Cleaned? && r' == WithPhase(r, t, Exited)
  }

  ghost predicate Next(r: Registry, r': Registry) {
    exists step :: NextStep(r, r', step)
  }

  ghost predicate IsRun(run: seq<Registry>) {
    run != [] && run[0] == Registry([], map[]) && forall i | 0 < i < |run| :: Next(run[i - 1], run[i])
  }

  ghost predicate RegisteredFor(r: Registry, t: nat, experimentId: string) {
    t < |r.threads| && r.threads[t].experimentId == experimentId && r.threads[t].phase in [NotStarted, Body, Ended]
  }

  /** A thread between its start and its clean-up is the one registered for its experiment, and a registered
    thread is not past its clean-up. */
  ghost predicate RegistryInv(r: Registry) {
    && (forall t | 0 <= t < |r.threads| && r.threads[t].phase in [Body, Ended] ::
          r.threads[t].experimentId in r.entries && r.entries[r.threads[t].experimentId] == t)
    && (forall id | id in r.entries :: RegisteredFor(r, r.entries[id], id))
  }

  lemma ExecuteKeeps(r: Registry, experimentId: string, starts: bool)
    requires RegistryInv(r)
    ensures RegistryInv(Execute(r, experimentId, starts))
  {
  }

  lemma PhaseKeeps(r: Registry, t: nat, phase: Phase)
    requires RegistryInv(r) && t < |r.threads|
    requires (r.threads[t].phase == Body && phase == Ended) || (r.threads[t].phase == Cleaned && phase == Exited)
    ensures RegistryInv(WithPhase(r, t, phase))
  {
  }

  lemma CleanUpKeeps(r: Registry, t: nat)
    requires RegistryInv(r) && t < |r.threads| && r.threads[t].phase == Ended
    ensures RegistryInv(CleanUp(r, t))
  {
  }

  lemma StepKeepsRegistry(r: Registry, r': Registry, step: Step)
    requires RegistryInv(r) && NextStep(r, r', step)
    ensures RegistryInv(r')
  {
    match step
    case ExecuteStep(id, starts) => ExecuteKeeps(r, id, starts);
    case EndBodyStep(t) => PhaseKeeps(r, t, Ended);
    case CleanUpStep(t) => CleanUpKeeps(r, t);
    case ExitStep(t) => PhaseKeeps(r, t, Exited);
  }

  lemma {:induction false} RunKeepsRegistry(run: seq<Registry>, i: nat)
    requires IsRun(run) && i < |run|
    ensures RegistryInv(run[i])
  {
    if i > 0 {
      RunKeepsRegistry(run, i - 1);
      assert Next(run[i - 1], run[i]);
      var step :| NextStep(run[i - 1], run[i], step);
      StepKeepsRegistry(run[i - 1], run[i], step);
    }
  }

  /** Under any interleaving at most one body of an experiment is running. */
  lemma OneBodyPerExperiment(run: seq<Registry>, i: nat, t: nat, u: nat)
    requires IsRun(run) && i < |run| && t < |run[i].threads| && u < |run[i].threads|
    requires run[i].threads[t].phase.Body? && run[i].threads[u].phase.Body?
    requires run[i].threads[t].experimentId == run[i].threads[u].experimentId
    ensures t == u
  {
    RunKeepsRegistry(run, i);
  }

  /** Nor is an experiment blocked for ever: a call starts a new body exactly when no thread of that
    experiment is between its start and its clean-up. */
  lemma StartsWhenIdle(run: seq<Registry>, i: nat, experimentId: string)
    requires IsRun(run) && i < |run|
    ensures Execute(run[i], experimentId, true) != run[i]
            <==> forall t | 0 <= t < |run[i].threads| && run[i].threads[t].experimentId == experimentId ::
                   run[i].threads[t].phase !in [Body, Ended]
  {
    RunKeepsRegistry(run, i);
    assert |run[i].threads + [Thread(experimentId, Body)]| == |run[i].threads| + 1;
  }

  class ExecutionThreads {
    var registry: Registry

    constructor ()
      ensures registry == Registry([], map[])
    {
      registry := Registry([], map[]);
    }

    method ExperimentExecute(experimentId: string, starts: bool)
      modifies this
      ensures registry == Execute(old(registry), experimentId, starts)
    {
      if experimentId in registry.entries && IsAlive(registry, registry.entries[experimentId]) {
        return;
      }
      var thread := |registry.threads|;
      registry := Registry(registry.threads + [Thread(experimentId, NotStarted)],
                           registry.entries[experimentId := thread]);
      if starts {
        registry := WithPhase(registry, thread, Body);
        assert registry.threads == old(registry).threads + [Thread(experimentId, Body)];
      }
    }

    method Release(thread: nat)
      requires thread < |registry.threads|
      modifies this
      ensures registry == CleanUp(old(registry), thread)
    {
      var id := registry.threads[thread].experimentId;
      var own := id in registry.entries && registry.entries[id] == thread;
      registry := WithPhase(registry, thread, Cleaned);
      if own {
        registry := registry.(entries := registry.entries - {id});
      }
    }
  }

  // ---------- _prior_trial_map ----------

  /** A receipt as decoded JSON; None where a field is missing or has the wrong type. */
  datatype TrialReceipt = TrialReceipt(
    cell: Option<string>, probeId: Option<string>, repetition: Option<int>, recovered: Option<bool>,
    outputRef: Option<string>, outputDigest: Option<string>)

  datatype TrialError = MalformedReceipt(index: nat) | DuplicateTrial(index: nat)

  predicate WellFormedReceipt(t: TrialReceipt) {
    && t.cell.Some? && t.cell.value in ARMS && t.probeId.Some? && t.repetition.Some? && t.recovered.Some?
    && t.outputRef.Some? && "data:application/json;base64," <= t.outputRef.value
    && t.outputDigest.Some? && "sha256:" <= t.outputDigest.value
  }

  /** The map entry of one receipt; None if it is malformed. */
  function Decode(t: TrialReceipt): Option<(Key, ProbeRun)> {
    if WellFormedReceipt(t) then
      Some((Key(t.cell.value, t.probeId.value, t.repetition.value),
            ProbeRun(t.probeId.value, t.repetition.value, t.recovered.value, t.outputRef.value, t.outputDigest.value,
                     "")))
    else None
  }

  /** What a receipt of a completed trial must be. */
  ghost predicate ValidReceipt(t: TrialReceipt) {
    && t.cell.Some? && t.cell.value in ["C", "RP", "RK", "RM", "G"]
    && t.probeId.Some? && t.repetition.Some? && t.recovered.Some? && t.outputRef.Some? && t.outputDigest.Some?
    && "data:application/json;base64," <= t.outputRef.value && "sha256:" <= t.outputDigest.value
  }

  /** The receipt is of this trial, and the run says what the receipt says. */
  ghost predicate ReadAs(t: TrialReceipt, key: Key, run: ProbeRun) {
    && t.cell == Some(key.arm) && t.probeId == Some(key.probeId) && t.repetition == Some(key.repetition)
    && run.probeId == key.probeId && run.repetition == key.repetition
    && t.recovered == Some(run.recovered) && t.outputRef == Some(run.outputRef)
    && t.outputDigest == Some(run.outputDigest) && run.answer == ""
  }

  ghost predicate SameTrial(t: TrialReceipt, u: TrialReceipt) {
    t.cell == u.cell && t.probeId == u.probeId && t.repetition == u.repetition
  }

  ghost predicate InMap(t: TrialReceipt, result: map<Key, ProbeRun>) {
    ValidReceipt(t) && exists key | key in result :: ReadAs(t, key, result[key])
  }

  ghost predicate ComesFrom(key: Key, run: ProbeRun, items: seq<TrialReceipt>, i: nat) {
    i < |items| && ReadAs(items[i], key, run)
  }

  /** The map holds every receipt under its own key, read as it is, and nothing else; no two receipts are of one
    trial. */
  ghost predicate Recorded(items: seq<TrialReceipt>, result: map<Key, ProbeRun>) {
    && |result| == |items|
    && (forall i | 0 <= i < |items| :: InMap(items[i], result))
    && (forall key | key in result :: exists i: nat :: ComesFrom(key, result[key], items, i))
    && (forall i, j | 0 <= i < j < |items| :: !SameTrial(items[i], items[j]))
  }

  lemma DecodeReads(t: TrialReceipt)
    ensures Decode(t).Some? <==> ValidReceipt(t)
    ensures Decode(t).Some? ==> ReadAs(t, Decode(t).value.0, Decode(t).value.1)
  {
  }

  lemma RecordsOneMore(items: seq<TrialReceipt>, result: map<Key, ProbeRun>, t: TrialReceipt, key: Key, run: ProbeRun)
    requires Recorded(items, result) && ValidReceipt(t) && ReadAs(t, key, run) && key !in result
    ensures Recorded(items + [t], result[key := run])
  {
    hide ValidReceipt;
    var result', items' := result[key := run], items + [t];
    forall i | 0 <= i < |items'| ensures InMap(items'[i], result') {
      if i < |items| {
        assert InMap(items[i], result);
        var k :| k in result && ReadAs(items[i], k, result[k]);
        assert k in result' && ReadAs(items'[i], k, result'[k]);
      } else {
        assert key in result' && ReadAs(items'[i], key, result'[key]);
      }
    }
    forall k | k in result' ensures exists i: nat :: ComesFrom(k, result'[k], items', i) {
      if k == key {
        assert ComesFrom(k, run, items', |items|);
      } else {
        var i: nat :| ComesFrom(k, result[k], items, i);
        assert ComesFrom(k, result'[k], items', i);
      }
    }
    forall i, j | 0 <= i < j < |items'| ensures !SameTrial(items'[i], items'[j]) {
      assert InMap(items[i], result);
      if j < |items| {
        assert !SameTrial(items[i], items[j]);
      }
    }
  }

  /** Every receipt under its own key as it reads, or an error at the first receipt that is malformed or repeats a
    trial. */
  method PriorTrialMap(items: seq<TrialReceipt>) returns (r: Result<map<Key, ProbeRun>, TrialError>)
    ensures r.Ok? ==> Recorded(items, r.value)
    ensures r.Err? ==> r.error.index < |items|
    ensures r.Err? && r.error.MalformedReceipt? ==> !ValidReceipt(items[r.error.index])
    ensures r.Err? && r.error.DuplicateTrial? ==>
              exists i | 0 <= i < r.error.index :: SameTrial(items[i], items[r.error.index])
  {
    hide Recorded;
    hide ValidReceipt;
    hide Decode;
    var result: map<Key, ProbeRun> := map[];
    NothingRecorded();
    for k := 0 to |items|
      invariant Recorded(items[..k], result)
    {
      DecodeReads(items[k]);
      var entry := Decode(items[k]);
      if entry.None? {
        return Err(MalformedReceipt(k));
      }
      if entry.value.0 in result {
        CameFromOne(items[..k], result, entry.value.0);
        ghost var i: nat :| ComesFrom(entry.value.0, result[entry.value.0], items[..k], i);
        assert SameTrial(items[i], items[k]);
        return Err(DuplicateTrial(k));
      }
      RecordsOneMore(items[..k], result, items[k], entry.value.0, entry.value.1);
      assert items[..k + 1] == items[..k] + [items[k]];
      result := result[entry.value.0 := entry.value.1];
    }
    assert items[..|items|] == items;
    r := Ok(result);
  }

  lemma NothingRecorded()
    ensures Recorded([], map[])
  {
  }

  lemma CameFromOne(items: seq<TrialReceipt>, result: map<Key, ProbeRun>, key: Key)
    requires Recorded(items, result) && key in result
    ensures exists i: nat :: ComesFrom(key, result[key], items, i)
  {
  }

  // ---------- _arm_order_from_bundle ----------

  /** `s.split("@", 1)[0]` */
  function BeforeAt(s: string): string {
    if s == "" || s[0] == '@' then "" else [s[0]] + BeforeAt(s[1..])
  }

  function ProbeOrder(armOrder: seq<string>, affected: seq<string>): seq<string> {
    if armOrder == [] then [] else OneArm(armOrder[0], affected) + ProbeOrder(armOrder[1..], affected)
  }

  function OneArm(arm: string, affected: seq<string>): seq<string> {
    seq(|affected|, i requires 0 <= i < |affected| => arm + "@" + affected[i])
  }

  /** The arms in order of first appearance. */
  function FirstSeen(items: seq<string>, seen: seq<string>): seq<string> {
    if items == [] then seen
    else
      var arm := BeforeAt(items[0]);
      FirstSeen(items[1..], if arm in seen then seen else seen + [arm])
  }

  method ArmOrderFromBundle(items: seq<string>) returns (order: seq<string>)
    ensures order == FirstSeen(items, [])
  {
    order := [];
    for k := 0 to |items|
      invariant FirstSeen(items[k..], order) == FirstSeen(items, [])
    {
      var arm := BeforeAt(items[k]);
      assert items[k..][1..] == items[k + 1..];
      if arm !in order {
        order := order + [arm];
      }
    }
  }

  lemma {:induction false} BeforeAtOfArm(arm: string, rest: string)
    requires '@' !in arm
    ensures BeforeAt(arm + "@" + rest) == arm
  {
    if arm == "" {
    } else {
      var s := arm + "@" + rest;
      assert s[0] == arm[0] && s[1..] == arm[1..] + "@" + rest;
      assert arm[0] in arm;
      forall c | c in arm[1..] ensures c in arm {
      }
      BeforeAtOfArm(arm[1..], rest);
    }
  }

  lemma {:induction false} FirstSeenOneArm(arm: string, affected: seq<string>, rest: seq<string>, seen: seq<string>)
    requires '@' !in arm
    requires affected != [] || arm in seen
    ensures FirstSeen(OneArm(arm, affected) + rest, seen) == FirstSeen(rest, if arm in seen then seen else seen + [arm])
  {
    if affected == [] {
      assert OneArm(arm, affected) + rest == rest;
    } else {
      var items := OneArm(arm, affected) + rest;
      BeforeAtOfArm(arm, affected[0]);
      assert items[0] == arm + "@" + affected[0];
      assert items[1..] == OneArm(arm, affected[1..]) + rest;
      FirstSeenOneArm(arm, affected[1..], rest, if arm in seen then seen else seen + [arm]);
    }
  }

  /** Reading the arm order back from the recorded probe order gives the order the arms were run in. */
  lemma {:induction false} ArmOrderRoundTrip(armOrder: seq<string>, affected: seq<string>, seen: seq<string>)
    requires affected != []
    requires forall i | 0 <= i < |armOrder| :: '@' !in armOrder[i] && armOrder[i] !in seen
    requires forall i, j | 0 <= i < j < |armOrder| :: armOrder[i] != armOrder[j]
    ensures FirstSeen(ProbeOrder(armOrder, affected), seen) == seen + armOrder
  {
    if armOrder == [] {
    } else {
      var rest := armOrder[1..];
      FirstSeenOneArm(armOrder[0], affected, ProbeOrder(rest, affected), seen);
      forall i | 0 <= i < |rest| ensures '@' !in rest[i] && rest[i] !in seen + [armOrder[0]] {
        assert rest[i] == armOrder[i + 1];
      }
      ArmOrderRoundTrip(rest, affected, seen + [armOrder[0]]);
      assert seen + [armOrder[0]] + rest == seen + armOrder;
    }
  }
}
