/** The fail-closed gate of gate.py: five statuses and what a passed report stands for. */
module Gate {
  import opened Wrappers
  import opened ProbeJudge

  datatype Status = Passed | Failed | Error | Skipped

  datatype Candidate = Candidate(
    targetDigest: string, probeSetDigest: string, suiteDigest: string, answers: map<string, string>,
    providerOrigins: map<string, string>, athleteModelDigest: string, source: string)

  datatype SuiteResult = SuiteResult(
    kind: string, status: Status, nPassed: int, nFailed: int, reportRef: string, reportDigest: string)

  /** The judge model; `score` is None where the provider call raises. */
  datatype Judge = Judge(model: string, digest: string, score: (string, string) -> Option<(real, bool)>)

  datatype Artifact = Artifact(uri: string, digest: string)

  datatype Setup = Setup(
    ops: TextOps, probes: map<string, Probe>, judge: Option<Judge>, athleteModel: string, unknownAthleteDigest: string,
    frozenProbeSetDigest: Option<string>, threshold: real)

  datatype GateError = UnsupportedProfile

  const OFFICIAL_ORIGIN := "https://api.stepfun.com/step_plan/v1"

  predicate IsDigest(s: string) {
    && |s| == 71 && "sha256:" <= s
    && forall i | 7 <= i < |s| :: '0' <= s[i] <= '9' || 'a' <= s[i] <= 'f'
  }

  // ---------- the candidate ----------

  predicate CandidateValid(c: Candidate) {
    && IsDigest(c.targetDigest) && IsDigest(c.probeSetDigest) && IsDigest(c.suiteDigest)
    && c.source in ["live", "replay"]
    && (c.source == "live" ==>
        c.providerOrigins.Keys == c.answers.Keys && forall p | p in c.providerOrigins ::
          c.providerOrigins[p] == OFFICIAL_ORIGIN)
  }

  // ---------- answers against probes ----------

  ghost predicate AllMeet(s: Setup, answers: map<string, string>) {
    forall p | p in answers && p in s.probes :: Meets(s.ops, s.probes[p], answers[p])
  }

  /** No answer is to something that is not a probe of the set. */
  predicate OnlyProbes(s: Setup, answers: map<string, string>) {
    forall p | p in answers :: p in s.probes
  }

  /** The answered probes whose answer fails. */
  method FailedAnswers(s: Setup, answers: map<string, string>) returns (failed: set<string>)
    ensures forall p :: p in failed <==> p in answers && p in s.probes && !Meets(s.ops, s.probes[p], answers[p])
  {
    failed := {};
    var left := answers.Keys;
    while left != {}
      invariant left <= answers.Keys
      invariant forall p ::
          p in failed <==> p in answers && p !in left && p in s.probes && !Meets(s.ops, s.probes[p], answers[p])
      decreases |left|
    {
      var p :| p in left;
      left := left - {p};
      if p in s.probes {
        var passed, _ := JudgeProbe(s.ops, s.probes[p], answers[p]);
        if !passed {
          failed := failed + {p};
        }
      }
    }
  }

  // ---------- the tracks ----------

  ghost predicate RuleChecksHold(s: Setup, c: Candidate, isolated: bool) {
    && AllMeet(s, c.answers) && (forall p | p in s.probes :: p in c.answers)
    && (s.frozenProbeSetDigest.Some? ==> c.probeSetDigest == s.frozenProbeSetDigest.value)
    && CandidateValid(c) && (isolated ==> c.source == "replay")
  }

  method RuleTrack(s: Setup, c: Candidate, isolated: bool, liveAvailable: bool) returns (status: Status)
    ensures status == if !RuleChecksHold(s, c, isolated) then Failed
                      else if !isolated && !liveAvailable then Error else Passed
  {
    var checks: seq<Status> := [];
    var failed := FailedAnswers(s, c.answers);
    var missing := set p | p in s.probes && p !in c.answers;
    assert missing == {} <==> forall p | p in s.probes :: p in c.answers by {
      assert forall p :: p in missing <==> p in s.probes && p !in c.answers;
    }
    assert failed == {} <==> AllMeet(s, c.answers);
    checks := checks + [if failed == {} && missing == {} then Passed else Failed];
    var frozen := s.frozenProbeSetDigest;
    checks := checks + [if frozen.None? || c.probeSetDigest == frozen.value then Passed else Failed];
    checks := checks + [if CandidateValid(c) && (isolated ==> c.source == "replay") then Passed else Failed];
    var jsonFailed := set p | p in failed && s.probes[p].isFormatJson;
    assert jsonFailed != {} ==> failed != {};
    checks := checks + [if jsonFailed == {} then Passed else Failed];
    checks := checks + [if isolated || liveAvailable then Passed else Skipped];
    status := if Failed in checks then Failed else if Skipped in checks then Error else Passed;
  }

  /** Every answered probe of the set scored without an error. */
  ghost predicate AllScored(s: Setup, answers: map<string, string>)
    requires s.judge.Some?
  {
    forall p | p in answers && p in s.probes :: s.judge.value.score(p, answers[p]).Some?
  }

  predicate GoodScore(s: Setup, score: Option<(real, bool)>) {
    score.Some? && score.value.1 && score.value.0 >= s.threshold
  }

  ghost predicate AllScoresPass(s: Setup, answers: map<string, string>)
    requires s.judge.Some?
  {
    forall p | p in answers && p in s.probes :: GoodScore(s, s.judge.value.score(p, answers[p]))
  }

  function AthleteDigest(s: Setup, c: Candidate): string {
    if c.athleteModelDigest != "" then c.athleteModelDigest else s.unknownAthleteDigest
  }

  /** A judge that is not the athlete, by name and by digest. */
  predicate IndependentJudge(s: Setup, c: Candidate) {
    && s.judge.Some?
    && !(s.judge.value.model != "" && s.judge.value.model == s.athleteModel)
    && s.judge.value.digest != AthleteDigest(s, c)
  }

  ghost predicate SomethingScored(s: Setup, answers: map<string, string>) {
    exists p | p in answers :: p in s.probes
  }

  method JudgeTrack(s: Setup, c: Candidate) returns (status: Status)
    ensures status == if !IndependentJudge(s, c) || !AllScored(s, c.answers) then Error
                      else if SomethingScored(s, c.answers) && AllScoresPass(s, c.answers) then Passed else Failed
  {
    if !IndependentJudge(s, c) {
      return Error;
    }
    var judge := s.judge.value;
    var scored, good := 0, true;
    var left := c.answers.Keys;
    while left != {}
      invariant left <= c.answers.Keys && scored >= 0
      invariant forall p | p in c.answers && p !in left && p in s.probes :: judge.score(p, c.answers[p]).Some?
      invariant scored > 0 <==> exists p | p in c.answers && p !in left :: p in s.probes
      invariant good <==> forall p | p in c.answers && p !in left && p in s.probes ::
          GoodScore(s, judge.score(p, c.answers[p]))
      decreases |left|
    {
      var p :| p in left;
      left := left - {p};
      if p in s.probes {
        var score := judge.score(p, c.answers[p]);
        if score.None? {
          return Error;
        }
        scored := scored + 1;
        good := good && GoodScore(s, score);
      }
    }
    status := if scored > 0 && good then Passed else Failed;
  }

  predicate SuiteValid(r: SuiteResult, expectedKind: string) {
    && r.kind in ["contract", "replay"] && !r.status.Skipped? && r.nPassed >= 0 && r.nFailed >= 0
       && r.nPassed + r.nFailed > 0
    && (r.status.Passed? ==> r.nFailed == 0) && (r.status.Failed? ==> r.nFailed > 0)
    && r.reportRef != "" && IsDigest(r.reportDigest) && r.kind == expectedKind
  }

  method DeterministicTests(contract: SuiteResult, replay: SuiteResult) returns (status: Status)
    ensures status.Passed? <==> SuiteValid(contract, "contract") && contract.status.Passed?
                                && SuiteValid(replay, "replay") && replay.status.Passed?
    ensures status.Error? <==> !SuiteValid(contract, "contract") || contract.status.Error?
                               || !SuiteValid(replay, "replay") || replay.status.Error?
    ensures !status.Skipped?
  {
    status := Passed;
    var suites := [("contract", contract), ("replay", replay)];
    for k := 0 to 2
      invariant status.Passed? <==> forall i | 0 <= i < k ::
          SuiteValid(suites[i].1, suites[i].0) && suites[i].1.status.Passed?
      invariant status.Error? <==> exists i | 0 <= i < k ::
          !SuiteValid(suites[i].1, suites[i].0) || suites[i].1.status.Error?
      invariant !status.Skipped?
    {
      var result := suites[k].1;
      var one := if SuiteValid(result, suites[k].0) then result.status else Error;
      if one.Error? {
        status := Error;
      } else if one.Failed? && !status.Error? {
        status := Failed;
      }
    }
    assert suites[0].1 == contract && suites[1].1 == replay;
  }

  predicate ArtifactsHold(refs: seq<Artifact>, required: set<Artifact>) {
    && refs != [] && (forall a | a in refs :: a.uri != "" && IsDigest(a.digest))
    && required <= set a | a in refs
  }

  /** Some artifact besides the two suite reports. */
  predicate HasCandidateEvidence(refs: seq<Artifact>, required: set<Artifact>) {
    exists a | a in refs :: a !in required
  }

  method LiveTrack(s: Setup, c: Candidate, isolated: bool, liveAvailable: bool) returns (status: Status)
    ensures status == if isolated || !liveAvailable || c.answers == map[] then Skipped
                      else if c.source != "live" then Error
                      else if AllMeet(s, c.answers) && OnlyProbes(s, c.answers) then Passed else Failed
  {
    if isolated || !liveAvailable || c.answers == map[] {
      return Skipped;
    }
    if c.source != "live" {
      return Error;
    }
    var failed := FailedAnswers(s, c.answers);
    var extra := set p | p in c.answers && p !in s.probes;
    assert extra == {} <==> forall p | p in c.answers :: p in s.probes by {
      assert forall p :: p in extra <==> p in c.answers && p !in s.probes;
    }
    assert failed == {} <==> AllMeet(s, c.answers);
    status := if |failed| + |extra| == 0 then Passed else Failed;
  }

  function Overall(rule: Status, judge: Status, det: Status, live: Status, isolated: bool): Status {
    var statuses := if isolated then [rule, judge, det] else [rule, judge, det, live];
    if Error in statuses || Skipped in statuses then Error
    else if Failed in statuses then Failed
    else Passed
  }

  // ---------- a passed report ----------

  function SuiteReports(contract: SuiteResult, replay: SuiteResult): set<Artifact> {
    {Artifact(contract.reportRef, contract.reportDigest), Artifact(replay.reportRef, replay.reportDigest)}
  }

  ghost predicate EvidenceHolds(c: Candidate, contract: SuiteResult, replay: SuiteResult, refs: seq<Artifact>) {
    var required := SuiteReports(contract, replay);
    && SuiteValid(contract, "contract") && contract.status.Passed?
    && SuiteValid(replay, "replay") && replay.status.Passed?
    && ArtifactsHold(refs, required) && (c.source == "live" ==> HasCandidateEvidence(refs, required))
  }

  // ---------- the same in plain terms ----------

  /** "sha256:" and 64 lower-case hexadecimal digits. */
  ghost predicate HexDigest(d: string) {
    exists hex :: |hex| == 64 && d == "sha256:" + hex && forall ch | ch in hex :: ch in "0123456789abcdef"
  }

  /** A suite of the kind that ran, passed without a failure, and left a report. */
  ghost predicate GoodSuite(r: SuiteResult, kind: string) {
    && r.kind == kind && r.status == Passed && r.nFailed == 0 && r.nPassed > 0
    && r.reportRef != "" && HexDigest(r.reportDigest)
  }

  /** The report of the suite is among the artifacts. */
  ghost predicate Attached(r: SuiteResult, refs: seq<Artifact>) {
    exists a | a in refs :: a.uri == r.reportRef && a.digest == r.reportDigest
  }

  /** The judge is another model than the athlete, by name where it has one and by digest, where an undeclared
    athlete has the digest of the unknown one. */
  ghost predicate AnotherModel(s: Setup, c: Candidate) {
    && s.judge.Some? && (s.judge.value.model == "" || s.judge.value.model != s.athleteModel)
    && (c.athleteModelDigest != "" ==> s.judge.value.digest != c.athleteModelDigest)
    && (c.athleteModelDigest == "" ==> s.judge.value.digest != s.unknownAthleteDigest)
  }

  /** Every probe is answered, meets its specification, and the judge passes it with at least the threshold. */
  ghost predicate EveryProbePasses(s: Setup, c: Candidate)
    requires s.judge.Some?
  {
    && (exists p :: p in s.probes)
    && forall p | p in s.probes ::
         && p in c.answers && Meets(s.ops, s.probes[p], c.answers[p])
         && var verdict := s.judge.value.score(p, c.answers[p]);
            verdict.Some? && verdict.value.1 && s.threshold <= verdict.value.0
  }

  ghost predicate FromOfficialEndpoint(c: Candidate) {
    && (forall p | p in c.answers :: p in c.providerOrigins)
    && (forall p | p in c.providerOrigins ::
          p in c.answers && c.providerOrigins[p] == "https://api.stepfun.com/step_plan/v1")
  }

  ghost predicate BesidesReports(contract: SuiteResult, replay: SuiteResult, refs: seq<Artifact>) {
    exists a | a in refs ::
      && !(a.uri == contract.reportRef && a.digest == contract.reportDigest)
      && !(a.uri == replay.reportRef && a.digest == replay.reportDigest)
  }

  /** There are artifacts with a name and a digest, among them the reports of two good suites. */
  ghost predicate GoodEvidence(contract: SuiteResult, replay: SuiteResult, refs: seq<Artifact>) {
    && GoodSuite(contract, "contract") && GoodSuite(replay, "replay")
    && Attached(contract, refs) && Attached(replay, refs)
    && forall a | a in refs :: a.uri != "" && HexDigest(a.digest)
  }

  /** What both profiles ask for. */
  ghost predicate PassesBoth(s: Setup, c: Candidate, contract: SuiteResult, replay: SuiteResult, refs: seq<Artifact>) {
    && HexDigest(c.targetDigest) && HexDigest(c.probeSetDigest) && HexDigest(c.suiteDigest)
    && (s.frozenProbeSetDigest == None || s.frozenProbeSetDigest == Some(c.probeSetDigest))
    && AnotherModel(s, c) && EveryProbePasses(s, c) && GoodEvidence(contract, replay, refs)
  }

  /** And the live profile: live answers to the probes and to nothing else, each from the official endpoint, and
    an artifact besides the two reports. */
  ghost predicate PassesLive(s: Setup, c: Candidate, contract: SuiteResult, replay: SuiteResult, refs: seq<Artifact>) {
    && PassesBoth(s, c, contract, replay, refs) && c.source == "live"
    && (forall p | p in c.answers :: p in s.probes) && FromOfficialEndpoint(c) && BesidesReports(contract, replay, refs)
  }

  lemma DigestExactly(d: string)
    ensures IsDigest(d) <==> HexDigest(d)
  {
    if IsDigest(d) {
      var hex := d[7..];
      assert d == "sha256:" + hex;
      forall i | 0 <= i < |hex| ensures hex[i] in "0123456789abcdef" {
        assert hex[i] == d[7 + i];
        HexDigits(hex[i]);
      }
    }
    if HexDigest(d) {
      var hex :| |hex| == 64 && d == "sha256:" + hex && forall ch | ch in hex :: ch in "0123456789abcdef";
      forall i | 7 <= i < |d| ensures '0' <= d[i] <= '9' || 'a' <= d[i] <= 'f' {
        assert d[i] == hex[i - 7];
        HexDigits(hex[i - 7]);
      }
    }
  }

  lemma HexDigits(ch: char)
    ensures ch in "0123456789abcdef" <==> '0' <= ch <= '9' || 'a' <= ch <= 'f'
  {
    var digits := "0123456789abcdef";
    if '0' <= ch <= '9' || 'a' <= ch <= 'f' {
      var i := if ch <= '9' then ch as int - '0' as int else ch as int - 'a' as int + 10;
      assert digits[i] == ch;
    }
  }

  lemma SuiteExactly(r: SuiteResult, kind: string)
    requires kind in ["contract", "replay"]
    ensures SuiteValid(r, kind) && r.status.Passed? <==> GoodSuite(r, kind)
  {
    DigestExactly(r.reportDigest);
    hide IsDigest;
    hide HexDigest;
  }

  lemma EvidenceExactly(c: Candidate, contract: SuiteResult, replay: SuiteResult, refs: seq<Artifact>)
    ensures EvidenceHolds(c, contract, replay, refs) <==>
            GoodEvidence(contract, replay, refs) && (c.source == "live" ==> BesidesReports(contract, replay, refs))
  {
    var required := SuiteReports(contract, replay);
    SuiteExactly(contract, "contract");
    SuiteExactly(replay, "replay");
    forall a | a in refs ensures IsDigest(a.digest) <==> HexDigest(a.digest) {
      DigestExactly(a.digest);
    }
    hide SuiteValid;
    hide GoodSuite;
    hide IsDigest;
    hide HexDigest;
    AttachedExactly(contract, refs);
    AttachedExactly(replay, refs);
    assert required <= (set a | a in refs) <==> Attached(contract, refs) && Attached(replay, refs);
  }

  lemma AttachedExactly(r: SuiteResult, refs: seq<Artifact>)
    ensures Artifact(r.reportRef, r.reportDigest) in refs <==> Attached(r, refs)
  {
  }

  lemma JudgeExactly(s: Setup, c: Candidate)
    ensures IndependentJudge(s, c) <==> AnotherModel(s, c)
    ensures AnotherModel(s, c) ==> s.judge.Some?
  {
  }

  lemma ProbesExactly(s: Setup, c: Candidate)
    requires s.judge.Some?
    ensures EveryProbePasses(s, c) <==>
            && AllMeet(s, c.answers) && (forall p | p in s.probes :: p in c.answers)
            && SomethingScored(s, c.answers) && AllScoresPass(s, c.answers)
  {
    hide Meets;
  }

  lemma CandidateExactly(c: Candidate)
    ensures CandidateValid(c) <==>
            && HexDigest(c.targetDigest) && HexDigest(c.probeSetDigest) && HexDigest(c.suiteDigest)
            && (c.source == "replay" || c.source == "live")
            && (c.source == "live" ==> FromOfficialEndpoint(c))
  {
    DigestExactly(c.targetDigest);
    DigestExactly(c.probeSetDigest);
    DigestExactly(c.suiteDigest);
    hide IsDigest;
    hide HexDigest;
    assert c.providerOrigins.Keys == c.answers.Keys <==>
           (forall p :: p in c.providerOrigins.Keys <==> p in c.answers.Keys);
    assert "live"[0] == 'l' && "replay"[0] == 'r';
  }

  method Run(s: Setup, c: Candidate, contract: SuiteResult, replay: SuiteResult, refs: seq<Artifact>,
             liveAvailable: bool, policyProfile: string)
    returns (r: Result<Status, GateError>)
    ensures r.Ok? <==> policyProfile in ["live", "isolated-replay"]
    ensures policyProfile == "live" ==>
              (r.Ok? && r.value.Passed? <==> liveAvailable && PassesLive(s, c, contract, replay, refs))
    ensures policyProfile == "isolated-replay" ==>
              (r.Ok? && r.value.Passed? <==> PassesBoth(s, c, contract, replay, refs) && c.source == "replay")
    ensures r.Ok? ==> !r.value.Skipped?
  {
    if policyProfile != "live" && policyProfile != "isolated-replay" {
      return Err(UnsupportedProfile);
    }
    var isolated := policyProfile == "isolated-replay";
    assert "live"[0] == 'l' && "isolated-replay"[0] == 'i';
    hide *;
    var rule := RuleTrack(s, c, isolated, liveAvailable);
    var judge := JudgeTrack(s, c);
    var det := EvidenceTrack(c, contract, replay, refs);
    var live := LiveTrack(s, c, isolated, liveAvailable);
    r := Ok(Overall(rule, judge, det, live, isolated));
    if isolated {
      IsolatedVerdict(s, c, rule, judge, det, live);
      IsolatedFacts(s, c, contract, replay, refs);
    } else {
      LiveVerdict(s, c, liveAvailable, rule, judge, det, live);
      LiveFacts(s, c, contract, replay, refs);
    }
  }

  /** The deterministic track with the artifact binding applied to it. */
  method EvidenceTrack(c: Candidate, contract: SuiteResult, replay: SuiteResult, refs: seq<Artifact>)
    returns (status: Status)
    ensures status.Passed? <==> EvidenceHolds(c, contract, replay, refs)
    ensures !status.Skipped?
  {
    status := DeterministicTests(contract, replay);
    var required := SuiteReports(contract, replay);
    hide SuiteValid;
    hide ArtifactsHold;
    hide HasCandidateEvidence;
    if !ArtifactsHold(refs, required) || (c.source == "live" && !HasCandidateEvidence(refs, required)) {
      status := Error;
    }
  }

  lemma IsolatedVerdict(s: Setup, c: Candidate, rule: Status, judge: Status, det: Status, live: Status)
    requires rule == if !RuleChecksHold(s, c, true) then Failed else Passed
    requires judge == if !IndependentJudge(s, c) || !AllScored(s, c.answers) then Error
                      else if SomethingScored(s, c.answers) && AllScoresPass(s, c.answers) then Passed else Failed
    requires !det.Skipped?
    ensures Overall(rule, judge, det, live, true).Passed? <==>
            && RuleChecksHold(s, c, true) && IndependentJudge(s, c)
            && SomethingScored(s, c.answers) && AllScoresPass(s, c.answers) && det.Passed?
    ensures !Overall(rule, judge, det, live, true).Skipped?
  {
    ScoresGood(s, c);
    OverallFailsClosed(rule, judge, det, live, true);
  }

  lemma LiveVerdict(s: Setup, c: Candidate, liveAvailable: bool, rule: Status, judge: Status, det: Status, live: Status)
    requires rule == if !RuleChecksHold(s, c, false) then Failed else if !liveAvailable then Error else Passed
    requires judge == if !IndependentJudge(s, c) || !AllScored(s, c.answers) then Error
                      else if SomethingScored(s, c.answers) && AllScoresPass(s, c.answers) then Passed else Failed
    requires !det.Skipped?
    requires live == if !liveAvailable || c.answers == map[] then Skipped
                     else if c.source != "live" then Error
                     else if AllMeet(s, c.answers) && OnlyProbes(s, c.answers) then Passed else Failed
    ensures Overall(rule, judge, det, live, false).Passed? <==>
            && liveAvailable && det.Passed? && RuleChecksHold(s, c, false) && IndependentJudge(s, c)
            && SomethingScored(s, c.answers) && AllScoresPass(s, c.answers)
            && c.answers != map[] && c.source == "live" && AllMeet(s, c.answers) && OnlyProbes(s, c.answers)
    ensures !Overall(rule, judge, det, live, false).Skipped?
  {
    ScoresGood(s, c);
    OverallFailsClosed(rule, judge, det, live, false);
    hide RuleChecksHold;
    hide IndependentJudge;
  }

  lemma ScoresGood(s: Setup, c: Candidate)
    ensures s.judge.Some? && AllScoresPass(s, c.answers) ==> AllScored(s, c.answers)
  {
    if s.judge.Some? && AllScoresPass(s, c.answers) {
      forall p | p in c.answers && p in s.probes ensures s.judge.value.score(p, c.answers[p]).Some? {
        assert GoodScore(s, s.judge.value.score(p, c.answers[p]));
      }
    }
  }

  /** The rule, judge and live conditions and the evidence, in plain terms. */
  lemma LiveFacts(s: Setup, c: Candidate, contract: SuiteResult, replay: SuiteResult, refs: seq<Artifact>)
    ensures (&& RuleChecksHold(s, c, false) && IndependentJudge(s, c)
             && SomethingScored(s, c.answers) && AllScoresPass(s, c.answers)
             && c.answers != map[] && c.source == "live" && AllMeet(s, c.answers) && OnlyProbes(s, c.answers)
             && EvidenceHolds(c, contract, replay, refs))
            <==> PassesLive(s, c, contract, replay, refs)
  {
    assert "live"[0] == 'l' && "replay"[0] == 'r';
    assert SomethingScored(s, c.answers) ==> c.answers != map[];
    hide EvidenceHolds;
    hide GoodEvidence;
    hide BesidesReports;
    hide FromOfficialEndpoint;
    hide CandidateValid;
    hide EveryProbePasses;
    hide AllMeet;
    hide AllScoresPass;
    hide SomethingScored;
    hide HexDigest;
    hide IndependentJudge;
    hide AnotherModel;
    JudgeExactly(s, c);
    CandidateExactly(c);
    EvidenceExactly(c, contract, replay, refs);
    if s.judge.Some? {
      ProbesExactly(s, c);
    }
  }

  lemma IsolatedFacts(s: Setup, c: Candidate, contract: SuiteResult, replay: SuiteResult, refs: seq<Artifact>)
    ensures (&& RuleChecksHold(s, c, true) && IndependentJudge(s, c)
             && SomethingScored(s, c.answers) && AllScoresPass(s, c.answers)
             && EvidenceHolds(c, contract, replay, refs))
            <==> PassesBoth(s, c, contract, replay, refs) && c.source == "replay"
  {
    assert "live"[0] == 'l' && "replay"[0] == 'r';
    hide EvidenceHolds;
    hide GoodEvidence;
    hide BesidesReports;
    hide FromOfficialEndpoint;
    hide CandidateValid;
    hide EveryProbePasses;
    hide AllMeet;
    hide AllScoresPass;
    hide SomethingScored;
    hide HexDigest;
    hide IndependentJudge;
    hide AnotherModel;
    JudgeExactly(s, c);
    CandidateExactly(c);
    EvidenceExactly(c, contract, replay, refs);
    if s.judge.Some? {
      ProbesExactly(s, c);
    }
  }

  /** The gate fails closed: an unavailable live run, a missing or dependent judge, a raising judge, an
    invalid suite or a broken artifact binding never yields Passed or Failed in the live profile. */
  lemma OverallFailsClosed(rule: Status, judge: Status, det: Status, live: Status, isolated: bool)
    ensures Overall(rule, judge, det, live, isolated).Passed?
            <==> rule.Passed? && judge.Passed? && det.Passed? && (isolated || live.Passed?)
    ensures (rule.Error? || judge.Error? || det.Error? || (!isolated && (live.Error? || live.Skipped?)))
            ==> Overall(rule, judge, det, live, isolated).Error?
  {
  }
}
