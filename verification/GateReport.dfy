/** `gate_report_violations` of v4_integrity.py: typed receipts behind every required track. */
module GateReport {
  import opened Wrappers
  import RevisionChain

  /** An exact record binding. */
  datatype Exact = Exact(kind: string, id: string, revision: Option<int>, digest: string)

  /** The frozen records a track was evaluated against. */
  datatype Subject = Subject(
    resolution: Exact, candidate: Exact, revision: Exact, plan: Exact, workspaceId: string, caseId: string)

  datatype TrackReceipt = TrackReceipt(
    id: string,
    revision: Option<int>,
    digest: string,
    hashRule: string,
    subject: Subject,
    track: string,
    status: string,
    completeness: string,
    gateExecutionId: string,
    startedAt: int,
    completedAt: int,
    facets: seq<string>)

  datatype TrackBinding = TrackBinding(track: string, receipt: Exact)

  datatype Report = Report(
    requiredTracks: seq<string>,
    trackReceipts: seq<TrackBinding>,
    gateExecutionId: string,
    completeness: string,
    status: string,
    startedAt: int,
    completedAt: int,
    facets: seq<string>)

  datatype Violation =
    | DuplicateTrack
    | RequiredTrackMissing
    | UnexpectedTrack
    | EvaluationTracksMismatch
    | ReceiptContextMissing
    | ReceiptIdDuplicate
    | ReceiptMissing(index: nat)
    | BindingMismatch(index: nat)
    | HashRuleMismatch(index: nat)
    | DigestMismatch(index: nat)
    | TrackLabelMismatch(index: nat)
    | GateExecutionMismatch(index: nat)
    | PassIffComplete
    | InvalidWindow
    | OutsideWindow(index: nat)
    | FacetsMismatch
    | StatusUnbacked

  function ExactBinding(r: TrackReceipt): Exact {
    Exact("GATE_TRACK_RECEIPT", r.id, r.revision, r.digest)
  }

  function Elements<T(==)>(s: seq<T>): set<T> {
    set x | x in s
  }

  function Tracks(report: Report): seq<string> {
    seq(|report.trackReceipts|, i requires 0 <= i < |report.trackReceipts| => report.trackReceipts[i].track)
  }

  predicate Distinct<T(==)>(s: seq<T>) {
    forall i, j | 0 <= i < j < |s| :: s[i] != s[j]
  }

  // ---------- resolving a binding ----------

  function Find(rs: seq<TrackReceipt>, id: string): seq<TrackReceipt> {
    if rs == [] then []
    else Find(rs[..|rs| - 1], id) + if rs[|rs| - 1].id == id then [rs[|rs| - 1]] else []
  }

  function Resolve(rs: seq<TrackReceipt>, b: TrackBinding): Option<TrackReceipt> {
    var matches := Find(rs, b.receipt.id);
    if |matches| == 1 && b.receipt == ExactBinding(matches[0]) then Some(matches[0]) else None
  }

  function Resolved(rs: seq<TrackReceipt>, bs: seq<TrackBinding>): seq<TrackReceipt> {
    if bs == [] then []
    else Resolved(rs, bs[..|bs| - 1]) + match Resolve(rs, bs[|bs| - 1]) case Some(r) => [r] case None => []
  }

  predicate UniqueIds(rs: seq<TrackReceipt>) {
    forall i, j | 0 <= i < j < |rs| :: rs[i].id != rs[j].id
  }

  const DIGEST_FIELD := "gate_track_receipt_digest"

  /** The record integrity of a receipt: `digestOf` is the digest of its content but the digest itself, None
    where that has no canonical bytes. */
  predicate Sound(digestOf: TrackReceipt -> Option<string>, r: TrackReceipt) {
    r.hashRule == RevisionChain.HashRule(DIGEST_FIELD) && digestOf(r.(digest := "")) == Some(r.digest)
  }

  /** The receipt declares the rule by name, and the digest it declares is that of its other fields. */
  ghost predicate SoundPlainly(digestOf: TrackReceipt -> Option<string>, r: TrackReceipt) {
    && r.hashRule == "jcs-rfc8785-v1+sha256(excluding:/gate_track_receipt_digest)"
    && digestOf(TrackReceipt(r.id, r.revision, "", r.hashRule, r.subject, r.track, r.status, r.completeness,
                             r.gateExecutionId, r.startedAt, r.completedAt, r.facets)) == Some(r.digest)
  }

  lemma SoundExactly(digestOf: TrackReceipt -> Option<string>, r: TrackReceipt)
    ensures Sound(digestOf, r) <==> SoundPlainly(digestOf, r)
  {
    assert RevisionChain.HashRule(DIGEST_FIELD) == "jcs-rfc8785-v1+sha256(excluding:/gate_track_receipt_digest)";
  }

  predicate Fine(digestOf: TrackReceipt -> Option<string>, report: Report, rs: seq<TrackReceipt>, b: TrackBinding) {
    var r := Resolve(rs, b);
    r.Some? && Sound(digestOf, r.value) && r.value.track == b.track && r.value.gateExecutionId == report.gateExecutionId
  }

  predicate PassComplete(r: TrackReceipt) {
    r.status == "PASS" && r.completeness == "COMPLETE"
  }

  predicate AllPassComplete(rs: seq<TrackReceipt>) {
    forall i | 0 <= i < |rs| :: PassComplete(rs[i])
  }

  predicate InWindow(report: Report, r: TrackReceipt) {
    report.startedAt <= r.completedAt <= report.completedAt
  }

  function Facets(rs: seq<TrackReceipt>): set<string> {
    set r, f | r in rs && f in r.facets :: f
  }

  // ---------- the checker ----------

  /** What an empty list of violations means. */
  ghost predicate Accepted(digestOf: TrackReceipt -> Option<string>, report: Report, planTracks: Option<seq<string>>,
                           receipts: Option<seq<TrackReceipt>>)
  {
    && Distinct(Tracks(report)) && Elements(Tracks(report)) == Elements(report.requiredTracks)
    && (planTracks.Some? ==> Elements(report.requiredTracks) == Elements(planTracks.value))
    && receipts.Some? && UniqueIds(receipts.value)
    && (forall i | 0 <= i < |report.trackReceipts| :: Fine(digestOf, report, receipts.value, report.trackReceipts[i]))
    && report.startedAt < report.completedAt
    && var resolved := Resolved(receipts.value, report.trackReceipts);
       && (report.status == "PASS" <==> AllPassComplete(resolved) && report.completeness == "COMPLETE")
       && (forall i | 0 <= i < |resolved| :: InWindow(report, resolved[i]))
       && (resolved != [] ==> Elements(report.facets) == Facets(resolved))
       && (resolved != [] && report.status != "PASS" ==> exists i | 0 <= i < |resolved| ::
         resolved[i].status == report.status)
  }

  method GateReportViolations(digestOf: TrackReceipt -> Option<string>, report: Report, planTracks: Option<seq<string>>,
                              receipts: Option<seq<TrackReceipt>>)
    returns (violations: seq<Violation>)
    ensures violations == [] <==> Accepted(digestOf, report, planTracks, receipts)
    ensures DuplicateTrack in violations <==> !Distinct(Tracks(report))
    ensures receipts.None? ==> ReceiptContextMissing in violations
  {
    var tracks := Tracks(report);
    violations := TrackViolations(report, planTracks);
    var resolved := [];
    if receipts.None? {
      violations := violations + [ReceiptContextMissing];
    } else {
      var found;
      found, resolved := ReceiptViolations(digestOf, report, receipts.value);
      violations := violations + found;
    }
    var complete := Distinct(tracks) && Elements(tracks) == Elements(report.requiredTracks)
                    && |resolved| == |report.trackReceipts|
                    && AllPassComplete(resolved) && report.completeness == "COMPLETE";
    var terminal := TerminalViolations(report, resolved, complete);
    if receipts.Some? {
      ResolvedAll(receipts.value, report.trackReceipts);
    }
    violations := violations + terminal;
  }

  method TrackViolations(report: Report, planTracks: Option<seq<string>>) returns (violations: seq<Violation>)
    ensures violations == [] <==>
            && Distinct(Tracks(report)) && Elements(Tracks(report)) == Elements(report.requiredTracks)
            && (planTracks.Some? ==> Elements(report.requiredTracks) == Elements(planTracks.value))
    ensures DuplicateTrack in violations <==> !Distinct(Tracks(report))
    ensures ReceiptContextMissing !in violations
  {
    var tracks, required := Elements(Tracks(report)), Elements(report.requiredTracks);
    violations := [];
    if !Distinct(Tracks(report)) {
      violations := violations + [DuplicateTrack];
    }
    if required - tracks != {} {
      violations := violations + [RequiredTrackMissing];
    }
    if tracks - required != {} {
      violations := violations + [UnexpectedTrack];
    }
    if planTracks.Some? && required != Elements(planTracks.value) {
      violations := violations + [EvaluationTracksMismatch];
    }
    assert required - tracks == {} && tracks - required == {} ==> tracks == required;
  }

  /** The ids of the receipts in a dictionary, then every binding against it. */
  method ReceiptViolations(digestOf: TrackReceipt -> Option<string>, report: Report, rs: seq<TrackReceipt>)
    returns (violations: seq<Violation>, resolved: seq<TrackReceipt>)
    ensures violations == [] <==>
            UniqueIds(rs) && forall i | 0 <= i < |report.trackReceipts| ::
              Fine(digestOf, report, rs, report.trackReceipts[i])
    ensures resolved == Resolved(rs, report.trackReceipts)
    ensures DuplicateTrack !in violations
  {
    var byId, unique := IndexReceipts(rs);
    violations := if unique then [] else [ReceiptIdDuplicate];
    resolved := [];
    var bindings := report.trackReceipts;
    hide Find;
    hide Fine;
    hide Resolve;
    hide UniqueIds;
    for k := 0 to |bindings|
      invariant resolved == Resolved(rs, bindings[..k])
      invariant violations == [] <==> UniqueIds(rs) && forall i | 0 <= i < k :: Fine(digestOf, report, rs, bindings[i])
      invariant DuplicateTrack !in violations
    {
      var b := bindings[k];
      assert bindings[..k + 1][..k] == bindings[..k];
      var matches := if b.receipt.id in byId then byId[b.receipt.id] else [];
      assert matches == Find(rs, b.receipt.id);
      var found, receipt := BindingViolations(digestOf, report, rs, b, matches, k);
      violations := violations + found;
      resolved := resolved + if receipt.Some? then [receipt.value] else [];
    }
    assert bindings[..|bindings|] == bindings;
  }

  /** One binding against the receipts found under its id. */
  method BindingViolations(digestOf: TrackReceipt -> Option<string>, report: Report, rs: seq<TrackReceipt>,
                           b: TrackBinding, matches: seq<TrackReceipt>, k: nat)
    returns (violations: seq<Violation>, receipt: Option<TrackReceipt>)
    requires matches == Find(rs, b.receipt.id)
    ensures violations == [] <==> Fine(digestOf, report, rs, b)
    ensures receipt == Resolve(rs, b)
    ensures DuplicateTrack !in violations
  {
    if |matches| != 1 {
      return [ReceiptMissing(k)], None;
    }
    if b.receipt != ExactBinding(matches[0]) {
      return [BindingMismatch(k)], None;
    }
    receipt := Some(matches[0]);
    violations := MatchViolations(digestOf, report, b, matches[0], k);
  }

  method MatchViolations(digestOf: TrackReceipt -> Option<string>, report: Report, b: TrackBinding, r: TrackReceipt,
                         k: nat)
    returns (violations: seq<Violation>)
    ensures violations == []
            <==> Sound(digestOf, r) && r.track == b.track && r.gateExecutionId == report.gateExecutionId
    ensures DuplicateTrack !in violations
  {
    violations := [];
    if r.hashRule != RevisionChain.HashRule(DIGEST_FIELD) {
      violations := violations + [HashRuleMismatch(k)];
    }
    if digestOf(r.(digest := "")) != Some(r.digest) {
      violations := violations + [DigestMismatch(k)];
    }
    if r.track != b.track {
      violations := violations + [TrackLabelMismatch(k)];
    }
    if r.gateExecutionId != report.gateExecutionId {
      violations := violations + [GateExecutionMismatch(k)];
    }
  }

  method IndexReceipts(rs: seq<TrackReceipt>) returns (byId: map<string, seq<TrackReceipt>>, unique: bool)
    ensures forall id :: id in byId <==> Find(rs, id) != []
    ensures forall id | id in byId :: byId[id] == Find(rs, id)
    ensures unique <==> UniqueIds(rs)
  {
    byId := IndexById(rs);
    unique := !exists id | id in byId :: |byId[id]| != 1;
    SingletonsInIndex(rs, byId);
  }

  method IndexById(rs: seq<TrackReceipt>) returns (byId: map<string, seq<TrackReceipt>>)
    ensures forall id :: id in byId <==> Find(rs, id) != []
    ensures forall id | id in byId :: byId[id] == Find(rs, id)
  {
    byId := map[];
    for k := 0 to |rs|
      invariant forall id :: id in byId <==> Find(rs[..k], id) != []
      invariant forall id | id in byId :: byId[id] == Find(rs[..k], id)
    {
      assert rs[..k + 1][..k] == rs[..k];
      var id := rs[k].id;
      byId := byId[id := (if id in byId then byId[id] else []) + [rs[k]]];
    }
    assert rs[..|rs|] == rs;
  }

  method TerminalViolations(report: Report, resolved: seq<TrackReceipt>, complete: bool)
    returns (violations: seq<Violation>)
    ensures violations == [] <==>
            && (report.status == "PASS" <==> complete)
            && report.startedAt < report.completedAt
            && (forall i | 0 <= i < |resolved| :: InWindow(report, resolved[i]))
            && (resolved != [] ==> Elements(report.facets) == Facets(resolved))
            && (resolved != [] && report.status != "PASS" ==> exists i | 0 <= i < |resolved| ::
              resolved[i].status == report.status)
    ensures DuplicateTrack !in violations
  {
    violations := [];
    if (report.status == "PASS") != complete {
      violations := violations + [PassIffComplete];
    }
    if report.startedAt >= report.completedAt {
      violations := violations + [InvalidWindow];
    }
    for k := 0 to |resolved|
      invariant violations == [] <==>
                && (report.status == "PASS" <==> complete) && report.startedAt < report.completedAt
                && forall i | 0 <= i < k :: InWindow(report, resolved[i])
      invariant DuplicateTrack !in violations
    {
      if !InWindow(report, resolved[k]) {
        violations := violations + [OutsideWindow(k)];
      }
    }
    if resolved != [] {
      if Elements(report.facets) != Facets(resolved) {
        violations := violations + [FacetsMismatch];
      }
      if report.status != "PASS" && !(exists i | 0 <= i < |resolved| :: resolved[i].status == report.status) {
        violations := violations + [StatusUnbacked];
      }
    }
  }

  // ---------- the dictionary ----------

  lemma {:induction false} FindSome(rs: seq<TrackReceipt>, i: nat)
    requires i < |rs|
    ensures rs[i] in Find(rs, rs[i].id)
  {
    if i < |rs| - 1 {
      assert rs[..|rs| - 1][i] == rs[i];
      FindSome(rs[..|rs| - 1], i);
    }
  }

  lemma {:induction false} FindMembers(rs: seq<TrackReceipt>, id: string)
    ensures forall r | r in Find(rs, id) :: r in rs && r.id == id
  {
    if rs != [] {
      FindMembers(rs[..|rs| - 1], id);
    }
  }

  lemma {:induction false} FindPair(rs: seq<TrackReceipt>, id: string) returns (i: nat, j: nat)
    requires |Find(rs, id)| >= 2
    ensures i < j < |rs| && rs[i].id == rs[j].id == id
  {
    var front := rs[..|rs| - 1];
    if rs[|rs| - 1].id == id {
      var r := Find(front, id)[0];
      FindMembers(front, id);
      assert r in Find(front, id);
      i :| 0 <= i < |front| && front[i] == r;
      j := |rs| - 1;
    } else {
      i, j := FindPair(front, id);
    }
  }

  lemma {:induction false} FindTwice(rs: seq<TrackReceipt>, i: nat, j: nat)
    requires i < j < |rs| && rs[i].id == rs[j].id
    ensures |Find(rs, rs[i].id)| >= 2
  {
    var front := rs[..|rs| - 1];
    if j < |rs| - 1 {
      FindTwice(front, i, j);
    } else {
      FindSome(front, i);
      assert front[i] == rs[i];
    }
  }

  lemma UniqueIffSingletons(rs: seq<TrackReceipt>)
    ensures UniqueIds(rs) <==> forall id | Find(rs, id) != [] :: |Find(rs, id)| == 1
  {
    if UniqueIds(rs) {
      forall id | Find(rs, id) != [] ensures |Find(rs, id)| == 1 {
        if |Find(rs, id)| >= 2 {
          var i, j := FindPair(rs, id);
          assert false;
        }
      }
    } else {
      var i, j :| 0 <= i < j < |rs| && rs[i].id == rs[j].id;
      FindTwice(rs, i, j);
    }
  }

  lemma SingletonsInIndex(rs: seq<TrackReceipt>, byId: map<string, seq<TrackReceipt>>)
    requires forall id :: id in byId <==> Find(rs, id) != []
    requires forall id | id in byId :: byId[id] == Find(rs, id)
    ensures UniqueIds(rs) <==> !exists id | id in byId :: |byId[id]| != 1
  {
    UniqueIffSingletons(rs);
    if UniqueIds(rs) {
      forall id | id in byId ensures |byId[id]| == 1 {
        assert Find(rs, id) != [];
      }
    } else {
      var id :| Find(rs, id) != [] && |Find(rs, id)| != 1;
      assert id in byId;
    }
  }

  /** As many receipts as bindings are resolved exactly when every binding is; then they pair up. */
  lemma {:induction false} ResolvedAll(rs: seq<TrackReceipt>, bs: seq<TrackBinding>)
    ensures |Resolved(rs, bs)| <= |bs|
    ensures |Resolved(rs, bs)| == |bs| <==> forall i | 0 <= i < |bs| :: Resolve(rs, bs[i]).Some?
    ensures |Resolved(rs, bs)| == |bs| ==> forall i | 0 <= i < |bs| :: Resolve(rs, bs[i]) == Some(Resolved(rs, bs)[i])
  {
    if bs != [] {
      ResolvedAll(rs, bs[..|bs| - 1]);
      assert forall i | 0 <= i < |bs| - 1 :: bs[..|bs| - 1][i] == bs[i];
    }
  }

  // ---------- what acceptance gives ----------

  /** The receipt behind a track. */
  ghost predicate Backs(digestOf: TrackReceipt -> Option<string>, report: Report, rs: seq<TrackReceipt>,
                        track: string, r: TrackReceipt)
  {
    && r in rs && Sound(digestOf, r) && r.track == track && r.gateExecutionId == report.gateExecutionId
    && InWindow(report, r)
    && TrackBinding(track, ExactBinding(r)) in report.trackReceipts
  }

  /** In an accepted report the required tracks are in bijection with distinct sound receipts of the same
    gate execution inside its window; the facets are the union of theirs, and the report is PASS exactly
    when all of them are PASS and COMPLETE and the report is COMPLETE. */
  lemma TracksBijectReceipts(digestOf: TrackReceipt -> Option<string>, report: Report, planTracks: Option<seq<string>>,
                             rs: seq<TrackReceipt>)
    returns (backing: map<string, TrackReceipt>)
    requires Accepted(digestOf, report, planTracks, Some(rs))
    ensures backing.Keys == Elements(report.requiredTracks) && |report.trackReceipts| == |backing|
    ensures forall t | t in backing :: Backs(digestOf, report, rs, t, backing[t])
    ensures forall t, t' | t in backing && t' in backing && backing[t].id == backing[t'].id :: t == t'
    ensures forall b | b in report.trackReceipts :: b.track in backing && b.receipt == ExactBinding(backing[b.track])
    ensures backing != map[] ==> Elements(report.facets) == set t, f | t in backing && f in backing[t].facets :: f
    ensures report.status == "PASS" <==> report.completeness == "COMPLETE" && forall t | t in backing ::
        PassComplete(backing[t])
  {
    var tracks, resolved := Tracks(report), Resolved(rs, report.trackReceipts);
    AcceptedBacks(digestOf, report, planTracks, rs);
    AcceptedSummary(digestOf, report, planTracks, rs);
    hide Accepted;
    hide Backs;
    hide Fine;
    hide Resolved;
    hide Facets;
    hide Tracks;
    hide PassComplete;
    hide AllPassComplete;
    hide Elements;
    hide Distinct;
    backing := Zip(tracks, resolved);
    FacetsOfBacking(tracks, resolved, backing);
    BackedByZip(digestOf, report, rs, tracks, resolved, backing);
  }

  lemma BackedByZip(digestOf: TrackReceipt -> Option<string>, report: Report, rs: seq<TrackReceipt>,
                    tracks: seq<string>, resolved: seq<TrackReceipt>, backing: map<string, TrackReceipt>)
    requires |resolved| == |report.trackReceipts| == |tracks| && backing.Keys == Elements(tracks)
    requires forall i | 0 <= i < |tracks| ::
               && tracks[i] == report.trackReceipts[i].track && tracks[i] in backing
                  && backing[tracks[i]] == resolved[i]
               && Backs(digestOf, report, rs, tracks[i], resolved[i])
               && report.trackReceipts[i].receipt == ExactBinding(resolved[i])
    requires forall i, j | 0 <= i < |tracks| && 0 <= j < |tracks| && resolved[i].id == resolved[j].id ::
        tracks[i] == tracks[j]
    ensures forall t | t in backing :: Backs(digestOf, report, rs, t, backing[t])
    ensures forall t, t' | t in backing && t' in backing && backing[t].id == backing[t'].id :: t == t'
    ensures forall b | b in report.trackReceipts :: b.track in backing && b.receipt == ExactBinding(backing[b.track])
  {
    hide Backs;
    hide Elements;
    forall t | t in backing ensures exists i | 0 <= i < |tracks| :: tracks[i] == t {
      InElements(tracks, t);
    }
    forall b | b in report.trackReceipts ensures b.track in backing && b.receipt == ExactBinding(backing[b.track]) {
      var i :| 0 <= i < |report.trackReceipts| && report.trackReceipts[i] == b;
      assert tracks[i] == b.track;
    }
  }

  lemma InElements(s: seq<string>, x: string)
    ensures x in Elements(s) <==> exists i | 0 <= i < |s| :: s[i] == x
  {
  }

  lemma AcceptedSummary(digestOf: TrackReceipt -> Option<string>, report: Report, planTracks: Option<seq<string>>,
                        rs: seq<TrackReceipt>)
    requires Accepted(digestOf, report, planTracks, Some(rs))
    ensures var tracks, resolved := Tracks(report), Resolved(rs, report.trackReceipts);
            && Distinct(tracks) && Elements(tracks) == Elements(report.requiredTracks)
            && |tracks| == |report.trackReceipts| && (forall i | 0 <= i < |tracks| ::
              tracks[i] == report.trackReceipts[i].track)
            && (report.status == "PASS" <==> AllPassComplete(resolved) && report.completeness == "COMPLETE")
            && (resolved != [] ==> Elements(report.facets) == Facets(resolved))
  {
  }

  /** A dictionary from two sequences of one length, the first without repetition. */
  lemma Zip(tracks: seq<string>, rs: seq<TrackReceipt>) returns (m: map<string, TrackReceipt>)
    requires Distinct(tracks) && |tracks| == |rs|
    ensures m.Keys == Elements(tracks) && |m| == |tracks|
    ensures forall i | 0 <= i < |tracks| :: tracks[i] in m && m[tracks[i]] == rs[i]
  {
    m := map i | 0 <= i < |tracks| :: tracks[i] := rs[i];
    DistinctCount(tracks);
    assert m.Keys == Elements(tracks);
  }

  lemma {:induction false} DistinctCount(s: seq<string>)
    requires Distinct(s)
    ensures |Elements(s)| == |s|
  {
    if s != [] {
      var n := |s| - 1;
      DistinctCount(s[..n]);
      assert s[n] !in s[..n];
      assert Elements(s) == Elements(s[..n]) + {s[n]} by {
        assert s == s[..n] + [s[n]];
      }
    }
  }

  lemma FacetsOfBacking(tracks: seq<string>, rs: seq<TrackReceipt>, m: map<string, TrackReceipt>)
    requires |tracks| == |rs| && m.Keys == Elements(tracks)
    requires forall i | 0 <= i < |tracks| :: tracks[i] in m && m[tracks[i]] == rs[i]
    ensures Facets(rs) == set t, f | t in m && f in m[t].facets :: f
    ensures AllPassComplete(rs) <==> (forall t | t in m :: PassComplete(m[t]))
  {
    forall r | r in rs ensures exists t | t in m :: m[t] == r {
      var i :| 0 <= i < |rs| && rs[i] == r;
      assert m[tracks[i]] == r;
    }
    forall t | t in m ensures m[t] in rs {
      assert t in tracks;
    }
  }

  /** Binding by binding: the resolved receipt backs the track, and no two bindings share a receipt id. */
  lemma AcceptedBacks(digestOf: TrackReceipt -> Option<string>, report: Report, planTracks: Option<seq<string>>,
                      rs: seq<TrackReceipt>)
    requires Accepted(digestOf, report, planTracks, Some(rs))
    ensures var bs, resolved := report.trackReceipts, Resolved(rs, report.trackReceipts);
            && |resolved| == |bs|
            && (forall i | 0 <= i < |bs| :: Backs(digestOf, report, rs, bs[i].track, resolved[i]))
            && (forall i | 0 <= i < |bs| :: bs[i].receipt == ExactBinding(resolved[i]))
            && (forall i, j | 0 <= i < |bs| && 0 <= j < |bs| && resolved[i].id == resolved[j].id ::
              bs[i].track == bs[j].track)
  {
    var bs, resolved := report.trackReceipts, Resolved(rs, report.trackReceipts);
    assert forall i | 0 <= i < |bs| :: Fine(digestOf, report, rs, bs[i]);
    ResolvedAll(rs, bs);
    forall i | 0 <= i < |bs|
      ensures Backs(digestOf, report, rs, bs[i].track, resolved[i]) && bs[i].receipt == ExactBinding(resolved[i])
    {
      FindMembers(rs, bs[i].receipt.id);
      assert bs[i] == TrackBinding(bs[i].track, ExactBinding(resolved[i]));
    }
    forall i, j | 0 <= i < |bs| && 0 <= j < |bs| && resolved[i].id == resolved[j].id
      ensures bs[i].track == bs[j].track
    {
      assert bs[i].receipt.id == bs[j].receipt.id;
      assert resolved[i] == Find(rs, bs[i].receipt.id)[0] == resolved[j];
    }
  }

  /** The receipt is the one the binding names, sound, for its track, of the report's own gate execution. */
  ghost predicate Stands(digestOf: TrackReceipt -> Option<string>, report: Report, rs: seq<TrackReceipt>,
                         b: TrackBinding, r: TrackReceipt)
  {
    && r in rs && b.receipt.kind == "GATE_TRACK_RECEIPT" && b.receipt.id == r.id && b.receipt.revision == r.revision
    && b.receipt.digest == r.digest && SoundPlainly(digestOf, r)
    && r.track == b.track && r.gateExecutionId == report.gateExecutionId
  }

  /** Tracks and ids are not repeated, and the required, reported and planned tracks are the same. */
  ghost predicate TracksMatch(report: Report, planTracks: Option<seq<string>>, rs: seq<TrackReceipt>) {
    && (forall i, j | 0 <= i < j < |report.trackReceipts| ::
          report.trackReceipts[i].track != report.trackReceipts[j].track)
    && (forall t :: t in report.requiredTracks <==> exists b | b in report.trackReceipts :: b.track == t)
    && (planTracks.Some? ==> forall t :: t in report.requiredTracks <==> t in planTracks.value)
    && (forall i, j | 0 <= i < j < |rs| :: rs[i].id != rs[j].id)
  }

  /** The receipts that stand behind the report's bindings. */
  ghost predicate Behind(digestOf: TrackReceipt -> Option<string>, report: Report, rs: seq<TrackReceipt>,
                         r: TrackReceipt)
  {
    exists b | b in report.trackReceipts :: Stands(digestOf, report, rs, b, r)
  }

  /** PASS exactly when the report is COMPLETE and all receipts behind it pass and are COMPLETE; another status is
    that of some receipt; the facets are theirs, and they end inside the window. */
  ghost predicate SaysWhatReceiptsSay(digestOf: TrackReceipt -> Option<string>, report: Report,
                                      rs: seq<TrackReceipt>)
  {
    && (report.status == "PASS" <==>
        && report.completeness == "COMPLETE"
        && forall r | Behind(digestOf, report, rs, r) :: r.status == "PASS" && r.completeness == "COMPLETE")
    && (forall r | Behind(digestOf, report, rs, r) ::
          report.startedAt <= r.completedAt && r.completedAt <= report.completedAt)
    && (report.trackReceipts != [] ==>
          && (forall f :: f in report.facets <==> exists r | Behind(digestOf, report, rs, r) :: f in r.facets)
          && (report.status == "PASS"
              || exists r | Behind(digestOf, report, rs, r) :: r.status == report.status))
  }

  /** What an accepted report is. */
  lemma AcceptedExactly(digestOf: TrackReceipt -> Option<string>, report: Report, planTracks: Option<seq<string>>,
                        rs: seq<TrackReceipt>)
    ensures Accepted(digestOf, report, planTracks, Some(rs)) <==>
            && TracksMatch(report, planTracks, rs) && report.startedAt < report.completedAt
            && (forall b | b in report.trackReceipts :: exists r :: Stands(digestOf, report, rs, b, r))
            && SaysWhatReceiptsSay(digestOf, report, rs)
  {
    hide Fine;
    hide Stands;
    hide TracksMatch;
    hide SaysWhatReceiptsSay;
    hide UniqueIds;
    hide Resolved;
    hide Distinct;
    hide Elements;
    hide Tracks;
    hide Facets;
    hide AllPassComplete;
    hide InWindow;
    hide Behind;
    var bs := report.trackReceipts;
    TracksExactly(report, planTracks, rs);
    if UniqueIds(rs) {
      AllFineExactly(digestOf, report, rs);
      if forall i | 0 <= i < |bs| :: Fine(digestOf, report, rs, bs[i]) {
        SummaryExactly(digestOf, report, rs, Resolved(rs, bs));
      }
    }
  }

  lemma AllFineExactly(digestOf: TrackReceipt -> Option<string>, report: Report, rs: seq<TrackReceipt>)
    requires UniqueIds(rs)
    ensures var bs := report.trackReceipts;
            && ((forall i | 0 <= i < |bs| :: Fine(digestOf, report, rs, bs[i])) <==>
                forall b | b in bs :: exists r :: Stands(digestOf, report, rs, b, r))
            && ((forall i | 0 <= i < |bs| :: Fine(digestOf, report, rs, bs[i])) ==>
                && |Resolved(rs, bs)| == |bs|
                && forall r :: r in Resolved(rs, bs) <==> Behind(digestOf, report, rs, r))
  {
    hide Fine;
    hide Stands;
    hide UniqueIds;
    hide Resolved;
    hide Behind;
    hide Resolve;
    var bs := report.trackReceipts;
    forall b | b in bs ensures Fine(digestOf, report, rs, b) <==> exists r :: Stands(digestOf, report, rs, b, r) {
      FineExactly(digestOf, report, rs, b);
    }
    assert forall b | b in bs :: exists i | 0 <= i < |bs| :: bs[i] == b;
    if forall i | 0 <= i < |bs| :: Fine(digestOf, report, rs, bs[i]) {
      ResolvedBehind(digestOf, report, rs);
    }
  }

  lemma TracksExactly(report: Report, planTracks: Option<seq<string>>, rs: seq<TrackReceipt>)
    ensures TracksMatch(report, planTracks, rs) <==>
            && Distinct(Tracks(report)) && Elements(Tracks(report)) == Elements(report.requiredTracks)
            && (planTracks.Some? ==> Elements(report.requiredTracks) == Elements(planTracks.value))
            && UniqueIds(rs)
  {
    var tracks, bs := Tracks(report), report.trackReceipts;
    assert forall i | 0 <= i < |bs| :: tracks[i] == bs[i].track;
    forall t ensures t in Elements(tracks) <==> exists b | b in bs :: b.track == t {
      if b :| b in bs && b.track == t {
        var i :| 0 <= i < |bs| && bs[i] == b;
        assert tracks[i] == t;
      }
      if t in tracks {
        var i :| 0 <= i < |tracks| && tracks[i] == t;
        assert bs[i] in bs && bs[i].track == t;
      }
    }
    forall t ensures t in Elements(report.requiredTracks) <==> t in report.requiredTracks {
    }
  }

  /** Among receipts with unique ids, a binding is fine exactly when a receipt stands behind it. */
  lemma FineExactly(digestOf: TrackReceipt -> Option<string>, report: Report, rs: seq<TrackReceipt>, b: TrackBinding)
    requires UniqueIds(rs)
    ensures Fine(digestOf, report, rs, b) <==> exists r :: Stands(digestOf, report, rs, b, r)
    ensures forall r :: Stands(digestOf, report, rs, b, r) ==> Resolve(rs, b) == Some(r)
    ensures Fine(digestOf, report, rs, b) ==> Stands(digestOf, report, rs, b, Resolve(rs, b).value)
  {
    hide SoundPlainly;
    hide Sound;
    forall r | Stands(digestOf, report, rs, b, r)
      ensures Resolve(rs, b) == Some(r) && Fine(digestOf, report, rs, b)
    {
      FindUnique(rs, r);
      SoundExactly(digestOf, r);
      assert b.receipt == ExactBinding(r);
    }
    if Fine(digestOf, report, rs, b) {
      var r := Resolve(rs, b).value;
      FindMembers(rs, b.receipt.id);
      SoundExactly(digestOf, r);
      assert Stands(digestOf, report, rs, b, r);
    }
  }

  lemma FindUnique(rs: seq<TrackReceipt>, r: TrackReceipt)
    requires UniqueIds(rs) && r in rs
    ensures Find(rs, r.id) == [r]
  {
    var i :| 0 <= i < |rs| && rs[i] == r;
    FindSome(rs, i);
    FindMembers(rs, r.id);
    UniqueIffSingletons(rs);
    assert r in Find(rs, r.id);
  }

  /** Where every binding is fine, the resolved receipts are those that stand behind the report. */
  lemma ResolvedBehind(digestOf: TrackReceipt -> Option<string>, report: Report, rs: seq<TrackReceipt>)
    requires UniqueIds(rs) && forall b | b in report.trackReceipts :: Fine(digestOf, report, rs, b)
    ensures |Resolved(rs, report.trackReceipts)| == |report.trackReceipts|
    ensures forall r :: r in Resolved(rs, report.trackReceipts) <==> Behind(digestOf, report, rs, r)
  {
    var bs, resolved := report.trackReceipts, Resolved(rs, report.trackReceipts);
    ResolvedAll(rs, bs);
    assert forall i | 0 <= i < |bs| :: Fine(digestOf, report, rs, bs[i]);
    forall b | b in bs
      ensures forall r :: Stands(digestOf, report, rs, b, r) ==> Resolve(rs, b) == Some(r)
      ensures Resolve(rs, b).Some? && Stands(digestOf, report, rs, b, Resolve(rs, b).value)
    {
      FineExactly(digestOf, report, rs, b);
    }
    hide Fine;
    hide Stands;
    hide Resolve;
    hide Resolved;
    forall r ensures r in resolved <==> Behind(digestOf, report, rs, r) {
      if r in resolved {
        var i :| 0 <= i < |resolved| && resolved[i] == r;
        assert bs[i] in bs && Resolve(rs, bs[i]) == Some(r);
      }
      if Behind(digestOf, report, rs, r) {
        var b :| b in bs && Stands(digestOf, report, rs, b, r);
        var i :| 0 <= i < |bs| && bs[i] == b;
        assert Resolve(rs, bs[i]) == Some(resolved[i]);
      }
    }
  }

  lemma SummaryExactly(digestOf: TrackReceipt -> Option<string>, report: Report, rs: seq<TrackReceipt>,
                       resolved: seq<TrackReceipt>)
    requires |resolved| == |report.trackReceipts|
    requires forall r :: r in resolved <==> Behind(digestOf, report, rs, r)
    ensures SaysWhatReceiptsSay(digestOf, report, rs) <==>
            && (report.status == "PASS" <==> AllPassComplete(resolved) && report.completeness == "COMPLETE")
            && (forall i | 0 <= i < |resolved| :: InWindow(report, resolved[i]))
            && (resolved != [] ==> Elements(report.facets) == Facets(resolved))
            && (resolved != [] && report.status != "PASS" ==> exists i | 0 <= i < |resolved| ::
              resolved[i].status == report.status)
  {
    hide Behind;
    assert forall r | r in resolved :: exists i | 0 <= i < |resolved| :: resolved[i] == r;
    assert AllPassComplete(resolved) <==>
           forall r | Behind(digestOf, report, rs, r) :: r.status == "PASS" && r.completeness == "COMPLETE";
    assert (forall i | 0 <= i < |resolved| :: InWindow(report, resolved[i])) <==>
           forall r | Behind(digestOf, report, rs, r) ::
             report.startedAt <= r.completedAt && r.completedAt <= report.completedAt;
    forall f ensures f in Facets(resolved) <==> exists r | Behind(digestOf, report, rs, r) :: f in r.facets {
    }
    forall f ensures f in Elements(report.facets) <==> f in report.facets {
    }
    assert Elements(report.facets) == Facets(resolved) <==>
           forall f :: f in report.facets <==> exists r | Behind(digestOf, report, rs, r) :: f in r.facets;
  }

  /** With no required track at all, a COMPLETE report is accepted, and only as PASS: no receipt stands
    behind it. The JSON schema of the report asks for at least one track, so this takes a caller that has
    not validated against it. */
  lemma EmptyReportPasses(digestOf: TrackReceipt -> Option<string>, report: Report)
    requires report.requiredTracks == [] && report.trackReceipts == [] && report.startedAt < report.completedAt
    requires report.completeness == "COMPLETE"
    ensures Accepted(digestOf, report, None, Some([])) <==> report.status == "PASS"
  {
    assert Tracks(report) == [];
  }
}
