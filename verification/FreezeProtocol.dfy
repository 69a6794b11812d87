/** `workorder_freeze` under concurrent callers, crashes, lost and repeated messages.
  Each locked block is one step; between the blocks anything may happen. */
module FreezeProtocol {
  import opened Wrappers
  import opened Json
  import opened WorkOrder
  import opened WorkorderHash

  // ---------- facts about one payload ----------

  const KEYS: seq<string> := [
    "schema_version", "workorder_id", "case_id", "channel", "base_versionset_digest", "target_versionset_digest",
    "input_versions", "diff", "gate_report_ref", "expiry", "nonce", "created_at", "created_by", "hash_rule", "hash" ]

  lemma KeysDiffer()
    ensures |KEYS| == 15 && KEYS[14] == "hash"
    ensures forall i, j | 0 <= i < j < |KEYS| :: KEYS[i] != KEYS[j]
  {
    assert |KEYS[0]| == 14 && |KEYS[1]| == 12 && |KEYS[2]| == 7 && |KEYS[3]| == 7 && |KEYS[4]| == 22 && |KEYS[5]| == 24;
    assert |KEYS[6]| == 14 && |KEYS[7]| == 4 && |KEYS[8]| == 15 && |KEYS[9]| == 6 && |KEYS[10]| == 5;
    assert |KEYS[11]| == 10 && |KEYS[12]| == 10 && |KEYS[13]| == 9 && |KEYS[14]| == 4;
    assert KEYS[0][0] == 's' && KEYS[6][0] == 'i' && KEYS[2][1] == 'a' && KEYS[3][1] == 'h';
    assert KEYS[7][0] == 'd' && KEYS[14][0] == 'h' && KEYS[11][8] == 'a' && KEYS[12][8] == 'b';
  }

  lemma TextInjective(a: string, b: string)
    ensures T(a) == T(b) ==> a == b
  {
    if T(a) == T(b) {
      forall i | 0 <= i < |a| ensures a[i] == b[i] {
        assert T(a)[i] == T(b)[i];
      }
    }
  }

  lemma PayloadKeys(row: Row, stamp: Stamp)
    ensures |BuildPayload(row, stamp)| == 14
    ensures forall i | 0 <= i < 14 :: BuildPayload(row, stamp)[i].key == T(KEYS[i])
    ensures BuildPayload(row, stamp)[10].val == Str(stamp.nonce)
  {
  }

  lemma PayloadDistinct(row: Row, stamp: Stamp)
    ensures Distinct(BuildPayload(row, stamp)) && !HasKey(BuildPayload(row, stamp), HASH)
  {
    hide BuildPayload;
    hide T;
    PayloadKeys(row, stamp);
    KeysDiffer();
    forall i, j | 0 <= i < j < |KEYS| ensures T(KEYS[i]) != T(KEYS[j]) {
      TextInjective(KEYS[i], KEYS[j]);
    }
    assert HASH == T(KEYS[14]);
  }

  lemma {:induction false} LookupAppended(fs: seq<Field>, f: Field)
    requires !HasKey(fs, f.key)
    ensures Lookup(fs + [f], f.key) == Some(f.val)
  {
    if fs != [] {
      assert (fs + [f])[1..] == fs[1..] + [f];
      assert fs[0].key != f.key;
      forall i | 0 <= i < |fs[1..]| ensures fs[1..][i].key != f.key {
        assert fs[i + 1].key != f.key;
      }
      LookupAppended(fs[1..], f);
    }
  }

  /** A sealed payload passes the integrity check made on every retry. */
  lemma SealIsIntact(sha: string -> string, body: seq<Field>)
    requires Seal(sha, body).Ok? && !HasKey(body, HASH)
    ensures var (payload, hash) := Seal(sha, body).value; IntentIntact(sha, Some(payload), Some(hash))
  {
    var (payload, hash) := Seal(sha, body).value;
    LookupAppended(body, Field(HASH, Str(T(hash))));
    HashFieldIsFree(sha, body, Str(T(hash)));
  }

  ghost predicate DraftWellFormed(row: Row) {
    WellFormed(row.draft.inputVersions) && WellFormed(row.draft.diff)
  }

  lemma PayloadWellFormed(row: Row, stamp: Stamp, hash: string)
    requires DraftWellFormed(row)
    ensures WellFormed(Obj(WithHash(BuildPayload(row, stamp), hash)))
  {
    var body := BuildPayload(row, stamp);
    ValuesWellFormed(row, stamp);
    hide BuildPayload;
    PayloadDistinct(row, stamp);
    var payload := WithHash(body, hash);
    forall i, j | 0 <= i < j < |payload| ensures payload[i].key != payload[j].key {
      assert i < |body| && payload[i] == body[i];
      assert j < |body| ==> payload[j] == body[j];
    }
    forall i | 0 <= i < |payload| ensures WellFormed(payload[i].val) {
      assert i < |body| ==> payload[i] == body[i];
    }
  }

  lemma ValuesWellFormed(row: Row, stamp: Stamp)
    requires DraftWellFormed(row)
    ensures forall i | 0 <= i < |BuildPayload(row, stamp)| :: WellFormed(BuildPayload(row, stamp)[i].val)
  {
    var uri, digest := "uri", "digest";
    assert |T(uri)| == 3 && |T(digest)| == 6;
    var ref := BuildPayload(row, stamp)[8].val;
    assert ref.fields[0].key == T(uri) && ref.fields[1].key == T(digest);
    assert WellFormed(ref.fields[0].val) && WellFormed(ref.fields[1].val);
  }

  lemma {:induction false} PyEqualReflexive(v: Value)
    requires WellFormed(v)
    ensures PyEqual(v, v)
    decreases v
  {
    match v
    case Arr(xs) =>
      forall i | 0 <= i < |xs| ensures PyEqual(xs[i], xs[i]) {
        PyEqualReflexive(xs[i]);
      }
    case Obj(fs) =>
      forall i, j | 0 <= i < |fs| && 0 <= j < |fs| && fs[i].key == fs[j].key ensures PyEqual(fs[i].val, fs[j].val) {
        assert i == j;
        PyEqualReflexive(fs[i].val);
      }
    case _ =>
  }

  // ---------- the protocol ----------

  /** A call of `workorder_freeze` between its two locked blocks. */
  datatype Caller = Posting(payload: seq<Field>) | Receipted(payload: seq<Field>)

  datatype Registration = Registration(payload: seq<Field>, workerId: Text, fencingToken: int)

  datatype Receipt = Receipt(workorderId: Option<Text>, hash: Option<Text>, hasDuplicateFlag: bool)

  /** The row, the calls in flight, every registration ever sent, what the registrar holds under this
    id, every receipt it ever gave, and every approval ever asked for. */
  datatype State = State(
    row: Row,
    callers: map<nat, Caller>,
    sent: set<Registration>,
    registrar: Option<seq<Field>>,
    receipts: set<Receipt>,
    asks: set<ApprovalAsk>)

  function HashField(payload: seq<Field>): Option<Value> {
    Lookup(payload, HASH)
  }

  ghost predicate Init(s: State) {
    && DraftWellFormed(s.row) && s.row.status == DRAFT && s.row.frozenPayload == None && s.row.hash == None
    && s.row.gateReportRef == [] && s.row.gateReportDigest == []
    && s.callers == map[] && s.sent == {} && s.registrar == None && s.receipts == {} && s.asks == {}
  }

  /** The registrar's own hash check: the payload carries the hash of its other fields. */
  ghost predicate Sealed(sha: string -> string, payload: seq<Field>) {
    WellFormed(Obj(payload)) && exists hash :: IntentIntact(sha, Some(payload), Some(hash))
  }

  /** Assumed of the registrar: a receipt that names this id and a hash names the hash it holds. */
  ghost predicate Truthful(s: State, r: Receipt) {
    r.workorderId == Some(s.row.workorderId) && r.hash.Some? ==>
      s.registrar.Some? && HashField(s.registrar.value) == Some(Str(r.hash.value))
  }

  predicate ReceiptAccepted(s: State, payload: seq<Field>, r: Receipt) {
    && r.workorderId == Some(s.row.workorderId)
    && r.hash.Some? && HashField(payload) == Some(Str(r.hash.value)) && r.hasDuplicateFlag
  }

  datatype Step =
    | GateStep(submission: Submission)
    | BeginStep(caller: nat, stamp: Stamp)
    | SendStep(caller: nat, fencingToken: int)
    | RegisterStep(registration: Registration)
    | ForeignStep(foreign: seq<Field>)
    | ReplyStep(reply: Receipt)
    | ReceiveStep(caller: nat, receipt: Receipt)
    | CrashStep(caller: nat)
    | FinishStep(caller: nat)
    | AskStep

  ghost predicate NextStep(sha: string -> string, s: State, s': State, step: Step) {
    match step
    case GateStep(g) =>
      && GateHolds(s.row.workorderId, s.row.draft, g)
      && s' == s.(row := AttachGate(s.row, T("eval://") + g.evalId, PREFIX + g.reportHash))
    case BeginStep(c, stamp) =>
      var (row, intent) := LockIntent(sha, s.row, stamp);
      && c !in s.callers
      && s' == s.(row := row,
                  callers := if intent.Register? then s.callers[c := Posting(intent.payload)] else s.callers)
    case SendStep(c, token) =>
      && c in s.callers && s.callers[c].Posting? && token > 0
      && s' == s.(sent := s.sent + {Registration(s.callers[c].payload, s.row.createdBy, token)})
    case RegisterStep(reg) =>
      && reg in s.sent && s.registrar.None? && s' == s.(registrar := Some(reg.payload))
    case ForeignStep(p) =>
      && s.registrar.None? && Sealed(sha, p) && s' == s.(registrar := Some(p))
    case ReplyStep(r) =>
      && Truthful(s, r) && s' == s.(receipts := s.receipts + {r})
    case ReceiveStep(c, r) =>
      && c in s.callers && s.callers[c].Posting? && r in s.receipts
      && s' == s.(callers := if ReceiptAccepted(s, s.callers[c].payload, r)
                             then s.callers[c := Receipted(s.callers[c].payload)] else s.callers - {c})
    case CrashStep(c) => s' == s.(callers := s.callers - {c})
    case FinishStep(c) =>
      && c in s.callers && s.callers[c].Receipted?
      && s' == s.(row := LockFinish(s.row, s.callers[c].payload).0, callers := s.callers - {c})
    case AskStep =>
      && RequestApproval(s.row).Ok? && s' == s.(asks := s.asks + {RequestApproval(s.row).value})
  }

  ghost predicate Next(sha: string -> string, s: State, s': State) {
    exists step :: NextStep(sha, s, s', step)
  }

  // ---------- the invariant ----------

  ghost predicate Registered(s: State) {
    && s.registrar.Some? && s.row.frozenPayload.Some?
    && HashField(s.registrar.value) == HashField(s.row.frozenPayload.value)
  }

  ghost predicate RowInv(sha: string -> string, row: Row) {
    && DraftWellFormed(row)
    && (row.status == DRAFT ==> row.frozenPayload == None && row.hash == None)
    && (row.status != DRAFT ==>
        IntentIntact(sha, row.frozenPayload, row.hash) && WellFormed(Obj(row.frozenPayload.value)))
  }

  ghost predicate Inv(sha: string -> string, s: State) {
    && RowInv(sha, s.row)
    && (forall c | c in s.callers :: s.row.frozenPayload == Some(s.callers[c].payload))
    && (forall r | r in s.sent :: s.row.frozenPayload == Some(r.payload))
    && (s.registrar.Some? ==> Sealed(sha, s.registrar.value))
    && (forall r | r in s.receipts :: Truthful(s, r))
    && (forall c | c in s.callers && s.callers[c].Receipted? :: Registered(s))
    && (s.row.status == FROZEN ==> Registered(s))
    && (forall a | a in s.asks :: AskMatches(s, a))
  }

  /** An approval is asked for the hash, nonce and expiry of the frozen payload. */
  ghost predicate AskMatches(s: State, a: ApprovalAsk) {
    && s.row.status == FROZEN && s.row.hash == Some(a.hash) && s.row.frozenPayload.Some?
    && Lookup(s.row.frozenPayload.value, T("nonce")) == Some(a.nonce)
    && Lookup(s.row.frozenPayload.value, T("expiry")) == Some(a.expiry)
  }

  lemma InitInv(sha: string -> string, s: State)
    requires Init(s)
    ensures Inv(sha, s)
  {
  }

  lemma SealedDraft(sha: string -> string, row: Row, stamp: Stamp)
    requires DraftWellFormed(row) && Seal(sha, BuildPayload(row, stamp)).Ok?
    ensures var (payload, hash) := Seal(sha, BuildPayload(row, stamp)).value;
            IntentIntact(sha, Some(payload), Some(hash)) && WellFormed(Obj(payload))
  {
    hide BuildPayload;
    hide WellFormed;
    PayloadDistinct(row, stamp);
    SealIsIntact(sha, BuildPayload(row, stamp));
    PayloadWellFormed(row, stamp, Seal(sha, BuildPayload(row, stamp)).value.1);
  }

  /** The part of a row that no tool changes after drafting. */
  ghost predicate SameDraft(row: Row, row': Row) {
    && row'.workorderId == row.workorderId && row'.caseId == row.caseId && row'.channel == row.channel
    && row'.createdBy == row.createdBy && row'.draft == row.draft
  }

  /** The first locked block: it never finds a corrupt intent, and past DRAFT it changes nothing. */
  lemma BeginKeeps(sha: string -> string, row: Row, stamp: Stamp)
    requires RowInv(sha, row)
    ensures var (row', intent) := LockIntent(sha, row, stamp);
            && RowInv(sha, row')
            && (row.status != DRAFT ==> row' == row)
            && (intent.Register? ==> row'.frozenPayload == Some(intent.payload))
            && intent != Refused(IntentCorrupt)
            && SameDraft(row, row') && row'.gateReportRef == row.gateReportRef
            && row'.gateReportDigest == row.gateReportDigest
            && (row'.status == FROZEN ==> row.status == FROZEN)
  {
    hide BuildPayload;
    hide WellFormed;
    hide Hash;
    if row.status == DRAFT && Seal(sha, BuildPayload(row, stamp)).Ok? {
      SealedDraft(sha, row, stamp);
    }
  }

  lemma FinishKeeps(sha: string -> string, s: State, c: nat)
    requires Inv(sha, s) && c in s.callers && s.callers[c].Receipted?
    ensures LockFinish(s.row, s.callers[c].payload) == (s.row.(status := FROZEN), None)
  {
    hide Sealed;
    hide Truthful;
    hide Registered;
    PyEqualReflexive(Obj(s.row.frozenPayload.value));
  }

  /** What was sent is sealed, so the registrar's own check lets it in. */
  lemma SentIsSealed(sha: string -> string, s: State, reg: Registration)
    requires Inv(sha, s) && reg in s.sent
    ensures Sealed(sha, reg.payload)
  {
    hide Hash;
    assert IntentIntact(sha, Some(reg.payload), Some(s.row.hash.value));
  }

  lemma InvInductive(sha: string -> string, s: State, s': State, step: Step)
    requires Inv(sha, s) && NextStep(sha, s, s', step)
    ensures Inv(sha, s')
  {
    hide BuildPayload;
    hide LockIntent;
    hide LockFinish;
    hide WellFormed;
    hide Hash;
    hide Sealed;
    match step
    case BeginStep(c, stamp) => BeginKeeps(sha, s.row, stamp);
    case FinishStep(c) =>
      FinishKeeps(sha, s, c);
      hide IntentIntact;
    case RegisterStep(reg) =>
      SentIsSealed(sha, s, reg);
      hide IntentIntact;
    case AskStep =>
    case _ => hide IntentIntact;
  }

  // ---------- over whole runs ----------

  ghost predicate Path(sha: string -> string, b: seq<State>) {
    b != [] && forall i | 0 < i < |b| :: Next(sha, b[i - 1], b[i])
  }

  ghost predicate Behaviour(sha: string -> string, b: seq<State>) {
    Path(sha, b) && Init(b[0])
  }

  lemma {:induction false} BehaviourInv(sha: string -> string, b: seq<State>, i: nat)
    requires Behaviour(sha, b) && i < |b|
    ensures Inv(sha, b[i])
  {
    if i == 0 {
      InitInv(sha, b[0]);
    } else {
      BehaviourInv(sha, b, i - 1);
      assert Next(sha, b[i - 1], b[i]);
      var step :| NextStep(sha, b[i - 1], b[i], step);
      InvInductive(sha, b[i - 1], b[i], step);
    }
  }

  function Rank(status: Status): nat {
    match status
    case DRAFT => 0
    case FREEZE_PENDING => 1
    case FROZEN => 2
  }

  /** What no step takes back. */
  ghost predicate Forward(s: State, s': State) {
    && Rank(s.row.status) <= Rank(s'.row.status)
    && (s.row.status != DRAFT ==> s'.row.frozenPayload == s.row.frozenPayload && s'.row.hash == s.row.hash)
    && s.sent <= s'.sent && s.asks <= s'.asks && SameDraft(s.row, s'.row)
    && (s.registrar.Some? ==> s'.registrar == s.registrar)
  }

  lemma StepForward(sha: string -> string, s: State, s': State, step: Step)
    requires Inv(sha, s) && NextStep(sha, s, s', step)
    ensures Forward(s, s')
  {
    hide BuildPayload;
    hide LockIntent;
    hide LockFinish;
    hide WellFormed;
    hide Hash;
    match step
    case BeginStep(c, stamp) => BeginKeeps(sha, s.row, stamp);
    case FinishStep(c) => FinishKeeps(sha, s, c);
    case _ =>
  }

  lemma ForwardReflexive(s: State)
    ensures Forward(s, s)
  {
  }

  lemma ForwardTransitive(s: State, s': State, s'': State)
    requires Forward(s, s') && Forward(s', s'')
    ensures Forward(s, s'')
  {
  }

  /** Status never moves backwards, and payload and hash never change once they are set. */
  lemma {:induction false} RunsForward(sha: string -> string, b: seq<State>, i: nat, j: nat)
    requires Behaviour(sha, b) && i <= j < |b|
    ensures Forward(b[i], b[j])
    decreases j
  {
    hide Forward;
    hide Behaviour;
    if i == j {
      ForwardReflexive(b[i]);
    } else {
      RunsForward(sha, b, i, j - 1);
      RunStepForward(sha, b, j);
      ForwardTransitive(b[i], b[j - 1], b[j]);
    }
  }

  lemma RunStepForward(sha: string -> string, b: seq<State>, j: nat)
    requires Behaviour(sha, b) && 0 < j < |b|
    ensures Forward(b[j - 1], b[j])
  {
    hide Inv;
    hide Forward;
    hide NextStep;
    BehaviourInv(sha, b, j - 1);
    assert Next(sha, b[j - 1], b[j]);
    var step :| NextStep(sha, b[j - 1], b[j], step);
    StepForward(sha, b[j - 1], b[j], step);
  }

  /** All registrations ever sent for the id carry one identical payload: nonce, times and hash included. */
  lemma OnePayloadEver(sha: string -> string, b: seq<State>, i: nat, j: nat, r: Registration, r': Registration)
    requires Behaviour(sha, b) && i < |b| && j < |b| && r in b[i].sent && r' in b[j].sent
    ensures r.payload == r'.payload
  {
    var last := |b| - 1;
    RunsForward(sha, b, i, last);
    RunsForward(sha, b, j, last);
    BehaviourInv(sha, b, last);
    assert r in b[last].sent && r' in b[last].sent;
  }

  /** Past DRAFT the stored hash is the stored payload's own and is the recomputed one. */
  lemma StoredHashIsRecomputed(sha: string -> string, b: seq<State>, i: nat)
    requires Behaviour(sha, b) && i < |b| && b[i].row.status != DRAFT
    ensures b[i].row.frozenPayload.Some? && b[i].row.hash.Some?
    ensures Hash(sha, b[i].row.frozenPayload.value) == Ok(b[i].row.hash.value)
    ensures HashField(b[i].row.frozenPayload.value) == Some(Str(T(b[i].row.hash.value)))
  {
    BehaviourInv(sha, b, i);
  }

  /** No call ever meets a corrupt intent, nor an intent changed under it. */
  lemma NoCorruption(sha: string -> string, b: seq<State>, i: nat, stamp: Stamp)
    requires Behaviour(sha, b) && i < |b|
    ensures LockIntent(sha, b[i].row, stamp).1 != Refused(IntentCorrupt)
    ensures forall c | c in b[i].callers && b[i].callers[c].Receipted? ::
        LockFinish(b[i].row, b[i].callers[c].payload).1 == None
  {
    BehaviourInv(sha, b, i);
    BeginKeeps(sha, b[i].row, stamp);
    forall c | c in b[i].callers && b[i].callers[c].Receipted?
      ensures LockFinish(b[i].row, b[i].callers[c].payload).1 == None
    {
      FinishKeeps(sha, b[i], c);
    }
  }

  lemma SealedUnique(sha: string -> string, payload: seq<Field>, hash: string)
    requires Sealed(sha, payload) && HashField(payload) == Some(Str(T(hash)))
    ensures Hash(sha, payload) == Ok(hash)
  {
    var other :| IntentIntact(sha, Some(payload), Some(other));
    TextInjective(hash, other);
  }

  /** FROZEN means the registrar holds this WorkOrder: the same hash, and, SHA-256 being free of
    collisions, the same value under every other field, whoever registered it. */
  lemma FrozenIsRegistered(sha: string -> string, b: seq<State>, i: nat)
    requires Behaviour(sha, b) && i < |b| && b[i].row.status == FROZEN
    ensures b[i].row.frozenPayload.Some? && b[i].registrar.Some?
    ensures HashField(b[i].registrar.value) == HashField(b[i].row.frozenPayload.value)
    ensures Injective(sha) && PairFree(Obj(b[i].row.frozenPayload.value)) && PairFree(Obj(b[i].registrar.value))
            ==> AgreeOutsideHash(b[i].row.frozenPayload.value, b[i].registrar.value)
  {
    BehaviourInv(sha, b, i);
    var p, q := b[i].row.frozenPayload.value, b[i].registrar.value;
    if Injective(sha) && PairFree(Obj(p)) && PairFree(Obj(q)) {
      SealedUnique(sha, q, b[i].row.hash.value);
      HashBindsEveryOtherField(sha, p, q);
    }
  }

  /** Every approval ever asked for names one hash, nonce and expiry, those of the registered payload. */
  lemma OneApprovalSubject(sha: string -> string, b: seq<State>, i: nat, j: nat, a: ApprovalAsk, a': ApprovalAsk)
    requires Behaviour(sha, b) && i < |b| && j < |b| && a in b[i].asks && a' in b[j].asks
    ensures a.hash == a'.hash && a.nonce == a'.nonce && a.expiry == a'.expiry
    ensures b[i].row.frozenPayload.Some? && Lookup(b[i].row.frozenPayload.value, T("nonce")) == Some(a.nonce)
    ensures Lookup(b[i].row.frozenPayload.value, T("expiry")) == Some(a.expiry)
    ensures b[i].registrar.Some? && HashField(b[i].registrar.value) == Some(Str(T(a.hash)))
  {
    var last := |b| - 1;
    RunsForward(sha, b, i, last);
    RunsForward(sha, b, j, last);
    BehaviourInv(sha, b, last);
    assert AskMatches(b[last], a) && AskMatches(b[last], a');
    BehaviourInv(sha, b, i);
    assert AskMatches(b[i], a);
  }

  /** The row's own gate reference is not part of what is frozen: another passed report replaces it in any
    state, and the payload stays. */
  lemma GateReferenceStaysMutable(sha: string -> string, s: State, g: Submission)
    requires GateHolds(s.row.workorderId, s.row.draft, g)
    ensures exists s' :: Next(sha, s, s') && s'.row.gateReportRef == T("eval://") + g.evalId
              && s'.row.gateReportDigest == PREFIX + g.reportHash
              && s'.row.status == s.row.status && s'.row.frozenPayload == s.row.frozenPayload
              && s'.row.hash == s.row.hash
  {
    hide GateHolds;
    var s' := s.(row := AttachGate(s.row, T("eval://") + g.evalId, PREFIX + g.reportHash));
    assert NextStep(sha, s, s', GateStep(g));
  }

  // ---------- recovery ----------

  lemma PathExtend(sha: string -> string, p: seq<State>, s: State, step: Step)
    requires Path(sha, p) && NextStep(sha, p[|p| - 1], s, step)
    ensures Path(sha, p + [s])
  {
    var q := p + [s];
    forall i | 0 < i < |q| ensures Next(sha, q[i - 1], q[i]) {
      assert i < |p| ==> q[i - 1] == p[i - 1] && q[i] == p[i];
    }
  }

  /** The first half: the retry finds the intent, sends it, and the registrar holds it. */
  lemma RetryRegisters(sha: string -> string, s: State, stamp: Stamp, c: nat) returns (p: seq<State>)
    requires Inv(sha, s) && s.row.status == FREEZE_PENDING && c !in s.callers
    requires s.registrar.None? || Registered(s)
    ensures Path(sha, p) && p[0] == s
    ensures var s' := p[|p| - 1];
            s'.row == s.row && c in s'.callers && s'.callers[c] == Posting(s.row.frozenPayload.value) && Registered(s')
  {
    hide BuildPayload;
    hide WellFormed;
    hide Hash;
    var payload := s.row.frozenPayload.value;
    var s1 := s.(callers := s.callers[c := Posting(payload)]);
    p := [s];
    PathExtend(sha, p, s1, BeginStep(c, stamp));
    p := p + [s1];
    hide IntentIntact;
    var reg := Registration(payload, s.row.createdBy, 1);
    var s2 := s1.(sent := s1.sent + {reg});
    PathExtend(sha, p, s2, SendStep(c, 1));
    p := p + [s2];
    if s2.registrar.None? {
      var s3 := s2.(registrar := Some(payload));
      PathExtend(sha, p, s3, RegisterStep(reg));
      p := p + [s3];
    }
  }

  /** The second half: the registrar's receipt comes back and the second block runs. */
  lemma RetryFinishes(sha: string -> string, p: seq<State>, c: nat) returns (q: seq<State>)
    requires Path(sha, p)
    requires var s := p[|p| - 1];
             && RowInv(sha, s.row) && s.row.status == FREEZE_PENDING && Registered(s)
             && c in s.callers && s.callers[c] == Posting(s.row.frozenPayload.value)
    ensures Path(sha, q) && q[0] == p[0]
    ensures q[|q| - 1].row == p[|p| - 1].row.(status := FROZEN)
  {
    hide BuildPayload;
    hide Hash;
    var s := p[|p| - 1];
    var payload, hash := s.row.frozenPayload.value, s.row.hash.value;
    PyEqualReflexive(Obj(payload));
    hide WellFormed;
    var receipt := Receipt(Some(s.row.workorderId), Some(T(hash)), true);
    var s1 := s.(receipts := s.receipts + {receipt});
    PathExtend(sha, p, s1, ReplyStep(receipt));
    q := p + [s1];
    var s2 := s1.(callers := s1.callers[c := Receipted(payload)]);
    PathExtend(sha, q, s2, ReceiveStep(c, receipt));
    q := q + [s2];
    var s3 := s2.(row := s2.row.(status := FROZEN), callers := s2.callers - {c});
    PathExtend(sha, q, s3, FinishStep(c));
    q := q + [s3];
  }

  /** However many calls were lost, one undisturbed retry freezes the pending intent, unless the
    registrar holds another hash under the id. */
  lemma RetryCompletes(sha: string -> string, s: State, stamp: Stamp, c: nat) returns (p: seq<State>)
    requires Inv(sha, s) && s.row.status == FREEZE_PENDING && c !in s.callers
    requires s.registrar.None? || Registered(s)
    ensures Path(sha, p) && p[0] == s
    ensures p[|p| - 1].row == s.row.(status := FROZEN)
  {
    p := RetryRegisters(sha, s, stamp, c);
    hide Path;
    hide RowInv;
    hide Registered;
    p := RetryFinishes(sha, p, c);
  }

  /** A registrar that holds another hash under the id keeps the row from freezing for good. */
  lemma ForeignRegistrationBlocks(sha: string -> string, b: seq<State>, i: nat, j: nat)
    requires Behaviour(sha, b) && i <= j < |b|
    requires b[i].row.status == FREEZE_PENDING && b[i].registrar.Some? && !Registered(b[i])
    ensures b[j].row.status == FREEZE_PENDING
  {
    RunsForward(sha, b, i, j);
    BehaviourInv(sha, b, j);
    BehaviourInv(sha, b, i);
  }
}
