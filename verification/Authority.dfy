/** `_authority_context_violations` of v4_semantics.py: every controller-recorded snapshot has its own
  receipt, event and audit row. */
module Authority {
  import opened Wrappers

  /** An exact kind/id/revision/digest binding. */
  datatype Exact = Exact(kind: string, id: string, revision: Option<int>, digest: string)

  /** The event, transaction and audit row a decision says it was recorded under. */
  datatype RecordedAs = RecordedAs(eventId: string, transactionId: string, auditRef: string)

  /** A controller-recorded snapshot; `principals` are its principal fields by name, and `decided` is what a
    proposal decision says of itself. */
  datatype Subject = Subject(
    binding: Exact, workspaceId: string, receiptId: string, principals: map<string, string>,
    decided: Option<RecordedAs>)

  /** The downstream event a proposal decision announces. */
  datatype Downstream = Downstream(eventId: string, eventType: string, transactionId: string)

  datatype Receipt = Receipt(
    id: string, subject: Exact, workspaceId: string, registration: Exact, command: string, owner: string,
    resource: string, eventType: string, eventId: string, auditRef: string, transactionId: string,
    controllerPrincipal: string, recordedAt: int)

  datatype Registration = Registration(
    binding: Exact, state: string, workspaceId: string, owner: string, controllerPrincipal: string,
    allowedCommands: set<string>, ownershipDigest: string, eventDigest: string, validFrom: int, expiresAt: Option<int>)

  datatype Event = Event(
    id: string, contractVersion: string, aggregateType: string, eventType: string, transactionId: string,
    actorPrincipal: string, receiptId: string, subject: Exact)

  datatype Audit = Audit(
    ref: string, transactionId: string, controllerPrincipal: string, receiptId: string, subject: Exact)

  datatype Bundle = Bundle(
    subjects: seq<Subject>, registrations: seq<Registration>, receipts: seq<Receipt>, events: seq<Event>,
    audits: seq<Audit>, downstream: Option<Downstream>)

  /** Who owns a record kind, and which events its commands may raise. */
  datatype CatalogEntry = CatalogEntry(resource: string, owner: string, commandEvents: map<string, set<string>>)

  /** What is given from outside: the record integrity of single records, the authority catalogue, and the
    digests of the two frozen catalogue files. */
  datatype Checks = Checks(
    subjectSound: Subject -> bool, receiptSound: Receipt -> bool, registrationSound: Registration -> bool,
    catalog: map<string, CatalogEntry>, ownershipDigest: string, eventDigest: string)

  datatype Violation =
    | RegistrationIdDuplicate | ReceiptIdDuplicate | EventIdDuplicate | AuditRefDuplicate
    | SubjectIdentityDuplicate(index: nat) | ReceiptSubjectDuplicate(index: nat)
    | SubjectUnsound(index: nat) | ReceiptMissing(index: nat) | ReceiptUnsound(index: nat)
    | SubjectBindingMismatch(index: nat) | WorkspaceMismatch(index: nat)
    | RegistrationMissing(index: nat) | RegistrationUnsound(index: nat) | RegistrationBindingMismatch(index: nat)
    | NotCatalogued(index: nat) | RegistrationNotAuthorized(index: nat) | CatalogDigestMismatch(index: nat)
    | OutsideValidity(index: nat) | ActorMismatch(index: nat) | DecisionMismatch(index: nat)
    | CausationMismatch(index: nat)
    | EventMissing(index: nat) | EventMismatch(index: nat) | AuditMissing(index: nat) | AuditMismatch(index: nat)

  datatype Identity = Identity(kind: string, id: string, revision: Option<int>)

  function IdentityOf(e: Exact): Identity {
    Identity(e.kind, e.id, e.revision)
  }

  // ---------- dictionaries built from lists: the last entry under a key wins ----------

  function Index<K(==,!new), V>(keys: seq<K>, items: seq<V>): (m: map<K, V>)
    requires |keys| == |items|
    ensures forall k :: k in m <==> k in keys
    ensures forall k | k in m :: m[k] in items
  {
    if keys == [] then map[]
    else
      var n := |keys| - 1;
      assert keys == keys[..n] + [keys[n]];
      Index(keys[..n], items[..n])[keys[n] := items[n]]
  }

  predicate Distinct<T(==)>(s: seq<T>) {
    forall i, j | 0 <= i < j < |s| :: s[i] != s[j]
  }

  lemma DistinctExtend<T>(s: seq<T>)
    requires s != []
    ensures var n := |s| - 1; Distinct(s) <==> Distinct(s[..n]) && s[n] !in s[..n]
  {
    var n := |s| - 1;
    assert forall i | 0 <= i < n :: s[..n][i] == s[i];
    if Distinct(s[..n]) && s[n] !in s[..n] {
      forall i, j | 0 <= i < j < |s| ensures s[i] != s[j] {
        assert s[i] == s[..n][i];
        assert j < n ==> s[j] == s[..n][j];
      }
    }
  }

  /** The dictionary is as long as the list exactly when no key repeats. */
  lemma {:induction false} IndexDistinct<K(!new), V>(keys: seq<K>, items: seq<V>)
    requires |keys| == |items|
    ensures |Index(keys, items)| <= |keys|
    ensures |Index(keys, items)| == |keys| <==> Distinct(keys)
  {
    if keys != [] {
      var n := |keys| - 1;
      var before := Index(keys[..n], items[..n]);
      IndexDistinct(keys[..n], items[..n]);
      DistinctExtend(keys);
      hide Distinct;
      assert before[keys[n] := items[n]].Keys == before.Keys + {keys[n]};
      assert |Index(keys, items)| == |before| + if keys[n] in before then 0 else 1;
    }
  }

  function ReceiptIds(rs: seq<Receipt>): seq<string> {
    seq(|rs|, i requires 0 <= i < |rs| => rs[i].id)
  }

  function RegistrationIds(rs: seq<Registration>): seq<string> {
    seq(|rs|, i requires 0 <= i < |rs| => rs[i].binding.id)
  }

  function EventIds(es: seq<Event>): seq<string> {
    seq(|es|, i requires 0 <= i < |es| => es[i].id)
  }

  function AuditRefs(audits: seq<Audit>): seq<string> {
    seq(|audits|, i requires 0 <= i < |audits| => audits[i].ref)
  }

  function SubjectIdentities(ss: seq<Subject>): seq<Identity> {
    seq(|ss|, i requires 0 <= i < |ss| => IdentityOf(ss[i].binding))
  }

  function ReceiptSubjects(rs: seq<Receipt>): seq<Identity> {
    seq(|rs|, i requires 0 <= i < |rs| => IdentityOf(rs[i].subject))
  }

  datatype Dictionaries = Dictionaries(
    receipts: map<string, Receipt>, registrations: map<string, Registration>, events: map<string, Event>,
    audits: map<string, Audit>, downstream: Option<Downstream>)

  function DictionariesOf(b: Bundle): Dictionaries {
    Dictionaries(Index(ReceiptIds(b.receipts), b.receipts), Index(RegistrationIds(b.registrations), b.registrations),
                 Index(EventIds(b.events), b.events), Index(AuditRefs(b.audits), b.audits), b.downstream)
  }

  // ---------- one subject ----------

  predicate Catalogued(c: Checks, s: Subject, r: Receipt) {
    && s.binding.kind in c.catalog
    && var entry := c.catalog[s.binding.kind];
       && r.resource == entry.resource && r.owner == entry.owner
       && r.command in entry.commandEvents && r.eventType in entry.commandEvents[r.command]
  }

  predicate Authorizes(g: Registration, s: Subject, r: Receipt) {
    && g.state == "ACTIVE" && g.workspaceId == s.workspaceId && g.owner == r.owner
    && g.controllerPrincipal == r.controllerPrincipal && r.command in g.allowedCommands
  }

  predicate ValidAt(g: Registration, time: int) {
    g.validFrom <= time && (g.expiresAt.Some? ==> time < g.expiresAt.value)
  }

  predicate EventMatches(e: Event, s: Subject, r: Receipt) {
    && e.contractVersion == "v4" && e.aggregateType == r.resource && e.eventType == r.eventType
    && e.transactionId == r.transactionId && e.actorPrincipal == r.controllerPrincipal
    && e.receiptId == s.receiptId && e.subject == s.binding
  }

  predicate AuditMatches(a: Audit, s: Subject, r: Receipt) {
    && a.transactionId == r.transactionId && a.controllerPrincipal == r.controllerPrincipal
    && a.receiptId == s.receiptId && a.subject == s.binding
  }

  predicate FreezesCatalogs(c: Checks, g: Registration) {
    g.ownershipDigest == c.ownershipDigest && g.eventDigest == c.eventDigest
  }

  /** The field of a record kind that names its issuer or authority actor. */
  function ActorField(kind: string): Option<string> {
    if kind == "CAPABILITY_LEASE" then Some("issued_by_principal")
    else if kind in ["RESOLUTION_CONTRACT", "CANDIDATE_CONTRACT", "EVALUATION_PLAN", "PARTICIPATION_MANIFEST"] then
      Some("frozen_by_principal")
    else if kind == "CANDIDATE_REVISION" then Some("recorded_by_principal")
    else if kind == "PROPOSAL_DECISION" then Some("decided_by_principal")
    else if kind in ["GATE_REPORT", "WORKORDER"] then Some("created_by_principal")
    else None
  }

  /** The actor is the registered controller. */
  predicate ActorFits(s: Subject, r: Receipt) {
    var field := ActorField(s.binding.kind);
    field.Some? ==> field.value in s.principals && s.principals[field.value] == r.controllerPrincipal
  }

  /** A decision is recorded as it says. */
  predicate DecisionFits(s: Subject, r: Receipt) {
    s.binding.kind == "PROPOSAL_DECISION" ==> s.decided == Some(RecordedAs(r.eventId, r.transactionId, r.auditRef))
  }

  /** A candidate revision is recorded by the event its decision announced, in that transaction. */
  predicate CausationFits(downstream: Option<Downstream>, s: Subject, r: Receipt) {
    s.binding.kind == "CANDIDATE_REVISION" && downstream.Some? ==>
      downstream.value == Downstream(r.eventId, r.eventType, r.transactionId)
  }

  predicate ReceiptFits(c: Checks, s: Subject, r: Receipt) {
    c.receiptSound(r) && r.subject == s.binding && r.workspaceId == s.workspaceId
  }

  predicate RegistrationFits(c: Checks, s: Subject, r: Receipt, g: Registration) {
    && c.registrationSound(g) && r.registration == g.binding && Catalogued(c, s, r)
    && Authorizes(g, s, r) && FreezesCatalogs(c, g) && ValidAt(g, r.recordedAt)
  }

  predicate SubjectOk(c: Checks, d: Dictionaries, s: Subject) {
    && c.subjectSound(s) && s.receiptId in d.receipts
    && var r := d.receipts[s.receiptId];
       && ReceiptFits(c, s, r)
       && r.registration.id in d.registrations && RegistrationFits(c, s, r, d.registrations[r.registration.id])
       && ActorFits(s, r) && DecisionFits(s, r) && CausationFits(d.downstream, s, r)
       && r.eventId in d.events && EventMatches(d.events[r.eventId], s, r)
       && r.auditRef in d.audits && AuditMatches(d.audits[r.auditRef], s, r)
  }

  // ---------- the checker ----------

  ghost predicate Accepted(c: Checks, b: Bundle) {
    b.subjects != [] ==>
      && Distinct(RegistrationIds(b.registrations)) && Distinct(ReceiptIds(b.receipts))
      && Distinct(EventIds(b.events)) && Distinct(AuditRefs(b.audits))
      && Distinct(SubjectIdentities(b.subjects)) && Distinct(ReceiptSubjects(b.receipts))
      && forall i | 0 <= i < |b.subjects| :: SubjectOk(c, DictionariesOf(b), b.subjects[i])
  }

  method AuthorityContextViolations(c: Checks, b: Bundle) returns (v: seq<Violation>)
    ensures v == [] <==> Accepted(c, b)
  {
    if b.subjects == [] {
      return [];
    }
    hide Distinct;
    hide SubjectOk;
    hide DictionariesOf;
    v := KeyViolations(b);
    var repeated := IdentityViolations(b);
    var single := EachSubject(c, DictionariesOf(b), b.subjects);
    v := v + repeated + single;
  }

  method IdentityViolations(b: Bundle) returns (v: seq<Violation>)
    ensures v == [] <==> Distinct(SubjectIdentities(b.subjects)) && Distinct(ReceiptSubjects(b.receipts))
  {
    hide Distinct;
    var subjects := RepeatedIdentities(SubjectIdentities(b.subjects));
    var receipts := RepeatedIdentities(ReceiptSubjects(b.receipts));
    v := (seq(|subjects|, i requires 0 <= i < |subjects| => SubjectIdentityDuplicate(subjects[i])))
       + (seq(|receipts|, i requires 0 <= i < |receipts| => ReceiptSubjectDuplicate(receipts[i])));
  }

  method EachSubject(c: Checks, d: Dictionaries, subjects: seq<Subject>) returns (v: seq<Violation>)
    ensures v == [] <==> forall i | 0 <= i < |subjects| :: SubjectOk(c, d, subjects[i])
  {
    hide SubjectOk;
    v := [];
    for k := 0 to |subjects|
      invariant v == [] <==> forall i | 0 <= i < k :: SubjectOk(c, d, subjects[i])
    {
      var found := SubjectViolations(c, d, subjects[k], k);
      v := v + found;
    }
  }

  method KeyViolations(b: Bundle) returns (v: seq<Violation>)
    ensures v == [] <==>
            && Distinct(RegistrationIds(b.registrations)) && Distinct(ReceiptIds(b.receipts))
            && Distinct(EventIds(b.events)) && Distinct(AuditRefs(b.audits))
  {
    var d := DictionariesOf(b);
    IndexDistinct(RegistrationIds(b.registrations), b.registrations);
    IndexDistinct(ReceiptIds(b.receipts), b.receipts);
    IndexDistinct(EventIds(b.events), b.events);
    IndexDistinct(AuditRefs(b.audits), b.audits);
    v := [];
    if |d.registrations| != |b.registrations| {
      v := v + [RegistrationIdDuplicate];
    }
    if |d.receipts| != |b.receipts| {
      v := v + [ReceiptIdDuplicate];
    }
    if |d.events| != |b.events| {
      v := v + [EventIdDuplicate];
    }
    if |d.audits| != |b.audits| {
      v := v + [AuditRefDuplicate];
    }
  }

  predicate Repeats(ids: seq<Identity>, k: nat)
    requires k < |ids|
  {
    ids[k] in ids[..k]
  }

  /** The positions whose identity occurred before, found with a dictionary of identities seen. */
  method RepeatedIdentities(ids: seq<Identity>) returns (repeated: seq<nat>)
    ensures repeated == [] <==> Distinct(ids)
    ensures forall k :: k in repeated <==> 0 <= k < |ids| && Repeats(ids, k)
  {
    hide Distinct;
    hide Repeats;
    hide Members;
    NoMembers(ids[..0]);
    var seen: map<Identity, nat> := map[];
    repeated := [];
    for k := 0 to |ids|
      invariant seen.Keys == Members(ids[..k])
      invariant forall i :: i in repeated <==> 0 <= i < k && Repeats(ids, i)
    {
      SeenBefore(ids, k);
      if ids[k] in seen {
        repeated := repeated + [k];
      } else {
        seen := seen[ids[k] := k];
      }
    }
    NoneRepeats(ids, repeated);
  }

  function Members(ids: seq<Identity>): set<Identity> {
    set id | id in ids
  }

  lemma NoMembers(ids: seq<Identity>)
    requires ids == []
    ensures Members(ids) == {}
  {
  }

  lemma SeenBefore(ids: seq<Identity>, k: nat)
    requires k < |ids|
    ensures Members(ids[..k + 1]) == Members(ids[..k]) + {ids[k]}
    ensures ids[k] in Members(ids[..k]) <==> Repeats(ids, k)
  {
    assert ids[..k + 1] == ids[..k] + [ids[k]];
  }

  lemma NoneRepeats(ids: seq<Identity>, repeated: seq<nat>)
    requires forall k :: k in repeated <==> 0 <= k < |ids| && Repeats(ids, k)
    ensures repeated == [] <==> Distinct(ids)
  {
    if repeated == [] {
      forall i, j | 0 <= i < j < |ids| ensures ids[i] != ids[j] {
        assert ids[..j][i] == ids[i] && !Repeats(ids, j);
      }
    } else {
      var j := repeated[0];
      assert j in repeated;
      var i :| 0 <= i < j && ids[..j][i] == ids[j];
      assert ids[i] == ids[j];
    }
  }

  method SubjectViolations(c: Checks, d: Dictionaries, s: Subject, k: nat) returns (v: seq<Violation>)
    ensures v == [] <==> SubjectOk(c, d, s)
  {
    v := if c.subjectSound(s) then [] else [SubjectUnsound(k)];
    if s.receiptId !in d.receipts {
      return v + [ReceiptMissing(k)];
    }
    var r := d.receipts[s.receiptId];
    if !c.receiptSound(r) {
      v := v + [ReceiptUnsound(k)];
    }
    if r.subject != s.binding {
      v := v + [SubjectBindingMismatch(k)];
    }
    if r.workspaceId != s.workspaceId {
      v := v + [WorkspaceMismatch(k)];
    }
    if r.registration.id !in d.registrations {
      return v + [RegistrationMissing(k)];
    }
    var g := d.registrations[r.registration.id];
    var registered := RegistrationViolations(c, s, r, g, k);
    var claimed := ClaimViolations(d.downstream, s, r, k);
    var recorded := RecordViolations(d, s, r, k);
    v := v + registered + claimed + recorded;
  }

  method RegistrationViolations(c: Checks, s: Subject, r: Receipt, g: Registration, k: nat) returns (v: seq<Violation>)
    ensures v == [] <==> RegistrationFits(c, s, r, g)
  {
    v := [];
    if !c.registrationSound(g) {
      v := v + [RegistrationUnsound(k)];
    }
    if r.registration != g.binding {
      v := v + [RegistrationBindingMismatch(k)];
    }
    if !Catalogued(c, s, r) {
      v := v + [NotCatalogued(k)];
    }
    if !Authorizes(g, s, r) {
      v := v + [RegistrationNotAuthorized(k)];
    }
    if !FreezesCatalogs(c, g) {
      v := v + [CatalogDigestMismatch(k)];
    }
    if r.recordedAt < g.validFrom || (g.expiresAt.Some? && r.recordedAt >= g.expiresAt.value) {
      v := v + [OutsideValidity(k)];
    }
  }

  method ClaimViolations(downstream: Option<Downstream>, s: Subject, r: Receipt, k: nat) returns (v: seq<Violation>)
    ensures v == [] <==> ActorFits(s, r) && DecisionFits(s, r) && CausationFits(downstream, s, r)
  {
    v := [];
    if !ActorFits(s, r) {
      v := v + [ActorMismatch(k)];
    }
    if !DecisionFits(s, r) {
      v := v + [DecisionMismatch(k)];
    }
    if !CausationFits(downstream, s, r) {
      v := v + [CausationMismatch(k)];
    }
  }

  method RecordViolations(d: Dictionaries, s: Subject, r: Receipt, k: nat) returns (v: seq<Violation>)
    ensures v == [] <==> && r.eventId in d.events && EventMatches(d.events[r.eventId], s, r)
                         && r.auditRef in d.audits && AuditMatches(d.audits[r.auditRef], s, r)
  {
    v := [];
    if r.eventId !in d.events {
      v := v + [EventMissing(k)];
    } else if !EventMatches(d.events[r.eventId], s, r) {
      v := v + [EventMismatch(k)];
    }
    if r.auditRef !in d.audits {
      v := v + [AuditMissing(k)];
    } else if !AuditMatches(d.audits[r.auditRef], s, r) {
      v := v + [AuditMismatch(k)];
    }
  }

  // ---------- what acceptance gives ----------

  /** A receipt, event and audit row that belong to a subject: one transaction, one principal, and the
    exact subject in all three. */
  ghost predicate Triple(b: Bundle, s: Subject, r: Receipt, e: Event, a: Audit) {
    && r in b.receipts && e in b.events && a in b.audits
    && r.id == s.receiptId && e.id == r.eventId && a.ref == r.auditRef
    && e.receiptId == r.id && a.receiptId == r.id
    && r.subject == e.subject == a.subject == s.binding
    && r.transactionId == e.transactionId == a.transactionId
    && r.controllerPrincipal == e.actorPrincipal == a.controllerPrincipal
  }

  lemma {:induction false} IndexKeyed<K(!new), V>(keys: seq<K>, items: seq<V>, k: K) returns (i: nat)
    requires |keys| == |items| && k in Index(keys, items)
    ensures i < |keys| && keys[i] == k && Index(keys, items)[k] == items[i]
  {
    var n := |keys| - 1;
    if keys[n] == k {
      i := n;
    } else {
      i := IndexKeyed(keys[..n], items[..n], k);
    }
  }

  /** Every subject of an accepted bundle has such a triple. */
  lemma SubjectHasTriple(c: Checks, b: Bundle, s: Subject) returns (r: Receipt, e: Event, a: Audit)
    requires Accepted(c, b) && s in b.subjects
    ensures Triple(b, s, r, e, a)
  {
    var i :| 0 <= i < |b.subjects| && b.subjects[i] == s;
    r, e, a := RecordOf(c, b, i);
  }

  /** No two snapshots share a receipt, an event or an audit row. */
  lemma TriplesInjective(c: Checks, b: Bundle, i: nat, j: nat, r: Receipt, e: Event, a: Audit, r': Receipt,
                         e': Event, a': Audit)
    requires Accepted(c, b) && i < |b.subjects| && j < |b.subjects|
    requires Triple(b, b.subjects[i], r, e, a) && Triple(b, b.subjects[j], r', e', a')
    requires r == r' || e == e' || a == a'
    ensures i == j
  {
    assert b.subjects[i].binding == b.subjects[j].binding;
    var ids := SubjectIdentities(b.subjects);
    assert ids[i] == ids[j];
    assert Distinct(ids);
  }

  /** A candidate revision beside its decision: the decision is recorded as it says, the revision by the event
    the decision announced, and that is another event than the decision's own. */
  lemma RevisionFollowsDecision(c: Checks, b: Bundle, i: nat, j: nat)
    requires Accepted(c, b) && i < |b.subjects| && j < |b.subjects| && b.downstream.Some?
    requires b.subjects[i].binding.kind == "PROPOSAL_DECISION" && b.subjects[j].binding.kind == "CANDIDATE_REVISION"
    ensures exists e, a | e in b.events && a in b.audits ::
              && b.subjects[i].decided == Some(RecordedAs(e.id, e.transactionId, a.ref))
              && e.subject == a.subject == b.subjects[i].binding
    ensures exists e | e in b.events ::
              b.downstream.value == Downstream(e.id, e.eventType, e.transactionId) && e.subject == b.subjects[j].binding
    ensures b.subjects[i].decided.Some? && b.subjects[i].decided.value.eventId != b.downstream.value.eventId
  {
    hide Accepted;
    hide ActorFits;
    var r, e, a := RecordOf(c, b, i);
    var r', e', a' := RecordOf(c, b, j);
    if e == e' {
      TriplesInjective(c, b, i, j, r, e, a, r', e', a');
    }
    EventIdsDistinct(c, b, e, e');
  }

  /** The triple of a subject, with what the subject claims of it. */
  lemma RecordOf(c: Checks, b: Bundle, i: nat) returns (r: Receipt, e: Event, a: Audit)
    requires Accepted(c, b) && i < |b.subjects|
    ensures Triple(b, b.subjects[i], r, e, a) && e.eventType == r.eventType
    ensures ActorFits(b.subjects[i], r) && DecisionFits(b.subjects[i], r)
        && CausationFits(b.downstream, b.subjects[i], r)
  {
    var s, d := b.subjects[i], DictionariesOf(b);
    assert SubjectOk(c, d, s);
    r := d.receipts[s.receiptId];
    e := d.events[r.eventId];
    a := d.audits[r.auditRef];
    hide Index;
    var k := IndexKeyed(ReceiptIds(b.receipts), b.receipts, s.receiptId);
    var l := IndexKeyed(EventIds(b.events), b.events, r.eventId);
    var m := IndexKeyed(AuditRefs(b.audits), b.audits, r.auditRef);
  }

  lemma EventIdsDistinct(c: Checks, b: Bundle, e: Event, e': Event)
    requires Accepted(c, b) && b.subjects != [] && e in b.events && e' in b.events
    ensures e.id == e'.id ==> e == e'
  {
    if e.id == e'.id {
      var k :| 0 <= k < |b.events| && b.events[k] == e;
      var l :| 0 <= l < |b.events| && b.events[l] == e';
      assert EventIds(b.events)[k] == EventIds(b.events)[l];
      assert Distinct(EventIds(b.events));
    }
  }

  // ---------- a bundle that is accepted ----------

  const DECISION := Exact("PROPOSAL_DECISION", "p", Some(1), "d1")

  const REVISION := Exact("CANDIDATE_REVISION", "c", Some(1), "d2")

  function ExampleReceipt(id: string, subject: Exact, event: string, audit: string): Receipt {
    Receipt(id, subject, "w", Exact("CONTROLLER_REGISTRATION", "g", None, "d"), "RECORD", "owner", "resource",
            "RECORDED", event, audit, id, "controller", 5)
  }

  function ExampleEvent(r: Receipt): Event {
    Event(r.eventId, "v4", r.resource, r.eventType, r.transactionId, r.controllerPrincipal, r.id, r.subject)
  }

  function ExampleAudit(r: Receipt): Audit {
    Audit(r.auditRef, r.transactionId, r.controllerPrincipal, r.id, r.subject)
  }

  function ExampleChecks(): Checks {
    var entry := CatalogEntry("resource", "owner", map["RECORD" := {"RECORDED"}]);
    Checks((_) => true, (_) => true, (_) => true, map[DECISION.kind := entry, REVISION.kind := entry], "o", "e")
  }

  function ExampleBundle(): Bundle {
    var r1, r2 := ExampleReceipt("1", DECISION, "3", "5"), ExampleReceipt("2", REVISION, "4", "6");
    var g := Registration(r1.registration, "ACTIVE", "w", "owner", "controller", {"RECORD"}, "o", "e", 0, Some(10));
    Bundle([Subject(DECISION, "w", "1", map["decided_by_principal" := "controller"], Some(RecordedAs("3", "1", "5"))),
            Subject(REVISION, "w", "2", map["recorded_by_principal" := "controller"], None)],
           [g], [r1, r2], [ExampleEvent(r1), ExampleEvent(r2)], [ExampleAudit(r1), ExampleAudit(r2)],
           Some(Downstream("4", "RECORDED", "2")))
  }

  /** A dictionary over keys that do not repeat holds every item under its key. */
  lemma {:induction false} IndexHolds<K(!new), V>(keys: seq<K>, items: seq<V>, i: nat)
    requires |keys| == |items| && Distinct(keys) && i < |keys|
    ensures keys[i] in Index(keys, items) && Index(keys, items)[keys[i]] == items[i]
  {
    var n := |keys| - 1;
    if i < n {
      DistinctExtend(keys);
      assert keys[..n][i] == keys[i] && items[..n][i] == items[i];
      IndexHolds(keys[..n], items[..n], i);
    }
  }

  lemma ExampleKinds()
    ensures ActorField(DECISION.kind) == Some("decided_by_principal")
    ensures ActorField(REVISION.kind) == Some("recorded_by_principal") && DECISION.kind != REVISION.kind
  {
    assert DECISION.kind[0] == 'P' && "PARTICIPATION_MANIFEST"[1] == 'A' && DECISION.kind[1] == 'R';
    assert REVISION.kind[0] == 'C' && REVISION.kind[10] == 'R' && "CANDIDATE_CONTRACT"[10] == 'C';
    assert |REVISION.kind| == 18 && |"CAPABILITY_LEASE"| == 16;
  }

  lemma ExampleDistinct()
    ensures var b := ExampleBundle();
            && Distinct(RegistrationIds(b.registrations)) && Distinct(ReceiptIds(b.receipts))
            && Distinct(EventIds(b.events)) && Distinct(AuditRefs(b.audits))
            && Distinct(SubjectIdentities(b.subjects)) && Distinct(ReceiptSubjects(b.receipts))
  {
    assert "1"[0] == '1' && "2"[0] == '2' && "3"[0] == '3' && "4"[0] == '4' && "5"[0] == '5' && "6"[0] == '6';
    assert DECISION.id[0] == 'p' && REVISION.id[0] == 'c';
  }

  lemma ExampleDictionaries(i: nat)
    requires i < 2
    ensures var b, d := ExampleBundle(), DictionariesOf(ExampleBundle());
            && d.downstream == b.downstream && "g" in d.registrations && d.registrations["g"] == b.registrations[0]
            && b.subjects[i].receiptId in d.receipts && d.receipts[b.subjects[i].receiptId] == b.receipts[i]
            && b.receipts[i].eventId in d.events && d.events[b.receipts[i].eventId] == b.events[i]
            && b.receipts[i].auditRef in d.audits && d.audits[b.receipts[i].auditRef] == b.audits[i]
  {
    var b := ExampleBundle();
    ExampleDistinct();
    hide Distinct;
    IndexHolds(ReceiptIds(b.receipts), b.receipts, i);
    IndexHolds(RegistrationIds(b.registrations), b.registrations, 0);
    IndexHolds(EventIds(b.events), b.events, i);
    IndexHolds(AuditRefs(b.audits), b.audits, i);
    hide Index;
    assert i == 0 || i == 1;
  }

  lemma ExampleRegistered(i: nat)
    requires i < 2
    ensures var b := ExampleBundle(); var s, r := b.subjects[i], b.receipts[i];
            && ReceiptFits(ExampleChecks(), s, r) && r.registration.id == "g"
            && RegistrationFits(ExampleChecks(), s, r, b.registrations[0])
  {
    ExampleKinds();
    assert i == 0 || i == 1;
  }

  lemma ExampleClaims(i: nat)
    requires i < 2
    ensures var b := ExampleBundle(); var s, r := b.subjects[i], b.receipts[i];
            ActorFits(s, r) && DecisionFits(s, r) && CausationFits(b.downstream, s, r)
  {
    ExampleKinds();
    hide ActorField;
    assert i == 0 || i == 1;
  }

  lemma ExampleRecorded(i: nat)
    requires i < 2
    ensures var b := ExampleBundle(); var s, r := b.subjects[i], b.receipts[i];
            EventMatches(b.events[i], s, r) && AuditMatches(b.audits[i], s, r)
  {
    assert i == 0 || i == 1;
  }

  lemma ExampleSubject(d: Dictionaries, i: nat)
    requires i < 2 && d == DictionariesOf(ExampleBundle())
    ensures SubjectOk(ExampleChecks(), d, ExampleBundle().subjects[i])
  {
    ExampleDictionaries(i);
    ExampleRegistered(i);
    ExampleClaims(i);
    ExampleRecorded(i);
    assert ExampleChecks().subjectSound(ExampleBundle().subjects[i]);
    hide DictionariesOf;
    hide ExampleBundle;
    hide ExampleChecks;
    hide ReceiptFits;
    hide RegistrationFits;
    hide ActorFits;
    hide DecisionFits;
    hide CausationFits;
    hide EventMatches;
    hide AuditMatches;
  }

  /** The theorems above are about something: a decision and the revision it announced, accepted together. */
  lemma ExampleAccepted()
    ensures Accepted(ExampleChecks(), ExampleBundle()) && |ExampleBundle().subjects| == 2
    ensures ExampleBundle().subjects[0].binding == DECISION && ExampleBundle().subjects[1].binding == REVISION
  {
    ExampleDistinct();
    ExampleSubject(DictionariesOf(ExampleBundle()), 0);
    ExampleSubject(DictionariesOf(ExampleBundle()), 1);
    ExampleShape();
    hide Distinct;
    hide SubjectOk;
    hide DictionariesOf;
    hide ExampleBundle;
    hide ExampleChecks;
  }

  lemma ExampleShape()
    ensures |ExampleBundle().subjects| == 2
    ensures ExampleBundle().subjects[0].binding == DECISION && ExampleBundle().subjects[1].binding == REVISION
  {
  }
}
