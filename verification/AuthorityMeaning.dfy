/** What an accepted authority bundle is, in terms of its own lists alone. */
module AuthorityMeaning {
  import opened Wrappers
  import opened Authority

  /** Of two different places in a list no two hold the same id, reference or identity. */
  ghost predicate NothingTwice(b: Bundle) {
    && (forall i, j | 0 <= i < j < |b.registrations| :: b.registrations[i].binding.id != b.registrations[j].binding.id)
    && (forall i, j | 0 <= i < j < |b.receipts| :: b.receipts[i].id != b.receipts[j].id)
    && (forall i, j | 0 <= i < j < |b.events| :: b.events[i].id != b.events[j].id)
    && (forall i, j | 0 <= i < j < |b.audits| :: b.audits[i].ref != b.audits[j].ref)
    && (forall i, j | 0 <= i < j < |b.subjects| :: !SameRecord(b.subjects[i].binding, b.subjects[j].binding))
    && (forall i, j | 0 <= i < j < |b.receipts| :: !SameRecord(b.receipts[i].subject, b.receipts[j].subject))
  }

  ghost predicate SameRecord(x: Exact, y: Exact) {
    x.kind == y.kind && x.id == y.id && x.revision == y.revision
  }

  /** The registration lets the receipt's controller record it: active, of this workspace, owner and principal,
    with the command allowed, under the frozen catalogues, and valid when it was recorded. */
  ghost predicate Entitles(c: Checks, b: Bundle, g: Registration, s: Subject, r: Receipt) {
    && g in b.registrations && g.binding == r.registration && c.registrationSound(g)
    && g.state == "ACTIVE" && g.workspaceId == s.workspaceId && g.owner == r.owner
    && g.controllerPrincipal == r.controllerPrincipal && r.command in g.allowedCommands
    && g.ownershipDigest == c.ownershipDigest && g.eventDigest == c.eventDigest
    && g.validFrom <= r.recordedAt && (g.expiresAt == None || r.recordedAt < g.expiresAt.value)
  }

  /** The catalogue gives the record kind to this resource and owner, and lets the command raise the event. */
  ghost predicate InCatalog(c: Checks, s: Subject, r: Receipt) {
    && s.binding.kind in c.catalog
    && var entry := c.catalog[s.binding.kind];
       && entry.resource == r.resource && entry.owner == r.owner
       && r.command in entry.commandEvents && r.eventType in entry.commandEvents[r.command]
  }

  ghost predicate Names(s: Subject, field: string, principal: string) {
    field in s.principals && s.principals[field] == principal
  }

  /** The record names the controller as its actor, and a decision or a revision the event that records it. */
  ghost predicate Claims(b: Bundle, s: Subject, r: Receipt) {
    var kind, actor := s.binding.kind, r.controllerPrincipal;
    && (kind == "CAPABILITY_LEASE" ==> Names(s, "issued_by_principal", actor))
    && (kind == "RESOLUTION_CONTRACT" ==> Names(s, "frozen_by_principal", actor))
    && (kind == "CANDIDATE_CONTRACT" ==> Names(s, "frozen_by_principal", actor))
    && (kind == "EVALUATION_PLAN" ==> Names(s, "frozen_by_principal", actor))
    && (kind == "PARTICIPATION_MANIFEST" ==> Names(s, "frozen_by_principal", actor))
    && (kind == "CANDIDATE_REVISION" ==> Names(s, "recorded_by_principal", actor))
    && (kind == "PROPOSAL_DECISION" ==> Names(s, "decided_by_principal", actor))
    && (kind == "GATE_REPORT" ==> Names(s, "created_by_principal", actor))
    && (kind == "WORKORDER" ==> Names(s, "created_by_principal", actor))
    && (kind == "PROPOSAL_DECISION" ==>
          && s.decided.Some? && s.decided.value.eventId == r.eventId
          && s.decided.value.transactionId == r.transactionId && s.decided.value.auditRef == r.auditRef)
    && (kind == "CANDIDATE_REVISION" && b.downstream.Some? ==>
          && b.downstream.value.eventId == r.eventId && b.downstream.value.eventType == r.eventType
          && b.downstream.value.transactionId == r.transactionId)
  }

  /** Receipt, event and audit row of the record, the event of contract version 4 on the receipt's resource. */
  ghost predicate Evidence(c: Checks, b: Bundle, s: Subject, r: Receipt, e: Event, a: Audit) {
    && Triple(b, s, r, e, a) && c.subjectSound(s) && c.receiptSound(r) && r.workspaceId == s.workspaceId
    && e.contractVersion == "v4" && e.aggregateType == r.resource && e.eventType == r.eventType
  }

  /** The record has all of it. */
  ghost predicate Recorded(c: Checks, b: Bundle, s: Subject) {
    exists r, e, a, g ::
      && Evidence(c, b, s, r, e, a) && Entitles(c, b, g, s, r) && InCatalog(c, s, r) && Claims(b, s, r)
  }

  /** What an accepted bundle is. */
  lemma AcceptedExactly(c: Checks, b: Bundle)
    ensures Accepted(c, b) <==>
            b.subjects == [] || (NothingTwice(b) && forall s | s in b.subjects :: Recorded(c, b, s))
  {
    hide Recorded;
    hide SubjectOk;
    hide NothingTwice;
    hide Distinct;
    if b.subjects != [] {
      TwiceExactly(b);
      if NothingTwice(b) {
        forall i | 0 <= i < |b.subjects|
          ensures SubjectOk(c, DictionariesOf(b), b.subjects[i]) <==> Recorded(c, b, b.subjects[i])
        {
          SubjectExactly(c, b, i);
        }
        hide DictionariesOf;
        assert forall s | s in b.subjects :: exists i | 0 <= i < |b.subjects| :: b.subjects[i] == s;
      }
    }
  }

  lemma TwiceExactly(b: Bundle)
    ensures NothingTwice(b) <==>
            && Distinct(RegistrationIds(b.registrations)) && Distinct(ReceiptIds(b.receipts))
            && Distinct(EventIds(b.events)) && Distinct(AuditRefs(b.audits))
            && Distinct(SubjectIdentities(b.subjects)) && Distinct(ReceiptSubjects(b.receipts))
  {
    DistinctOn(RegistrationIds(b.registrations), b.registrations, (g: Registration) => g.binding.id);
    DistinctOn(ReceiptIds(b.receipts), b.receipts, (r: Receipt) => r.id);
    DistinctOn(EventIds(b.events), b.events, (e: Event) => e.id);
    DistinctOn(AuditRefs(b.audits), b.audits, (a: Audit) => a.ref);
    DistinctOn(SubjectIdentities(b.subjects), b.subjects, (s: Subject) => IdentityOf(s.binding));
    DistinctOn(ReceiptSubjects(b.receipts), b.receipts, (r: Receipt) => IdentityOf(r.subject));
    hide Distinct;
    assert forall x, y :: IdentityOf(x) != IdentityOf(y) <==> !SameRecord(x, y);
    hide IdentityOf;
    hide SameRecord;
  }

  lemma DistinctOn<K, V>(keys: seq<K>, items: seq<V>, key: V -> K)
    requires |keys| == |items| && forall i | 0 <= i < |items| :: keys[i] == key(items[i])
    ensures Distinct(keys) <==> forall i, j | 0 <= i < j < |items| :: key(items[i]) != key(items[j])
  {
    forall i, j | 0 <= i < j < |items| ensures keys[i] != keys[j] <==> key(items[i]) != key(items[j]) {
    }
  }

  /** A record passes the check on the dictionaries exactly when the lists hold all it needs. */
  lemma SubjectExactly(c: Checks, b: Bundle, i: nat)
    requires i < |b.subjects| && NothingTwice(b)
    ensures SubjectOk(c, DictionariesOf(b), b.subjects[i]) <==> Recorded(c, b, b.subjects[i])
  {
    var s, d := b.subjects[i], DictionariesOf(b);
    if SubjectOk(c, d, s) {
      OkIsRecorded(c, b, s);
    }
    if Recorded(c, b, s) {
      var r, e, a, g :|
        Evidence(c, b, s, r, e, a) && Entitles(c, b, g, s, r) && InCatalog(c, s, r) && Claims(b, s, r);
      RecordedIsOk(c, b, s, r, e, a, g);
    }
  }

  lemma OkIsRecorded(c: Checks, b: Bundle, s: Subject)
    requires SubjectOk(c, DictionariesOf(b), s)
    ensures Recorded(c, b, s)
  {
    var d := DictionariesOf(b);
    var r := d.receipts[s.receiptId];
    var e, a, g := d.events[r.eventId], d.audits[r.auditRef], d.registrations[r.registration.id];
    Members(b, s.receiptId, r.eventId, r.auditRef, r.registration.id);
    ClaimsExactly(b, s, r);
    assert EventMatches(e, s, r) && AuditMatches(a, s, r) && RegistrationFits(c, s, r, g);
    hide DictionariesOf;
    hide Index;
    assert Evidence(c, b, s, r, e, a) && Entitles(c, b, g, s, r) && InCatalog(c, s, r) && Claims(b, s, r);
  }

  lemma Members(b: Bundle, receipt: string, event: string, audit: string, registration: string)
    ensures var d := DictionariesOf(b);
            && (receipt in d.receipts ==> d.receipts[receipt] in b.receipts && d.receipts[receipt].id == receipt)
            && (event in d.events ==> d.events[event] in b.events && d.events[event].id == event)
            && (audit in d.audits ==> d.audits[audit] in b.audits && d.audits[audit].ref == audit)
            && (registration in d.registrations ==> d.registrations[registration] in b.registrations)
  {
    var d := DictionariesOf(b);
    hide Index;
    if receipt in d.receipts {
      var i := IndexKeyed(ReceiptIds(b.receipts), b.receipts, receipt);
    }
    if event in d.events {
      var i := IndexKeyed(EventIds(b.events), b.events, event);
    }
    if audit in d.audits {
      var i := IndexKeyed(AuditRefs(b.audits), b.audits, audit);
    }
    if registration in d.registrations {
      var i := IndexKeyed(RegistrationIds(b.registrations), b.registrations, registration);
    }
  }

  lemma RecordedIsOk(c: Checks, b: Bundle, s: Subject, r: Receipt, e: Event, a: Audit, g: Registration)
    requires NothingTwice(b) && Evidence(c, b, s, r, e, a) && Entitles(c, b, g, s, r)
    requires InCatalog(c, s, r) && Claims(b, s, r)
    ensures SubjectOk(c, DictionariesOf(b), s)
  {
    TwiceExactly(b);
    ClaimsExactly(b, s, r);
    hide NothingTwice;
    hide Distinct;
    Found(b, r, e, a, g);
    hide Claims;
    hide ActorFits;
    hide DecisionFits;
    hide CausationFits;
    hide Index;
    assert DictionariesOf(b).downstream == b.downstream;
    hide DictionariesOf;
    assert EventMatches(e, s, r) && AuditMatches(a, s, r) && ReceiptFits(c, s, r);
    assert RegistrationFits(c, s, r, g);
  }

  lemma Found(b: Bundle, r: Receipt, e: Event, a: Audit, g: Registration)
    requires r in b.receipts && e in b.events && a in b.audits && g in b.registrations
    requires Distinct(RegistrationIds(b.registrations)) && Distinct(ReceiptIds(b.receipts))
    requires Distinct(EventIds(b.events)) && Distinct(AuditRefs(b.audits))
    ensures var d := DictionariesOf(b);
            && r.id in d.receipts && d.receipts[r.id] == r && e.id in d.events && d.events[e.id] == e
            && a.ref in d.audits && d.audits[a.ref] == a
            && g.binding.id in d.registrations && d.registrations[g.binding.id] == g
  {
    hide Distinct;
    var i :| 0 <= i < |b.receipts| && b.receipts[i] == r;
    var j :| 0 <= j < |b.events| && b.events[j] == e;
    var k :| 0 <= k < |b.audits| && b.audits[k] == a;
    var l :| 0 <= l < |b.registrations| && b.registrations[l] == g;
    IndexHolds(ReceiptIds(b.receipts), b.receipts, i);
    IndexHolds(EventIds(b.events), b.events, j);
    IndexHolds(AuditRefs(b.audits), b.audits, k);
    IndexHolds(RegistrationIds(b.registrations), b.registrations, l);
    hide Index;
  }

  lemma ClaimsExactly(b: Bundle, s: Subject, r: Receipt)
    ensures Claims(b, s, r) <==> ActorFits(s, r) && DecisionFits(s, r) && CausationFits(b.downstream, s, r)
  {
    KindsDiffer();
  }

  /** No two of the kinds are the same text. */
  lemma KindsDiffer()
    ensures |"CAPABILITY_LEASE"| == 16 && |"RESOLUTION_CONTRACT"| == 19 && |"CANDIDATE_CONTRACT"| == 18
    ensures |"EVALUATION_PLAN"| == 15 && |"PARTICIPATION_MANIFEST"| == 22 && |"CANDIDATE_REVISION"| == 18
    ensures |"PROPOSAL_DECISION"| == 17 && |"GATE_REPORT"| == 11 && |"WORKORDER"| == 9
    ensures "CANDIDATE_CONTRACT" != "CANDIDATE_REVISION"
  {
    assert "CANDIDATE_CONTRACT"[10] == 'C' && "CANDIDATE_REVISION"[10] == 'R';
  }
}
