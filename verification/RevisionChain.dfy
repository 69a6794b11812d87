/** Hash-chained revision histories: the link check and the record integrity check of v4_integrity.py. */
module RevisionChain {
  import opened Wrappers
  import opened Json

  type Document = map<string, Value>

  /** A row of the record table: kind, identifier field, digest field. */
  datatype RecordMeta = RecordMeta(kind: string, identifierField: string, digestField: string)

  datatype Violation =
    | RevisionInvalid
    | GenesisHasPrevious
    | PreviousMissing
    | IdentityChanged
    | NotContiguous
    | PreviousBindingMismatch
    | HashRuleMismatch
    | CanonicalizationFailed
    | DigestMismatch

  datatype KeyError = KeyError(key: string)

  /** `document.get(key)` */
  function Get(d: Document, key: string): Value {
    if key in d then d[key] else Null
  }

  const DIGEST: Text := T("digest")

  function ExactRecordBinding(meta: RecordMeta, d: Document): Result<Value, KeyError> {
    if meta.identifierField !in d then Err(KeyError(meta.identifierField))
    else if meta.digestField !in d then Err(KeyError(meta.digestField))
    else
      Ok(Obj([Field(T("kind"), Str(T(meta.kind))), Field(T("id"), d[meta.identifierField]),
              Field(T("revision"), Get(d, "revision")), Field(DIGEST, d[meta.digestField])]))
  }

  ghost function RevisionChainViolations(meta: RecordMeta, current: Document, previous: Option<Document>)
    : Result<seq<Violation>, KeyError>
  {
    var revision := AsInt(Get(current, "revision"));
    if revision.None? || revision.value < 1 then Ok([RevisionInvalid])
    else if revision.value == 1 then
      Ok(if previous.Some? || Get(current, "previous_snapshot") != Null then [GenesisHasPrevious] else [])
    else if previous.None? then Ok([PreviousMissing])
    else
      var binding :- ExactRecordBinding(meta, previous.value);
      Ok((if PyEqual(Get(current, meta.identifierField), Get(previous.value, meta.identifierField)) then []
          else [IdentityChanged])
         + (if PyEqual(Get(previous.value, "revision"), Int(revision.value - 1)) then [] else [NotContiguous])
         + (if PyEqual(Get(current, "previous_snapshot"), binding) then [] else [PreviousBindingMismatch]))
  }

  function HashRule(digestField: string): string {
    "jcs-rfc8785-v1+sha256(excluding:/" + digestField + ")"
  }

  /** `digest` is SHA-256 over the RFC 8785 bytes of a document, None where those do not exist. */
  function RecordIntegrityViolations(digest: Document -> Option<Text>, d: Document, digestField: string): seq<Violation>
  {
    (if Get(d, "hash_rule") != Str(T(HashRule(digestField))) then [HashRuleMismatch] else [])
    + (if digestField !in d then [CanonicalizationFailed]
       else
         match digest(d - {digestField})
         case None => [CanonicalizationFailed]
         case Some(actual) => if d[digestField] != Str(actual) then [DigestMismatch] else [])
  }

  // ---------- histories ----------

  /** Every link and every record of the history passes, oldest first. */
  ghost predicate ValidHistory(digest: Document -> Option<Text>, meta: RecordMeta, h: seq<Document>) {
    forall i | 0 <= i < |h| :: ValidAt(digest, meta, h, i)
  }

  function Before(h: seq<Document>, i: nat): Option<Document>
    requires i < |h|
  {
    if i == 0 then None else Some(h[i - 1])
  }

  ghost predicate ValidAt(digest: Document -> Option<Text>, meta: RecordMeta, h: seq<Document>, i: nat)
    requires i < |h|
  {
    && RevisionChainViolations(meta, h[i], Before(h, i)) == Ok([])
    && RecordIntegrityViolations(digest, h[i], meta.digestField) == []
  }

  // ---------- in plain terms ----------

  /** Revision 1, or True, which is 1 in Python, and no previous snapshot. */
  ghost predicate Genesis(d: Document) {
    && "revision" in d && (d["revision"] == Int(1) || d["revision"] == Bool(true))
    && ("previous_snapshot" !in d || d["previous_snapshot"] == Null)
  }

  /** The entry is there, and it alone under its key. */
  ghost predicate Entry(fs: seq<Field>, key: Text, value: Value) {
    && (exists i | 0 <= i < |fs| :: fs[i].key == key)
    && (forall i | 0 <= i < |fs| && fs[i].key == key :: PyEqual(fs[i].val, value))
  }

  /** The snapshot is a dict of exactly the kind, id, revision and digest of the record. */
  ghost predicate Binds(snapshot: Value, meta: RecordMeta, d: Document)
    requires meta.identifierField in d && meta.digestField in d
  {
    && snapshot.Obj?
    && Entry(snapshot.fields, T("kind"), Str(T(meta.kind)))
    && Entry(snapshot.fields, T("id"), d[meta.identifierField])
    && Entry(snapshot.fields, T("revision"), if "revision" in d then d["revision"] else Null)
    && Entry(snapshot.fields, T("digest"), d[meta.digestField])
    && (forall i | 0 <= i < |snapshot.fields| ::
          snapshot.fields[i].key in [T("kind"), T("id"), T("revision"), T("digest")])
  }

  /** The value is the number n, whatever its Python type. */
  ghost predicate IsNumber(v: Value, n: int) {
    v == Int(n) || v == Float(n as real) || (n == 1 && v == Bool(true)) || (n == 0 && v == Bool(false))
  }

  /** The record follows the previous one: one revision later, the same identity, bound to it exactly. */
  ghost predicate Follows(meta: RecordMeta, d: Document, previous: Document) {
    && meta.identifierField in previous && meta.digestField in previous && "revision" in previous
    && "revision" in d && d["revision"].Int? && d["revision"].n >= 2
    && IsNumber(previous["revision"], d["revision"].n - 1)
    && (if meta.identifierField in d then PyEqual(d[meta.identifierField], previous[meta.identifierField])
        else previous[meta.identifierField] == Null)
    && "previous_snapshot" in d && Binds(d["previous_snapshot"], meta, previous)
  }

  /** The record declares the hash rule of its digest field, and there the digest of its other fields. */
  ghost predicate Intact(digest: Document -> Option<Text>, d: Document, digestField: string) {
    && "hash_rule" in d && d["hash_rule"] == Str(T("jcs-rfc8785-v1+sha256(excluding:/" + digestField + ")"))
    && digestField in d
    && exists x :: digest(map k | k in d && k != digestField :: d[k]) == Some(x) && d[digestField] == Str(x)
  }

  /** A record with no predecessor is accepted exactly as revision 1 without a previous snapshot. */
  lemma GenesisExactly(meta: RecordMeta, d: Document)
    ensures RevisionChainViolations(meta, d, None) == Ok([]) <==> Genesis(d)
  {
  }

  /** A record with a predecessor is accepted exactly when it follows it. */
  lemma LinkExactly(meta: RecordMeta, d: Document, previous: Document)
    ensures RevisionChainViolations(meta, d, Some(previous)) == Ok([]) <==> Follows(meta, d, previous)
  {
    var revision := Get(d, "revision");
    if meta.identifierField in previous && meta.digestField in previous && revision.Int? && revision.n >= 2 {
      LinkViolations(meta, d, previous);
      LinkInParts(meta, d, previous);
    }
    hide PyEqual;
    hide Binds;
    hide IsNumber;
  }

  lemma LinkInParts(meta: RecordMeta, d: Document, previous: Document)
    requires meta.identifierField in previous && meta.digestField in previous
    requires Get(d, "revision").Int? && Get(d, "revision").n >= 2
    ensures Follows(meta, d, previous) <==>
            && PyEqual(Get(d, meta.identifierField), Get(previous, meta.identifierField))
            && PyEqual(Get(previous, "revision"), Int(Get(d, "revision").n - 1))
            && PyEqual(Get(d, "previous_snapshot"), ExactRecordBinding(meta, previous).value)
  {
    hide Binds;
    hide IsNumber;
    hide ExactRecordBinding;
    hide PyEqual;
    RevisionPart(previous, Get(d, "revision").n - 1);
    IdentityPart(meta, d, previous);
    SnapshotPart(meta, d, previous);
  }

  lemma RevisionPart(previous: Document, n: int)
    ensures PyEqual(Get(previous, "revision"), Int(n)) <==> "revision" in previous && IsNumber(previous["revision"], n)
  {
  }

  lemma IdentityPart(meta: RecordMeta, d: Document, previous: Document)
    requires meta.identifierField in previous
    ensures PyEqual(Get(d, meta.identifierField), Get(previous, meta.identifierField)) <==>
            if meta.identifierField in d then PyEqual(d[meta.identifierField], previous[meta.identifierField])
            else previous[meta.identifierField] == Null
  {
  }

  lemma SnapshotPart(meta: RecordMeta, d: Document, previous: Document)
    requires meta.identifierField in previous && meta.digestField in previous
    ensures PyEqual(Get(d, "previous_snapshot"), ExactRecordBinding(meta, previous).value)
            <==> "previous_snapshot" in d && Binds(d["previous_snapshot"], meta, previous)
  {
    BindsExactly(Get(d, "previous_snapshot"), meta, previous);
    assert Binds(Get(d, "previous_snapshot"), meta, previous) ==> "previous_snapshot" in d;
    hide Binds;
    hide PyEqual;
    hide ExactRecordBinding;
  }

  lemma LinkViolations(meta: RecordMeta, d: Document, previous: Document)
    requires meta.identifierField in previous && meta.digestField in previous
    requires Get(d, "revision").Int? && Get(d, "revision").n >= 2
    ensures RevisionChainViolations(meta, d, Some(previous)) == Ok([]) <==>
            && PyEqual(Get(d, meta.identifierField), Get(previous, meta.identifierField))
            && PyEqual(Get(previous, "revision"), Int(Get(d, "revision").n - 1))
            && PyEqual(Get(d, "previous_snapshot"), ExactRecordBinding(meta, previous).value)
  {
    var binding := ExactRecordBinding(meta, previous).value;
    var id := meta.identifierField;
    var a := if PyEqual(Get(d, id), Get(previous, id)) then [] else [IdentityChanged];
    var b := if PyEqual(Get(previous, "revision"), Int(Get(d, "revision").n - 1)) then [] else [NotContiguous];
    var c := if PyEqual(Get(d, "previous_snapshot"), binding) then [] else [PreviousBindingMismatch];
    assert RevisionChainViolations(meta, d, Some(previous)) == Ok(a + b + c) by {
      hide PyEqual;
    }
    assert |a + b + c| == |a| + |b| + |c|;
    hide RevisionChainViolations;
    hide PyEqual;
  }

  lemma BindsExactly(snapshot: Value, meta: RecordMeta, d: Document)
    requires meta.identifierField in d && meta.digestField in d
    ensures PyEqual(snapshot, ExactRecordBinding(meta, d).value) <==> Binds(snapshot, meta, d)
  {
    hide T;
    hide Entry;
    var gs := [Field(T("kind"), Str(T(meta.kind))), Field(T("id"), d[meta.identifierField]),
               Field(T("revision"), Get(d, "revision")), Field(T("digest"), d[meta.digestField])];
    assert ExactRecordBinding(meta, d).value == Obj(gs);
    if snapshot.Obj? {
      FourEntries(snapshot.fields, gs[0], gs[1], gs[2], gs[3]);
      hide PyEqual;
    }
  }

  lemma FourEntries(fs: seq<Field>, a: Field, b: Field, c: Field, e: Field)
    ensures PyEqual(Obj(fs), Obj([a, b, c, e])) <==>
            && Entry(fs, a.key, a.val) && Entry(fs, b.key, b.val) && Entry(fs, c.key, c.val) && Entry(fs, e.key, e.val)
            && (forall i | 0 <= i < |fs| :: fs[i].key in [a.key, b.key, c.key, e.key])
  {
    var gs := [a, b, c, e];
    ObjEqualExactly(fs, gs);
    forall k ensures HasKey(gs, k) <==> k in [a.key, b.key, c.key, e.key] {
      assert gs[0].key == a.key && gs[1].key == b.key && gs[2].key == c.key && gs[3].key == e.key;
    }
    assert gs[0] == a && gs[1] == b && gs[2] == c && gs[3] == e;
    hide PyEqual;
    hide HasKey;
    hide Entry;
  }

  lemma ObjEqualExactly(fs: seq<Field>, gs: seq<Field>)
    ensures PyEqual(Obj(fs), Obj(gs)) <==>
            && (forall i | 0 <= i < |fs| :: HasKey(gs, fs[i].key))
            && (forall j | 0 <= j < |gs| :: Entry(fs, gs[j].key, gs[j].val))
  {
  }

  lemma IntegrityExactly(digest: Document -> Option<Text>, d: Document, digestField: string)
    ensures RecordIntegrityViolations(digest, d, digestField) == [] <==> Intact(digest, d, digestField)
  {
    assert (map k | k in d && k != digestField :: d[k]) == d - {digestField};
  }

  /** A history is accepted exactly when its first record is a genesis, each later one follows the one before
    it, and all are intact. */
  lemma HistoryExactly(digest: Document -> Option<Text>, meta: RecordMeta, h: seq<Document>)
    ensures ValidHistory(digest, meta, h) <==>
            && (h != [] ==> Genesis(h[0]))
            && (forall i | 0 < i < |h| :: Follows(meta, h[i], h[i - 1]))
            && (forall i | 0 <= i < |h| :: Intact(digest, h[i], meta.digestField))
  {
    hide Genesis;
    hide Follows;
    hide Intact;
    hide ValidAt;
    if ValidHistory(digest, meta, h) {
      forall i | 0 <= i < |h|
        ensures Intact(digest, h[i], meta.digestField) && (0 < i ==> Follows(meta, h[i], h[i - 1]))
      {
        RecordExactly(digest, meta, h, i);
        assert ValidAt(digest, meta, h, i);
      }
      if h != [] {
        RecordExactly(digest, meta, h, 0);
        assert ValidAt(digest, meta, h, 0);
      }
    } else {
      var i :| 0 <= i < |h| && !ValidAt(digest, meta, h, i);
      RecordExactly(digest, meta, h, i);
    }
  }

  lemma RecordExactly(digest: Document -> Option<Text>, meta: RecordMeta, h: seq<Document>, i: nat)
    requires i < |h|
    ensures ValidAt(digest, meta, h, i) <==>
            Intact(digest, h[i], meta.digestField) && if i == 0 then Genesis(h[0]) else Follows(meta, h[i], h[i - 1])
  {
    IntegrityExactly(digest, h[i], meta.digestField);
    if i == 0 {
      GenesisExactly(meta, h[0]);
    } else {
      LinkExactly(meta, h[i], h[i - 1]);
    }
    hide RevisionChainViolations;
    hide RecordIntegrityViolations;
    hide Genesis;
    hide Follows;
    hide Intact;
  }

  /** The same keys and, up to the order of nested keys, the same typed values. */
  ghost predicate SameDocument(d: Document, e: Document) {
    d.Keys == e.Keys && forall k | k in d :: Same(d[k], e[k])
  }

  /** The assumption on the digest: documents with one digest have one content. */
  ghost predicate CollisionFree(digest: Document -> Option<Text>) {
    forall d, e | digest(d).Some? && digest(d) == digest(e) :: SameDocument(d, e)
  }

  /** A valid history counts its revisions 1, 2, ..., n. */
  lemma {:induction false} RevisionsCount(digest: Document -> Option<Text>, meta: RecordMeta, h: seq<Document>, i: nat)
    requires ValidHistory(digest, meta, h) && i < |h|
    ensures AsInt(Get(h[i], "revision")) == Some(i + 1)
  {
    assert ValidAt(digest, meta, h, i);
    if i > 0 {
      RevisionsCount(digest, meta, h, i - 1);
      LinkFacts(meta, h[i], h[i - 1]);
      var before := Get(h[i - 1], "revision");
      assert Number(before) == Some(i as real);
    }
  }

  /** What an accepted link beyond the first says. */
  lemma LinkFacts(meta: RecordMeta, current: Document, previous: Document)
    requires RevisionChainViolations(meta, current, Some(previous)) == Ok([])
    ensures meta.identifierField in previous && meta.digestField in previous
    ensures PyEqual(Get(current, meta.identifierField), Get(previous, meta.identifierField))
    ensures AsInt(Get(current, "revision")).Some?
    ensures PyEqual(Get(previous, "revision"), Int(AsInt(Get(current, "revision")).value - 1))
    ensures PyEqual(Get(current, "previous_snapshot"), ExactRecordBinding(meta, previous).value)
  {
  }

  /** One identity runs through the whole history: any two of its records name the same one. */
  lemma {:induction false} OneIdentity(digest: Document -> Option<Text>, meta: RecordMeta, h: seq<Document>, i: nat,
                                       j: nat)
    requires ValidHistory(digest, meta, h) && i < j < |h|
    ensures PyEqual(Get(h[j], meta.identifierField), Get(h[i], meta.identifierField))
  {
    RevisionsCount(digest, meta, h, j);
    assert ValidAt(digest, meta, h, j);
    LinkFacts(meta, h[j], h[j - 1]);
    if i < j - 1 {
      hide RevisionChainViolations;
      hide RecordIntegrityViolations;
      hide PyEqual;
      OneIdentity(digest, meta, h, i, j - 1);
      PyEqualTransitive(Get(h[j], meta.identifierField), Get(h[j - 1], meta.identifierField),
                        Get(h[i], meta.identifierField));
    }
  }

  lemma IntegrityFacts(digest: Document -> Option<Text>, d: Document, digestField: string)
    requires RecordIntegrityViolations(digest, d, digestField) == []
    ensures digestField in d && digest(d - {digestField}).Some?
    ensures d[digestField] == Str(digest(d - {digestField}).value)
  {
  }

  /** Two sound records that declare one digest are the same document. */
  lemma SameDigestSameDocument(digest: Document -> Option<Text>, d: Document, e: Document, digestField: string)
    requires CollisionFree(digest)
    requires RecordIntegrityViolations(digest, d, digestField) == []
    requires RecordIntegrityViolations(digest, e, digestField) == []
    requires Get(d, digestField) == Get(e, digestField)
    ensures SameDocument(d, e)
  {
    IntegrityFacts(digest, d, digestField);
    IntegrityFacts(digest, e, digestField);
    var b, c := d - {digestField}, e - {digestField};
    assert SameDocument(b, c);
    assert d.Keys == b.Keys + {digestField} && e.Keys == c.Keys + {digestField};
    forall k | k in d ensures Same(d[k], e[k]) {
      if k != digestField {
        assert k in b && Same(b[k], c[k]);
      }
    }
  }

  lemma BindingDigest(snapshot: Value, meta: RecordMeta, previous: Document, x: Text)
    requires meta.identifierField in previous && meta.digestField in previous && previous[meta.digestField] == Str(x)
    requires PyEqual(snapshot, ExactRecordBinding(meta, previous).value)
    ensures snapshot.Obj?
    ensures exists i | 0 <= i < |snapshot.fields| :: snapshot.fields[i] == Field(DIGEST, Str(x))
  {
    var binding := ExactRecordBinding(meta, previous).value;
    assert binding.fields[3] == Field(DIGEST, Str(x));
    var i :| 0 <= i < |snapshot.fields| && snapshot.fields[i].key == binding.fields[3].key;
    assert PyEqual(snapshot.fields[i].val, Str(x));
  }

  lemma SameHeadSameLength(digest: Document -> Option<Text>, meta: RecordMeta, g: seq<Document>, h: seq<Document>)
    requires ValidHistory(digest, meta, g) && ValidHistory(digest, meta, h) && g != [] && h != []
    requires SameDocument(g[|g| - 1], h[|h| - 1])
    ensures |g| == |h|
  {
    RevisionsCount(digest, meta, g, |g| - 1);
    RevisionsCount(digest, meta, h, |h| - 1);
    assert Same(Get(g[|g| - 1], "revision"), Get(h[|h| - 1], "revision"));
  }

  lemma PrefixValid(digest: Document -> Option<Text>, meta: RecordMeta, h: seq<Document>)
    requires ValidHistory(digest, meta, h) && h != []
    ensures ValidHistory(digest, meta, h[..|h| - 1])
  {
    var p := h[..|h| - 1];
    forall i | 0 <= i < |p| ensures ValidAt(digest, meta, p, i) {
      assert ValidAt(digest, meta, h, i) && Before(p, i) == Before(h, i);
    }
  }

  ghost predicate SameElements(g: seq<Document>, h: seq<Document>) {
    |g| == |h| && forall i | 0 <= i < |g| :: SameDocument(g[i], h[i])
  }

  lemma SameElementsExtend(g: seq<Document>, h: seq<Document>)
    requires |g| == |h| > 0 && SameDocument(g[|g| - 1], h[|h| - 1])
    requires |g| > 1 ==> SameElements(g[..|g| - 1], h[..|h| - 1])
    ensures SameElements(g, h)
  {
    forall i | 0 <= i < |g| ensures SameDocument(g[i], h[i]) {
      if i < |g| - 1 {
        assert SameDocument(g[..|g| - 1][i], h[..|h| - 1][i]);
      }
    }
  }

  /** No fork behind a head: two valid histories whose heads declare the same digest are equal element
    by element. */
  lemma {:induction false} NoForkBehindHead(digest: Document -> Option<Text>, meta: RecordMeta, g: seq<Document>,
                                            h: seq<Document>)
    requires CollisionFree(digest)
    requires ValidHistory(digest, meta, g) && ValidHistory(digest, meta, h) && g != [] && h != []
    requires Get(g[|g| - 1], meta.digestField) == Get(h[|h| - 1], meta.digestField)
    ensures SameElements(g, h)
  {
    hide RevisionChainViolations;
    hide RecordIntegrityViolations;
    hide SameDocument;
    hide CollisionFree;
    assert ValidAt(digest, meta, g, |g| - 1) && ValidAt(digest, meta, h, |h| - 1);
    SameDigestSameDocument(digest, g[|g| - 1], h[|h| - 1], meta.digestField);
    SameHeadSameLength(digest, meta, g, h);
    if |g| > 1 {
      var p, q := g[..|g| - 1], h[..|h| - 1];
      PreviousDigest(digest, meta, g, h);
      PrefixValid(digest, meta, g);
      PrefixValid(digest, meta, h);
      NoForkBehindHead(digest, meta, p, q);
    }
    SameElementsExtend(g, h);
  }

  /** Heads with the same content point at predecessors that declare the same digest. */
  lemma PreviousDigest(digest: Document -> Option<Text>, meta: RecordMeta, g: seq<Document>, h: seq<Document>)
    requires ValidHistory(digest, meta, g) && ValidHistory(digest, meta, h) && |g| == |h| > 1
    requires SameDocument(g[|g| - 1], h[|h| - 1])
    ensures Get(g[|g| - 2], meta.digestField) == Get(h[|h| - 2], meta.digestField)
  {
    var n := |g|;
    RevisionsCount(digest, meta, g, n - 1);
    RevisionsCount(digest, meta, h, n - 1);
    assert ValidAt(digest, meta, g, n - 1) && ValidAt(digest, meta, h, n - 1);
    assert ValidAt(digest, meta, g, n - 2) && ValidAt(digest, meta, h, n - 2);
    LinkFacts(meta, g[n - 1], g[n - 2]);
    LinkFacts(meta, h[n - 1], h[n - 2]);
    IntegrityFacts(digest, g[n - 2], meta.digestField);
    IntegrityFacts(digest, h[n - 2], meta.digestField);
    var s, t := Get(g[n - 1], "previous_snapshot"), Get(h[n - 1], "previous_snapshot");
    BindingDigest(s, meta, g[n - 2], g[n - 2][meta.digestField].s);
    BindingDigest(t, meta, h[n - 2], h[n - 2][meta.digestField].s);
    assert Same(s, t);
    var i :| 0 <= i < |s.fields| && s.fields[i] == Field(DIGEST, g[n - 2][meta.digestField]);
    var j :| 0 <= j < |t.fields| && t.fields[j] == Field(DIGEST, h[n - 2][meta.digestField]);
    assert Same(s.fields[i].val, t.fields[j].val);
  }

  /** The record with its digest filled in. */
  ghost function Sealed(digest: Document -> Option<Text>, meta: RecordMeta, d: Document): Document
    requires digest(d).Some?
  {
    d[meta.digestField := Str(digest(d).value)]
  }

  /** An accepted history of two records. */
  lemma ExampleHistory(digest: Document -> Option<Text>, meta: RecordMeta, id: Text) returns (h: seq<Document>)
    requires forall d :: digest(d).Some?
    requires meta.identifierField != meta.digestField
    requires meta.identifierField !in ["revision", "previous_snapshot", "hash_rule"]
    requires meta.digestField !in ["revision", "previous_snapshot", "hash_rule"]
    ensures |h| == 2 && ValidHistory(digest, meta, h)
    ensures forall i | 0 <= i < 2 :: Get(h[i], meta.identifierField) == Str(id) && Get(h[i], "revision") == Int(i + 1)
  {
    var rule := Str(T("jcs-rfc8785-v1+sha256(excluding:/" + meta.digestField + ")"));
    hide T;
    var one := map[meta.identifierField := Str(id), "revision" := Int(1), "hash_rule" := rule];
    var first := Sealed(digest, meta, one);
    var two := one["revision" := Int(2)]["previous_snapshot" := ExactRecordBinding(meta, first).value];
    var second := Sealed(digest, meta, two);
    h := [first, second];
    SealedIntact(digest, meta, one);
    SealedIntact(digest, meta, two);
    hide Intact;
    assert Genesis(first);
    hide Genesis;
    SecondFollows(meta, first, second, id);
    hide Follows;
    HistoryExactly(digest, meta, h);
  }

  lemma SecondFollows(meta: RecordMeta, first: Document, second: Document, id: Text)
    requires meta.identifierField in first && meta.digestField in first && "revision" in first
    requires first[meta.identifierField] == Str(id) && first["revision"] == Int(1) && first[meta.digestField].Str?
    requires meta.identifierField in second && second[meta.identifierField] == Str(id)
    requires "revision" in second && second["revision"] == Int(2) && "previous_snapshot" in second
    requires second["previous_snapshot"] == ExactRecordBinding(meta, first).value
    ensures Follows(meta, second, first)
  {
    var snapshot := second["previous_snapshot"];
    SnapshotEqual(snapshot, meta, first);
    BindsExactly(snapshot, meta, first);
    hide Binds;
    hide ExactRecordBinding;
  }

  lemma SealedIntact(digest: Document -> Option<Text>, meta: RecordMeta, d: Document)
    requires digest(d).Some? && meta.digestField !in d && "hash_rule" in d
    requires d["hash_rule"] == Str(T("jcs-rfc8785-v1+sha256(excluding:/" + meta.digestField + ")"))
    ensures Intact(digest, Sealed(digest, meta, d), meta.digestField)
  {
    var s := Sealed(digest, meta, d);
    assert (map k | k in s && k != meta.digestField :: s[k]) == d;
  }

  lemma SnapshotEqual(snapshot: Value, meta: RecordMeta, d: Document)
    requires meta.identifierField in d && meta.digestField in d && d[meta.identifierField].Str?
    requires d[meta.digestField].Str? && Get(d, "revision").Int? && snapshot == ExactRecordBinding(meta, d).value
    ensures PyEqual(snapshot, snapshot)
  {
    assert |T("kind")| == 4 && |T("id")| == 2 && |T("revision")| == 8 && |T("digest")| == 6;
    assert forall i | 0 <= i < |snapshot.fields| :: HasKey(snapshot.fields, snapshot.fields[i].key);
  }
}
