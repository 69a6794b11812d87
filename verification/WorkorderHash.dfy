/** `workorder_hash`: the hash of every field of a payload but `hash` itself. */
module WorkorderHash {
  import opened Wrappers
  import opened Json
  import opened Jcs
  import opened JcsCanonical

  const HASH: Text := T("hash")

  function Body(payload: seq<Field>): (fs: seq<Field>)
    ensures forall f :: f in fs <==> f in payload && f.key != HASH
    ensures Distinct(payload) ==> Distinct(fs)
  {
    if payload == [] then
      []
    else
      var tail := Body(payload[1..]);
      assert payload == [payload[0]] + payload[1..];
      assert Distinct(payload) ==> forall i | 0 <= i < |tail| :: payload[0].key != tail[i].key by {
        if Distinct(payload) {
          forall i | 0 <= i < |tail| ensures payload[0].key != tail[i].key {
            assert tail[i] in payload[1..];
          }
        }
      }
      if payload[0].key != HASH then [payload[0]] + tail else tail
  }

  /** SHA-256 in lower-case hex is the parameter `sha`; a float anywhere raises. */
  function Hash(sha: string -> string, payload: seq<Field>): Result<string, JcsError> {
    var text :- Serialise(Obj(Body(payload)));
    Ok(sha(text))
  }

  /** The assumption on SHA-256: no collisions. */
  ghost predicate Injective(sha: string -> string) {
    forall a, b | sha(a) == sha(b) :: a == b
  }

  /** The same keys outside `hash`, and the same typed value under each of them. */
  ghost predicate AgreeOutsideHash(p: seq<Field>, q: seq<Field>) {
    && (forall i | 0 <= i < |p| && p[i].key != HASH :: HasKey(q, p[i].key))
    && (forall j | 0 <= j < |q| && q[j].key != HASH :: HasKey(p, q[j].key))
    && (forall i, j | 0 <= i < |p| && 0 <= j < |q| && p[i].key == q[j].key != HASH :: Same(p[i].val, q[j].val))
  }

  lemma BodyHasKey(p: seq<Field>, k: Text)
    ensures HasKey(Body(p), k) <==> HasKey(p, k) && k != HASH
  {
    if HasKey(Body(p), k) {
      var i :| 0 <= i < |Body(p)| && Body(p)[i].key == k;
      assert Body(p)[i] in p;
    }
    if HasKey(p, k) && k != HASH {
      var i :| 0 <= i < |p| && p[i].key == k;
      assert p[i] in Body(p);
    }
  }

  /** `Same` of two dicts, spelled out. */
  ghost predicate SameFields(fs: seq<Field>, gs: seq<Field>) {
    && (forall i | 0 <= i < |fs| :: HasKey(gs, fs[i].key))
    && (forall j | 0 <= j < |gs| :: HasKey(fs, gs[j].key))
    && (forall i, j | 0 <= i < |fs| && 0 <= j < |gs| && fs[i].key == gs[j].key :: Same(fs[i].val, gs[j].val))
  }

  lemma SameObjects(fs: seq<Field>, gs: seq<Field>)
    ensures Same(Obj(fs), Obj(gs)) <==> SameFields(fs, gs)
  {
  }

  lemma AgreeGivesSame(p: seq<Field>, q: seq<Field>)
    requires AgreeOutsideHash(p, q)
    ensures SameFields(Body(p), Body(q))
  {
    hide Same;
    hide HasKey;
    var b, c := Body(p), Body(q);
    forall i | 0 <= i < |b| ensures b[i] in p && HasKey(c, b[i].key) {
      assert b[i] in b;
      BodyHasKey(q, b[i].key);
    }
    forall j | 0 <= j < |c| ensures c[j] in q && HasKey(b, c[j].key) {
      assert c[j] in c;
      BodyHasKey(p, c[j].key);
    }
  }

  lemma SameGivesAgree(p: seq<Field>, q: seq<Field>)
    requires SameFields(Body(p), Body(q))
    ensures AgreeOutsideHash(p, q)
  {
    hide Same;
    hide HasKey;
    var b, c := Body(p), Body(q);
    forall i | 0 <= i < |p| && p[i].key != HASH ensures p[i] in b && HasKey(q, p[i].key) {
      assert p[i] in p;
      BodyHasKey(q, p[i].key);
    }
    forall j | 0 <= j < |q| && q[j].key != HASH ensures q[j] in c && HasKey(p, q[j].key) {
      assert q[j] in q;
      BodyHasKey(p, q[j].key);
    }
  }

  lemma AgreeIffBodiesSame(p: seq<Field>, q: seq<Field>)
    ensures AgreeOutsideHash(p, q) <==> Same(Obj(Body(p)), Obj(Body(q)))
  {
    SameObjects(Body(p), Body(q));
    if AgreeOutsideHash(p, q) {
      AgreeGivesSame(p, q);
    }
    if SameFields(Body(p), Body(q)) {
      SameGivesAgree(p, q);
    }
  }

  lemma BodyKeeps(p: seq<Field>)
    ensures WellFormed(Obj(p)) ==> WellFormed(Obj(Body(p)))
    ensures PairFree(Obj(p)) ==> PairFree(Obj(Body(p)))
  {
    assert forall i | 0 <= i < |Body(p)| :: Body(p)[i] in p;
  }

  /** Two payloads that hash do so alike exactly when they agree on every field but `hash`. */
  lemma HashBindsEveryOtherField(sha: string -> string, p: seq<Field>, q: seq<Field>)
    requires Injective(sha) && Hash(sha, p).Ok? && Hash(sha, q).Ok?
    requires WellFormed(Obj(p)) && PairFree(Obj(p)) && WellFormed(Obj(q)) && PairFree(Obj(q))
    ensures Hash(sha, p) == Hash(sha, q) <==> AgreeOutsideHash(p, q)
  {
    BodyKeeps(p);
    BodyKeeps(q);
    var v, w := Obj(Body(p)), Obj(Body(q));
    SerialisesIffFloatFree(v);
    SerialisesIffFloatFree(w);
    CanonicalAndInjective(v, w);
    AgreeIffBodiesSame(p, q);
  }

  /** What hashes holds no float outside `hash`, and everything else hashes. */
  lemma HashesIffFloatFree(sha: string -> string, p: seq<Field>)
    ensures Hash(sha, p).Ok? <==> forall i | 0 <= i < |p| && p[i].key != HASH :: FloatFree(p[i].val)
  {
    SerialisesIffFloatFree(Obj(Body(p)));
    hide Serialise;
    hide FloatFree;
    var b := Body(p);
    BodyFloatFree(b);
    forall i | 0 <= i < |p| && p[i].key != HASH ensures p[i] in b {
      assert p[i] in p;
    }
    forall i | 0 <= i < |b| ensures b[i] in p && b[i].key != HASH {
      assert b[i] in b;
    }
  }

  lemma BodyFloatFree(b: seq<Field>)
    ensures FloatFree(Obj(b)) <==> forall i | 0 <= i < |b| :: FloatFree(b[i].val)
  {
  }

  /** Storing any value under `hash`, or storing another one later, leaves the hash as it was. */
  lemma HashFieldIsFree(sha: string -> string, p: seq<Field>, val: Value)
    ensures Hash(sha, p + [Field(HASH, val)]) == Hash(sha, p)
  {
    BodyAppend(p, Field(HASH, val));
    assert Body(p) + [] == Body(p);
  }

  lemma {:induction false} BodyAppend(p: seq<Field>, f: Field)
    ensures Body(p + [f]) == Body(p) + if f.key != HASH then [f] else []
  {
    if p == [] {
      assert Body([f]) == (if f.key != HASH then [f] else []) + Body([f][1..]);
    } else {
      assert (p + [f])[1..] == p[1..] + [f];
      BodyAppend(p[1..], f);
    }
  }
}
