/** `_validate_permission_intersection` of v4_semantics.py: a lease grants exactly what its four sources share. */
module Permissions {
  import opened Wrappers
  import opened Json
  import opened Jcs
  import JcsCanonical

  /** Permission items by surface name (files, processes, network, ...). */
  type Surfaces = map<string, seq<Value>>

  datatype Sources = Sources(
    packageRequest: Surfaces, principalCeiling: Surfaces, workspacePolicy: Surfaces, taskOrActionScope: Surfaces)
  {
    function All(): (all: seq<Surfaces>)
      ensures |all| == 4 && all[1] == principalCeiling
    {
      [packageRequest, principalCeiling, workspacePolicy, taskOrActionScope]
    }
  }

  datatype Violation = NotIntersection(surface: string) | CeilingMismatch

  // ---------- what the schema guarantees of a permission item: strings, lists and dicts only ----------

  ghost predicate Plain(v: Value) {
    WellFormed(v) && FloatFree(v) && PairFree(v)
  }

  predicate NumberFree(v: Value) {
    match v
    case Arr(items) => forall i | 0 <= i < |items| :: NumberFree(items[i])
    case Obj(fs) => forall i | 0 <= i < |fs| :: NumberFree(fs[i].val)
    case _ => Number(v).None?
  }

  ghost predicate AllPlain(items: seq<Value>) {
    forall i | 0 <= i < |items| :: Plain(items[i])
  }

  ghost predicate Covers(s: Surfaces, names: set<string>) {
    names <= s.Keys && forall name | name in s :: AllPlain(s[name])
  }

  ghost predicate Covered(sources: Sources, names: set<string>) {
    forall k | 0 <= k < 4 :: Covers(sources.All()[k], names)
  }

  // ---------- items as a set of canonical strings ----------

  /** `json.dumps` with sorted keys and no white space: the canonical form of jcs.py. */
  function Canonical(items: seq<Value>): set<string> {
    set i | 0 <= i < |items| && Serialise(items[i]).Ok? :: Serialise(items[i]).value
  }

  ghost predicate Grants(items: seq<Value>, v: Value) {
    exists i | 0 <= i < |items| :: Same(items[i], v)
  }

  lemma CanonicalMembership(items: seq<Value>, v: Value)
    requires AllPlain(items) && Plain(v)
    ensures Serialise(v).Ok? && (Serialise(v).value in Canonical(items) <==> Grants(items, v))
  {
    hide Serialise;
    hide Same;
    JcsCanonical.SerialisesIffFloatFree(v);
    forall i | 0 <= i < |items| ensures Serialise(items[i]) == Serialise(v) <==> Same(items[i], v) {
      JcsCanonical.CanonicalAndInjective(items[i], v);
    }
    forall i | 0 <= i < |items| ensures Serialise(items[i]).Ok? {
      JcsCanonical.SerialisesIffFloatFree(items[i]);
    }
  }

  /** Every string of the set is the canonical form of an item. */
  lemma CanonicalOrigin(items: seq<Value>, s: string) returns (v: Value)
    requires s in Canonical(items)
    ensures v in items && Serialise(v) == Ok(s)
  {
    var i :| 0 <= i < |items| && Serialise(items[i]).Ok? && Serialise(items[i]).value == s;
    v := items[i];
  }

  /** `set.intersection(*source_sets)` */
  function SharedItems(sources: Sources, surface: string): (shared: set<string>)
    requires forall k | 0 <= k < 4 :: surface in sources.All()[k]
    ensures forall s :: s in shared <==> forall k | 0 <= k < 4 :: s in Canonical(sources.All()[k][surface])
  {
    assert sources.All()[0] == sources.packageRequest && sources.All()[1] == sources.principalCeiling;
    assert sources.All()[2] == sources.workspacePolicy && sources.All()[3] == sources.taskOrActionScope;
    Canonical(sources.packageRequest[surface]) * Canonical(sources.principalCeiling[surface])
    * Canonical(sources.workspacePolicy[surface]) * Canonical(sources.taskOrActionScope[surface])
  }

  // ---------- the checker ----------

  /** On this surface a permission is granted exactly when all four sources grant it. */
  ghost predicate ExactOn(sources: Sources, effective: seq<Value>, surface: string)
    requires forall k | 0 <= k < 4 :: surface in sources.All()[k]
  {
    forall v | Plain(v) :: Grants(effective, v) <==> forall k | 0 <= k < 4 :: Grants(sources.All()[k][surface], v)
  }

  predicate SameSurfaces(a: Surfaces, b: Surfaces) {
    a.Keys == b.Keys && forall name | name in a :: PyEqual(Arr(a[name]), Arr(b[name]))
  }

  method PermissionViolations(sources: Sources, effective: Surfaces, ceiling: Option<Surfaces>)
    returns (violations: seq<Violation>)
    requires Covers(effective, {}) && Covered(sources, effective.Keys)
    ensures forall name :: NotIntersection(name) in violations <==>
              name in effective && !ExactOn(sources, effective[name], name)
    ensures CeilingMismatch in violations <==> ceiling.Some? && !SameSurfaces(sources.principalCeiling, ceiling.value)
  {
    violations := [];
    var left := effective.Keys;
    while left != {}
      invariant left <= effective.Keys
      invariant forall name :: NotIntersection(name) in violations <==>
                  name in effective && name !in left && !ExactOn(sources, effective[name], name)
      invariant CeilingMismatch !in violations
      decreases |left|
    {
      var name :| name in left;
      left := left - {name};
      ExactIffEqual(sources, effective[name], name);
      if Canonical(effective[name]) != SharedItems(sources, name) {
        violations := violations + [NotIntersection(name)];
      }
    }
    if ceiling.Some? && !SameSurfaces(sources.principalCeiling, ceiling.value) {
      violations := violations + [CeilingMismatch];
    }
  }

  /** Equality of the sets of strings is equality of the granted permissions. */
  lemma ExactIffEqual(sources: Sources, effective: seq<Value>, surface: string)
    requires forall k | 0 <= k < 4 :: surface in sources.All()[k] && AllPlain(sources.All()[k][surface])
    requires AllPlain(effective)
    ensures Canonical(effective) == SharedItems(sources, surface) <==> ExactOn(sources, effective, surface)
  {
    hide Canonical;
    hide Grants;
    hide Plain;
    var shared := SharedItems(sources, surface);
    forall v | Plain(v)
      ensures Serialise(v).Ok? && (Serialise(v).value in Canonical(effective) <==> Grants(effective, v))
      ensures Serialise(v).value in shared <==> forall k | 0 <= k < 4 :: Grants(sources.All()[k][surface], v)
    {
      CanonicalMembership(effective, v);
      forall k | 0 <= k < 4
        ensures Serialise(v).value in Canonical(sources.All()[k][surface]) <==> Grants(sources.All()[k][surface], v)
      {
        CanonicalMembership(sources.All()[k][surface], v);
      }
    }
    if ExactOn(sources, effective, surface) {
      forall s ensures s in Canonical(effective) <==> s in shared {
        if s in Canonical(effective) {
          var v := CanonicalOrigin(effective, s);
        }
        if s in shared {
          assert s in Canonical(sources.All()[0][surface]);
          var v := CanonicalOrigin(sources.All()[0][surface], s);
        }
      }
    }
  }

  // ---------- what acceptance gives ----------

  lemma {:induction false} EqualIsSame(v: Value, w: Value)
    requires NumberFree(v) && PyEqual(v, w)
    ensures Same(v, w)
    decreases v
  {
    match (v, w)
    case (Arr(xs), Arr(ys)) =>
      forall i | 0 <= i < |xs| ensures Same(xs[i], ys[i]) {
        EqualIsSame(xs[i], ys[i]);
      }
    case (Obj(fs), Obj(gs)) =>
      forall i, j | 0 <= i < |fs| && 0 <= j < |gs| && fs[i].key == gs[j].key ensures Same(fs[i].val, gs[j].val) {
        EqualIsSame(fs[i].val, gs[j].val);
      }
    case _ =>
  }

  /** Without violations no effective permission exceeds the frozen ceiling of the AgentManifest. */
  lemma WithinManifest(sources: Sources, effective: Surfaces, ceiling: Surfaces, name: string, v: Value)
    requires Covers(effective, {}) && Covers(ceiling, {}) && Covered(sources, effective.Keys)
    requires name in effective && ExactOn(sources, effective[name], name)
        && SameSurfaces(sources.principalCeiling, ceiling)
    requires forall i | 0 <= i < |sources.All()[1][name]| :: NumberFree(sources.All()[1][name][i])
    requires Plain(v) && Grants(effective[name], v)
    ensures name in ceiling && Grants(ceiling[name], v)
  {
    hide Plain;
    hide Same;
    hide PyEqual;
    hide NumberFree;
    var source := sources.All()[1][name];
    assert Grants(source, v);
    assert AllPlain(source) && AllPlain(ceiling[name]);
    hide ExactOn;
    hide Covered;
    EqualItemsGrant(source, ceiling[name], v);
  }

  /** Item lists that Python compares equal grant the same permissions. */
  lemma EqualItemsGrant(items: seq<Value>, others: seq<Value>, v: Value)
    requires AllPlain(items) && AllPlain(others) && Plain(v) && PyEqual(Arr(items), Arr(others))
    requires forall i | 0 <= i < |items| :: NumberFree(items[i])
    requires Grants(items, v)
    ensures Grants(others, v)
  {
    var i :| 0 <= i < |items| && Same(items[i], v);
    assert PyEqual(items[i], others[i]);
    hide Same;
    hide PyEqual;
    hide Plain;
    EqualIsSame(items[i], others[i]);
    SameThrough(items[i], others[i], v);
  }

  lemma SameThrough(u: Value, v: Value, w: Value)
    requires Plain(u) && Plain(v) && Plain(w) && Same(u, v) && Same(u, w)
    ensures Same(v, w)
  {
    hide Same;
    hide Serialise;
    JcsCanonical.CanonicalAndInjective(u, v);
    JcsCanonical.CanonicalAndInjective(u, w);
    JcsCanonical.CanonicalAndInjective(v, w);
  }

  /** Lists inside a permission keep their order: two sources naming the same HTTP methods in another order
    share nothing. */
  lemma MethodOrderMatters(origin: Text)
    requires PairFreeText(origin)
    ensures var get, post := Str(T("GET")), Str(T("POST"));
            Canonical([Network(origin, [get, post])]) * Canonical([Network(origin, [post, get])]) == {}
  {
    var get, post := Str(T("GET")), Str(T("POST"));
    var a, b := Network(origin, [get, post]), Network(origin, [post, get]);
    assert |T("GET")| == 3 && |T("POST")| == 4;
    PlainNetwork(origin, [get, post]);
    PlainNetwork(origin, [post, get]);
    assert !Same(Arr([get, post]), Arr([post, get])) by {
      assert [get, post][0] == get && [post, get][0] == post;
    }
    assert !Same(a, b) by {
      assert a.fields[1].key == b.fields[1].key;
    }
    CanonicalMembership([a], a);
    JcsCanonical.CanonicalAndInjective(a, b);
    forall s ensures s !in Canonical([a]) * Canonical([b]) {
      if s in Canonical([a]) && s in Canonical([b]) {
        var x := CanonicalOrigin([a], s);
        var y := CanonicalOrigin([b], s);
      }
    }
  }

  function Network(origin: Text, methods: seq<Value>): Value {
    Obj([Field(T("origin"), Str(origin)), Field(T("methods"), Arr(methods))])
  }

  lemma PlainNetwork(origin: Text, methods: seq<Value>)
    requires PairFreeText(origin) && AllPlain(methods)
    ensures Plain(Network(origin, methods))
  {
    var v := Network(origin, methods);
    assert |T("origin")| == 6 && |T("methods")| == 7;
    assert v.fields[0] == Field(T("origin"), Str(origin)) && v.fields[1] == Field(T("methods"), Arr(methods));
    assert forall i | 0 <= i < |methods| :: Plain(methods[i]);
    assert Plain(v.fields[0].val) && Plain(v.fields[1].val);
    assert forall i | 0 <= i < |v.fields| :: Plain(v.fields[i].val) && PairFreeText(v.fields[i].key);
  }
}
