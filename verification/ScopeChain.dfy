/** Scope, risk and budget between Resolution, Candidate and WorkOrder (v4_integrity.py). */
module ScopeChain {
  import opened Wrappers

  /** One permission item: the fields the checks look at and the canonical bytes of the whole item. */
  datatype Item = Item(path: string, action: string, canonical: string)

  type Scope = map<string, seq<Item>>

  const SURFACES: seq<string> := ["files", "processes", "network", "mcp_tools", "cloud_actions", "secret_refs"]

  /** Forbidden action categories and the surface each empties. */
  const CATEGORIES: seq<(string, string)> := [
    ("PROCESS_EXECUTION", "processes"), ("NETWORK_ACCESS", "network"), ("MCP_TOOL_CALL", "mcp_tools"),
    ("CLOUD_ACTION", "cloud_actions"), ("SECRET_ACCESS", "secret_refs") ]

  const DIMENSIONS: seq<string> := ["max_attempts", "max_wall_seconds", "max_tokens", "max_cost_microunits"]

  datatype Resolution = Resolution(
    changeSurfaces: set<string>, scope: Scope, forbiddenActions: set<string>, budget: map<string, int>,
    riskClass: string)

  datatype Candidate = Candidate(
    kind: string, scope: Scope, forbiddenPaths: seq<string>, budget: map<string, int>)

  datatype WorkOrder = WorkOrder(
    scope: Scope, riskClass: string, requiredAuthorization: string, createdAt: int, expiresAt: int, gateStatus: string)

  datatype Violation =
    | ForbiddenScopeOverlap
    | ChangeSurfaceExceeds
    | ScopeExceedsResolution(surface: string)
    | ForbiddenActionRequested(surface: string)
    | BudgetExceeds(dimension: string)

  function On(scope: Scope, surface: string): seq<Item> {
    if surface in scope then scope[surface] else []
  }

  function CanonicalSet(items: seq<Item>): set<string> {
    set item | item in items :: item.canonical
  }

  predicate EndsWith(s: string, suffix: string) {
    |suffix| <= |s| && s[|s| - |suffix|..] == suffix
  }

  /** `_path_is_forbidden` */
  predicate PathIsForbidden(path: string, forbidden: seq<string>) {
    exists f | f in forbidden :: path == f || (EndsWith(f, "/") && f <= path)
  }

  function SurfaceOfKind(kind: string): Option<string> {
    if kind in ["PROMPT", "KNOWLEDGE", "MODEL_CONFIG", "SKILL", "MCP", "HARNESS", "POLICY"] then Some(kind)
    else if kind == "CODE_PATCH" then Some("CODE")
    else if kind == "EVALUATOR_ASSET" then Some("TEST")
    else None
  }

  function BudgetOf(budget: map<string, int>, dimension: string, default: int): int {
    if dimension in budget then budget[dimension] else default
  }

  function RiskRank(risk: string, default: int): int {
    if risk == "R0_READ_ONLY" then 0
    else if risk == "R1_REVERSIBLE" then 1
    else if risk == "R2_HIGH_IMPACT" then 2
    else if risk == "R3_IRREVERSIBLE" then 3
    else default
  }

  // ---------- in plain terms ----------

  /** The scope asks for the item on the surface. */
  ghost predicate Has(scope: Scope, surface: string, item: Item) {
    surface in scope && item in scope[surface]
  }

  /** The path is no forbidden entry and lies below none that names a directory. */
  ghost predicate Clear(path: string, forbidden: seq<string>) {
    forall f | f in forbidden :: path != f && !(f != "" && f[|f| - 1] == '/' && f <= path)
  }

  /** A scope keeps clear of the forbidden paths exactly when each of its files does. */
  lemma ClearExactly(scope: Scope, forbidden: seq<string>)
    ensures AvoidsPaths(scope, forbidden) <==> forall item | Has(scope, "files", item) :: Clear(item.path, forbidden)
  {
    forall item | Has(scope, "files", item)
      ensures PathIsForbidden(item.path, forbidden) <==> !Clear(item.path, forbidden)
    {
      PathExactly(item.path, forbidden);
    }
    hide PathIsForbidden;
    hide Clear;
  }

  lemma PathExactly(path: string, forbidden: seq<string>)
    ensures PathIsForbidden(path, forbidden) <==> !Clear(path, forbidden)
  {
    forall f | f in forbidden ensures EndsWith(f, "/") <==> f != "" && f[|f| - 1] == '/' {
      if f != "" {
        assert f[|f| - 1..] == [f[|f| - 1]];
      }
    }
  }

  /** Some item of the scope has the same canonical bytes. */
  ghost predicate Allows(scope: Scope, surface: string, item: Item) {
    exists other | Has(scope, surface, other) :: other.canonical == item.canonical
  }

  ghost predicate Contained(inner: Scope, outer: Scope) {
    forall surface, item | surface in ["files", "processes", "network", "mcp_tools", "cloud_actions", "secret_refs"]
      && Has(inner, surface, item) :: Allows(outer, surface, item)
  }

  lemma ExceedsExactly(inner: Scope, outer: Scope, surface: string)
    ensures Exceeds(inner, outer, surface) <==>
              exists item | Has(inner, surface, item) :: !Allows(outer, surface, item)
  {
    var asked, held := CanonicalSet(On(inner, surface)), CanonicalSet(On(outer, surface));
    assert forall c :: c in asked <==> exists item | Has(inner, surface, item) :: item.canonical == c;
    assert forall c :: c in held <==> exists item | Has(outer, surface, item) :: item.canonical == c;
    if !(asked <= held) {
      var c :| c in asked && c !in held;
      var item :| Has(inner, surface, item) && item.canonical == c;
      assert !Allows(outer, surface, item);
    }
    if item :| Has(inner, surface, item) && !Allows(outer, surface, item) {
      assert item.canonical in asked && item.canonical !in held;
    }
  }

  lemma WithinExactly(inner: Scope, outer: Scope)
    ensures Within(inner, outer) <==> Contained(inner, outer)
  {
    forall s | s in SURFACES
      ensures Exceeds(inner, outer, s) <==> exists item | Has(inner, s, item) :: !Allows(outer, s, item)
    {
      ExceedsExactly(inner, outer, s);
    }
    WithinIffNoneExceeds(inner, outer);
    hide Exceeds;
    hide Allows;
    hide Has;
  }

  ghost predicate Empty(scope: Scope, surface: string) {
    forall item :: !Has(scope, surface, item)
  }

  /** No surface a forbidden category covers is used, and no repository action that is forbidden is asked for. */
  ghost predicate CategoriesKept(scope: Scope, forbidden: set<string>) {
    && ("PROCESS_EXECUTION" in forbidden ==> Empty(scope, "processes"))
    && ("NETWORK_ACCESS" in forbidden ==> Empty(scope, "network"))
    && ("MCP_TOOL_CALL" in forbidden ==> Empty(scope, "mcp_tools"))
    && ("CLOUD_ACTION" in forbidden ==> Empty(scope, "cloud_actions"))
    && ("SECRET_ACCESS" in forbidden ==> Empty(scope, "secret_refs"))
    && (forall item | Has(scope, "cloud_actions", item) :: item.action !in forbidden)
  }

  lemma EmptyExactly(scope: Scope, surface: string)
    ensures On(scope, surface) == [] <==> Empty(scope, surface)
  {
    assert On(scope, surface) != [] ==> Has(scope, surface, On(scope, surface)[0]);
  }

  lemma CategoriesExactly(scope: Scope, forbidden: set<string>)
    ensures AvoidsCategories(scope, forbidden) <==> CategoriesKept(scope, forbidden)
  {
    EmptyExactly(scope, "processes");
    EmptyExactly(scope, "network");
    EmptyExactly(scope, "mcp_tools");
    EmptyExactly(scope, "cloud_actions");
    EmptyExactly(scope, "secret_refs");
    hide Empty;
    assert CATEGORIES[0] == ("PROCESS_EXECUTION", "processes") && CATEGORIES[1] == ("NETWORK_ACCESS", "network");
    assert CATEGORIES[2] == ("MCP_TOOL_CALL", "mcp_tools") && CATEGORIES[3] == ("CLOUD_ACTION", "cloud_actions");
    assert CATEGORIES[4] == ("SECRET_ACCESS", "secret_refs");
    assert CATEGORIES[0] in CATEGORIES && CATEGORIES[1] in CATEGORIES && CATEGORIES[2] in CATEGORIES;
    assert CATEGORIES[3] in CATEGORIES && CATEGORIES[4] in CATEGORIES;
    assert forall item :: item in On(scope, "cloud_actions") <==> Has(scope, "cloud_actions", item);
  }

  ghost predicate KindAllowed(kind: string, surfaces: set<string>) {
    || (kind in ["PROMPT", "KNOWLEDGE", "MODEL_CONFIG", "SKILL", "MCP", "HARNESS", "POLICY"] && kind in surfaces)
    || (kind == "CODE_PATCH" && "CODE" in surfaces)
    || (kind == "EVALUATOR_ASSET" && "TEST" in surfaces)
  }

  lemma KindExactly(kind: string, surfaces: set<string>)
    ensures SurfaceOfKind(kind).Some? && SurfaceOfKind(kind).value in surfaces <==> KindAllowed(kind, surfaces)
  {
    var names := ["PROMPT", "KNOWLEDGE", "MODEL_CONFIG", "SKILL", "MCP", "HARNESS", "POLICY"];
    assert |"CODE_PATCH"| == 10 && |"EVALUATOR_ASSET"| == 15;
    assert forall i | 0 <= i < |names| :: |names[i]| <= 12 && names[i] != "CODE_PATCH" by {
      assert |names[0]| == 6 && |names[1]| == 9 && |names[2]| == 12 && |names[3]| == 5 && |names[4]| == 3;
      assert |names[5]| == 7 && |names[6]| == 6;
    }
  }

  /** In the four dimensions the candidate asks for no more than the resolution grants; a dimension the resolution
    leaves out grants nothing at all. */
  ghost predicate BudgetKept(asked: map<string, int>, ceiling: map<string, int>) {
    forall d | d in ["max_attempts", "max_wall_seconds", "max_tokens", "max_cost_microunits"] ::
      (if d in asked then asked[d] else 0) <= (if d in ceiling then ceiling[d] else -1)
  }

  /** What an accepted Candidate is. */
  lemma CandidateAcceptedExactly(candidate: Candidate, resolution: Resolution)
    ensures CandidateAccepted(candidate, resolution) <==>
            && (forall item | Has(candidate.scope, "files", item) :: Clear(item.path, candidate.forbiddenPaths))
            && KindAllowed(candidate.kind, resolution.changeSurfaces)
            && Contained(candidate.scope, resolution.scope)
            && CategoriesKept(candidate.scope, resolution.forbiddenActions)
            && BudgetKept(candidate.budget, resolution.budget)
  {
    ClearExactly(candidate.scope, candidate.forbiddenPaths);
    KindExactly(candidate.kind, resolution.changeSurfaces);
    WithinExactly(candidate.scope, resolution.scope);
    CategoriesExactly(candidate.scope, resolution.forbiddenActions);
    hide AvoidsPaths;
    hide Clear;
    hide KindAllowed;
    hide SurfaceOfKind;
    hide Within;
    hide Contained;
    hide AvoidsCategories;
    hide CategoriesKept;
  }

  /** The risk of the WorkOrder is known and no lower than that of the Resolution. */
  ghost predicate RiskKept(resolution: string, workorder: string) {
    || (resolution == "R0_READ_ONLY"
        && workorder in ["R0_READ_ONLY", "R1_REVERSIBLE", "R2_HIGH_IMPACT", "R3_IRREVERSIBLE"])
    || (resolution == "R1_REVERSIBLE" && workorder in ["R1_REVERSIBLE", "R2_HIGH_IMPACT", "R3_IRREVERSIBLE"])
    || (resolution == "R2_HIGH_IMPACT" && workorder in ["R2_HIGH_IMPACT", "R3_IRREVERSIBLE"])
    || (resolution == "R3_IRREVERSIBLE" && workorder == "R3_IRREVERSIBLE")
  }

  lemma RiskExactly(resolution: string, workorder: string)
    ensures RiskRank(resolution, 4) <= RiskRank(workorder, -1) <==> RiskKept(resolution, workorder)
  {
    var r0, r1, r2, r3 := "R0_READ_ONLY", "R1_REVERSIBLE", "R2_HIGH_IMPACT", "R3_IRREVERSIBLE";
    assert r0[1] == '0' && r1[1] == '1' && r2[1] == '2' && r3[1] == '3';
  }

  // ---------- candidate_scope_violations ----------

  predicate Exceeds(inner: Scope, outer: Scope, surface: string) {
    !(CanonicalSet(On(inner, surface)) <= CanonicalSet(On(outer, surface)))
  }

  ghost predicate Within(inner: Scope, outer: Scope) {
    forall surface | surface in SURFACES :: CanonicalSet(On(inner, surface)) <= CanonicalSet(On(outer, surface))
  }

  ghost predicate AvoidsPaths(scope: Scope, forbidden: seq<string>) {
    forall item | item in On(scope, "files") :: !PathIsForbidden(item.path, forbidden)
  }

  ghost predicate AvoidsCategories(scope: Scope, forbiddenActions: set<string>) {
    && (forall c | c in CATEGORIES && c.0 in forbiddenActions :: On(scope, c.1) == [])
    && (forall item | item in On(scope, "cloud_actions") :: item.action !in forbiddenActions)
  }

  ghost predicate CandidateAccepted(candidate: Candidate, resolution: Resolution) {
    && AvoidsPaths(candidate.scope, candidate.forbiddenPaths)
    && SurfaceOfKind(candidate.kind).Some? && SurfaceOfKind(candidate.kind).value in resolution.changeSurfaces
    && Within(candidate.scope, resolution.scope)
    && AvoidsCategories(candidate.scope, resolution.forbiddenActions)
    && forall d | d in DIMENSIONS :: BudgetOf(candidate.budget, d, 0) <= BudgetOf(resolution.budget, d, -1)
  }

  method CandidateScopeViolations(candidate: Candidate, resolution: Resolution) returns (v: seq<Violation>)
    ensures v == [] <==> CandidateAccepted(candidate, resolution)
    ensures ForbiddenScopeOverlap in v <==>
              exists item | Has(candidate.scope, "files", item) :: !Clear(item.path, candidate.forbiddenPaths)
  {
    ClearExactly(candidate.scope, candidate.forbiddenPaths);
    v := [];
    var files := On(candidate.scope, "files");
    if exists item | item in files :: PathIsForbidden(item.path, candidate.forbiddenPaths) {
      v := v + [ForbiddenScopeOverlap];
    }
    var surface := SurfaceOfKind(candidate.kind);
    if surface.None? || surface.value !in resolution.changeSurfaces {
      v := v + [ChangeSurfaceExceeds];
    }
    var wide := SubsetViolations(candidate.scope, resolution.scope);
    var requested := CategoryViolations(candidate.scope, resolution.forbiddenActions);
    var costly := BudgetViolations(candidate.budget, resolution.budget);
    v := v + (seq(|wide|, i requires 0 <= i < |wide| => ScopeExceedsResolution(wide[i]))) + requested + costly;
  }

  /** The surfaces on which `inner` asks for an item `outer` does not hold. */
  method SubsetViolations(inner: Scope, outer: Scope) returns (bad: seq<string>)
    ensures bad == [] <==> Within(inner, outer)
    ensures forall s :: s in bad <==> s in SURFACES && Exceeds(inner, outer, s)
  {
    hide Exceeds;
    bad := [];
    for k := 0 to |SURFACES|
      invariant forall s :: s in bad <==> exists i | 0 <= i < k :: SURFACES[i] == s && Exceeds(inner, outer, s)
    {
      if Exceeds(inner, outer, SURFACES[k]) {
        bad := bad + [SURFACES[k]];
      }
    }
    assert forall s | s in SURFACES :: exists i | 0 <= i < |SURFACES| :: SURFACES[i] == s;
    assert bad != [] ==> bad[0] in bad;
    WithinIffNoneExceeds(inner, outer);
  }

  lemma WithinIffNoneExceeds(inner: Scope, outer: Scope)
    ensures Within(inner, outer) <==> forall s | s in SURFACES :: !Exceeds(inner, outer, s)
  {
  }

  method CategoryViolations(scope: Scope, forbiddenActions: set<string>) returns (v: seq<Violation>)
    ensures v == [] <==> AvoidsCategories(scope, forbiddenActions)
    ensures ForbiddenScopeOverlap !in v
  {
    v := [];
    for k := 0 to |CATEGORIES|
      invariant v == [] <==> forall i | 0 <= i < k && CATEGORIES[i].0 in forbiddenActions ::
          On(scope, CATEGORIES[i].1) == []
      invariant ForbiddenScopeOverlap !in v
    {
      if CATEGORIES[k].0 in forbiddenActions && On(scope, CATEGORIES[k].1) != [] {
        v := v + [ForbiddenActionRequested(CATEGORIES[k].1)];
      }
    }
    assert forall c | c in CATEGORIES :: exists i | 0 <= i < |CATEGORIES| :: CATEGORIES[i] == c;
    var actions := On(scope, "cloud_actions");
    if exists item | item in actions :: item.action in forbiddenActions {
      v := v + [ForbiddenActionRequested("cloud_actions")];
    }
  }

  method BudgetViolations(asked: map<string, int>, ceiling: map<string, int>) returns (v: seq<Violation>)
    ensures v == [] <==> forall d | d in DIMENSIONS :: BudgetOf(asked, d, 0) <= BudgetOf(ceiling, d, -1)
    ensures ForbiddenScopeOverlap !in v
  {
    v := [];
    for k := 0 to |DIMENSIONS|
      invariant v == [] <==> forall i | 0 <= i < k ::
          BudgetOf(asked, DIMENSIONS[i], 0) <= BudgetOf(ceiling, DIMENSIONS[i], -1)
      invariant ForbiddenScopeOverlap !in v
    {
      if BudgetOf(asked, DIMENSIONS[k], 0) > BudgetOf(ceiling, DIMENSIONS[k], -1) {
        v := v + [BudgetExceeds(DIMENSIONS[k])];
      }
    }
    assert forall d | d in DIMENSIONS :: exists i | 0 <= i < |DIMENSIONS| :: DIMENSIONS[i] == d;
  }

  // ---------- lemmas on scopes ----------

  lemma NothingCanonical(items: seq<Item>)
    ensures CanonicalSet(items) == {} <==> items == []
  {
    assert items != [] ==> items[0].canonical in CanonicalSet(items);
  }

  lemma CategorySurface(c: (string, string))
    requires c in CATEGORIES
    ensures c.1 in SURFACES
  {
    assert SURFACES[1] == "processes" && SURFACES[2] == "network" && SURFACES[3] == "mcp_tools";
    assert SURFACES[4] == "cloud_actions" && SURFACES[5] == "secret_refs";
    var i :| 0 <= i < |CATEGORIES| && CATEGORIES[i] == c;
    assert c.1 == SURFACES[i + 1];
  }

  /** A directory entry forbids everything below it. */
  lemma DirectoryForbids(f: string, below: string, forbidden: seq<string>)
    requires f in forbidden && EndsWith(f, "/")
    ensures PathIsForbidden(f + below, forbidden)
  {
    assert f <= f + below;
  }
}
