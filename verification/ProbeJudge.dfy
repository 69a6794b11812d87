/** Deterministic probe judgement of probe_judge.py. */
module ProbeJudge {
  import opened Wrappers

  datatype Probe = Probe(
    mustInclude: seq<string>, mustNotInclude: seq<string>, isFormatJson: bool, maxOutputChars: Option<int>)

  /** The text functions taken as given: `str.strip`, NFKC without white space, and the keys of a JSON
    answer (None when it is not an object or array). */
  datatype TextOps = TextOps(strip: string -> string, normalize: string -> string,
      jsonKeys: string -> Option<set<string>>)

  datatype Reason = BadJson | MissingKeys | MissingPhrase | ForbiddenPhrase(phrase: string) | TooLong

  // ---------- subsequences ----------

  /** The needle's characters sit at increasing positions of the haystack. */
  ghost predicate Embedding(needle: string, haystack: string, at: seq<nat>) {
    && |at| == |needle|
    && (forall i | 0 <= i < |at| :: at[i] < |haystack| && haystack[at[i]] == needle[i])
    && (forall i, j | 0 <= i < j < |at| :: at[i] < at[j])
  }

  ghost predicate Embeds(needle: string, haystack: string) {
    exists at :: Embedding(needle, haystack, at)
  }

  /** One pass over the haystack, each needle character consuming it up to its first match. */
  method IsSubsequence(needle: string, haystack: string) returns (found: bool)
    ensures found <==> Embeds(needle, haystack)
  {
    ghost var at: seq<nat> := [];
    var next := 0;
    for k := 0 to |needle|
      invariant 0 <= next <= |haystack|
      invariant Embedding(needle[..k], haystack, at)
      invariant k > 0 ==> at[k - 1] + 1 == next
      invariant k == 0 ==> next == 0
      invariant forall other | Embedding(needle, haystack, other) :: k > 0 ==> at[k - 1] <= other[k - 1]
    {
      ghost var before := next;
      while next < |haystack| && haystack[next] != needle[k]
        invariant before <= next <= |haystack|
        invariant forall i | before <= i < next :: haystack[i] != needle[k]
      {
        next := next + 1;
      }
      forall other | Embedding(needle, haystack, other) ensures before <= other[k] && next <= other[k] {
        assert k > 0 ==> at[k - 1] <= other[k - 1] < other[k];
        assert haystack[other[k]] == needle[k];
      }
      if next == |haystack| {
        return false;
      }
      at := at + [next];
      next := next + 1;
      assert needle[..k + 1] == needle[..k] + [needle[k]];
    }
    assert needle[..|needle|] == needle;
    return true;
  }

  predicate OccursAt(needle: string, haystack: string, i: nat) {
    i + |needle| <= |haystack| && haystack[i..i + |needle|] == needle
  }

  ghost predicate Substring(needle: string, haystack: string) {
    exists before, after :: haystack == before + needle + after
  }

  lemma SubstringOccurs(needle: string, haystack: string)
    ensures Substring(needle, haystack) <==> exists i :: OccursAt(needle, haystack, i)
  {
    if Substring(needle, haystack) {
      var before, after :| haystack == before + needle + after;
      assert OccursAt(needle, haystack, |before|);
    }
    if i: nat :| OccursAt(needle, haystack, i) {
      assert haystack == haystack[..i] + needle + haystack[i + |needle|..];
    }
  }

  function Run(from: nat, n: nat): (at: seq<nat>)
    ensures |at| == n && forall k | 0 <= k < n :: at[k] == from + k
  {
    if n == 0 then [] else Run(from, n - 1) + [from + n - 1]
  }

  /** The substring test is no more than a shortcut. */
  lemma SubstringEmbeds(needle: string, haystack: string)
    requires Substring(needle, haystack)
    ensures Embeds(needle, haystack)
  {
    SubstringOccurs(needle, haystack);
    var i: nat :| OccursAt(needle, haystack, i);
    var at := Run(i, |needle|);
    forall k | 0 <= k < |needle| ensures haystack[at[k]] == needle[k] {
      assert haystack[i..i + |needle|][k] == needle[k];
    }
    assert Embedding(needle, haystack, at);
  }

  /** `needle in haystack` */
  method IsSubstring(needle: string, haystack: string) returns (found: bool)
    ensures found <==> Substring(needle, haystack)
  {
    SubstringOccurs(needle, haystack);
    var i := 0;
    while i + |needle| <= |haystack|
      invariant forall k | 0 <= k < i :: !OccursAt(needle, haystack, k)
    {
      if OccursAt(needle, haystack, i) {
        return true;
      }
      i := i + 1;
    }
    return false;
  }

  /** `_contains_phrase`: empty, substring or subsequence, which together is just subsequence. */
  method ContainsPhrase(ops: TextOps, phrase: string, answer: string) returns (found: bool)
    ensures found <==> Embeds(ops.normalize(phrase), answer)
  {
    var norm := ops.normalize(phrase);
    if norm == "" {
      assert Embedding(norm, answer, []);
      return true;
    }
    var inside := IsSubstring(norm, answer);
    if inside {
      SubstringEmbeds(norm, answer);
      return true;
    }
    found := IsSubsequence(norm, answer);
  }

  // ---------- the judgement ----------

  /** What a passing answer is. */
  ghost predicate Meets(ops: TextOps, probe: Probe, answer: string) {
    var raw := ops.strip(answer);
    var norm := ops.normalize(raw);
    && (if probe.isFormatJson then
          ops.jsonKeys(raw).Some? && forall k | k in probe.mustInclude :: k in ops.jsonKeys(raw).value
        else
          forall s | s in probe.mustInclude :: Embeds(ops.normalize(s), norm))
    && (forall s | s in probe.mustNotInclude && ops.normalize(s) != "" :: !Substring(ops.normalize(s), norm))
    && (probe.maxOutputChars.Some? ==> |raw| <= probe.maxOutputChars.value)
  }

  method JudgeProbe(ops: TextOps, probe: Probe, answer: string) returns (passed: bool, reasons: seq<Reason>)
    ensures passed <==> Meets(ops, probe, answer)
    ensures passed <==> reasons == []
  {
    var raw := ops.strip(answer);
    var norm := ops.normalize(raw);
    if probe.isFormatJson {
      reasons := CheckJson(ops, probe, raw);
    } else {
      reasons := CheckPhrases(ops, probe, norm);
    }
    var forbidden := CheckForbidden(ops, probe, norm);
    reasons := reasons + forbidden;
    if probe.maxOutputChars.Some? && |raw| > probe.maxOutputChars.value {
      reasons := reasons + [TooLong];
    }
    passed := reasons == [];
  }

  method CheckJson(ops: TextOps, probe: Probe, raw: string) returns (reasons: seq<Reason>)
    ensures reasons == [] <==> ops.jsonKeys(raw).Some? && forall k | k in probe.mustInclude ::
        k in ops.jsonKeys(raw).value
  {
    var keys := ops.jsonKeys(raw);
    if keys.None? {
      return [BadJson];
    }
    if exists k | k in probe.mustInclude :: k !in keys.value {
      return [MissingKeys];
    }
    return [];
  }

  method CheckPhrases(ops: TextOps, probe: Probe, norm: string) returns (reasons: seq<Reason>)
    ensures reasons == [] <==> forall s | s in probe.mustInclude :: Embeds(ops.normalize(s), norm)
  {
    var missing := 0;
    for k := 0 to |probe.mustInclude|
      invariant missing == 0 <==> forall i | 0 <= i < k :: Embeds(ops.normalize(probe.mustInclude[i]), norm)
      invariant missing >= 0
    {
      var found := ContainsPhrase(ops, probe.mustInclude[k], norm);
      if !found {
        missing := missing + 1;
      }
    }
    reasons := if missing == 0 then [] else [MissingPhrase];
  }

  method CheckForbidden(ops: TextOps, probe: Probe, norm: string) returns (reasons: seq<Reason>)
    ensures reasons == [] <==>
            forall s | s in probe.mustNotInclude && ops.normalize(s) != "" :: !Substring(ops.normalize(s), norm)
  {
    reasons := [];
    var list := probe.mustNotInclude;
    for k := 0 to |list|
      invariant reasons == [] <==> forall i | 0 <= i < k && ops.normalize(list[i]) != "" ::
          !Substring(ops.normalize(list[i]), norm)
    {
      var phrase := ops.normalize(list[k]);
      if phrase != "" {
        var inside := IsSubstring(phrase, norm);
        if inside {
          reasons := reasons + [ForbiddenPhrase(list[k])];
        }
      }
    }
  }
}
