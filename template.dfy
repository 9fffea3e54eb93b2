/**
 * `substitute_variables` (src/lib.rs): the command template's `#{name}`
 * placeholders, found by the regex `#\{(\w+)\}` in the ORIGINAL template, are
 * replaced one after another in a running result with the matching
 * parameter's value; the first name without a parameter is an error.
 */
module Template {
  import opened Wrappers
  import opened StrOps

  /** A placeholder name: what `\w+` matches. */
  predicate IsName(n: string) {
    |n| > 0 && forall i :: 0 <= i < |n| ==> IsWordChar(n[i])
  }

  /** The full text of a placeholder, `#{name}`. */
  function PlaceholderText(name: string): (p: string)
    ensures |p| == |name| + 3
  {
    "#{" + name + "}"
  }

  /** The regex matches `#{name}` at index `i` of `s`. */
  predicate PlaceholderOccursAt(s: string, i: nat, name: string) {
    IsName(name) && OccursAt(s, i, PlaceholderText(name))
  }

  /** Some placeholder starts at index `i` or later. */
  ghost predicate PlaceholderFrom(s: string, i: nat) {
    exists p: nat, name: string :: i <= p && PlaceholderOccursAt(s, p, name)
  }

  ghost predicate HasPlaceholder(s: string) {
    PlaceholderFrom(s, 0)
  }

  /** The end of the run of word characters that starts at `i`. */
  function WordRunEnd(s: string, i: nat): (j: nat)
    requires i <= |s|
    ensures i <= j <= |s|
    ensures forall k :: i <= k < j ==> IsWordChar(s[k])
    ensures j < |s| ==> !IsWordChar(s[j])
    decreases |s| - i
  {
    if i < |s| && IsWordChar(s[i]) then WordRunEnd(s, i + 1) else i
  }

  lemma {:induction false} WordRunEndIs(s: string, i: nat, j: nat)
    requires i <= j <= |s|
    requires forall k :: i <= k < j ==> IsWordChar(s[k])
    requires j < |s| ==> !IsWordChar(s[j])
    ensures WordRunEnd(s, i) == j
    decreases j - i
  {
    if i < j {
      WordRunEndIs(s, i + 1, j);
    }
  }

  /**
   * The regex tried at index `i`: `#{`, then the longest run of word
   * characters, which must be non-empty and followed by `}`. (`\w+` cannot
   * give back characters to a `}` that is itself not a word character, so
   * the longest run is the only candidate.)
   */
  function PlaceholderAt(s: string, i: nat): (r: Option<string>)
    requires i <= |s|
    ensures r.Some? ==> PlaceholderOccursAt(s, i, r.value)
  {
    if i + 2 <= |s| && s[i] == '#' && s[i + 1] == '{' then
      var j := WordRunEnd(s, i + 2);
      if i + 2 < j < |s| && s[j] == '}' then
        assert s[i..j + 1] == "#{" + s[i + 2..j] + "}";
        Some(s[i + 2..j])
      else None
    else None
  }

  /** Wherever the regex matches, `PlaceholderAt` finds that match. */
  lemma PlaceholderAtComplete(s: string, i: nat, name: string)
    requires PlaceholderOccursAt(s, i, name)
    ensures PlaceholderAt(s, i) == Some(name)
  {
    var j := i + 2 + |name|;
    assert s[i..j + 1] == PlaceholderText(name);
    assert s[i] == '#' && s[i + 1] == '{' && s[j] == '}';
    assert forall k | i + 2 <= k < j :: s[k] == name[k - i - 2];
    WordRunEndIs(s, i + 2, j);
    assert s[i + 2..j] == name;
  }

  /** `captures_iter`: leftmost, non-overlapping matches from index `i` on, as names. */
  function MatchesFrom(s: string, i: nat): (r: seq<string>)
    requires i <= |s|
    ensures forall k :: 0 <= k < |r| ==> IsName(r[k])
    ensures |r| * 4 <= |s| - i
    decreases |s| - i
  {
    if i == |s| then []
    else
      match PlaceholderAt(s, i)
      case Some(name) => [name] + MatchesFrom(s, i + |name| + 3)
      case None => MatchesFrom(s, i + 1)
  }

  /** The names of the placeholders of the template, left to right. */
  function Matches(template: string): (r: seq<string>)
    ensures forall k :: 0 <= k < |r| ==> IsName(r[k])
    ensures |r| * 4 <= |template|
  {
    MatchesFrom(template, 0)
  }

  lemma {:induction false} MatchesFromEmptyIff(s: string, i: nat)
    requires i <= |s|
    ensures MatchesFrom(s, i) == [] <==> !PlaceholderFrom(s, i)
    decreases |s| - i
  {
    if i < |s| {
      match PlaceholderAt(s, i)
      case Some(name) =>
        assert PlaceholderOccursAt(s, i, name);
      case None =>
        MatchesFromEmptyIff(s, i + 1);
        forall p: nat, name: string | i <= p && PlaceholderOccursAt(s, p, name)
          ensures i + 1 <= p
        {
          if p == i {
            PlaceholderAtComplete(s, i, name);
          }
        }
    }
  }

  /** The scan finds nothing exactly when the template contains no placeholder. */
  lemma MatchesEmptyIff(template: string)
    ensures Matches(template) == [] <==> !HasPlaceholder(template)
  {
    MatchesFromEmptyIff(template, 0);
  }

  lemma {:induction false} MatchesFromSound(s: string, i: nat, k: nat)
    requires i <= |s| && k < |MatchesFrom(s, i)|
    ensures exists p: nat :: i <= p && PlaceholderOccursAt(s, p, MatchesFrom(s, i)[k])
    decreases |s| - i
  {
    match PlaceholderAt(s, i)
    case Some(name) =>
      if k > 0 {
        assert MatchesFrom(s, i)[k] == MatchesFrom(s, i + |name| + 3)[k - 1];
        MatchesFromSound(s, i + |name| + 3, k - 1);
      } else {
        assert MatchesFrom(s, i)[0] == name;
        assert i <= i && PlaceholderOccursAt(s, i, name);
      }
    case None =>
      MatchesFromSound(s, i + 1, k);
  }

  /** Every name the scan reports is a placeholder written in the template. */
  lemma MatchesSound(template: string, k: nat)
    requires k < |Matches(template)|
    ensures exists p: nat :: PlaceholderOccursAt(template, p, Matches(template)[k])
  {
    MatchesFromSound(template, 0, k);
  }

  /** A placeholder starts with `#`, which is neither a word character nor a brace. */
  lemma PlaceholderStartsWithHash(s: string, p: nat, name: string)
    requires PlaceholderOccursAt(s, p, name)
    ensures p < |s| && s[p] == '#'
  {
    assert s[p..p + |name| + 3][0] == PlaceholderText(name)[0];
  }

  /**
   * A match does not overlap a later `#`: the scan resumes at or before the
   * next `#` it has not yet looked at.
   */
  lemma MatchEndsBeforeHash(s: string, i: nat, n: string, p: nat)
    requires PlaceholderOccursAt(s, i, n) && i < p < |s| && s[p] == '#'
    ensures i + |n| + 3 <= p
  {
    var t := PlaceholderText(n);
    assert forall k :: 1 <= k < |t| ==> t[k] != '#' by {
      forall k | 2 <= k < |t| - 1 ensures t[k] == n[k - 2] {
      }
    }
    assert forall k :: i < k < i + |t| ==> s[k] == t[k - i] by {
      forall k | i < k < i + |t| ensures s[k] == s[i..i + |t|][k - i] {
      }
    }
  }

  /** A scan that starts at a placeholder captures it first. */
  lemma MatchesFromAtPlaceholder(s: string, p: nat, name: string)
    requires PlaceholderOccursAt(s, p, name)
    ensures p < |s| && s[p] == '#' && name in MatchesFrom(s, p)
  {
    PlaceholderStartsWithHash(s, p, name);
    PlaceholderAtComplete(s, p, name);
    assert MatchesFrom(s, p) == [name] + MatchesFrom(s, p + |name| + 3);
  }

  /** One step of the scan: past a match at `i`, or one character on. */
  lemma MatchesFromStep(s: string, i: nat)
    requires i < |s|
    ensures PlaceholderAt(s, i).Some? ==>
              var n := PlaceholderAt(s, i).value;
              i + |n| + 3 <= |s| && MatchesFrom(s, i) == [n] + MatchesFrom(s, i + |n| + 3)
    ensures PlaceholderAt(s, i).None? ==> MatchesFrom(s, i) == MatchesFrom(s, i + 1)
  {
  }

  /** What a scan from a `#` captures, a scan from any earlier index captures too. */
  lemma {:induction false} MatchesFromComplete(s: string, i: nat, p: nat, name: string)
    requires i <= p < |s| && s[p] == '#' && name in MatchesFrom(s, p)
    ensures name in MatchesFrom(s, i)
    decreases p - i
  {
    if i < p {
      var r := PlaceholderAt(s, i);
      MatchesFromStep(s, i);
      if r.Some? {
        MatchEndsBeforeHash(s, i, r.value, p);
        MatchesFromComplete(s, i + |r.value| + 3, p, name);
      } else {
        MatchesFromComplete(s, i + 1, p, name);
      }
    }
  }

  /** Every placeholder written in the template is captured by the scan. */
  lemma MatchesComplete(template: string, p: nat, name: string)
    requires PlaceholderOccursAt(template, p, name)
    ensures name in Matches(template)
  {
    MatchesFromAtPlaceholder(template, p, name);
    MatchesFromComplete(template, 0, p, name);
  }

  /**
   * Substitution succeeds exactly when every placeholder written in the
   * template has a parameter.
   */
  lemma SubstituteOkIffEveryPlaceholder(template: string, params: map<string, string>)
    ensures Substitute(template, params).Ok?
            <==> forall p: nat, name: string :: PlaceholderOccursAt(template, p, name) ==> name in params
  {
    var ms := Matches(template);
    SubstituteAllOkIff(ms, template, params);
    forall p: nat, name: string | PlaceholderOccursAt(template, p, name)
      ensures name in ms
    {
      MatchesComplete(template, p, name);
    }
    forall k | 0 <= k < |ms|
      ensures exists p: nat :: PlaceholderOccursAt(template, p, ms[k])
    {
      MatchesSound(template, k);
    }
  }

  /** The error of `substitute_variables`. */
  datatype SubstError = MissingParameter(name: string) {
    function Message(): (m: string) {
      "Required parameter not found: " + name
    }
  }

  /**
   * The loop of `substitute_variables` over the given names, from the given
   * running result: replace-all of each name's placeholder text by its value,
   * stopping at the first name without a parameter.
   */
  function SubstituteAll(names: seq<string>, result: string, params: map<string, string>): (r: Result<string, SubstError>)
    ensures r.Err? ==> r.error.name in names && r.error.name !in params
    decreases |names|
  {
    if names == [] then Ok(result)
    else if names[0] in params then
      SubstituteAll(names[1..], ReplaceAll(result, PlaceholderText(names[0]), params[names[0]]), params)
    else Err(MissingParameter(names[0]))
  }

  /** `substitute_variables(template, params)`. */
  function Substitute(template: string, params: map<string, string>): (r: Result<string, SubstError>)
    ensures r.Err? ==> r.error.name in Matches(template) && r.error.name !in params
  {
    SubstituteAll(Matches(template), template, params)
  }

  lemma {:induction false} SubstituteAllOkIff(names: seq<string>, result: string, params: map<string, string>)
    ensures SubstituteAll(names, result, params).Ok? <==> forall k :: 0 <= k < |names| ==> names[k] in params
    decreases |names|
  {
    if names != [] && names[0] in params {
      SubstituteAllOkIff(names[1..], ReplaceAll(result, PlaceholderText(names[0]), params[names[0]]), params);
      assert forall k :: 1 <= k < |names| ==> names[k] == names[1..][k - 1];
    }
  }

  lemma {:induction false} SubstituteAllFirstMissing(names: seq<string>, result: string, params: map<string, string>, k: nat)
    requires k < |names| && names[k] !in params
    requires forall j :: 0 <= j < k ==> names[j] in params
    ensures SubstituteAll(names, result, params) == Err(MissingParameter(names[k]))
    decreases k
  {
    if k > 0 {
      SubstituteAllFirstMissing(names[1..], ReplaceAll(result, PlaceholderText(names[0]), params[names[0]]), params, k - 1);
    }
  }

  /** Substitution succeeds exactly when every placeholder name has a parameter. */
  lemma SubstituteOkIff(template: string, params: map<string, string>)
    ensures Substitute(template, params).Ok? <==> forall n :: n in Matches(template) ==> n in params
  {
    SubstituteAllOkIff(Matches(template), template, params);
  }

  /**
   * The error names the leftmost placeholder without a parameter, whatever
   * follows it; no partial result is returned.
   */
  lemma SubstituteReportsFirstMissing(template: string, params: map<string, string>, k: nat)
    requires k < |Matches(template)| && Matches(template)[k] !in params
    requires forall j :: 0 <= j < k ==> Matches(template)[j] in params
    ensures Substitute(template, params) == Err(MissingParameter(Matches(template)[k]))
  {
    SubstituteAllFirstMissing(Matches(template), template, params, k);
  }

  /** A template without placeholders comes back unchanged, whatever the parameters. */
  lemma SubstituteWithoutPlaceholders(template: string, params: map<string, string>)
    requires !HasPlaceholder(template)
    ensures Substitute(template, params) == Ok(template)
  {
    MatchesEmptyIff(template);
  }

  /** A text without `#` holds no placeholder. */
  lemma NoHashNoPlaceholder(s: string)
    requires '#' !in s
    ensures !HasPlaceholder(s)
  {
    forall p: nat, name: string ensures !PlaceholderOccursAt(s, p, name) {
      if p + |name| + 3 <= |s| {
        assert s[p..p + |name| + 3][0] == s[p];
      }
    }
  }

  /**
   * The loop of `substitute_variables`, over a mutable running result and
   * with the early return on a missing parameter.
   */
  method SubstituteVariables(template: string, params: map<string, string>) returns (r: Result<string, SubstError>)
    ensures r == Substitute(template, params)
    ensures r.Err? ==> r.error.name in Matches(template) && r.error.name !in params
  {
    var captures := Matches(template);
    var result := template;
    for i := 0 to |captures|
      invariant SubstituteAll(captures[i..], result, params) == Substitute(template, params)
    {
      var name := captures[i];
      assert captures[i..][1..] == captures[i + 1..];
      if name in params {
        result := ReplaceAll(result, PlaceholderText(name), params[name]);
      } else {
        return Err(MissingParameter(name));
      }
    }
    return Ok(result);
  }
}
