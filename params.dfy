/**
 * `--param KEY=VALUE` arguments: `parse_key_val` (src/lib.rs) splits one
 * argument, and `run_command` (src/main.rs) collects the pairs into the
 * parameter map used for template substitution.
 */
module Params {
  import opened Wrappers
  import opened StrOps

  /** The error of `parse_key_val`: the argument has no `=`. */
  datatype KeyValError = InvalidFormat(input: string) {
    function Message(): (m: string) {
      "Invalid KEY=value format: " + input
    }
  }

  /** `parse_key_val`: split at the FIRST `=`; the value keeps any later `=`. */
  function ParseKeyVal(s: string): (r: Result<(string, string), KeyValError>)
    ensures r.Err? <==> '=' !in s
    ensures r.Err? ==> r.error == InvalidFormat(s)
    ensures r.Ok? ==> r.value.0 + "=" + r.value.1 == s && '=' !in r.value.0
  {
    match FindChar(s, '=')
    case None => Err(InvalidFormat(s))
    case Some(pos) =>
      assert s == s[..pos] + "=" + s[pos + 1..];
      Ok((s[..pos], s[pos + 1..]))
  }

  /**
   * `key=value` is parsed back into `(key, value)` whenever the key has no
   * `=`: the split is the unique one with an `=`-free key.
   */
  lemma ParseKeyValInverse(key: string, value: string)
    requires '=' !in key
    ensures ParseKeyVal(key + "=" + value) == Ok((key, value))
  {
    var s := key + "=" + value;
    assert s[|key|] == '=';
    var pos := FindChar(s, '=').value;
    assert forall k | 0 <= k < |key| :: s[k] == key[k];
    assert s[..|key|] == key && s[|key| + 1..] == value;
  }

  /** The examples of src/lib.rs:80-95. */
  lemma ParseKeyValExamples()
    ensures ParseKeyVal("name=Ali") == Ok(("name", "Ali"))
    ensures ParseKeyVal("key=value=with=equals") == Ok(("key", "value=with=equals"))
  {
    assert "name" + "=" + "Ali" == "name=Ali";
    ParseKeyValInverse("name", "Ali");
    assert "key" + "=" + "value=with=equals" == "key=value=with=equals";
    ParseKeyValInverse("key", "value=with=equals");
  }

  lemma ParseKeyValRejects()
    ensures ParseKeyVal("invalid_format") == Err(InvalidFormat("invalid_format"))
  {
    assert forall i | 0 <= i < |"invalid_format"| :: "invalid_format"[i] != '=';
  }

  /**
   * `param.into_iter().collect::<HashMap<_, _>>()`: the pairs are inserted in
   * order, so a later pair with the same key overwrites an earlier one.
   */
  function ParamsMap(pairs: seq<(string, string)>): (m: map<string, string>)
    ensures m.Keys == set i | 0 <= i < |pairs| :: pairs[i].0
  {
    if pairs == [] then map[]
    else
      var init, last := pairs[..|pairs| - 1], pairs[|pairs| - 1];
      var m := ParamsMap(init)[last.0 := last.1];
      assert forall i | 0 <= i < |init| :: init[i] == pairs[i];
      m
  }

  /** For each key, the value from its LAST pair is the one kept. */
  lemma {:induction false} ParamsMapLastWins(pairs: seq<(string, string)>, i: nat)
    requires i < |pairs|
    requires forall j :: i < j < |pairs| ==> pairs[j].0 != pairs[i].0
    ensures pairs[i].0 in ParamsMap(pairs) && ParamsMap(pairs)[pairs[i].0] == pairs[i].1
  {
    if i < |pairs| - 1 {
      var init := pairs[..|pairs| - 1];
      ParamsMapLastWins(init, i);
    }
  }
}
