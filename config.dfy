/**
 * Process configuration read from the environment at start-up: the
 * `get_envbool` parser and the two policy switches built from it
 * (QFS_READONLY, default true; QFS_ALLOW_DELETE, default false).
 * The environment is passed in as a map from variable name to value.
 */
module Config {
  import opened Text

  /** "false" with each letter in upper or lower case: 32 spellings. */
  predicate FalseCaseVariant(s: string)
  {
    |s| == 5 && forall i :: 0 <= i < 5 ==> s[i] == "false"[i] || s[i] == "FALSE"[i]
  }

  /**
   * The spellings `get_envbool` reads as false: the empty string, "0", and
   * "false" in any mix of upper and lower case.
   */
  predicate FalseSpelling(s: string)
  {
    || s == ""
    || s == "0"
    || FalseCaseVariant(s)
  }

  /**
   * `get_envbool(name, default)`: an unset variable yields the (boolean)
   * default unchanged; a set one is lower-cased and is false exactly when
   * it is empty, "0" or "false".
   */
  function GetEnvBool(env: map<string, string>, name: string, default: bool): (r: bool)
    ensures name !in env ==> r == default
    ensures name in env ==> (r <==> !FalseSpelling(env[name]))
  {
    if name in env then
      var value := Lower(env[name]);
      LowerIsFalse(env[name]);
      !(value == "" || value == "0" || value == "false")
    else
      default
  }

  /** Lower-casing yields "false" exactly for the 32 case variants of it. */
  lemma LowerIsFalse(s: string)
    ensures Lower(s) == "false" <==> FalseCaseVariant(s)
  {
    if FalseCaseVariant(s) {
      assert Lower(s) == "false";
    }
    if Lower(s) == "false" {
      forall i | 0 <= i < 5 ensures s[i] == "false"[i] || s[i] == "FALSE"[i] {
        assert LowerChar(s[i]) == "false"[i];
      }
    }
  }

  datatype Policy = Policy(readOnly: bool, allowDelete: bool)

  /**
   * `app.config.update(READONLY=..., ALLOW_DELETE=...)`: the server is
   * read-only unless QFS_READONLY is set to something other than a false
   * spelling, and may delete only when QFS_ALLOW_DELETE is set to such a value.
   */
  function PolicyFromEnv(env: map<string, string>): (p: Policy)
    ensures p.readOnly <==> ("QFS_READONLY" !in env || !FalseSpelling(env["QFS_READONLY"]))
    ensures p.allowDelete <==> ("QFS_ALLOW_DELETE" in env && !FalseSpelling(env["QFS_ALLOW_DELETE"]))
  {
    Policy(GetEnvBool(env, "QFS_READONLY", true), GetEnvBool(env, "QFS_ALLOW_DELETE", false))
  }

  /** Sample values: only the false spellings are false, whatever their case. */
  lemma {:induction false} EnvBoolSamples(env: map<string, string>)
    ensures GetEnvBool(env["V" := "1"], "V", false)
    ensures GetEnvBool(env["V" := "yes"], "V", false)
    ensures GetEnvBool(env["V" := "FALSE1"], "V", false)
    ensures GetEnvBool(env["V" := "00"], "V", false)
    ensures !GetEnvBool(env["V" := "FaLsE"], "V", true)
    ensures !GetEnvBool(env["V" := "0"], "V", true)
    ensures !GetEnvBool(env["V" := ""], "V", true)
  {
    assert !FalseSpelling("FALSE1");
    assert !FalseSpelling("00");
    assert !FalseSpelling("yes");
    assert FalseSpelling("FaLsE");
  }
}
