/** The argv and environment builders of libinject/src/utils.rs. The
    argument builder is the same as in src/utils.rs; the environment
    entries go through `os_string_to_c_string`, which appends the
    terminating NUL itself and unwraps `CString::from_vec_with_nul`. */
module LibinjectUtils {
  import opened Base
  import opened Text
  import opened CStrings
  import Utils

  /** `parse_args_for_fexecve(binary, args)`, identical to the one in
      src/utils.rs. */
  function ParseArgsForFexecve(binary: string, args: string): (r: seq<CString>)
    requires '\0' !in binary && '\0' !in args
    ensures |r| == 1 + |Words(args)|
    ensures r[0].content == binary
    ensures forall k :: 0 <= k < |Words(args)| ==> r[k + 1].content == Words(args)[k]
  {
    Utils.ParseArgsForFexecve(binary, args)
  }

  /** `os_string_to_c_string`: push one 0 and accept the buffer. A NUL
      already inside the string would make `from_vec_with_nul` fail and the
      unwrap panic, hence the precondition. */
  function OsStringToCString(s: string): (c: CString)
    requires '\0' !in s
    ensures c.WithNul() == s + ['\0']
    ensures c.content == s
  {
    var v := s + ['\0'];
    assert v[..|v| - 1] == s;
    var r := FromVecWithNul(v);
    r.value
  }

  /** The panic the precondition excludes: with a NUL inside, the buffer
      with its pushed 0 is rejected as having an interior NUL. */
  lemma InteriorNulRejected(s: string)
    requires '\0' in s
    ensures var r := FromVecWithNul(s + ['\0']);
            r.Err? && r.error.kind.InteriorNul? && r.error.kind.position < |s|
  {
    var v := s + ['\0'];
    var i :| 0 <= i < |s| && s[i] == '\0';
    assert v[..|v| - 1][i] == '\0';
  }

  /** The entry for one pair: `[key, "=", val]` collected into one string. */
  function EnvEntry(key: string, value: string): string {
    key + "=" + value
  }

  /** `get_env`, with the pairs `env::vars_os()` yields passed in: one
      entry key=value per pair, in iteration order, each stored with a
      single terminating NUL. */
  function GetEnv(vars: seq<(string, string)>): (r: seq<CString>)
    requires Utils.NulFreePairs(vars)
    ensures |r| == |vars|
    ensures forall i :: 0 <= i < |vars| ==> r[i].content == EnvEntry(vars[i].0, vars[i].1)
    ensures forall i :: 0 <= i < |vars| ==> r[i].WithNul() == EnvEntry(vars[i].0, vars[i].1) + ['\0']
  {
    seq(|vars|, i requires 0 <= i < |vars| => OsStringToCString(EnvEntry(vars[i].0, vars[i].1)))
  }

  /** Both crates build the same environment vector from the same pairs. */
  lemma EnvBuildersAgree(vars: seq<(string, string)>)
    requires Utils.NulFreePairs(vars)
    ensures GetEnv(vars) == Utils.GetEnvVars(vars)
  {
    var a := GetEnv(vars);
    var b := Utils.GetEnvVars(vars);
    forall i | 0 <= i < |vars| ensures a[i] == b[i] {
      assert a[i].content == b[i].content;
    }
  }
}
