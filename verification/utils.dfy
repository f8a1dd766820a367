/** The argv and environment builders of src/utils.rs. Each `CString::new`
    there is unwrapped, so an interior NUL panics; the preconditions say
    the inputs hold none. */
module Utils {
  import opened Base
  import opened Text
  import opened CStrings

  /** `CString::new(s).unwrap()`. */
  function CStringOf(s: string): (c: CString)
    requires '\0' !in s
    ensures c.content == s
  {
    CStringNew(s).value
  }

  /** `parse_args_for_fexecve(binary, args)`: the binary, then every
      whitespace-separated token of `args`, in order. NUL is not
      whitespace, so `args` is NUL-free exactly when all its tokens are. */
  function ParseArgsForFexecve(binary: string, args: string): (r: seq<CString>)
    requires '\0' !in binary && '\0' !in args
    ensures |r| == 1 + |Words(args)|
    ensures r[0].content == binary
    ensures forall k :: 0 <= k < |Words(args)| ==> r[k + 1].content == Words(args)[k]
    ensures forall k :: 1 <= k < |r| ==> IsWord(r[k].content)
  {
    var tokens := Words(args);
    WordsAvoid(args, '\0');
    [CStringOf(binary)] + seq(|tokens|, k requires 0 <= k < |tokens| => CStringOf(tokens[k]))
  }

  /** The texts of a vector of C strings. */
  function Contents(cs: seq<CString>): (r: seq<string>)
    ensures |r| == |cs| && forall i :: 0 <= i < |cs| ==> r[i] == cs[i].content
  {
    seq(|cs|, i requires 0 <= i < |cs| => cs[i].content)
  }

  /** The arguments after the binary, concatenated, are `args` without
      its whitespace: tokenisation loses nothing but the spacing and keeps
      every character in order. */
  lemma ArgsKeepEveryCharacter(binary: string, args: string)
    requires '\0' !in binary && '\0' !in args
    ensures Flatten(Contents(ParseArgsForFexecve(binary, args))[1..]) == RemoveWhitespace(args)
  {
    assert Contents(ParseArgsForFexecve(binary, args))[1..] == Words(args);
    WordsKeepEveryCharacter(args);
  }

  /** An argument string of whitespace only yields the binary alone. */
  lemma BlankArgsGiveBinaryOnly(binary: string, args: string)
    requires '\0' !in binary && '\0' !in args
    requires forall i :: 0 <= i < |args| ==> IsWhitespace(args[i])
    ensures |ParseArgsForFexecve(binary, args)| == 1
    ensures ParseArgsForFexecve(binary, args)[0].content == binary
  {
    WordsOfBlank(args);
  }

  /** Tokens joined by spaces come back as the same tokens after the binary. */
  lemma JoinedTokensRoundTrip(binary: string, tokens: seq<string>)
    requires '\0' !in binary
    requires forall i :: 0 <= i < |tokens| ==> IsWord(tokens[i]) && '\0' !in tokens[i]
    ensures '\0' !in JoinSpaces(tokens)
    ensures var r := ParseArgsForFexecve(binary, JoinSpaces(tokens));
            |r| == 1 + |tokens| && forall k :: 0 <= k < |tokens| ==> r[k + 1].content == tokens[k]
  {
    JoinSpacesAvoid(tokens, '\0');
    WordsOfJoin(tokens);
  }

  /** The entry for one environment pair: `format!("{}={}", key, value)`. */
  function EnvEntry(key: string, value: string): string {
    key + "=" + value
  }

  predicate NulFreePairs(vars: seq<(string, string)>) {
    forall i :: 0 <= i < |vars| ==> '\0' !in vars[i].0 && '\0' !in vars[i].1
  }

  /** `get_env_vars`, with the pairs `env::vars()` yields passed in: one
      entry per pair, in iteration order. */
  function GetEnvVars(vars: seq<(string, string)>): (r: seq<CString>)
    requires NulFreePairs(vars)
    ensures |r| == |vars|
    ensures forall i :: 0 <= i < |vars| ==> r[i].content == EnvEntry(vars[i].0, vars[i].1)
  {
    seq(|vars|, i requires 0 <= i < |vars| => CStringOf(EnvEntry(vars[i].0, vars[i].1)))
  }

  /** A key without '=' (as every environment variable name is) is
      recovered from its entry as the text before the first '=', and the
      value as the text after it. */
  lemma EnvEntryRoundTrip(key: string, value: string)
    requires '=' !in key
    ensures var e := EnvEntry(key, value);
            IndexOf(e, '=') == Some(|key|) && e[..|key|] == key && e[|key| + 1..] == value
  {
    var e := EnvEntry(key, value);
    assert e[..|key|] == key;
    assert e[|key|] == '=';
    assert e[|key| + 1..] == value;
  }

  /** An interior NUL in the pair makes its entry unconstructible: this is
      the panic the precondition of `GetEnvVars` excludes. */
  lemma NulInPairFails(key: string, value: string)
    requires '\0' in key || '\0' in value
    ensures CStringNew(EnvEntry(key, value)).Err?
  {
    var e := EnvEntry(key, value);
    if '\0' in key {
      var i :| 0 <= i < |key| && key[i] == '\0';
      assert e[i] == '\0';
    } else {
      var i :| 0 <= i < |value| && value[i] == '\0';
      assert e[|key| + 1 + i] == '\0';
    }
  }
}
