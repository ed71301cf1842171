/**
 * The argument trimming of `parse_options`: when the script runs inside the
 * host application, the host consumes the arguments up to `--` and the
 * script parses only what follows it.
 */
module Options {
  import opened Search

  /** The separator between the host's arguments and the script's own. */
  const Separator: string := "--"

  /**
   * `argv[index:]`, where `index` is one past the first `--`, or `len(argv)`
   * when `argv.index("--")` raises because no `--` is present.
   */
  function TrimHostArgv(argv: seq<string>): (r: seq<string>)
    ensures |r| <= |argv| && r == argv[|argv| - |r|..]
    ensures Separator !in argv ==> r == []
    ensures Separator in argv ==>
      exists k :: 0 <= k < |argv| && argv[k] == Separator && Separator !in argv[..k] && r == argv[k + 1..]
  {
    var index := match FirstIndex(argv, Separator)
      case Some(k) => k + 1
      case None => |argv|;
    argv[index..]
  }

  /** Everything after the first `--` is kept, including any later `--`. */
  lemma {:induction false} TrimAfterFirstSeparator(host: seq<string>, script: seq<string>)
    requires Separator !in host
    ensures TrimHostArgv(host + [Separator] + script) == script
  {
    var argv := host + [Separator] + script;
    assert argv[..|host|] == host;
    FirstIndexUnique(argv, Separator, |host|);
    assert argv[|host| + 1..] == script;
  }
}
