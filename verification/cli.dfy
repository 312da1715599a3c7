/** The argument dispatch of the `vl` command (vl.ts:17-33): print the
    version, print the usage, or run a script. */
module Cli {
  import opened Base

  datatype Outcome = ShowVersion | ShowUsage | RunScript(path: string)

  /** The exit code `main` sets: 0 after the version, 2 after the usage; a
      script run leaves it to the script. */
  function ExitCode(o: Outcome): Option<int> {
    match o
    case ShowVersion => Some(0)
    case ShowUsage => Some(2)
    case RunScript(_) => None
  }

  predicate IsVersionFlag(a: string) {
    a == "--version" || a == "-v"
  }

  /** `args.find((a) => !a.startsWith("--"))`. */
  function FirstScriptArg(args: seq<string>): (r: Option<string>)
    ensures r.None? <==> forall i | 0 <= i < |args| :: StartsWith(args[i], "--")
    ensures r.Some? ==> exists i | 0 <= i < |args| ::
      && args[i] == r.value && !StartsWith(args[i], "--")
      && forall j | 0 <= j < i :: StartsWith(args[j], "--")
    decreases |args|
  {
    if args == [] then None
    else if !StartsWith(args[0], "--") then Some(args[0])
    else
      var r := FirstScriptArg(args[1..]);
      assert forall j | 1 <= j < |args| :: args[j] == args[1..][j - 1];
      r
  }

  /** `args[i]` is the first argument that does not start with `--`. */
  predicate ScriptAt(args: seq<string>, i: int) {
    && 0 <= i < |args| && !StartsWith(args[i], "--")
    && forall j | 0 <= j < i :: StartsWith(args[j], "--")
  }

  predicate VersionFirst(args: seq<string>) {
    |args| > 0 && IsVersionFlag(args[0])
  }

  /** `main`: a version flag in first place wins whatever follows; otherwise
      the first argument that does not start with `--` is the script, and a
      missing script or `-` prints the usage. */
  function Dispatch(args: seq<string>): (o: Outcome)
    ensures o == ShowVersion <==> VersionFirst(args)
    ensures o == ShowUsage <==>
      && !VersionFirst(args)
      && ((forall i | 0 <= i < |args| :: StartsWith(args[i], "--"))
          || exists i :: ScriptAt(args, i) && args[i] == "-")
    ensures o.RunScript? <==>
      !VersionFirst(args) && exists i :: ScriptAt(args, i) && args[i] != "-"
    ensures o.RunScript? ==> exists i :: ScriptAt(args, i) && args[i] == o.path
  {
    if VersionFirst(args) then ShowVersion
    else
      match FirstScriptArg(args)
      case None => ShowUsage
      case Some(f) =>
        ScriptUnique(args, f);
        if f == "-" then ShowUsage else RunScript(f)
  }

  /** There is at most one first script argument. */
  lemma ScriptUnique(args: seq<string>, f: string)
    requires FirstScriptArg(args) == Some(f)
    ensures forall i | ScriptAt(args, i) :: args[i] == f
  {
    var k :| 0 <= k < |args| && args[k] == f && !StartsWith(args[k], "--")
            && forall j | 0 <= j < k :: StartsWith(args[j], "--");
    assert forall i | ScriptAt(args, i) :: i == k;
  }

  /** Only the first position is looked at for the version: a later `-v` is
      the script and a later `--version` is skipped like any other flag. */
  lemma VersionFlagOnlyFirst()
    ensures Dispatch(["--quiet", "-v"]) == RunScript("-v")
    ensures Dispatch(["--quiet", "--version"]) == ShowUsage
    ensures Dispatch(["--quiet", "--version", "build.mjs"]) == RunScript("build.mjs")
    ensures Dispatch(["-v", "build.mjs"]) == ShowVersion
    ensures ExitCode(Dispatch([])) == Some(2) && ExitCode(Dispatch(["-"])) == Some(2)
  {
    assert StartsWith("--quiet", "--");
    assert StartsWith("--version", "--");
    assert "-v"[..2] == "-v";
    assert "build.mjs"[..2] == "bu";
    assert !StartsWith("-", "--");
  }
}
