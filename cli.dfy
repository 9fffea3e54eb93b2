/**
 * The top level of src/main.rs: `main`'s choice between the reaper and a
 * run, and the front of `run_command` that turns the configuration, the
 * command name and the `--param` pairs into the command line to execute, the
 * keep decision and the base directory.
 */
module Cli {
  import opened Wrappers
  import opened StrOps
  import opened Paths
  import opened Params
  import opened Template
  import opened Workspace
  import opened Lifecycle
  import TemplateCases

  /** The parsed arguments (`struct Cli`); parsing itself is clap's. */
  datatype Args = Args(commitIdOrCommand: string, command: Option<string>, keep: bool,
                       tempDir: Option<string>, param: seq<(string, string)>, force: bool)

  /** `IzConfig`, as read from `izconfig.json`. */
  datatype Config = Config(commands: map<string, string>, tempDir: Option<string>, keep: Option<bool>)

  /** What `main` goes on to do. */
  datatype Action =
    | CleanAction(tempDir: Option<string>, force: bool)
    | RunAction(commitId: string, command: string, keep: bool, tempDir: Option<string>, param: seq<(string, string)>)

  const UsageError: string := "Command is required. Usage: iz <commit-id> <command> or iz clean"

  /**
   * `main`: a first argument `clean` runs the reaper, whatever else is
   * given; anything else is a commit id, which needs a command name.
   */
  function Dispatch(args: Args): (r: Result<Action, string>)
    ensures args.commitIdOrCommand == "clean" ==> r == Ok(CleanAction(args.tempDir, args.force))
    ensures args.commitIdOrCommand != "clean" ==>
              && (r.Err? <==> args.command.None?)
              && (r.Err? ==> r.error == UsageError)
              && (r.Ok? ==> r.value == RunAction(args.commitIdOrCommand, args.command.value, args.keep, args.tempDir, args.param))
  {
    if args.commitIdOrCommand == "clean" then Ok(CleanAction(args.tempDir, args.force))
    else if args.command.None? then Err(UsageError)
    else Ok(RunAction(args.commitIdOrCommand, args.command.value, args.keep, args.tempDir, args.param))
  }

  /** A commit id spelled `clean` cannot be run: `clean` always means the reaper. */
  lemma CleanShadowsCommitId(command: Option<string>, keep: bool, tempDir: Option<string>,
                             param: seq<(string, string)>, force: bool)
    ensures Dispatch(Args("clean", command, keep, tempDir, param, force)).value.CleanAction?
  {
  }

  /**
   * src/main.rs:76-82: look the command name up in the configuration, then
   * substitute the parameters, collected into a map, into its template.
   */
  function FinalCommand(config: Config, command: string, param: seq<(string, string)>): (r: Result<string, string>)
    ensures command !in config.commands ==> r == Err("Command '" + command + "' not found in izconfig.json")
    ensures r.Ok? <==> command in config.commands
                       && forall n :: n in Matches(config.commands[command]) ==> n in ParamsMap(param)
    ensures r.Ok? ==> Ok(r.value) == Substitute(config.commands[command], ParamsMap(param))
    ensures command in config.commands && Substitute(config.commands[command], ParamsMap(param)).Err? ==>
              r == Err(Substitute(config.commands[command], ParamsMap(param)).error.Message())
  {
    if command !in config.commands then Err("Command '" + command + "' not found in izconfig.json")
    else
      var template := config.commands[command];
      SubstituteOkIff(template, ParamsMap(param));
      match Substitute(template, ParamsMap(param))
      case Err(e) => Err(e.Message())
      case Ok(c) => Ok(c)
  }

  /** The command of tests/integration_tests.rs:111-130, run with `--param name=Integration`. */
  lemma FinalCommandExample()
    ensures FinalCommand(Config(map["greet" := "echo 'Hello #{name}!'"], None, None), "greet", [("name", "Integration")])
         == Ok("echo 'Hello Integration!'")
  {
    var pairs := [("name", "Integration")];
    assert pairs[..0] == [];
    var m := ParamsMap(pairs);
    assert m == map["name" := "Integration"];
    HelloSubstitution(m);
  }

  lemma HelloSubstitution(m: map<string, string>)
    requires m == map["name" := "Integration"]
    ensures Substitute("echo 'Hello #{name}!'", m) == Ok("echo 'Hello Integration!'")
  {
    HelloPieces();
    TemplateCases.SubstituteOnePlaceholder("echo 'Hello ", "name", "!'", m);
  }

  lemma HelloPieces()
    ensures "echo 'Hello " + PlaceholderText("name") + "!'" == "echo 'Hello #{name}!'"
    ensures "echo 'Hello " + "Integration" + "!'" == "echo 'Hello Integration!'"
    ensures IsName("name") && '#' !in "echo 'Hello " && '#' !in "!'"
  {
  }

  /** What the run needs before a workspace exists: the command line, the keep decision, the base directory. */
  datatype Plan = Plan(finalCommand: string, keep: bool, base: Path)

  /**
   * src/main.rs:74-88, in order: the configuration, the command name, the
   * substitution, then the base directory; the first failure is the result.
   */
  function PrepareRun(config: Result<Config, string>, command: string, param: seq<(string, string)>, keepFlag: bool,
                      cliTempDir: Option<string>, envTempDir: Option<string>, currentDir: Result<Path, string>): (r: Result<Plan, string>)
    ensures config.Err? ==> r == Err("Failed to read izconfig.json")
    ensures config.Ok? && FinalCommand(config.value, command, param).Err? ==> r == Err(FinalCommand(config.value, command, param).error)
    ensures r.Ok? ==> && config.Ok?
                      && Ok(r.value.finalCommand) == FinalCommand(config.value, command, param)
                      && r.value.keep == (keepFlag || config.value.keep == Some(true))
                      && Ok(r.value.base) == DetermineTempDir(cliTempDir, envTempDir, config.value.tempDir, currentDir)
    ensures r.Ok? <==> && config.Ok?
                       && FinalCommand(config.value, command, param).Ok?
                       && DetermineTempDir(cliTempDir, envTempDir, config.value.tempDir, currentDir).Ok?
    ensures config.Ok? && FinalCommand(config.value, command, param).Ok?
            && DetermineTempDir(cliTempDir, envTempDir, config.value.tempDir, currentDir).Err? ==>
              r == Err(DetermineTempDir(cliTempDir, envTempDir, config.value.tempDir, currentDir).error)
  {
    if config.Err? then Err("Failed to read izconfig.json")
    else
      match FinalCommand(config.value, command, param)
      case Err(e) => Err(e)
      case Ok(finalCommand) =>
        var keep := ShouldKeep(keepFlag, config.value.keep);
        match DetermineTempDir(cliTempDir, envTempDir, config.value.tempDir, currentDir)
        case Err(e) => Err(e)
        case Ok(base) => Ok(Plan(finalCommand, keep, base))
  }
}
