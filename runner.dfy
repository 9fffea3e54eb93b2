/**
 * The process runner, `execute_command` (src/main.rs:255-288): the command
 * string is split on whitespace, the first word is the program and the rest
 * are its arguments. Spawning is left out; its outcome is a parameter.
 */
module Runner {
  import opened Wrappers
  import opened StrOps

  /** The errors of `execute_command`. */
  datatype ExecError =
    | EmptyCommand
      /** `cmd.output()` failed, e.g. the program was not found. */
    | SpawnFailed(reason: string)
    | CommandFailed(status: string)
  {
    function Message(): (m: string) {
      match this
      case EmptyCommand => "Empty command"
      case SpawnFailed(_) => "Failed to execute command"
      case CommandFailed(status) => "Command failed with status: " + status
    }
  }

  /** The program and its arguments. */
  datatype Argv = Argv(program: string, args: seq<string>)

  /**
   * `command.split_whitespace().collect()`, then `parts[0]` and `parts[1..]`:
   * no words is the "Empty command" error.
   */
  function SplitCommand(command: string): (r: Result<Argv, ExecError>)
    ensures r.Err? <==> forall i :: 0 <= i < |command| ==> IsWhitespace(command[i])
    ensures r.Err? ==> r.error == EmptyCommand
    ensures r.Ok? ==> && IsToken(r.value.program)
                      && (forall k :: 0 <= k < |r.value.args| ==> IsToken(r.value.args[k]))
                      && SplitWhitespace(command) == [r.value.program] + r.value.args
  {
    SplitWhitespaceEmptyIff(command);
    var parts := SplitWhitespace(command);
    if parts == [] then Err(EmptyCommand)
    else
      assert parts == [parts[0]] + parts[1..];
      Ok(Argv(parts[0], parts[1..]))
  }

  /** Words joined by single spaces are split back into program and arguments. */
  lemma SplitCommandOfWords(program: string, args: seq<string>)
    requires IsToken(program) && forall k :: 0 <= k < |args| ==> IsToken(args[k])
    ensures SplitCommand(JoinWords([program] + args)) == Ok(Argv(program, args))
  {
    var words := [program] + args;
    var command := JoinWords(words);
    SplitWordsCons(program, args);
    SplitCommandOfSplit(command, program, args);
  }

  lemma SplitWordsCons(program: string, args: seq<string>)
    requires IsToken(program) && forall k :: 0 <= k < |args| ==> IsToken(args[k])
    ensures SplitWhitespace(JoinWords([program] + args)) == [program] + args
  {
    var words := [program] + args;
    forall k | 0 <= k < |words| ensures IsToken(words[k]) {
      if k > 0 {
        assert words[k] == args[k - 1];
      }
    }
    SplitJoinRoundTrip(words);
  }

  lemma SplitCommandOfSplit(command: string, program: string, args: seq<string>)
    requires SplitWhitespace(command) == [program] + args
    ensures SplitCommand(command) == Ok(Argv(program, args))
  {
    var parts := SplitWhitespace(command);
    assert parts[0] == program && parts[1..] == args;
  }

  /** What running the spawned program gave: it could not be started, or it exited. */
  datatype SpawnOutcome = NotStarted(reason: string) | Exited(success: bool, status: string)

  /**
   * `execute_command`: an empty command is rejected before anything is
   * spawned; otherwise the outcome of running `argv` decides.
   */
  function ExecuteCommand(command: string, run: SpawnOutcome): (r: Result<Argv, ExecError>)
    ensures SplitCommand(command).Err? ==> r == Err(EmptyCommand)
    ensures r.Ok? <==> SplitCommand(command).Ok? && run.Exited? && run.success
    ensures r.Ok? ==> r == SplitCommand(command)
    ensures SplitCommand(command).Ok? && run.NotStarted? ==> r == Err(SpawnFailed(run.reason))
    ensures SplitCommand(command).Ok? && run.Exited? && !run.success ==> r == Err(CommandFailed(run.status))
  {
    match SplitCommand(command)
    case Err(e) => Err(e)
    case Ok(argv) =>
      match run
      case NotStarted(reason) => Err(SpawnFailed(reason))
      case Exited(success, status) => if success then Ok(argv) else Err(CommandFailed(status))
  }

  /** The end-to-end command of tests/integration_tests.rs:85-107, split into program and arguments. */
  lemma SplitCommandExample()
    ensures SplitCommand("echo 'Hello from test project!'")
         == Ok(Argv("echo", ["'Hello", "from", "test", "project!'"]))
  {
    var words := ["echo", "'Hello", "from", "test", "project!'"];
    ExampleWords();
    SplitCommandOfWords("echo", words[1..]);
    assert [words[0]] + words[1..] == words;
  }

  lemma ExampleWords()
    ensures JoinWords(["echo", "'Hello", "from", "test", "project!'"]) == "echo 'Hello from test project!'"
    ensures IsToken("echo") && IsToken("'Hello") && IsToken("from") && IsToken("test") && IsToken("project!'")
  {
    var words := ["echo", "'Hello", "from", "test", "project!'"];
    assert words[1..] == ["'Hello", "from", "test", "project!'"];
    assert words[1..][1..] == ["from", "test", "project!'"];
    assert words[1..][1..][1..] == ["test", "project!'"];
    assert words[1..][1..][1..][1..] == ["project!'"];
  }
}
