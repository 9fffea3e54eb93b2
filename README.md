# iz, modelled in Dafny

`iz` is a command-line tool for running one configured command against an
old commit without touching the working copy. `iz <commit-id> <command>`
works in four steps:

- look up `<command>` in `izconfig.json` and substitute its `#{name}`
  placeholders from the `--param KEY=VALUE` pairs;
- create a fresh workspace directory `iz-<milliseconds>-<hex>` under a base
  directory (flag, then `IZTEMP`, then configuration, then `.iztemp` in the
  working directory);
- check the commit out into the workspace and run the command there, split
  on whitespace into a program and its arguments;
- delete the workspace unless it is to be kept.

A process-wide marker holds the workspace path while it is in use. A SIGINT
or SIGTERM watcher takes the marker, deletes what it held, and exits with 130
or 143. `iz clean` is the reaper: it lists the base directory, selects the
sub-directories whose name starts with `iz-`, asks for confirmation unless
`--force` is given, removes them and reports how many were cleaned and how
many failed.

Each module below covers one part of that core:

- `Params` covers `--param` parsing and the parameter map.
- `Template` covers the placeholder scan and substitution. `TemplateCases`
  holds the lemmas on concrete template shapes and the crate's unit-test examples.
- `Workspace` covers the choice of base directory, workspace naming and
  workspace creation.
- `Lifecycle` covers the cleanup marker, the run order and the signal exit
  codes. The marker is a class whose methods are proved against pure step
  functions.
- `Reaper` covers `iz clean`.
- `Runner` covers the argv split of the process runner.
- `Materialize` covers the directory pre-creation walk over a commit tree.
- `Cli` covers the dispatch in `main` and the front of `run_command`.
- `StrOps`, `Paths` and `Wrappers` are the shared string, path and
  `Option`/`Result` definitions.

Several inputs become parameters:

- the clock, the random value and the environment variable;
- the working directory and standard input;
- the outcome of every directory creation and removal;
- the outcome of spawning the process.

## Model

| member | source | states |
|---|---|---|
| Params.ParseKeyVal | src/lib.rs:15-19 | Rejects exactly the arguments without `=`, naming the argument. Otherwise it splits at the first `=`: the key has no `=`, and key, `=`, value rebuild the argument. |
| Params.ParseKeyValInverse | src/lib.rs:15-19 | `key=value` parses back to `(key, value)` for every `=`-free key, including values that contain `=`. |
| Params.ParseKeyValExamples | src/lib.rs:80-88 | `name=Ali` gives `(name, Ali)`, and `key=value=with=equals` keeps the later `=` in the value. |
| Params.ParseKeyValRejects | src/lib.rs:91-95 | `invalid_format` is rejected with the invalid-format error. |
| Params.ParamsMap | src/main.rs:81 | The map's keys are exactly the keys of the pairs. |
| Params.ParamsMapLastWins | src/main.rs:81 | When a key appears several times, the value from its last pair is kept. |
| StrOps.ReplaceAll | src/lib.rs:30 | Replacing a pattern by itself changes nothing, and a replacement at least as long as the pattern never shortens the text. |
| StrOps.FindChar | src/lib.rs:16 | `str::find` gives no index exactly when the character is absent, and otherwise the index of its first occurrence. |
| StrOps.Trim | src/main.rs:173 | The trimmed answer is no longer than the input and neither starts nor ends with whitespace. |
| StrOps.LowerChar | src/main.rs:173 | No ASCII uppercase letter remains, and other characters are kept. |
| StrOps.ToLower | src/main.rs:173 | The lowercased answer has the input's length, and each character is the lowercase of the one at the same place. |
| StrOps.SplitWhitespace | src/main.rs:256 | Every word of the split is non-empty and free of whitespace. |
| Template.PlaceholderAt | src/lib.rs:22 | A match found by the regex `#\{(\w+)\}` at an index really is a placeholder there. |
| Template.PlaceholderAtComplete | src/lib.rs:22 | Wherever a placeholder occurs, the matcher finds it with exactly that name. |
| Template.Matches | src/lib.rs:22-25 | Every captured name is a non-empty run of word characters, and there are at most a quarter as many captures as characters. `Template.MatchesSound` and `Template.MatchesComplete` show the captures are exactly the placeholders written in the template. |
| Template.MatchesEmptyIff | src/lib.rs:25 | The capture scan finds nothing exactly when the template holds no placeholder. |
| Template.MatchesSound | src/lib.rs:25-27 | Every captured name is a placeholder occurring in the template. |
| Template.MatchesComplete | src/lib.rs:22-25 | Every placeholder written in the template is captured: matches cannot overlap a later `#`, so the scan never skips one. |
| Template.SubstituteOkIffEveryPlaceholder | src/lib.rs:21-37 | Substitution succeeds exactly when every placeholder written in the template has a parameter. |
| Template.SubstituteAll | src/lib.rs:25-35 | The loop's error names one of the scanned names, and that name has no parameter. |
| Template.Substitute | src/lib.rs:21-37 | The error names a captured placeholder that has no parameter. |
| Template.SubstituteOkIff | src/lib.rs:21-37 | Substitution succeeds exactly when every captured name has a parameter. |
| Template.SubstituteReportsFirstMissing | src/lib.rs:29-33 | The error names the leftmost capture without a parameter, and no partial result is returned. |
| Template.SubstituteWithoutPlaceholders | src/lib.rs:21-37 | A template without placeholders comes back unchanged, whatever the parameters. |
| Template.NoHashNoPlaceholder | src/lib.rs:22 | Text without `#` holds no placeholder. |
| Template.SubstituteVariables | src/lib.rs:21-37 | The loop over a mutable running result, with its early return, computes the specified substitution. Its error names a captured name that has no parameter. |
| TemplateCases.SubstituteOnePlaceholder | src/lib.rs:21-37 | Text with one placeholder and no other `#` becomes the value spliced in, or a missing-parameter error naming it. |
| TemplateCases.SubstituteTwoPlaceholders | src/lib.rs:21-37 | Two distinct placeholders, with a first value free of `#`, are each replaced by their own value. |
| TemplateCases.AdjacencyExample | src/lib.rs:30 | Replacing into the running result can assemble a new placeholder: `#{#{a}b}` with `a` empty gives `#{b}`. |
| TemplateCases.SubstituteExampleOne | src/lib.rs:98-104 | `echo 'Merhaba #{name}!'` becomes `echo 'Merhaba Ali!'`. |
| TemplateCases.SubstituteExamplePort | src/lib.rs:106-107 | `server --port #{port}` becomes `server --port 8080`. |
| TemplateCases.SubstituteExampleGreet | src/lib.rs:109-110 | `greet #{name} on port #{port}` becomes `greet Ali on port 8080`. |
| TemplateCases.SubstituteExampleNoVariables | src/lib.rs:113-118 | A template without placeholders is returned as is under an empty map. |
| TemplateCases.SubstituteExampleMissing | src/lib.rs:120-126 | `echo 'Hello #{name}'` with no parameters fails. The message is `Required parameter not found: name`. |
| Workspace.ToDigits | src/main.rs:377 | The rendering of a number is non-empty. Every digit is below the base. A positive number has no leading zero. |
| Workspace.DigitsRoundTrip | src/main.rs:377 | Reading the digits back gives the number: the rendering is lossless. |
| Workspace.WorkspaceName | src/main.rs:377 | A workspace name starts with the reaper's `iz-` prefix and holds at least two digits and the `-` after it. |
| Workspace.WorkspaceNameShape | src/main.rs:371-377 | A workspace name carries the `iz-` prefix and contains no `/`. After the prefix it is decimal digits, `-`, then lowercase hex digits. |
| Workspace.WorkspaceNameInjective | src/main.rs:371-377 | Distinct (milliseconds, random value) pairs give distinct workspace names. |
| Workspace.DetermineTempDir | src/main.rs:343-359 | Fails only when no directory is configured and the working directory is unavailable. The message is `Failed to get current directory`. |
| Workspace.DetermineTempDirPriority | src/main.rs:343-359 | The base is the first present of flag, `IZTEMP` and configuration; otherwise `.iztemp` under the working directory. |
| Workspace.CreateUniqueTempDir | src/main.rs:361-389 | Succeeds exactly when the base exists or can be created and the workspace can be created. The workspace is `base` joined with the name, its last component carries the prefix, and both directories then exist. Each failure has its own message. |
| Paths.LastComponentOfJoin | src/main.rs:142-148 | The file name of `base.join(name)` is `name` when `name` is one component. |
| Paths.JoinPath | src/main.rs:142 | `base.join(name)` starts with the base and ends with the name. |
| Paths.LastComponent | src/main.rs:144-148 | `file_name` is a suffix of the path with no `/` in it. |
| Lifecycle.ArmStep | src/main.rs:91-94 | Arming stores the workspace path, overwriting any earlier one, and deletes nothing. |
| Lifecycle.PerformCleanupStep | src/main.rs:317-327 | Taking the marker empties it and deletes what it held, if anything, and nothing else. |
| Lifecycle.CleanupTempDirectoryStep | src/main.rs:329-341 | Clears the marker, then deletes the given path unless keeping it, whatever the marker held. |
| Lifecycle.PerformCleanupTwice | src/main.rs:317-327 | A second signal cleanup changes nothing: the take is idempotent. |
| Lifecycle.PerformCleanupAfterCleanup | src/main.rs:329-333 | Once the normal path has cleared the marker, a late signal cleanup deletes nothing. |
| Lifecycle.ShouldKeep | src/main.rs:87 | Keep exactly when the flag is set or the configuration says `keep: true`. |
| Lifecycle.ExitCodeFor | src/main.rs:295-306 | The exit code is 128 plus the signal number. |
| Lifecycle.ExitCodesDistinct | src/main.rs:299-304 | SIGINT exits 130 and SIGTERM exits 143; the codes tell the signals apart. |
| Lifecycle.KeepNeverArms | src/main.rs:91-104 | In keep mode the marker is never armed and no watcher is started, so no run exits with a signal exit code. |
| Lifecycle.GuardedCleanupStep | src/main.rs:317-341 | The intended `cleanup_temp_directory` empties the marker and deletes only what the marker held, and nothing when keeping. |
| Lifecycle.GuardedCleanupRacesSafely | src/main.rs:317-341 | The guarded cleanup and the signal cleanup, in either order, delete what the marker held at most once between them. |
| Lifecycle.CleanupAfterSignalCleanupDeletesAgain | src/main.rs:317-341 | As written, `cleanup_temp_directory` after a signal cleanup calls `remove_dir_all` on the workspace a second time, which then finds it gone. |
| Lifecycle.AsWrittenRun | src/main.rs:91-118 | A run as written deletes nothing but its own workspace. |
| Lifecycle.GuardedRun | src/main.rs:91-118 | The corrected run deletes nothing but its own workspace. |
| Lifecycle.AsWrittenRunDeletions | src/main.rs:91-118 | A run as written calls `remove_dir_all` on the workspace at most twice. It calls it twice exactly when the workspace is not kept, the work succeeds and the signal cleanup finishes before the main task's cleanup; the second call finds it gone. |
| Lifecycle.AsWrittenRunDeletesTwiceInRace | src/main.rs:106-111 | A signal as a successful command finishes makes both cleanups call `remove_dir_all` on the workspace, the second finding it gone; the corrected run calls it once. |
| Lifecycle.AsWrittenRunLeaksOnFailure | src/main.rs:106-111 | As written, a failed checkout or command leaves the workspace undeleted and the marker still armed. |
| Lifecycle.GuardedRunDeletesExactlyOnce | src/main.rs:91-118 | With the guarded cleanup, also on the failure path, a non-kept workspace is deleted exactly once on every path and every modelled signal timing, and a kept one never. |
| Lifecycle.GuardedRunAgreesOnSuccess | src/main.rs:106-111 | On success the corrected run agrees with the written one, except in the race, where the written one calls `remove_dir_all` on the workspace once more. |
| Lifecycle.GuardedRunExitCode | src/main.rs:98-104 | A signal exit code appears exactly when a watcher was started and a signal arrived. It is the code of that signal. |
| Lifecycle.CleanupState.Arm | src/main.rs:91-94 | The marker object's new state is the arming step applied to its old state. |
| Lifecycle.CleanupState.PerformCleanup | src/main.rs:317-327 | The marker object's new state is the take-and-delete step applied to its old state. |
| Lifecycle.CleanupState.CleanupTempDirectory | src/main.rs:329-341 | The marker object's new state is the clear-then-delete step applied to its old state. |
| Lifecycle.CleanupState.GuardedCleanup | src/main.rs:329-341 | The marker object's new state is the guarded cleanup step applied to its old state. |
| Lifecycle.CleanupState.RunAsWritten | src/main.rs:91-118 | Driving the marker object in the order of `run_command` yields the written run's outcome. |
| Lifecycle.CleanupState.Run | src/main.rs:91-118 | The same with the guarded cleanup, also on the failure path, yielding the corrected outcome. |
| Reaper.IsSelectedByName | src/main.rs:142-148 | An entry is selected exactly when it is a directory whose name starts with `iz-`. |
| Reaper.SelectMembership | src/main.rs:139-152 | A path is to be cleaned exactly when it is the joined path of a selected entry. |
| Reaper.SelectEmptyIff | src/main.rs:154-160 | Nothing is to be cleaned exactly when no entry is selected, whatever else the directory holds. |
| Reaper.IsSelected | src/main.rs:142-148 | The selection test on the file name of the joined path; `Reaper.IsSelectedByName` states it on the entry's own name. |
| Reaper.Select | src/main.rs:139-152 | The listing yields at most one path per entry. |
| Reaper.Confirmed | src/main.rs:173-175 | The answer, trimmed and lowercased, is `y` or `yes`; a confirming answer trims to one or three characters and starts with `y` or `Y`. |
| Reaper.ConfirmedAround | src/main.rs:171-175 | With any surrounding whitespace, the answer confirms exactly when the word in it lowercases to `y` or `yes`. |
| Reaper.ConfirmedYes | src/main.rs:171-175 | The line `y` confirms. |
| Reaper.ConfirmedUpperYes | src/main.rs:171-175 | `YES` after spaces confirms. |
| Reaper.DeclinedNo | src/main.rs:175-178 | `n` cancels. |
| Reaper.DeclinedLonger | src/main.rs:175-178 | `yess` cancels: only the exact words confirm. |
| Reaper.BlankDeclines | src/main.rs:175-178 | An empty answer cancels: the default is No. |
| Reaper.CountIn | src/main.rs:181-195 | The number of successful removals is at most the number of items. |
| Reaper.CountInAll | src/main.rs:181-195 | When every removal succeeds, all items count as cleaned. |
| Reaper.CollectItems | src/main.rs:139-152 | The listing loop returns the selected paths in listing order. The first entry error stops it with that error. |
| Reaper.RemoveItems | src/main.rs:181-195 | Every item is attempted in order. Successes are counted, and cleaned plus failed is the number of items. |
| Reaper.CleanCommand | src/main.rs:127-206 | One outcome per case: a missing base returns early; a read error gives its message; the first entry error is returned; nothing to clean; a prompt error; a cancel. Otherwise the selected items are removed and the counts reported. Nothing is removed before confirmation. |
| Reaper.AllocatedWorkspaceIsSelected | src/main.rs:142-148 | Every workspace the allocator creates is selected by the reaper, as the very path the allocator returned. |
| Reaper.CleanForceExample | tests/integration_tests.rs:211-243 | Of `iz-test1`, `iz-test2` and `other-folder`, the first two are selected. When both removals succeed, 2 are cleaned. |
| Runner.SplitCommand | src/main.rs:256-264 | An empty-command error exactly when the command is all whitespace. Otherwise the program and its arguments are the whitespace-split words, none of them empty or holding whitespace. |
| Runner.SplitCommandOfWords | src/main.rs:256-264 | Words joined by single spaces split back into the same program and arguments. |
| Runner.ExecuteCommand | src/main.rs:255-288 | An empty command is rejected before spawning. A process that cannot be started gives the spawn error with its reason, and one that exits unsuccessfully gives the command-failed error with its status. Success exactly when the split succeeds and the process starts and exits successfully, and then the result is the split. |
| Runner.SplitCommandExample | tests/integration_tests.rs:85-107 | `echo 'Hello from test project!'` runs `echo` with four arguments. |
| Materialize.AttemptsParentsFirst | src/main.rs:237-253 | The pre-order walk attempts every directory after its parent. |
| Materialize.AttemptsComplete | src/main.rs:237-253 | Every sub-directory of the tree is attempted. |
| Materialize.AttemptsSound | src/main.rs:237-253 | Only sub-directories of the tree are attempted. |
| Materialize.Failures | src/main.rs:241-246 | The warnings are exactly the attempted directories whose creation fails. |
| Materialize.CreateDirectoryStructure | src/main.rs:237-253 | Always succeeds. The warnings are exactly the tree's sub-directories whose creation fails. |
| Cli.Dispatch | src/main.rs:47-63 | A first argument `clean` runs the reaper. Anything else is a commit id, and without a command it gives the usage error. |
| Cli.CleanShadowsCommitId | src/main.rs:52-54 | A commit id spelled `clean` cannot be run; the reaper always wins. |
| Cli.FinalCommand | src/main.rs:76-82 | An unknown command name gives its own message. Otherwise success exactly when every placeholder has a parameter, and the result is the substitution. |
| Cli.FinalCommandExample | tests/integration_tests.rs:111-130 | `greet` with `name=Integration` gives `echo 'Hello Integration!'`. |
| Cli.PrepareRun | src/main.rs:74-89 | Failures come in the source's order: configuration, command lookup, substitution, base directory, each with its own error. The result is a plan exactly when all four succeed, and the plan holds the substituted command, the keep decision and the chosen base. |

## Left out

- Git is not modelled: opening the repository, resolving the commit and `checkout_tree`. Only their combined success or failure enters the run.
- The tree walk takes the commit tree as a value.
- Process spawning, the working directory of the child and relaying its output are not modelled. The spawn outcome is a parameter.
- Concurrency between the tokio watcher and the main task is not modelled. Each marker access is one atomic step. The signal's arrival is placed at one of four points: never; while the workspace is in use; as the work ends, with the watcher's cleanup finishing before the main task's cleanup or early return; or after the main task is done with the workspace. A signal arriving inside `cleanup_temp_directory`, between clearing the marker and the removal, is not modelled. In both versions the watcher then finds the marker empty and exits, and the workspace is left behind.
- A signal arriving after the workspace is created and armed (src/main.rs:89-94) but before the spawned watcher has registered its handlers (src/main.rs:292-293) is not modelled. It gets the signal's default action, and the armed workspace is left behind in both versions. A handler registration error, discarded by `let _ =` at src/main.rs:100, is not modelled either.
- In the race, which of the two exits ends the process is not modelled: the watcher's `std::process::exit` is taken.
- A poisoned mutex is not modelled; `lock()` is taken to succeed.
- `std::process::exit` is modelled as an exit value of the run.
- The default action of a signal in keep mode is modelled as an exit value of the run.
- The Windows `ctrl_c` handler is not modelled; exit 130 is covered by the Unix case.
- Reading and parsing `izconfig.json` (serde) is not modelled. The model starts from the parsed configuration or a read error.
- Argument parsing by clap is not modelled.
- The clock, `rand::random`, `IZTEMP`, the working directory and standard input are parameters.
- The filesystem has several simplifications:
  - directory existence is a set of paths;
  - the outcome of each `create_dir_all` and `remove_dir_all` is a boolean or a set of removable paths;
  - `create_dir_all` creating missing parents is not modelled;
  - the order of `read_dir` entries is taken as given.
- Paths are Unix strings. `Path::join` is modelled for one relative component, and `file_name` as the text after the last `/`. Absolute and `..` components are not modelled.
- `Materialize.CreateDirectoryStructure` writes directories as component lists below the workspace, not as joined paths.
- `StrOps.IsWhitespace`, `StrOps.IsWordChar` and `StrOps.ToLower` are the ASCII versions of Rust's `char::is_whitespace`, the regex class `\w` and `to_lowercase`. Non-ASCII whitespace, word characters and case mappings are not modelled.
- `Lifecycle.ArmStep` overwrites a marker that is already armed, as the code does; arming happens once per run, so no run arms twice.
- `Template.Substitute` does not promise that no placeholder syntax remains after substitution. The code can assemble a new placeholder from adjacent text; `TemplateCases.AdjacencyExample` exhibits this.
- `Workspace.WorkspaceName` takes the millisecond timestamp as an unbounded natural number; `as_millis` returns a `u128`, which cannot overflow in practice.
- Output messages on standard output and standard error are not modelled, except the error messages that are returned as values.

## Findings

| source | as written | input that shows it | evidently intended | confidence | as-written member | corrected member |
|---|---|---|---|---|---|---|
| src/main.rs:106-111 | `run_command` returns a checkout or command failure through `?` before `cleanup_temp_directory`. The marker stays armed and the watcher is dropped when `main` returns, so nothing deletes the workspace. | A non-kept run whose command exits non-zero (or whose commit id does not resolve), with no signal. | A workspace that is not kept is removed on every path, failures included. | not executed | Lifecycle.AsWrittenRunLeaksOnFailure | Lifecycle.GuardedRunDeletesExactlyOnce |
| src/main.rs:329-341 | `cleanup_temp_directory` removes its `path` argument whatever the marker held. When SIGINT or SIGTERM arrives as a successful command finishes, the watcher's `perform_cleanup` removes the workspace, and the main task's `cleanup_temp_directory` runs before the watcher's exit and calls `remove_dir_all` on it a second time, which then finds it gone and prints `Error cleaning temporary directory`. | A non-kept run whose command succeeds, with SIGINT delivered as the child exits. | `remove_dir_all` is called on the workspace once; the main task's cleanup removes only what it takes from the marker. | not executed | Lifecycle.AsWrittenRunDeletesTwiceInRace | Lifecycle.GuardedRunDeletesExactlyOnce |
