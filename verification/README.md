# hey-cli workflow engine in Dafny

This project models the workflow engine of the `hey` command-line client.

A run turns the parsed flags into one of four branches:

- reset every shell's setup;
- print the version;
- answer one of the two internal sentinel queries (`--get-stdout`, `--get-prompt`);
- run the normal flow.

The normal flow has these stages:

1. It checks the reported setup-script version against the marker in the shell's embedded asset.
2. If the check fails, it installs the setup script (fish only) and stops.
3. Otherwise it validates the ask, builds an empty context and asks the server.
4. It publishes the returned command as the final prompt.

Every effect goes through the port. The port holds:

- an append-only log;
- a final-prompt slot;
- a stdout renderer that puts the `hey-cli-prompt-start` sentinel line before the prompt;
- three file operations: overwrite, remove every literal match, and append on a fresh line.

How the model is built:

- **Pure functions.** Every stage is a pure function from a `Port` value to a `Step`. A `Step` holds the port after the stage's effects and a `Result`. File effects made before a failure persist, so a failing step still carries a port.
- **Two port modes.**
  - `Production` performs file effects on a `FileSystem`. A `FileSystem` is a map from path to content, plus the paths that cannot be written.
  - `Recording` is the port the crate's tests compile against. Its file operations are successful no-ops, and it answers the server with `echo "<ask>"`.
- **Panics.** The source panics in a few places: `todo!()` for unsupported shells, and a missing version marker in an asset. These become an explicit `Panic` error, so `Run` is total.
- **Outside inputs.** The server is a function parameter (an oracle). So are the asset texts, the home directory, the shell that `ShellName::detect` would report, and the crate version. They are grouped in `Env`.
- **Modules.** They follow the crate: `Shells` and `Ports` for `utils`, one module per stage, `WhatToDo` for the branch enums, and `Cli` for `run` and the sentinel queries in `main.rs`.
- **Generic helpers.** `Text` holds trimming, literal search, split, join, line splitting and UTF-8 length.
- **Scenarios.** `Scenarios` replays the crate's end-to-end tests as whole runs through the recording port.

## Model

| member | source | states |
|---|---|---|
| Shells.ParseShellName | cli/src/utils/mod.rs:14-24 | A parsed name displays as the input; an unknown name fails with strum's "Matching variant not found" |
| Shells.ShellNameRoundTrip | cli/src/utils/mod.rs:14-24 | Parsing a shell's snake_case name gives the shell back; parsing succeeds exactly on the four displayed names |
| Shells.AllShellsEnumerates | cli/src/utils/mod.rs:17-22 | Iteration lists each of the four shells exactly once, in the order fish, bash, zsh, power_shell |
| Shells.SetupScriptContent | cli/src/utils/mod.rs:58-66 | Fish and zsh get their own asset text; any other shell is a panic |
| Shells.FishSetupVersion | cli/src/utils/mod.rs:29-40 | The version is the last whitespace-separated field of the first asset line holding `set hey_setup_version`; it is a panic exactly when no line holds the marker |
| Shells.ZshSetupVersion | cli/src/utils/mod.rs:41-52 | It succeeds exactly when the first line holding `local hey_setup_version=` has a double quote. The version is then the text after the first quote, up to the second quote or the line's end, so it has no quote in it. A marker line without a quote panics on the failed `unwrap`; no marker line panics with the missing-version message |
| Shells.ExpectedSetupVersion | cli/src/utils/mod.rs:26-55 | Dispatches fish and zsh to their extractors; bash and power_shell are a panic |
| Ports.NewPort | cli/src/utils/mod.rs:74-81 | A new port has no logs and no final prompt |
| Ports.Log | cli/src/utils/mod.rs:98-102 | The message becomes the last log line; earlier lines, the final prompt and the files are unchanged |
| Ports.SetFinalPrompt | cli/src/utils/mod.rs:105-108 | The final prompt becomes the given value, replacing any earlier one; logs and files are unchanged |
| Ports.ToStdout | cli/src/utils/mod.rs:110-119 | Without a final prompt the output is exactly the newline-joined logs. With one, it is those logs, a newline, the sentinel, a newline and the prompt |
| Ports.OverwriteFile | cli/src/utils/mod.rs:121-142 | Recording: no effect. Production: either the file holds exactly the content and nothing else changed, or the write is refused and the port is untouched |
| Ports.RemoveMatchesFromFile | cli/src/utils/mod.rs:144-164 | Production: a missing file counts as empty and is created; the new content deletes every non-overlapping literal match; content without a match is kept as it is; only that path changes |
| Ports.AppendToFile | cli/src/utils/mod.rs:166-189 | A missing file fails with NotFound. Otherwise the old content is a prefix and the appended text the suffix, with one newline inserted only when the old content lacked a trailing one |
| Ports.DeleteFile | cli/src/reset/mod.rs:26 | Deletion succeeds exactly when the file exists and is writable; it then removes only that path. A missing file reports NotFound, a protected one PermissionDenied |
| Ports.JoinPathShape | cli/src/reset/mod.rs:18-20 | A joined path is the home directory, at most one `/`, then the relative path; a non-empty home is always separated from it by `/`, and an empty home gives the relative path alone |
| Wrappers.IoErrorText | cli/src/reset/mod.rs:26-31 | The note's error text differs for a missing and a protected file, from the first character on |
| Ports.JoinPathInjective | cli/src/reset/mod.rs:18-20 | Different relative paths under the same home give different paths |
| Ports.FramedTrans | cli/src/utils/mod.rs:121-189 | The paths two successive file effects may touch compose to the union of their frames |
| Ports.FramedEqual | cli/src/utils/mod.rs:121-189 | A file system changed only within a frame, where every framed path is unchanged, is the same file system |
| Ports.AskServerForPrompt | cli/src/utils/mod.rs:191-203 | The recording port answers `echo "<ask>"`; production defers to the server oracle |
| ParseArgs.ReportedShell | cli/src/parse_args/mod.rs:48-54 | A shell is built exactly when both name and setup version are given; a bad name is an error only in that case |
| ParseArgs.JoinedAsk | cli/src/parse_args/mod.rs:70 | No words give the empty ask; otherwise the ask starts with the first word |
| ParseArgs.Next | cli/src/parse_args/mod.rs:46-89 | A bad shell name fails first. Then reset beats version, version beats get-stdout, and get-stdout beats get-prompt. Version carries `<name>@<version>` iff a shell was built. The normal flow carries that shell and the ask joined with single spaces |
| ParseArgs.AskWordsRecovered | cli/src/parse_args/mod.rs:70 | Joining space-free words with single spaces loses nothing: splitting at spaces gives the words back |
| ParseArgs.SplitAfterWord | cli/src/parse_args/mod.rs:70 | A space-free first word followed by a space is the first piece of the split |
| CheckSetup.Next | cli/src/check_setup/mod.rs:14-32 | No shell: logs "Setup script not installed" and installs the detected shell. Version differs from the asset's: logs "Setup script outdated" and installs that shell. Exact match: goes on to the ask, logging nothing. At most one line is logged and no file changes |
| CheckSetup.ProceedsIffUpToDate | cli/src/check_setup/mod.rs:22-31 | The ask stage is reached exactly when a shell was reported and its version equals the expected one, and then the ask is passed on unchanged |
| CheckSetup.AnyOtherVersionIsOutdated | cli/src/check_setup/mod.rs:22-27 | Any other reported version, older, newer, empty or garbled, leads to the installer for that shell |
| CheckAsk.Next | cli/src/check_ask/mod.rs:13-29 | An ask succeeds iff it has no newline and at most 100 UTF-8 bytes. The newline error comes first, whatever the length. A success passes the same ask on with an empty context |
| CheckAsk.NoNewLine | cli/src/check_ask/mod.rs:15 | Searching for the one-character string "\n" is the same as the newline character occurring |
| CheckAsk.LengthBoundary | cli/src/check_ask/mod.rs:11-26 | For an ASCII ask without newline the check passes iff it has at most 100 characters; exactly 100 passes |
| CheckAsk.MaxLengthMessage | cli/src/check_ask/mod.rs:22-25 | The length error reads "Invalid ask: max length of 100 characters reached" |
| GenerateContext.New | cli/src/generate_context/mod.rs:13-20 | Keeps the ask and starts with an empty context |
| GenerateContext.Next | cli/src/generate_context/mod.rs:22-30 | Never fails; passes ask and context on unchanged |
| CallServer.RequestOf | cli/src/call_server/mod.rs:16-19 | The request carries the stage's ask and context |
| CallServer.Next | cli/src/call_server/mod.rs:14-28 | A server error is passed on and no prompt is made; otherwise the prompt is the response's prompt value; the recording port yields `echo "<ask>"` |
| Prompt.Next | cli/src/prompt/mod.rs:9-14 | Sets the final prompt to the value, always succeeds, leaves logs and files alone |
| SetupScript.ChosenShell | cli/src/setup_script/mod.rs:8-11 | The given shell if any, otherwise what detection reports |
| SetupScript.ConfigAfterInstall | cli/src/setup_script/mod.rs:22-29 | The new config starts with the old one minus every source line, and ends with the source line on a line of its own |
| SetupScript.InstallFish | cli/src/setup_script/mod.rs:16-29 | No home directory fails before any effect. Production touches only the setup file and config.fish, and succeeds iff both are writable. Then the setup file holds the asset and config.fish holds the rewritten config |
| SetupScript.Next | cli/src/setup_script/mod.rs:6-39 | A detection failure is returned with nothing logged. A non-fish shell, zsh included, is announced and then refused as "not yet supported", with no file effect. No final prompt is ever set |
| SetupScript.NextInstallsFish | cli/src/setup_script/mod.rs:13-37 | For fish the install's files and result are those of the fish installer. Logs are the announcement then, on success only, the two success lines |
| SetupScript.NextAnnouncesShell | cli/src/setup_script/mod.rs:13 | Once a shell is chosen, "Installing setup script for shell: <name>" is the first line logged |
| SetupScript.InstallAndReport | cli/src/setup_script/mod.rs:16-37 | The two success lines are logged only when the installer succeeds, and its files and result are kept |
| SetupScript.RecordingInstallSucceeds | cli/src/setup_script/mod.rs:16-29 | Through the recording port the fish install succeeds and changes nothing |
| SetupScript.InstallIgnoresLogs | cli/src/setup_script/mod.rs:13-29 | The announcement logged before the install does not influence its files or result |
| SetupScript.InstallLeavesOneSourceLine | cli/src/setup_script/mod.rs:22-29 | After installing, config.fish holds the source line exactly once; removing it leaves the cleaned old config on a full line |
| SetupScript.ReinstallKeepsConfig | cli/src/setup_script/mod.rs:22-29 | Rewriting an installed config again gives the same config |
| SetupScript.InstallOnCleanConfig | cli/src/setup_script/mod.rs:22-29 | On a config without the line and ending in a newline, installing just appends the line |
| SetupScript.InstallTwiceSameFiles | cli/src/setup_script/mod.rs:16-29 | Installing twice in production leaves the same files as installing once |
| Reset.RemoveEach | cli/src/reset/mod.rs:41-43 | Removing lines never lengthens the text |
| Reset.RemoveEachAbsent | cli/src/reset/mod.rs:41-43 | Removing lines that do not occur leaves the text as it is |
| Reset.RemoveLines | cli/src/reset/mod.rs:24-43 | Line removals touch only the config; the first refused write stops the cleanup, leaving the port untouched |
| Reset.DeleteSetupFile | cli/src/reset/mod.rs:26-31 | The setup file is gone unless it is protected. A `Note:` line is logged exactly when the deletion fails, whether the file is missing or protected. The loop goes on either way |
| Reset.CleanConfig | cli/src/reset/mod.rs:17-50 | Succeeds iff the config is writable, or always in recording mode, where deletion still acts. Touches only the config and setup file, and logs at most one note |
| Reset.CleanShell | cli/src/reset/mod.rs:13-56 | Logs "Cleaning up <name> shell configuration..." first. Touches only that shell's paths, and succeeds iff its config can be cleaned |
| Reset.NothingToClean | cli/src/reset/mod.rs:52-55 | Logs "No cleanup needed for <name> shell" and changes no file |
| Reset.NoFilesForOtherShells | cli/src/reset/mod.rs:52-55 | Bash and power_shell get only the announcement and the no-cleanup line |
| Reset.CleanShells | cli/src/reset/mod.rs:13-57 | Touches only the listed shells' paths. Succeeds iff every shell's config can be cleaned, and then announces each shell in order |
| Reset.Next | cli/src/reset/mod.rs:7-62 | The opening line is logged first. A missing home directory fails right after it. The final prompt is never set |
| Reset.Conclude | cli/src/reset/mod.rs:59-61 | A successful loop is followed by the two closing lines; a failure adds nothing |
| Reset.CleaningUpAll | cli/src/reset/mod.rs:13-14 | One "Cleaning up <name> shell configuration..." line per shell, in the order of the shells |
| Reset.ResetFrames | cli/src/reset/mod.rs:13-57 | A reset touches only the fish and zsh setup and config paths |
| Reset.ResetSucceedsIff | cli/src/reset/mod.rs:11-61 | With a home directory, reset succeeds iff every shell's config can be cleaned |
| Reset.ResetAnnouncesEveryShell | cli/src/reset/mod.rs:9-60 | A successful reset announces fish, bash, zsh, power_shell in that order and ends with the two closing lines |
| Reset.AllAnnouncements | cli/src/reset/mod.rs:13-14 | The four announcement texts, written out |
| Reset.ResetPathsDistinct | cli/src/reset/mod.rs:18-35 | The fish and zsh paths are four distinct files |
| Reset.CutAppendedSourceLine | cli/src/reset/mod.rs:21-24 | Removing the source line from a clean config with the line appended gives the clean config back |
| Reset.FishCleanupRestores | cli/src/reset/mod.rs:17-31 | On such a config, the fish cleanup restores the config and deletes the setup file |
| Reset.ResetCutsFishInstall | cli/src/reset/mod.rs:7-62 | A whole reset does the same, since later shells never touch the fish files |
| Reset.LaterShellsSpareFish | cli/src/reset/mod.rs:33-55 | Shells after fish never touch the fish files |
| Reset.InstallThenResetRestoresFish | cli/src/reset/mod.rs:17-31 | Installing fish on a clean config that ends with a newline, then resetting, restores config.fish and leaves no setup file |
| Cli.StdoutBeforePrompt | cli/src/main.rs:65-74 | Without a sentinel it is the whole input trimmed; with one, it is the text before the first sentinel, trimmed |
| Cli.PromptAfterSentinel | cli/src/main.rs:75-81 | Without a sentinel it is the empty string |
| Cli.PromptFollowsLastSentinel | cli/src/main.rs:75-81 | With a sentinel it is the trimmed text after a sentinel occurrence that no later occurrence follows |
| Cli.PromptIsLastPiece | cli/src/main.rs:75-81 | With a sentinel it is the trimmed last piece of the split at the sentinel |
| Cli.StdoutRoundTrip | cli/src/main.rs:65-81 | Reading a port's printed output back through the two queries gives the trimmed logs and the trimmed prompt, when neither contains the sentinel |
| Cli.PrintedPieces | cli/src/utils/mod.rs:110-119 | Logs, a newline, the sentinel and the newline-led prompt split back into the logs and the prompt |
| Cli.SentinelPieces | cli/src/main.rs:65-81 | Text ending with a newline and free of the sentinel, then the sentinel, then more free text, splits into exactly those two pieces |
| Cli.AskFlow | cli/src/main.rs:89-94 | Validation, context, server and prompt in sequence. It fails with the exact validation message, or with the server's error, leaving the port as it was; a server failure is returned as the server reported it. It succeeds iff the ask is valid and the server answers, and then the final prompt is the answer |
| Cli.CheckSetupFlow | cli/src/main.rs:83-96 | An up-to-date setup is exactly the ask path; any other setup never sets the final prompt |
| Cli.SetupFlowAsksIffUpToDate | cli/src/main.rs:83-96 | An up-to-date setup runs the ask path with no log; anything else runs the installer, after the check's line, and sets no final prompt |
| Cli.SetupFlowPromptOnlyOnSuccess | cli/src/main.rs:83-96 | The setup flow sets a final prompt only when it succeeds |
| Cli.SetupFlowFiles | cli/src/main.rs:83-96 | The ask path changes no file; only the installer does |
| Cli.SetupFlowWithoutShell | cli/src/main.rs:83-88 | With no reported shell, "Setup script not installed" is logged and the detected shell's installer runs |
| Cli.SetupFlowOutdated | cli/src/main.rs:83-88 | A mismatched version logs "Setup script outdated" and runs that shell's installer |
| Cli.InstallKeepsRecordingFiles | cli/src/setup_script/mod.rs:16-29 | Through the recording port the installer changes no file |
| Cli.VersionLines | cli/src/main.rs:51-59 | The first line is `hey-cli <version>`; a second line `setup-script <setup>` appears iff a setup string is present |
| Cli.PrintVersion | cli/src/main.rs:51-59 | The version lines are logged in order; nothing else changes |
| Cli.Run | cli/src/main.rs:45-100 | A bad shell name fails before anything is logged; reset runs only the reset stage; only reset and the normal flow change files; only the normal flow sets a final prompt. The other branches are stated by the `Run*` lemmas below |
| Cli.RunRejectsUnknownShell | cli/src/main.rs:45-46 | A bad shell name fails the run before anything is logged, whatever other flags are set |
| Cli.RunReset | cli/src/main.rs:48-50 | Reset runs only the reset stage |
| Cli.RunVersion | cli/src/main.rs:51-59 | The version flag logs the version lines, with `<name>@<version>` when a shell was reported, and succeeds without touching files or prompt |
| Cli.RunInternalQueries | cli/src/main.rs:65-81 | get-stdout logs the text before the first sentinel of the joined words; get-prompt logs the text after the last one |
| Cli.RunNormalFlow | cli/src/main.rs:83-96 | Without those flags the run is the setup check on the reported shell and the joined ask |
| Cli.RunPromptOnlyOnSuccess | cli/src/main.rs:45-100 | Only a successful normal flow sets a final prompt |
| Cli.RunFilesOnlyResetOrInstall | cli/src/main.rs:45-100 | Only reset and the normal flow's installer change files |
| Cli.RunServesUpToDateAsk | cli/src/main.rs:83-96 | A normal run with an up-to-date setup is exactly the ask path on the joined words |
| Scenarios.VersionFlagAlone | cli/src/main.rs:113-161 | The version flag without both shell name and setup version prints only `hey-cli <version>` |
| Scenarios.VersionFlagWithShell | cli/src/main.rs:163-182 | With fish and 1.0.0 it prints a second line `setup-script fish@1.0.0` |
| Scenarios.UpToDateFishAsk | cli/src/main.rs:313-341 | A fish setup at the asset's version 0.1.0 goes straight to the ask path |
| Scenarios.ServedAsk | cli/src/main.rs:313-341 | A valid ask through the recording port prints the sentinel line and `echo "<ask>"`, and changes no file |
| Scenarios.AskWithShell | cli/src/main.rs:313-341 | `print working directory` prints `\nhey-cli-prompt-start\necho "print working directory"` |
| Scenarios.RejectedAsk | cli/src/main.rs:281-310 | An invalid ask fails with the validation message and leaves the fresh port as it was |
| Scenarios.AskWithNewline | cli/src/main.rs:281-310 | An ask with newlines fails with "Invalid ask: new line character is not allowed" |
| Scenarios.AskTooLong | cli/src/main.rs:281-310 | Twenty-one words `fish` (104 bytes) fail with "Invalid ask: max length of 100 characters reached" |
| Scenarios.OutdatedFishReinstalls | cli/src/main.rs:83-88 | An outdated fish setup logs the outdated line and the three installer lines, for fish alone |
| Scenarios.RecordedFishInstall | cli/src/setup_script/mod.rs:13-37 | Through the recording port, the fish installer logs its announcement and the two success lines and succeeds |
| Scenarios.NoShellInstallsDetected | cli/src/check_setup/mod.rs:16-19 | Without a reported shell the detected fish is installed, and no other shell |
| Scenarios.NoShellRefusesOtherShells | cli/src/setup_script/mod.rs:31-33 | A detected shell other than fish is announced and then refused |
| Text.Trim | cli/src/main.rs:67-71 | Trimming never lengthens a text |
| Text.TrimSpec | cli/src/main.rs:67-71 | The trimmed text is the slice between the first and last non-whitespace characters; it is empty iff the text is all whitespace |
| Text.TrimUnique | cli/src/main.rs:67-71 | Any slice bounded by whitespace-only ends and non-whitespace edge characters is the trim |
| Text.TrimAbsorbsWhitespace | cli/src/main.rs:67-71 | Whitespace added on either side does not change the trim |
| Text.FindFirstSpec | cli/src/main.rs:67-68 | The first match found is a match and no match precedes it; no result means no match anywhere |
| Text.Split | cli/src/main.rs:67-68 | There is a single piece iff the pattern does not occur |
| Text.SplitPiecesMatchFree | cli/src/main.rs:68 | No piece of a split contains the pattern |
| Text.JoinSplit | cli/src/main.rs:68 | Joining the pieces with the pattern gives the text back |
| Text.SplitLastPiece | cli/src/main.rs:76-77 | The last piece is the text after some occurrence of the pattern |
| Text.SplitAppendedPattern | cli/src/utils/mod.rs:159-161 | A pattern-free text followed by the pattern splits into that text and the empty string, and has one match |
| Text.Join | cli/src/parse_args/mod.rs:70 | A join is at least as long as its parts together, plus a separator when there are two or more |
| Text.JoinLength | cli/src/parse_args/mod.rs:70 | A join's length is the parts' length plus one separator between each pair |
| Text.RemoveAll | cli/src/utils/mod.rs:159-161 | Content without a match is unchanged; a match makes it strictly shorter |
| Text.RemoveAllDeletesMatches | cli/src/utils/mod.rs:159-161 | The removal is the concatenation of the match-free pieces that the matches separate |
| Text.RemoveAllIdempotentIff | cli/src/utils/mod.rs:159-161 | Removing twice equals removing once iff the first removal leaves no match |
| Text.RemoveAllNotIdempotent | cli/src/utils/mod.rs:159-161 | Removing "ab" from "aabb" leaves "ab", so removal is not idempotent in general |
| Text.Lines | cli/src/utils/mod.rs:32 | No line holds a newline |
| Text.FirstContaining | cli/src/utils/mod.rs:32-39 | The first line holding the marker; none iff no line holds it |
| Text.LastField | cli/src/utils/mod.rs:35 | The last whitespace-separated field: a maximal run of non-whitespace followed only by whitespace; none iff all whitespace |
| Text.Utf8Length | cli/src/check_ask/mod.rs:21 | The UTF-8 byte length is between one and four bytes per character, and equals the character count for ASCII |
| Text.NatToString | cli/src/check_ask/mod.rs:22-25 | Decimal digits without a leading zero |

## Left out

- The `Mutex`, the async runtime and tracing. Execution is sequential, so a port value threads through the stages.
- `main`'s per-line `println!` (cli/src/main.rs:37-41). The model stops at the text `to_stdout_format` returns.
- Argument parsing by clap and the process exit code. A run starts from the parsed flag values, and failure is an `Err` result.
- `ask_server_for_prompt` in production, with its health-check retry loop and sleeps. The server is an oracle parameter; the recording port's echo answer is modelled.
- The request/response DTO crate. A request is an (ask, context) pair and a response carries the prompt text.
- `create_dir_all`, and every I/O failure other than a missing file and a protected path. For those two kinds the note line carries the Linux text, "No such file or directory (os error 2)" and "Permission denied (os error 13)"; the texts of other systems are not modelled.
- File permissions are not modelled beyond a set of protected paths that every write or deletion to them fails on.
- The asset texts embedded with `include_str!`, the home directory lookup, `ShellName::detect` and the crate version. They are inputs grouped in `Env`, because their sources are not part of this model.
- `Shells.Name` covers strum's snake_case display only for the four shells; no other spelling is accepted.
- Text.Trim uses Rust's `char::is_whitespace` set written out by code point; it assumes no other Unicode behaviour.
- The three end-to-end tests at cli/src/main.rs:184-279 expect the installer to visit every shell. The installer code installs only the chosen shell and refuses every shell but fish. The model follows the code: see `Scenarios.OutdatedFishReinstalls` and `Scenarios.NoShellRefusesOtherShells`.
- Text.RemoveAll: stated as removal of non-overlapping left-to-right literal matches. It is not idempotent in general (`Text.RemoveAllNotIdempotent`), so idempotence is proved only under the no-new-match condition.
- Reset.InstallThenResetRestoresFish: install followed by reset restores config.fish only for a config that ends with a newline and lacks the source line. Otherwise the appended newline or an earlier source line is not restored.
- The server, the shell setup scripts and the build tooling in the rest of the repository.
