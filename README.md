# Eureka workflow engine

A model of `Eureka`, the engine behind the idea-capture command-line tool. One call
to `run` either clears stored configuration keys, or opens the idea file in a pager
and then continues. A run that continues either completes first-time setup, asking
only for the missing repository path and branch, or captures an idea. Capturing an
idea reads a one-line summary, opens `<repository>/README.md` in the editor, and then
checks out the branch, adds, commits with the summary and pushes.

The project has four modules:

- `Types` (`types.dfy`): configuration keys, run options, the recorded events, the
  git session, the calls that can fail, and the two error tiers. A propagated
  `io::Error` becomes `Err`; a panic becomes `Fatal`.
- `Spec` (`spec.dfy`): each operation as a pure function from the state before it
  to its outcome and the state after it. A state holds:
  - the configuration map and whether its directory exists;
  - the pending input lines;
  - the recorded events;
  - the git session, which logs its own calls.
- `Engine` (`engine.dfy`): the class `Eureka`. Its fields are that state plus
  `fails`, the set of external calls that fail during the run. Every method is
  imperative: it updates the fields step by step, and `setup_repo_path` is a
  `while` loop. Every method is proved to leave exactly the state, and return
  exactly the outcome, that its `Spec` function gives.
- `Properties` (`properties.dfy`): what `run` guarantees, proved about the `Spec`
  functions. Because of the method/function equalities above, these guarantees also
  hold of the engine.

The collaborators are folded into the state as follows:

- The configuration store is a map from `Repo`/`Branch` to strings, plus a flag for
  its directory.
- The reader is a sequence of lines; an exhausted reader yields "".
- The printer, the pager, the editor and the directory creation append events to
  a trace. A call is recorded when it is issued, whether or not it fails. Writes
  to and removals from the store are not events; they show only in the
  configuration and the outcome.
- Each git call is appended to the log of the session it is made on.
- Whether a call fails is given by `fails`, since each call happens at most once
  per run.

## Model

| member | source | states |
|---|---|---|
| Engine.Eureka.constructor | src/lib.rs:50-58 | a new engine has no git session and has recorded nothing |
| Engine.Eureka.Run | src/lib.rs:60-102 | the run's outcome and final state are those of `Spec.Run`: clears short-circuit, view does not, then setup or capture |
| Engine.Eureka.Setup | src/lib.rs:77-96 | the setup branch of `run` ends exactly as `Spec.Setup` does: directory, banner, each missing key, completion message, stopping at the first error |
| Engine.Eureka.ClearRepo | src/lib.rs:104-108 | reads the repository path and removes it only if it is present; otherwise the error propagates |
| Engine.Eureka.ClearBranch | src/lib.rs:110-114 | reads the branch and removes it only if it is present; otherwise the error propagates |
| Engine.Eureka.OpenIdeaFile | src/lib.rs:116-120 | with the path unset the error propagates and the pager is not opened; otherwise the pager opens `<path>/README.md` and its result is returned |
| Engine.Eureka.InitGit | src/lib.rs:122-128 | binds a fresh session to the stored repository path, or panics when the path is missing |
| Engine.Eureka.GitAddCommitPush | src/lib.rs:130-150 | without a session, or without a branch, it panics; otherwise the status lines and checkout/add/commit/push follow `Spec.GitAddCommitPush`, and any failing step panics |
| Engine.Eureka.SetupRepoPath | src/lib.rs:152-161 | the loop prompts and reads until a line is non-empty, then writes that line as the path (`Spec.SetupRepoPath`) |
| Engine.Eureka.SetupBranchName | src/lib.rs:163-174 | one prompt and one read; an empty line is replaced by "master" before the write |
| Engine.Eureka.AskForIdea | src/lib.rs:180-194 | prompt, read the summary, bind the session, open the editor on the idea file, then synchronize; an editor failure panics (`Spec.AskForIdea`) |
| Spec.PromptRepoPath | src/lib.rs:155-158 | reads `n` lines of which only the last is non-empty, returns it, prompts once per read, and changes nothing but the input and the trace |
| Spec.ReadUntilNonEmptyAfterEmpty | src/lib.rs:155-158 | one more empty line before a run of the loop is again a run of the loop |
| Properties.GitStepsIssued | src/lib.rs:139-148 | the number of git steps issued is 1 to 4: every step before the last succeeded, and if fewer than four were issued, the last one failed |
| Properties.ClearKey | src/lib.rs:104-114 | clearing an absent key is `NotFound` and removes nothing; a failed removal changes nothing; a successful one removes exactly that key; only the configuration changes |
| Properties.RunClearOnlyClears | src/lib.rs:61-71 | with a clear flag set, nothing is recorded even with `view` set: no pager, setup, editor or git event; only keys are removed, survivors keep their values, a key not asked for always survives, and there is no panic |
| Properties.RunClearRepoFailureStops | src/lib.rs:62-68 | when clearing the path fails, the branch is not cleared, the state is unchanged and that error is the result |
| Properties.RunClearRemovesRequested | src/lib.rs:61-71 | a clearing run succeeds iff every requested key is present and its removal succeeds; it then removes exactly the requested keys, and the configuration becomes incomplete; whatever the outcome, the configuration loses exactly the path if its removal succeeded, and the branch if it was requested, the path step did not stop the run, and its removal succeeded |
| Properties.RepoPromptsAreHeaders | src/lib.rs:155-158 | `n` loop iterations show `n` prompts, all for the repository path |
| Properties.RepoPathReadsUntilNonEmpty | src/lib.rs:152-161 | with `k` empty lines before the first non-empty one, the loop makes exactly `k + 1` reads and prompts, and returns line `k` |
| Properties.SetupBranchNameDefault | src/lib.rs:163-174 | exactly one prompt and one read; the branch stored is the line verbatim, or "master" for an empty line or an exhausted reader; the path is untouched |
| Properties.AskRepoPathStores | src/lib.rs:85-88 | a present path is kept and nothing is read; an absent one becomes the first non-empty line |
| Properties.AskBranchNameStores | src/lib.rs:90-93 | a present branch is kept and nothing is read; an absent one becomes the next line, or "master" |
| Properties.SetupStoresMissingKeys | src/lib.rs:77-96 | with working storage, setup ends with the directory present, the missing keys holding what was read, the lines consumed, and exactly the events: directory creation if it was needed, banner, prompts, completion message |
| Properties.RunSetupWritesMissingKeys | src/lib.rs:77-96 | under `run`, setup only asks for missing keys, keeps present values, stores the first non-empty line and the next line (or "master"), creates the directory, leaves git alone, and completes the configuration |
| Properties.AskRepoPathShape | src/lib.rs:85-88 | the path step only appends events, leaves git and the branch alone, ends with its prompt when it asks, and a failed write changes no key |
| Properties.AskBranchNameShape | src/lib.rs:90-93 | the branch step only appends events, leaves git alone, ends with its prompt when it asks, and a failed write changes no key |
| Properties.SetupExtendsTrace | src/lib.rs:77-96 | setup starts with the directory creation or the banner, never touches the git session and never panics |
| Properties.RunSetupStopsAtFirstError | src/lib.rs:79-93 | a failed directory creation stops before the banner; a failed path write stops before the branch prompt and keeps the configuration; a failed branch write stops before the completion message |
| Properties.RunViewOpensIdeaFile | src/lib.rs:73-75 | the pager opens exactly `path + "/README.md"`; with no path, or a failed pager, that error is the whole run; otherwise the run continues as a run without `view` |
| Properties.SyncGitCalls | src/lib.rs:130-150 | git calls are the protocol prefix up to and including the first failing step; success iff no step fails, otherwise a panic; configuration and input unchanged |
| Properties.RunCaptureSyncs | src/lib.rs:180-194 | with nothing failing: one read, the editor on the idea file, then checkout(branch), add, commit(summary), push(branch) on a session bound to the path, and the exact event sequence |
| Properties.RunCaptureGitCalls | src/lib.rs:180-193 | if the editor fails, the run panics with no git call; otherwise the calls are the protocol cut after the first failure, and the run panics exactly when a step fails; configuration unchanged |
| Properties.RunDispatch | src/lib.rs:77-99 | with no flag, setup runs exactly when `is_config_missing` holds (it starts with the directory or banner, never panics and leaves git alone); otherwise capture runs (it starts with the summary prompt, never returns an error and keeps the configuration) |
| Properties.RunPanicsOnlyInCapture | src/lib.rs:122-148 | a panic happens only in capture with complete configuration, and only from the editor or a git step; the "should never end up here" panics cannot happen under `run` |
| Properties.ExampleSetupFourReads | src/lib.rs:152-174 | three empty lines, "/repo" and "dev" give the configuration {path "/repo", branch "dev"} with every line read |
| Properties.ExampleCaptureSyncs | src/lib.rs:180-194 | path "/repo", branch "main" and summary "add feature" give checkout("main"), add, commit("add feature"), push("main") |
| Properties.ExampleCommitFailureStopsPush | src/lib.rs:141-148 | when the commit fails, the run panics and push is never issued |

`is_config_missing` (src/lib.rs:176-178) is the predicate `Spec.ConfigMissing`, which
`Run` and `RunDispatch` use. `EurekaOptions` is `Types.EurekaOptions`.

## Left out

- The git wrapper (`Git::new`, `checkout_branch`, `add`, `commit`, `push`) and libgit2 are not part of this model. Each git call is kept as an entry in the session's log, and whether it succeeds comes from `fails`. `Git::new` is taken to always succeed.
- The file handler (on-disk config files, the `dirs` lookup) is not part of this model. It is an abstract map plus a directory flag. Any failed `config_read` is taken to mean the key is absent.
- Printer text and colours are not modelled. Only the prompt headers, the banner, the completion message and the four git status lines are recorded, as events.
- Process spawning for the pager and editor is not modelled. Only the path passed and the success or failure are kept.
- `atomic_counter` is used only by tests and is not modelled.
- `setup_repo_path` never ends on an endless stream of empty lines. The model covers only runs in which a non-empty line is still pending when the path prompt is reached (`Spec.RunTerminates`, a precondition of `Run`).
- The reader is not part of this model. An exhausted input is taken to yield "".
- Status lines and git calls are recorded in two separate logs (the trace and the session). The model therefore states their order within each log, not how the two interleave.
- Lazy construction of the git session: `init_git` (src/lib.rs:122-128) assigns a new session on every capture. A run makes at most one capture, so building the session once per run would behave the same.
- Path normalisation: the idea file is the repository path followed by `/README.md`, as plain strings. The path is not normalised (no resolution of `..` or trailing slashes), so distinct strings that name the same directory count as distinct.
