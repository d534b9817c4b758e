/** What `run` guarantees, stated over the functions of `Spec`: which flags
    short-circuit, what clearing removes, what setup asks for and writes, which
    file the pager and the editor open, the order of the git calls, and which
    failures stop what follows. Since every method of `Engine.Eureka` is proved
    equal to its function here, these hold of the engine too. */
module Properties {
  import opened Types
  import opened Spec

  /** The synchronization protocol: checkout, add, commit, push. */
  function GitProtocol(branch: string, subject: string): seq<GitCall>
  {
    [Checkout(branch), Add, Commit(subject), Push(branch)]
  }

  const GIT_STEPS: seq<Call> := [GitCheckout, GitAdd, GitCommit, GitPush]

  /** How many protocol steps are issued: all of them up to and including the
      first that fails. */
  function GitStepsIssued(fails: set<Call>): (n: nat)
    ensures 1 <= n <= |GIT_STEPS|
    ensures forall i :: 0 <= i < n - 1 ==> GIT_STEPS[i] !in fails
    ensures n < |GIT_STEPS| ==> GIT_STEPS[n - 1] in fails
  {
    if GitCheckout in fails then 1
    else if GitAdd in fails then 2
    else if GitCommit in fails then 3
    else 4
  }

  /** Clearing an absent key is an error that removes nothing; clearing a present
      key removes exactly that key; nothing but the configuration changes. */
  lemma ClearKey(s: State, fails: set<Call>, key: ConfigKey)
    ensures var r := Clear(s, fails, key);
      && r.state == s.(config := r.state.config)
      && (key !in s.config ==> r.outcome == Err(NotFound(key)) && r.state == s)
      && (key in s.config && RemoveKey(key) in fails ==> r.outcome == Err(Failed(RemoveKey(key))) && r.state == s)
      && (key in s.config && RemoveKey(key) !in fails ==> r.outcome == Ok && r.state.config == s.config - {key})
  {
  }

  /** The keys a run with these clear flags removes. */
  function Requested(opts: EurekaOptions): set<ConfigKey>
  {
    (if opts.clearRepo then {Repo} else {}) + (if opts.clearBranch then {Branch} else {})
  }

  /** With a clear flag set, `run` only clears: no event at all (no pager, setup,
      editor or git call, even with `view` set), nothing written, no panic. */
  lemma RunClearOnlyClears(opts: EurekaOptions, s: State, fails: set<Call>)
    requires opts.clearRepo || opts.clearBranch
    ensures var r := Run(opts, s, fails);
      && r.state == s.(config := r.state.config)
      && r.state.config.Keys <= s.config.Keys
      && (forall k :: k in r.state.config ==> r.state.config[k] == s.config[k])
      && (forall k :: k in s.config && k !in Requested(opts) ==> k in r.state.config)
      && !r.outcome.Fatal?
  {
  }

  /** When clearing the repository path fails, the branch is not cleared and the
      error is the result. */
  lemma RunClearRepoFailureStops(opts: EurekaOptions, s: State, fails: set<Call>)
    requires opts.clearRepo
    requires Repo !in s.config || RemoveKey(Repo) in fails
    ensures var r := Run(opts, s, fails);
      && r.state == s
      && r.outcome == (if Repo !in s.config then Err(NotFound(Repo)) else Err(Failed(RemoveKey(Repo))))
  {
  }

  /** A clearing run succeeds exactly when every requested key is present and its
      removal succeeds; it then removes exactly the requested keys, which leaves
      the configuration incomplete. Whatever the outcome, a path removal that
      succeeded stays in effect, and the branch is removed exactly when it was
      requested, the path step did not stop the run, and its own removal works. */
  lemma RunClearRemovesRequested(opts: EurekaOptions, s: State, fails: set<Call>)
    requires opts.clearRepo || opts.clearBranch
    ensures var r := Run(opts, s, fails);
      && (r.outcome == Ok <==> forall k :: k in Requested(opts) ==> k in s.config && RemoveKey(k) !in fails)
      && (r.outcome == Ok ==> r.state.config == s.config - Requested(opts) && ConfigMissing(r.state.config))
      && (var repoDone := opts.clearRepo && Repo in s.config && RemoveKey(Repo) !in fails;
          var branchDone := opts.clearBranch && (!opts.clearRepo || repoDone)
                            && Branch in s.config && RemoveKey(Branch) !in fails;
          r.state.config == s.config - (if repoDone then {Repo} else {}) - (if branchDone then {Branch} else {}))
  {
  }

  /** `n` prompts, all of them for the repository path. */
  lemma {:induction false} RepoPromptsAreHeaders(n: nat)
    ensures |RepoPrompts(n)| == n
    ensures forall i :: 0 <= i < n ==> RepoPrompts(n)[i] == Header(RepoPathPrompt)
  {
    if n > 0 {
      RepoPromptsAreHeaders(n - 1);
    }
  }

  /** With `k` empty lines before the first non-empty one, the repository-path
      loop reads exactly `k + 1` lines and prompts `k + 1` times. */
  lemma RepoPathReadsUntilNonEmpty(s: State, k: nat)
    requires k < |s.input| && s.input[k] != ""
    requires forall j :: 0 <= j < k ==> s.input[j] == ""
    ensures HasNonEmptyLine(s.input)
    ensures PromptRepoPath(s) == (s.input[k], s.(input := s.input[k + 1..], trace := s.trace + RepoPrompts(k + 1)))
  {
    var r := PromptRepoPath(s);
    ReadUntilNonEmptyAt(s, r.0, r.1, k);
  }

  /** The loop's result is determined by where the first non-empty line is. */
  lemma ReadUntilNonEmptyAt(s: State, line: string, t: State, k: nat)
    requires k < |s.input| && s.input[k] != ""
    requires forall j :: 0 <= j < k ==> s.input[j] == ""
    requires ReadUntilNonEmpty(s, line, t)
    ensures line == s.input[k]
    ensures t == s.(input := s.input[k + 1..], trace := s.trace + RepoPrompts(k + 1))
  {
    var n := |s.input| - |t.input|;
    assert s.input[n - 1] != "" && s.input[k] != "";
    assert n == k + 1;
  }

  /** The branch prompt reads one line and stores it, or "master" for an empty
      line or an exhausted reader; the repository path is left alone. */
  lemma SetupBranchNameDefault(s: State, fails: set<Call>)
    requires WriteKey(Branch) !in fails
    ensures var r := SetupBranchName(s, fails);
      && r.outcome == Ok
      && r.state.trace == s.trace + [Header(BranchPrompt)]
      && r.state.config.Keys == s.config.Keys + {Branch}
      && (Repo in s.config ==> r.state.config[Repo] == s.config[Repo])
      && (s.input != [] ==> r.state.input == s.input[1..])
      && (s.input != [] && s.input[0] != "" ==> r.state.config[Branch] == s.input[0])
      && (s.input == [] || s.input[0] == "" ==> r.state.config[Branch] == "master")
  {
  }

  /** The repository step with a working store: a present path is kept and nothing
      is read; an absent one becomes the first non-empty line, after one prompt
      per line read. */
  lemma AskRepoPathStores(s: State, fails: set<Call>, k: nat)
    requires WriteKey(Repo) !in fails
    requires Repo !in s.config ==> k < |s.input| && s.input[k] != "" && forall j :: 0 <= j < k ==> s.input[j] == ""
    ensures Repo !in s.config ==> HasNonEmptyLine(s.input)
    ensures var count := if Repo in s.config then 0 else k + 1;
      AskRepoPath(s, fails) == Step(Ok, s.(input := s.input[count..], trace := s.trace + RepoPrompts(count),
        config := s.config[Repo := if Repo in s.config then s.config[Repo] else s.input[k]]))
  {
    if Repo !in s.config {
      RepoPathReadsUntilNonEmpty(s, k);
    } else {
      assert s.config[Repo := s.config[Repo]] == s.config;
      assert s.input[0..] == s.input;
    }
  }

  /** The branch step with a working store: a present branch is kept and nothing is
      read; an absent one becomes the next line, or "master" if that is empty or
      there is none. */
  lemma AskBranchNameStores(s: State, fails: set<Call>)
    requires WriteKey(Branch) !in fails
    ensures var line := if s.input == [] then "" else s.input[0];
      AskBranchName(s, fails) == Step(Ok,
        if Branch in s.config then s
        else s.(input := if s.input == [] then [] else s.input[1..],
                trace := s.trace + [Header(BranchPrompt)],
                config := s.config[Branch := if line == "" then DEFAULT_BRANCH else line]))
  {
  }

  /** First-time setup with working storage: the directory is created only when
      absent, only the missing keys are asked for, a present key keeps its value,
      the repository path is the first non-empty line, the branch the next line or
      "master", and the configuration is complete afterwards. */
  lemma RunSetupWritesMissingKeys(opts: EurekaOptions, s: State, fails: set<Call>, k: nat)
    requires !opts.clearRepo && !opts.clearBranch && !opts.view
    requires ConfigMissing(s.config)
    requires CreateConfigDir !in fails && WriteKey(Repo) !in fails && WriteKey(Branch) !in fails
    requires Repo !in s.config ==> k < |s.input| && s.input[k] != "" && forall j :: 0 <= j < k ==> s.input[j] == ""
    ensures RunTerminates(opts, s, fails)
    ensures var r := Run(opts, s, fails);
      var count := if Repo in s.config then 0 else k + 1;
      var rest := s.input[count..];
      var line := if rest == [] then "" else rest[0];
      && r.outcome == Ok
      && r.state.dirExists && r.state.git == s.git
      && !ConfigMissing(r.state.config)
      && r.state.config[Repo] == (if Repo in s.config then s.config[Repo] else s.input[k])
      && r.state.config[Branch] == (if Branch in s.config then s.config[Branch]
                                    else if line == "" then DEFAULT_BRANCH else line)
  {
    SetupStoresMissingKeys(s, fails, k);
    RunStartsSetup(opts, s, fails);
    var count := if Repo in s.config then 0 else k + 1;
    var rest := s.input[count..];
    var line := if rest == [] then "" else rest[0];
    StoreMissing(s.config, if Repo in s.config then "" else s.input[k], if line == "" then DEFAULT_BRANCH else line);
  }

  /** Storing a value under each missing key completes the configuration and keeps
      every present value. */
  lemma StoreMissing(c: map<ConfigKey, string>, path: string, branch: string)
    ensures var p := c[Repo := if Repo in c then c[Repo] else path];
      var q := if Branch in c then p else p[Branch := branch];
      && !ConfigMissing(q)
      && q[Repo] == (if Repo in c then c[Repo] else path)
      && q[Branch] == (if Branch in c then c[Branch] else branch)
  {
  }

  /** With no flag set and a key missing, the run is setup. */
  lemma RunStartsSetup(opts: EurekaOptions, s: State, fails: set<Call>)
    requires !opts.clearRepo && !opts.clearBranch && !opts.view
    requires ConfigMissing(s.config)
    requires RunTerminates(opts, s, fails)
    ensures Repo !in s.config && (s.dirExists || CreateConfigDir !in fails) ==> HasNonEmptyLine(s.input)
    ensures Run(opts, s, fails) == Setup(s, fails)
  {
  }

  /** The whole of setup with working storage, as one state: the directory exists,
      the missing keys hold what was read, and the events are the directory
      creation if it was needed, the banner, the prompts and the completion message. */
  lemma SetupStoresMissingKeys(s: State, fails: set<Call>, k: nat)
    requires CreateConfigDir !in fails && WriteKey(Repo) !in fails && WriteKey(Branch) !in fails
    requires Repo !in s.config ==> k < |s.input| && s.input[k] != "" && forall j :: 0 <= j < k ==> s.input[j] == ""
    ensures Repo !in s.config ==> HasNonEmptyLine(s.input)
    ensures var count := if Repo in s.config then 0 else k + 1;
      var rest := s.input[count..];
      var line := if rest == [] then "" else rest[0];
      var p := s.config[Repo := if Repo in s.config then s.config[Repo] else s.input[k]];
      Setup(s, fails) == Step(Ok, s.(
        dirExists := true,
        input := if Branch in s.config || rest == [] then rest else rest[1..],
        trace := s.trace + (if s.dirExists then [] else [ConfigDirCreate]) + [Banner]
                 + RepoPrompts(count)
                 + (if Branch in s.config then [] else [Header(BranchPrompt)])
                 + [SetupComplete],
        config := if Branch in s.config then p
                  else p[Branch := if line == "" then DEFAULT_BRANCH else line]))
  {
    AskRepoPathStores(s, fails, k);
    var d := PrepareConfigDir(s, fails).state;
    assert d == s.(trace := s.trace + (if s.dirExists then [] else [ConfigDirCreate]), dirExists := true);
    var s1 := Record(d, Banner);
    AskRepoPathStores(s1, fails, k);
    var p := AskRepoPath(s1, fails).state;
    AskBranchNameStores(p, fails);
  }

  /** The repository step only adds to what was recorded and leaves the git session
      and the branch alone; when it asks, its last event is the prompt, and a failed
      write leaves the configuration as it was. */
  lemma AskRepoPathShape(s: State, fails: set<Call>)
    requires Repo !in s.config ==> HasNonEmptyLine(s.input)
    ensures var r := AskRepoPath(s, fails);
      && s.trace <= r.state.trace && r.state.git == s.git
      && (Branch in r.state.config <==> Branch in s.config)
      && (Repo in s.config ==> r == Step(Ok, s))
      && (Repo !in s.config ==>
            && r.state.trace[|r.state.trace| - 1] == Header(RepoPathPrompt)
            && r.outcome == (if WriteKey(Repo) in fails then Err(Failed(WriteKey(Repo))) else Ok)
            && (r.outcome != Ok ==> r.state.config == s.config))
  {
    if Repo !in s.config {
      var t := PromptRepoPath(s).1;
      var n := |s.input| - |t.input|;
      RepoPromptsAreHeaders(n);
      assert t.trace[|t.trace| - 1] == RepoPrompts(n)[n - 1];
    }
  }

  /** The branch step only adds to what was recorded and leaves the git session
      alone; when it asks, its last event is the prompt, and a failed write leaves
      the configuration as it was. */
  lemma AskBranchNameShape(s: State, fails: set<Call>)
    ensures var r := AskBranchName(s, fails);
      && s.trace <= r.state.trace && r.state.git == s.git
      && (Branch in s.config ==> r == Step(Ok, s))
      && (Branch !in s.config ==>
            && r.state.trace[|r.state.trace| - 1] == Header(BranchPrompt)
            && r.outcome == (if WriteKey(Branch) in fails then Err(Failed(WriteKey(Branch))) else Ok)
            && (r.outcome != Ok ==> r.state.config == s.config))
  {
  }

  /** Setup only adds to what was recorded, starting with the directory creation
      or the banner, never touches the git session and never panics. */
  lemma SetupExtendsTrace(s: State, fails: set<Call>)
    requires Repo !in s.config && (s.dirExists || CreateConfigDir !in fails) ==> HasNonEmptyLine(s.input)
    ensures var r := Setup(s, fails);
      && s.trace + [if s.dirExists then Banner else ConfigDirCreate] <= r.state.trace
      && r.state.git == s.git
      && !r.outcome.Fatal?
  {
    var d := PrepareConfigDir(s, fails);
    if d.outcome == Ok {
      var s1 := Record(d.state, Banner);
      assert s.trace + [if s.dirExists then Banner else ConfigDirCreate] <= s1.trace;
      AskRepoPathShape(s1, fails);
      var p := AskRepoPath(s1, fails);
      if p.outcome == Ok {
        AskBranchNameShape(p.state, fails);
      }
    }
  }

  /** Setup stops at its first error: a failed directory creation before anything
      is printed, a failed path write before the branch prompt, a failed branch
      write before the completion message. */
  lemma RunSetupStopsAtFirstError(opts: EurekaOptions, s: State, fails: set<Call>)
    requires !opts.clearRepo && !opts.clearBranch && !opts.view
    requires ConfigMissing(s.config)
    requires RunTerminates(opts, s, fails)
    ensures var r := Run(opts, s, fails);
      && (!s.dirExists && CreateConfigDir in fails ==>
            r == Step(Err(Failed(CreateConfigDir)), Record(s, ConfigDirCreate)))
      && ((s.dirExists || CreateConfigDir !in fails) && Repo !in s.config && WriteKey(Repo) in fails ==>
            && r.outcome == Err(Failed(WriteKey(Repo)))
            && r.state.config == s.config
            && r.state.trace[|r.state.trace| - 1] == Header(RepoPathPrompt))
      && ((s.dirExists || CreateConfigDir !in fails) && (Repo in s.config || WriteKey(Repo) !in fails)
          && Branch !in s.config && WriteKey(Branch) in fails ==>
            && r.outcome == Err(Failed(WriteKey(Branch)))
            && Branch !in r.state.config
            && r.state.trace[|r.state.trace| - 1] == Header(BranchPrompt))
  {
    assert Run(opts, s, fails) == Setup(s, fails);
    var d := PrepareConfigDir(s, fails);
    if d.outcome == Ok {
      var s1 := Record(d.state, Banner);
      AskRepoPathShape(s1, fails);
      var p := AskRepoPath(s1, fails);
      if p.outcome == Ok {
        AskBranchNameShape(p.state, fails);
      }
    }
  }

  /** `view` opens the pager on exactly `<repository path>/README.md`; without a
      configured path, or when the pager fails, the error is the result and nothing
      else runs; otherwise the run continues as if `view` had not been set. */
  lemma RunViewOpensIdeaFile(opts: EurekaOptions, s: State, fails: set<Call>)
    requires opts.view && !opts.clearRepo && !opts.clearBranch
    ensures RunTerminates(opts, s, fails)
    ensures var r := Run(opts, s, fails);
      && (Repo !in s.config ==> r == Step(Err(NotFound(Repo)), s))
      && (Repo in s.config && OpenPager in fails ==>
            r == Step(Err(Failed(OpenPager)), Record(s, PagerOpened(s.config[Repo] + "/README.md"))))
      && (Repo in s.config && OpenPager !in fails ==>
            && RunTerminates(opts.(view := false), Record(s, PagerOpened(s.config[Repo] + "/README.md")), fails)
            && r == Run(opts.(view := false), Record(s, PagerOpened(s.config[Repo] + "/README.md")), fails))
  {
  }

  /** Synchronization issues the protocol's git calls in order, each at most once,
      up to and including the first that fails; it succeeds only if none fails and
      otherwise panics. */
  lemma SyncGitCalls(s: State, fails: set<Call>, subject: string)
    requires s.git.Some? && Branch in s.config
    ensures var r := GitAddCommitPush(s, fails, subject);
      var issued := GitProtocol(s.config[Branch], subject)[..GitStepsIssued(fails)];
      && r.state.git == Some(s.git.value.(calls := s.git.value.calls + issued))
      && r.state.config == s.config && r.state.input == s.input
      && s.trace <= r.state.trace
      && (r.outcome == Ok <==> forall i :: 0 <= i < |GIT_STEPS| ==> GIT_STEPS[i] !in fails)
      && (r.outcome != Ok ==> r.outcome.Fatal?)
  {
    var p := GitProtocol(s.config[Branch], subject);
    var c := s.git.value.calls;
    if GitCheckout in fails {
      assert GIT_STEPS[0] in fails;
      assert p[..1] == [p[0]];
    } else if GitAdd in fails {
      assert GIT_STEPS[1] in fails;
      assert c + [p[0]] + [p[1]] == c + p[..2];
    } else if GitCommit in fails {
      assert GIT_STEPS[2] in fails;
      assert c + [p[0]] + [p[1]] + [p[2]] == c + p[..3];
    } else {
      assert c + [p[0]] + [p[1]] + [p[2]] + [p[3]] == c + p[..4];
      if GitPush in fails {
        assert GIT_STEPS[3] in fails;
      }
    }
  }

  /** Idea capture with everything succeeding: one summary read, the editor on the
      idea file, then checkout(branch), add, commit(summary), push(branch) on a new
      session bound to the repository, in that order, each exactly once. */
  lemma RunCaptureSyncs(opts: EurekaOptions, s: State, fails: set<Call>)
    requires !opts.clearRepo && !opts.clearBranch && !opts.view
    requires !ConfigMissing(s.config)
    requires OpenEditor !in fails && forall i :: 0 <= i < |GIT_STEPS| ==> GIT_STEPS[i] !in fails
    ensures var r := Run(opts, s, fails);
      var summary := if s.input == [] then "" else s.input[0];
      var b := s.config[Branch];
      && r.outcome == Ok
      && r.state.config == s.config && r.state.dirExists == s.dirExists
      && r.state.input == (if s.input == [] then [] else s.input[1..])
      && r.state.git == Some(GitSession(s.config[Repo], [Checkout(b), Add, Commit(summary), Push(b)]))
      && r.state.trace == s.trace + [Header(IdeaPrompt), EditorOpened(ReadmePath(s.config[Repo])),
                                     Status(AddingCommitting), Status(AddedCommitted),
                                     Status(Pushing), Status(Pushed)]
  {
    var summary := if s.input == [] then "" else s.input[0];
    var s2 := CaptureEditorState(s);
    var b := s.config[Branch];
    assert Run(opts, s, fails) == GitAddCommitPush(s2, fails, summary);
    assert GIT_STEPS[0] !in fails && GIT_STEPS[1] !in fails && GIT_STEPS[2] !in fails && GIT_STEPS[3] !in fails;
    assert s2.trace == s.trace + [Header(IdeaPrompt), EditorOpened(ReadmePath(s.config[Repo]))];
    assert [] + [Checkout(b)] + [Add] + [Commit(summary)] + [Push(b)] == [Checkout(b), Add, Commit(summary), Push(b)];
  }

  /** The state in which `ask_for_idea` opens the editor, when both keys are set. */
  function CaptureEditorState(s: State): (t: State)
    requires Repo in s.config
  {
    var s1 := ReadInput(Record(s, Header(IdeaPrompt))).1;
    Record(s1.(git := Some(GitSession(s.config[Repo], []))), EditorOpened(ReadmePath(s.config[Repo])))
  }

  /** Idea capture whatever fails: the editor opens the idea file and a new git
      session is bound to the repository; if the editor fails the run panics with
      no git call at all; otherwise the git calls are the protocol for the stored
      branch and the summary, cut after the first failing step, and the run panics
      exactly when a step fails. The configuration never changes. */
  lemma RunCaptureGitCalls(opts: EurekaOptions, s: State, fails: set<Call>)
    requires !opts.clearRepo && !opts.clearBranch && !opts.view
    requires !ConfigMissing(s.config)
    ensures var r := Run(opts, s, fails);
      var summary := if s.input == [] then "" else s.input[0];
      var path := ReadmePath(s.config[Repo]);
      && r.state.config == s.config
      && s.trace + [Header(IdeaPrompt), EditorOpened(path)] <= r.state.trace
      && (OpenEditor in fails ==>
            && r.outcome == Fatal(EditorFailed)
            && r.state.git == Some(GitSession(s.config[Repo], [])))
      && (OpenEditor !in fails ==>
            && r.state.git == Some(GitSession(s.config[Repo], GitProtocol(s.config[Branch], summary)[..GitStepsIssued(fails)]))
            && (r.outcome == Ok <==> forall i :: 0 <= i < |GIT_STEPS| ==> GIT_STEPS[i] !in fails)
            && (r.outcome != Ok ==> r.outcome.Fatal?))
  {
    var summary := if s.input == [] then "" else s.input[0];
    var s2 := CaptureEditorState(s);
    assert s2.trace == s.trace + [Header(IdeaPrompt), EditorOpened(ReadmePath(s.config[Repo]))];
    if OpenEditor in fails {
      assert Run(opts, s, fails) == Step(Fatal(EditorFailed), s2);
    } else {
      assert Run(opts, s, fails) == GitAddCommitPush(s2, fails, summary);
      SyncGitCalls(s2, fails, summary);
      var issued := GitProtocol(s.config[Branch], summary)[..GitStepsIssued(fails)];
      assert [] + issued == issued;
    }
  }

  /** Which of `run`'s flows runs is decided by `is_config_missing` alone: with no
      flag set, setup starts (with the directory creation or the banner) exactly
      when a key is missing and leaves the git session alone; capture starts (with the
      summary prompt) exactly when both keys are present and never changes the
      configuration. */
  lemma RunDispatch(opts: EurekaOptions, s: State, fails: set<Call>)
    requires !opts.clearRepo && !opts.clearBranch && !opts.view
    requires RunTerminates(opts, s, fails)
    ensures var r := Run(opts, s, fails);
      && (ConfigMissing(s.config) ==>
            && s.trace + [if s.dirExists then Banner else ConfigDirCreate] <= r.state.trace
            && r.state.git == s.git
            && !r.outcome.Fatal?)
      && (!ConfigMissing(s.config) ==>
            && s.trace + [Header(IdeaPrompt)] <= r.state.trace
            && r.state.config == s.config
            && !r.outcome.Err?)
  {
    if !ConfigMissing(s.config) {
      RunCaptureGitCalls(opts, s, fails);
      return;
    }
    assert Run(opts, s, fails) == Setup(s, fails);
    SetupExtendsTrace(s, fails);
  }

  /** Panics come only from idea capture, and only from the editor or a git step:
      the "should never end up here" panics cannot happen under `run`, and clearing,
      viewing and setup only ever return errors. */
  lemma RunPanicsOnlyInCapture(opts: EurekaOptions, s: State, fails: set<Call>)
    requires RunTerminates(opts, s, fails)
    ensures var r := Run(opts, s, fails);
      r.outcome.Fatal? ==>
        && !opts.clearRepo && !opts.clearBranch
        && !ConfigMissing(s.config)
        && r.outcome.panic in {EditorFailed, CheckoutFailed, AddOrCommitFailed, PushFailed}
  {
    if !opts.clearRepo && !opts.clearBranch {
      var v := if opts.view then OpenIdeaFile(s, fails) else Step(Ok, s);
      assert v.state.config == s.config;
      if v.outcome == Ok {
        if ConfigMissing(s.config) {
          SetupExtendsTrace(v.state, fails);
        } else {
          assert Run(opts, s, fails) == AskForIdea(v.state, fails);
        }
      }
    }
  }

  /** First-time setup after three empty lines: the fourth line is the repository
      path, the fifth the branch, and every line has been read. */
  lemma ExampleSetupFourReads()
    ensures var s := State(map[], true, ["", "", "", "/repo", "dev"], [], None);
      var opts := EurekaOptions(false, false, false);
      && RunTerminates(opts, s, {})
      && Run(opts, s, {}).state.config == map[Repo := "/repo", Branch := "dev"]
      && Run(opts, s, {}).state.input == []
  {
    var s := State(map[], true, ["", "", "", "/repo", "dev"], [], None);
    var opts := EurekaOptions(false, false, false);
    SetupStoresMissingKeys(s, {}, 3);
    RunStartsSetup(opts, s, {});
    assert s.input[4..] == ["dev"];
  }

  /** Capture with `/repo` on `main` and the summary "add feature": checkout("main"),
      add, commit("add feature"), push("main"), each once, in that order. */
  lemma ExampleCaptureSyncs()
    ensures var s := State(map[Repo := "/repo", Branch := "main"], true, ["add feature"], [], None);
      var opts := EurekaOptions(false, false, false);
      Run(opts, s, {}).state.git == Some(GitSession("/repo", [Checkout("main"), Add, Commit("add feature"), Push("main")]))
  {
    var s := State(map[Repo := "/repo", Branch := "main"], true, ["add feature"], [], None);
    RunCaptureSyncs(EurekaOptions(false, false, false), s, {});
  }

  /** Capture in which the commit fails: no push is issued. */
  lemma ExampleCommitFailureStopsPush()
    ensures var s := State(map[Repo := "/repo", Branch := "main"], true, ["add feature"], [], None);
      var opts := EurekaOptions(false, false, false);
      var r := Run(opts, s, {GitCommit});
      && r.outcome == Fatal(AddOrCommitFailed)
      && r.state.git == Some(GitSession("/repo", [Checkout("main"), Add, Commit("add feature")]))
  {
    var s := State(map[Repo := "/repo", Branch := "main"], true, ["add feature"], [], None);
    RunCaptureGitCalls(EurekaOptions(false, false, false), s, {GitCommit});
    assert GitProtocol("main", "add feature")[..3] == [Checkout("main"), Add, Commit("add feature")];
  }
}
