/** The engine's behaviour as pure functions from the state before an operation to
    its outcome and the state after it. `fails` is the set of external calls that
    fail during the run; every external call is issued at most once per run. */
module Spec {
  import opened Types

  /** What the engine and its collaborators hold: the configuration store, whether
      its directory exists, the lines the user has yet to type, the events so far
      and the git session, once created. */
  datatype State = State(
    config: map<ConfigKey, string>,
    dirExists: bool,
    input: seq<string>,
    trace: seq<Event>,
    git: Option<GitSession>)

  datatype Step = Step(outcome: Outcome, state: State)

  const DEFAULT_BRANCH: string := "master"
  const IDEA_FILE: string := "/README.md"

  /** The idea file of a repository: the only file the pager and the editor open. */
  function ReadmePath(repo: string): string
  {
    repo + IDEA_FILE
  }

  /** `is_config_missing`: setup is needed when either key is absent. */
  predicate ConfigMissing(config: map<ConfigKey, string>)
  {
    Repo !in config || Branch !in config
  }

  predicate HasNonEmptyLine(input: seq<string>)
  {
    exists i :: 0 <= i < |input| && input[i] != ""
  }

  /** Run reaches the repository-path prompt: no clear flag, no view (which
      fails when the path is absent), the path absent, the directory usable. */
  predicate ReachesRepoPrompt(opts: EurekaOptions, s: State, fails: set<Call>)
  {
    && !opts.clearRepo && !opts.clearBranch && !opts.view
    && Repo !in s.config
    && (s.dirExists || CreateConfigDir !in fails)
  }

  /** The repository-path prompt repeats until a non-empty line is read; the model
      covers the runs in which such a line is still pending. */
  predicate RunTerminates(opts: EurekaOptions, s: State, fails: set<Call>)
  {
    ReachesRepoPrompt(opts, s, fails) ==> HasNonEmptyLine(s.input)
  }

  function Record(s: State, e: Event): State
  {
    s.(trace := s.trace + [e])
  }

  /** `read_input`: the next pending line; a reader with nothing left yields "". */
  function ReadInput(s: State): (string, State)
  {
    if s.input == [] then ("", s) else (s.input[0], s.(input := s.input[1..]))
  }

  /** `config_write`: stores the value, or fails and stores nothing. */
  function WriteConfig(s: State, fails: set<Call>, key: ConfigKey, value: string): Step
  {
    if WriteKey(key) in fails then Step(Err(Failed(WriteKey(key))), s)
    else Step(Ok, s.(config := s.config[key := value]))
  }

  /** `config_dir_create`. */
  function CreateDir(s: State, fails: set<Call>): Step
  {
    var s1 := Record(s, ConfigDirCreate);
    if CreateConfigDir in fails then Step(Err(Failed(CreateConfigDir)), s1)
    else Step(Ok, s1.(dirExists := true))
  }

  /** `clear_repo` / `clear_branch`: read the key, and only if it is there remove it. */
  function Clear(s: State, fails: set<Call>, key: ConfigKey): Step
  {
    if key !in s.config then Step(Err(NotFound(key)), s)
    else if RemoveKey(key) in fails then Step(Err(Failed(RemoveKey(key))), s)
    else Step(Ok, s.(config := s.config - {key}))
  }

  /** `open_idea_file`: the pager on the idea file of the configured repository. */
  function OpenIdeaFile(s: State, fails: set<Call>): Step
  {
    if Repo !in s.config then Step(Err(NotFound(Repo)), s)
    else
      var s1 := Record(s, PagerOpened(ReadmePath(s.config[Repo])));
      if OpenPager in fails then Step(Err(Failed(OpenPager)), s1) else Step(Ok, s1)
  }

  /** `n` repository-path prompts. */
  function RepoPrompts(n: nat): seq<Event>
  {
    if n == 0 then [] else [Header(RepoPathPrompt)] + RepoPrompts(n - 1)
  }

  /** `t` is `s` after reading `n` lines of which only the last is non-empty,
      yielding `line`, with one repository-path prompt before each read. */
  ghost predicate ReadUntilNonEmpty(s: State, line: string, t: State)
  {
    var n := |s.input| - |t.input|;
    && 0 < n <= |s.input|
    && t.input == s.input[n..]
    && line == s.input[n - 1] != ""
    && (forall j :: 0 <= j < n - 1 ==> s.input[j] == "")
    && t.trace == s.trace + RepoPrompts(n)
    && t.config == s.config && t.dirExists == s.dirExists && t.git == s.git
  }

  /** The loop of `setup_repo_path`: prompt and read until a line is non-empty.
      It reads `n` lines, the first `n - 1` of them empty, prompts once per read,
      returns the `n`-th line and changes nothing but the input and the trace. */
  function PromptRepoPath(s: State): (r: (string, State))
    requires HasNonEmptyLine(s.input)
    ensures ReadUntilNonEmpty(s, r.0, r.1)
    decreases |s.input|
  {
    var s1 := s.(input := s.input[1..], trace := s.trace + [Header(RepoPathPrompt)]);
    if s.input[0] != "" then (s.input[0], s1)
    else
      assert HasNonEmptyLine(s1.input) by {
        var i :| 0 <= i < |s.input| && s.input[i] != "";
        assert s1.input[i - 1] != "";
      }
      var r := PromptRepoPath(s1);
      ReadUntilNonEmptyAfterEmpty(s, r.0, r.1);
      r
  }

  /** An empty line first, then the rest of the loop, is the whole loop. */
  lemma ReadUntilNonEmptyAfterEmpty(s: State, line: string, t: State)
    requires |s.input| > 0 && s.input[0] == ""
    requires ReadUntilNonEmpty(s.(input := s.input[1..], trace := s.trace + [Header(RepoPathPrompt)]), line, t)
    ensures ReadUntilNonEmpty(s, line, t)
  {
    var s1 := s.(input := s.input[1..], trace := s.trace + [Header(RepoPathPrompt)]);
    var m := |s1.input| - |t.input|;
    assert t.input == s.input[m + 1..] by {
      assert s.input[m + 1..] == s1.input[m..];
    }
    assert line == s.input[m];
    forall j | 0 <= j < m ensures s.input[j] == "" {
      if j > 0 { assert s.input[j] == s1.input[j - 1]; }
    }
    assert t.trace == s.trace + RepoPrompts(m + 1) by {
      assert RepoPrompts(m + 1) == [Header(RepoPathPrompt)] + RepoPrompts(m);
      assert s1.trace + RepoPrompts(m) == s.trace + ([Header(RepoPathPrompt)] + RepoPrompts(m));
    }
  }

  /** `setup_repo_path`. */
  function SetupRepoPath(s: State, fails: set<Call>): Step
    requires HasNonEmptyLine(s.input)
  {
    var (path, s1) := PromptRepoPath(s);
    WriteConfig(s1, fails, Repo, path)
  }

  /** `setup_branch_name`: one prompt, one read, an empty line meaning "master". */
  function SetupBranchName(s: State, fails: set<Call>): Step
  {
    var (line, s1) := ReadInput(Record(s, Header(BranchPrompt)));
    WriteConfig(s1, fails, Branch, if line == "" then DEFAULT_BRANCH else line)
  }

  /** The directory step of setup: create the configuration directory if absent. */
  function PrepareConfigDir(s: State, fails: set<Call>): Step
  {
    if s.dirExists then Step(Ok, s) else CreateDir(s, fails)
  }

  /** The repository step of setup: ask for the path only when it is absent. */
  function AskRepoPath(s: State, fails: set<Call>): Step
    requires Repo !in s.config ==> HasNonEmptyLine(s.input)
  {
    if Repo in s.config then Step(Ok, s) else SetupRepoPath(s, fails)
  }

  /** The branch step of setup: ask for the branch only when it is absent. */
  function AskBranchName(s: State, fails: set<Call>): Step
  {
    if Branch in s.config then Step(Ok, s) else SetupBranchName(s, fails)
  }

  /** The first-time setup branch of `run`: create the directory if needed, greet,
      ask for each missing key, and stop at the first error. */
  function Setup(s: State, fails: set<Call>): Step
    requires Repo !in s.config && (s.dirExists || CreateConfigDir !in fails) ==> HasNonEmptyLine(s.input)
  {
    var d := PrepareConfigDir(s, fails);
    if d.outcome != Ok then d
    else
      var p := AskRepoPath(Record(d.state, Banner), fails);
      if p.outcome != Ok then p
      else
        var b := AskBranchName(p.state, fails);
        if b.outcome != Ok then b
        else Step(Ok, Record(b.state, SetupComplete))
  }

  /** `init_git`: a new git session bound to the configured repository. */
  function InitGit(s: State): Step
  {
    if Repo !in s.config then Step(Fatal(RepoMissing), s)
    else Step(Ok, s.(git := Some(GitSession(s.config[Repo], []))))
  }

  /** A call issued on the git session. */
  function Issue(s: State, c: GitCall): State
    requires s.git.Some?
  {
    s.(git := Some(s.git.value.(calls := s.git.value.calls + [c])))
  }

  /** `git_add_commit_push`: checkout, add, commit, push; any failure is fatal. */
  function GitAddCommitPush(s: State, fails: set<Call>, subject: string): Step
  {
    if s.git.None? then Step(Fatal(NoGitSession), s)
    else
      var s1 := Record(s, Status(AddingCommitting));
      if Branch !in s1.config then Step(Fatal(BranchMissing), s1)
      else
        var branch := s1.config[Branch];
        var s2 := Issue(s1, Checkout(branch));
        if GitCheckout in fails then Step(Fatal(CheckoutFailed), s2)
        else
          var s3 := Issue(s2, Add);
          if GitAdd in fails then Step(Fatal(AddOrCommitFailed), s3)
          else
            var s4 := Issue(s3, Commit(subject));
            if GitCommit in fails then Step(Fatal(AddOrCommitFailed), s4)
            else
              var s5 := Issue(Record(Record(s4, Status(AddedCommitted)), Status(Pushing)), Push(branch));
              if GitPush in fails then Step(Fatal(PushFailed), s5)
              else Step(Ok, Record(s5, Status(Pushed)))
  }

  /** `ask_for_idea`: read the summary, open the editor on the idea file, then
      synchronize; an editor failure is fatal. */
  function AskForIdea(s: State, fails: set<Call>): Step
  {
    var (summary, s1) := ReadInput(Record(s, Header(IdeaPrompt)));
    if Repo !in s1.config then Step(Fatal(RepoMissing), s1)
    else
      var path := ReadmePath(s1.config[Repo]);
      var g := InitGit(s1);
      if g.outcome != Ok then g
      else
        var s2 := Record(g.state, EditorOpened(path));
        if OpenEditor in fails then Step(Fatal(EditorFailed), s2)
        else GitAddCommitPush(s2, fails, summary)
  }

  /** `run`: clears short-circuit everything else; view comes next and does not;
      then setup if a key is missing, idea capture otherwise. */
  function Run(opts: EurekaOptions, s: State, fails: set<Call>): Step
    requires RunTerminates(opts, s, fails)
  {
    if opts.clearRepo || opts.clearBranch then
      var c := if opts.clearRepo then Clear(s, fails, Repo) else Step(Ok, s);
      if c.outcome != Ok then c
      else if opts.clearBranch then Clear(c.state, fails, Branch)
      else c
    else
      var v := if opts.view then OpenIdeaFile(s, fails) else Step(Ok, s);
      if v.outcome != Ok then v
      else if ConfigMissing(v.state.config) then Setup(v.state, fails)
      else AskForIdea(v.state, fails)
  }
}
