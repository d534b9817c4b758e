/** The workflow engine `Eureka`: one object whose methods drive the collaborators
    step by step. The collaborators are folded into its fields: the configuration
    store (`config`, `dirExists`), the reader (`input`), the printer and the
    program opener (`trace`), the git session (`git`), and `fails`, the calls
    that fail during this run. Every method is proved to do exactly what the
    function of the same name in `Spec` describes. */
module Engine {
  import opened Types
  import Spec

  class Eureka {
    var config: map<ConfigKey, string>
    var dirExists: bool
    var input: seq<string>
    var trace: seq<Event>
    var git: Option<GitSession>
    const fails: set<Call>

    /** The engine's state as a value. */
    function Snapshot(): Spec.State
      reads this
    {
      Spec.State(config, dirExists, input, trace, git)
    }

    /** `Eureka::new`: no git session yet, nothing recorded. */
    constructor (config: map<ConfigKey, string>, dirExists: bool, input: seq<string>, fails: set<Call>)
      ensures Snapshot() == Spec.State(config, dirExists, input, [], None)
      ensures this.fails == fails
    {
      this.config := config;
      this.dirExists := dirExists;
      this.input := input;
      this.trace := [];
      this.git := None;
      this.fails := fails;
    }

    /** The reader: the next pending line, or "" once the input is exhausted. */
    method ReadInput() returns (line: string)
      modifies this
      ensures (line, Snapshot()) == Spec.ReadInput(old(Snapshot()))
    {
      if input == [] {
        line := "";
      } else {
        line := input[0];
        input := input[1..];
      }
    }

    /** The configuration store's write. */
    method ConfigWrite(key: ConfigKey, value: string) returns (o: Outcome)
      modifies this
      ensures Spec.Step(o, Snapshot()) == Spec.WriteConfig(old(Snapshot()), fails, key, value)
    {
      if WriteKey(key) in fails {
        return Err(Failed(WriteKey(key)));
      }
      config := config[key := value];
      o := Ok;
    }

    /** The configuration store's directory creation, recorded even when it fails. */
    method ConfigDirCreate() returns (o: Outcome)
      modifies this
      ensures Spec.Step(o, Snapshot()) == Spec.CreateDir(old(Snapshot()), fails)
    {
      trace := trace + [Event.ConfigDirCreate];
      if CreateConfigDir in fails {
        return Err(Failed(CreateConfigDir));
      }
      dirExists := true;
      o := Ok;
    }

    /** `clear_repo`. */
    method ClearRepo() returns (o: Outcome)
      modifies this
      ensures Spec.Step(o, Snapshot()) == Spec.Clear(old(Snapshot()), fails, Repo)
    {
      if Repo !in config {
        return Err(NotFound(Repo));
      }
      if RemoveKey(Repo) in fails {
        return Err(Failed(RemoveKey(Repo)));
      }
      config := config - {Repo};
      o := Ok;
    }

    /** `clear_branch`. */
    method ClearBranch() returns (o: Outcome)
      modifies this
      ensures Spec.Step(o, Snapshot()) == Spec.Clear(old(Snapshot()), fails, Branch)
    {
      if Branch !in config {
        return Err(NotFound(Branch));
      }
      if RemoveKey(Branch) in fails {
        return Err(Failed(RemoveKey(Branch)));
      }
      config := config - {Branch};
      o := Ok;
    }

    /** `open_idea_file`. */
    method OpenIdeaFile() returns (o: Outcome)
      modifies this
      ensures Spec.Step(o, Snapshot()) == Spec.OpenIdeaFile(old(Snapshot()), fails)
    {
      if Repo !in config {
        return Err(NotFound(Repo));
      }
      trace := trace + [PagerOpened(Spec.ReadmePath(config[Repo]))];
      o := if OpenPager in fails then Err(Failed(OpenPager)) else Ok;
    }

    /** `init_git`. */
    method InitGit() returns (o: Outcome)
      modifies this
      ensures Spec.Step(o, Snapshot()) == Spec.InitGit(old(Snapshot()))
    {
      if Repo !in config {
        return Fatal(RepoMissing);
      }
      git := Some(GitSession(config[Repo], []));
      o := Ok;
    }

    /** `git_add_commit_push`. */
    method GitAddCommitPush(subject: string) returns (o: Outcome)
      modifies this
      ensures Spec.Step(o, Snapshot()) == Spec.GitAddCommitPush(old(Snapshot()), fails, subject)
    {
      if git.None? {
        return Fatal(NoGitSession);
      }
      trace := trace + [Status(AddingCommitting)];
      if Branch !in config {
        return Fatal(BranchMissing);
      }
      var branch := config[Branch];
      git := Some(git.value.(calls := git.value.calls + [Checkout(branch)]));
      if GitCheckout in fails {
        return Fatal(CheckoutFailed);
      }
      git := Some(git.value.(calls := git.value.calls + [Add]));
      if GitAdd in fails {
        return Fatal(AddOrCommitFailed);
      }
      git := Some(git.value.(calls := git.value.calls + [Commit(subject)]));
      if GitCommit in fails {
        return Fatal(AddOrCommitFailed);
      }
      trace := trace + [Status(AddedCommitted)];
      trace := trace + [Status(Pushing)];
      git := Some(git.value.(calls := git.value.calls + [Push(branch)]));
      if GitPush in fails {
        return Fatal(PushFailed);
      }
      trace := trace + [Status(Pushed)];
      o := Ok;
    }

    /** `setup_repo_path`: the loop runs at least once and stops at the first
        non-empty line. */
    method SetupRepoPath() returns (o: Outcome)
      requires Spec.HasNonEmptyLine(input)
      modifies this
      ensures Spec.Step(o, Snapshot()) == Spec.SetupRepoPath(old(Snapshot()), fails)
    {
      var path := "";
      while path == ""
        invariant path == "" ==> Spec.HasNonEmptyLine(input)
        invariant path == "" ==> Spec.PromptRepoPath(Snapshot()) == Spec.PromptRepoPath(old(Snapshot()))
        invariant path != "" ==> (path, Snapshot()) == Spec.PromptRepoPath(old(Snapshot()))
        decreases |input|
      {
        trace := trace + [Header(RepoPathPrompt)];
        path := ReadInput();
      }
      o := ConfigWrite(Repo, path);
    }

    /** `setup_branch_name`. */
    method SetupBranchName() returns (o: Outcome)
      modifies this
      ensures Spec.Step(o, Snapshot()) == Spec.SetupBranchName(old(Snapshot()), fails)
    {
      trace := trace + [Header(BranchPrompt)];
      var branch := ReadInput();
      if branch == "" {
        branch := Spec.DEFAULT_BRANCH;
      }
      o := ConfigWrite(Branch, branch);
    }

    /** `ask_for_idea`. */
    method AskForIdea() returns (o: Outcome)
      modifies this
      ensures Spec.Step(o, Snapshot()) == Spec.AskForIdea(old(Snapshot()), fails)
    {
      trace := trace + [Header(IdeaPrompt)];
      var summary := ReadInput();
      if Repo !in config {
        return Fatal(RepoMissing);
      }
      var path := Spec.ReadmePath(config[Repo]);
      o := InitGit();
      assert o == Ok;
      trace := trace + [EditorOpened(path)];
      if OpenEditor in fails {
        return Fatal(EditorFailed);
      }
      o := GitAddCommitPush(summary);
    }

    /** The first-time setup branch of `run`. */
    method Setup() returns (o: Outcome)
      requires Repo !in config && (dirExists || CreateConfigDir !in fails) ==> Spec.HasNonEmptyLine(input)
      modifies this
      ensures Spec.Step(o, Snapshot()) == Spec.Setup(old(Snapshot()), fails)
    {
      if !dirExists {
        o := ConfigDirCreate();
        if o != Ok {
          return;
        }
      }
      trace := trace + [Banner];
      if Repo !in config {
        o := SetupRepoPath();
        if o != Ok {
          return;
        }
      }
      if Branch !in config {
        o := SetupBranchName();
        if o != Ok {
          return;
        }
      }
      trace := trace + [SetupComplete];
      o := Ok;
    }

    /** `run`. */
    method Run(opts: EurekaOptions) returns (o: Outcome)
      requires Spec.RunTerminates(opts, Snapshot(), fails)
      modifies this
      ensures Spec.Step(o, Snapshot()) == Spec.Run(opts, old(Snapshot()), fails)
    {
      if opts.clearRepo || opts.clearBranch {
        if opts.clearRepo {
          o := ClearRepo();
          if o != Ok {
            return;
          }
        }
        if opts.clearBranch {
          o := ClearBranch();
          if o != Ok {
            return;
          }
        }
        return Ok;
      }

      if opts.view {
        o := OpenIdeaFile();
        if o != Ok {
          return;
        }
      }

      if Spec.ConfigMissing(config) {
        o := Setup();
      } else {
        o := AskForIdea();
      }
    }
  }
}
