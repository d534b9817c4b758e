/** Values shared by the workflow engine and its specification: configuration keys,
    run options, the events the engine's collaborators observe, the external calls
    whose success is supplied as an oracle, and the two error tiers. */
module Types {

  datatype Option<T> = None | Some(value: T)

  /** The two configuration entries the engine reads, writes and removes. */
  datatype ConfigKey = Repo | Branch

  /** The three independent flags of one invocation (`EurekaOptions`). */
  datatype EurekaOptions = EurekaOptions(clearRepo: bool, clearBranch: bool, view: bool)

  /** The input headers the printer shows before a line is read. */
  datatype Prompt = RepoPathPrompt | BranchPrompt | IdeaPrompt

  /** The progress lines printed around git synchronization. */
  datatype StatusLine = AddingCommitting | AddedCommitted | Pushing | Pushed

  /** What the engine shows through the printer and the program opener, plus the
      creation of the configuration directory, in the order it happens. These
      calls are recorded when issued, whether or not they then fail. Writes to and
      removals from the configuration store are not events: they show only in the
      configuration and the outcome. */
  datatype Event =
    | ConfigDirCreate
    | Banner
    | Header(prompt: Prompt)
    | SetupComplete
    | PagerOpened(path: string)
    | EditorOpened(path: string)
    | Status(line: StatusLine)

  /** A call on the git session, recorded when it is issued. */
  datatype GitCall = Checkout(branch: string) | Add | Commit(subject: string) | Push(branch: string)

  /** The git session: the repository it is bound to and the calls made on it. */
  datatype GitSession = GitSession(repo: string, calls: seq<GitCall>)

  /** The external calls that can fail. */
  datatype Call =
    | CreateConfigDir
    | WriteKey(key: ConfigKey)
    | RemoveKey(key: ConfigKey)
    | OpenPager
    | OpenEditor
    | GitCheckout
    | GitAdd
    | GitCommit
    | GitPush

  /** A propagated `io::Error`: a key that is not configured, or a call that failed. */
  datatype IoError = NotFound(key: ConfigKey) | Failed(call: Call)

  /** The reason of an abnormal termination (a Rust panic). */
  datatype Panic =
    | RepoMissing
    | BranchMissing
    | NoGitSession
    | EditorFailed
    | CheckoutFailed
    | AddOrCommitFailed
    | PushFailed

  /** How an operation ends: normally, with a propagated error, or by a panic. */
  datatype Outcome = Ok | Err(error: IoError) | Fatal(panic: Panic)
}
