/** The git source-control plugin: how it polls for changes, brings the
    working copy up to date, and tags a successful build. Every operation
    returns the commands it issued, in order, and its value or the exception
    that escaped. */
module Git {
  import opened Results
  import opened Process
  import Text
  import Timestamps
  import opened HistoryParser

  /** The plugin's configuration, fixed once it is loaded. */
  datatype Config = Config(
    executable: string,
    repository: string,
    branch: string,
    tagCommitMessage: string,
    tagOnSuccess: bool,
    autoGetSource: bool)

  /** The default tag message, `ccnet build {0}`. */
  const DefaultTagTemplate := "ccnet build " + Text.Placeholder

  /** The field initialisers: every option but the repository has a default. */
  function DefaultConfig(repository: string): Config {
    Config("git", repository, "master", DefaultTagTemplate, false, true)
  }

  /** What the plugin reads from the build it serves: when it started, its
      label, whether it failed, and the working directory already resolved
      against the project's base directory. */
  datatype IntegrationResult = IntegrationResult(
    startTime: Time,
    buildLabel: string,
    failed: bool,
    workingDirectory: string)

  /** Whether a directory exists. */
  type FileSystem = string -> bool

  /** What the history query prints for every commit, one XML element each. */
  const HistoryFormat := "\"<Modification><Type>Commit %H</Type><ModifiedTime>%ci</ModifiedTime><UserName>%cN</UserName><EmailAddress>%ce</EmailAddress><Comment>%s</Comment></Modification>\""

  /** The diagnostic git gives when asked for the last commit of a repository
      that has none. */
  const NoLocalHead := "fatal: bad default revision 'HEAD'"

  /** A git command run in the build's working directory. */
  function GitCommand(cfg: Config, r: IntegrationResult, args: seq<string>): Invocation {
    Invocation(cfg.executable, args, r.workingDirectory)
  }

  function CloneCommand(cfg: Config, r: IntegrationResult): Invocation {
    GitCommand(cfg, r, ["clone", cfg.repository, r.workingDirectory])
  }

  function InitCommand(cfg: Config, r: IntegrationResult): Invocation {
    GitCommand(cfg, r, ["init"])
  }

  function ConfigCommand(cfg: Config, r: IntegrationResult, name: string, value: string): Invocation {
    GitCommand(cfg, r, ["config", name, value])
  }

  function FetchCommand(cfg: Config, r: IntegrationResult): Invocation {
    GitCommand(cfg, r, ["fetch"])
  }

  /** The newest commit of the remote branch; the branch is always `master`. */
  function OriginHashCommand(cfg: Config, r: IntegrationResult): Invocation {
    GitCommand(cfg, r, ["log", "origin/master", "--date-order", "-1", "--pretty=format:'%H'"])
  }

  /** The newest commit of the local repository. */
  function LocalHashCommand(cfg: Config, r: IntegrationResult): Invocation {
    GitCommand(cfg, r, ["log", "--date-order", "-1", "--pretty=format:'%H'"])
  }

  /** Every commit of the remote branch, oldest first; the branch is always `master`. */
  function HistoryCommand(cfg: Config, r: IntegrationResult): Invocation {
    GitCommand(cfg, r, ["log", "origin/master", "--date-order", "--reverse", "--pretty=format:" + HistoryFormat])
  }

  function CleanCommand(cfg: Config, r: IntegrationResult): Invocation {
    GitCommand(cfg, r, ["clean", "-d", "-f", "-x"])
  }

  function ResetCommand(cfg: Config, r: IntegrationResult): Invocation {
    GitCommand(cfg, r, ["reset", "HEAD", "--hard"])
  }

  function MergeCommand(cfg: Config, r: IntegrationResult): Invocation {
    GitCommand(cfg, r, ["merge", "origin/" + cfg.branch])
  }

  /** An annotated tag named after the build label, its message the
      configured template with the label put in for `{0}`. */
  function TagCommand(cfg: Config, r: IntegrationResult): Invocation {
    GitCommand(cfg, r, ["tag", "-a", "-m", Text.FormatLabel(cfg.tagCommitMessage, r.buildLabel), r.buildLabel])
  }

  function PushTagsCommand(cfg: Config, r: IntegrationResult): Invocation {
    GitCommand(cfg, r, ["push", "--tags"])
  }

  /** A command the plugin runs: the configured executable, in the build's
      working directory. */
  predicate InWorkingCopy(c: Invocation, cfg: Config, r: IntegrationResult) {
    c.executable == cfg.executable && c.directory == r.workingDirectory
  }

  /** Every builder runs the configured executable in the working copy, with
      the git subcommand first and then the words the builder adds, in order.
      Only the clone names the repository, only the merge (and the settings)
      name the branch, and only the tag uses the label. */
  lemma CommandLines(cfg: Config, r: IntegrationResult)
    ensures forall c <- [CloneCommand(cfg, r), InitCommand(cfg, r), FetchCommand(cfg, r),
                         OriginHashCommand(cfg, r), LocalHashCommand(cfg, r), HistoryCommand(cfg, r),
                         CleanCommand(cfg, r), ResetCommand(cfg, r), MergeCommand(cfg, r),
                         TagCommand(cfg, r), PushTagsCommand(cfg, r)] :: InWorkingCopy(c, cfg, r)
    ensures CloneCommand(cfg, r).args == ["clone", cfg.repository, r.workingDirectory]
    ensures InitCommand(cfg, r).args == ["init"]
    ensures FetchCommand(cfg, r).args == ["fetch"]
    ensures OriginHashCommand(cfg, r).args == ["log", "origin/master", "--date-order", "-1", "--pretty=format:'%H'"]
    ensures LocalHashCommand(cfg, r).args == ["log", "--date-order", "-1", "--pretty=format:'%H'"]
    ensures HistoryCommand(cfg, r).args
            == ["log", "origin/master", "--date-order", "--reverse", "--pretty=format:" + HistoryFormat]
    ensures CleanCommand(cfg, r).args == ["clean", "-d", "-f", "-x"]
    ensures ResetCommand(cfg, r).args == ["reset", "HEAD", "--hard"]
    ensures MergeCommand(cfg, r).args == ["merge", "origin/" + cfg.branch]
    ensures TagCommand(cfg, r).args
            == ["tag", "-a", "-m", Text.FormatLabel(cfg.tagCommitMessage, r.buildLabel), r.buildLabel]
    ensures PushTagsCommand(cfg, r).args == ["push", "--tags"]
  {
  }

  /** The four settings that make an empty directory track the remote: the
      remote's URL, the refs it fetches, and the remote and merge source of
      the configured branch. */
  function ConfigCommands(cfg: Config, r: IntegrationResult): (cmds: seq<Invocation>)
    ensures |cmds| == 4
    ensures forall i :: 0 <= i < |cmds| ==>
              InWorkingCopy(cmds[i], cfg, r) && |cmds[i].args| == 3 && cmds[i].args[0] == "config"
    ensures cmds[0].args[1..] == ["remote.origin.url", cfg.repository]
    ensures cmds[1].args[1..] == ["remote.origin.fetch", "+refs/heads/*:refs/remotes/origin/*"]
    ensures cmds[2].args[1..] == ["branch." + cfg.branch + ".remote", "origin"]
    ensures cmds[3].args[1..] == ["branch." + cfg.branch + ".merge", "refs/heads/" + cfg.branch]
  {
    [ConfigCommand(cfg, r, "remote.origin.url", cfg.repository),
     ConfigCommand(cfg, r, "remote.origin.fetch", "+refs/heads/*:refs/remotes/origin/*"),
     ConfigCommand(cfg, r, "branch." + cfg.branch + ".remote", "origin"),
     ConfigCommand(cfg, r, "branch." + cfg.branch + ".merge", "refs/heads/" + cfg.branch)]
  }

  /** `Path.Combine` with a relative second part, on Windows: a separator is
      put between the parts unless the first already ends in one. */
  function CombinePath(dir: string, name: string): (p: string)
    ensures |dir| + |name| <= |p| <= |dir| + |name| + 1
    ensures p[..|dir|] == dir && p[|p| - |name|..] == name
    ensures |p| == |dir| + |name| + 1 <==> |dir| > 0 && dir[|dir| - 1] !in {'\\', '/', ':'}
    ensures |p| == |dir| + |name| + 1 ==> p[|dir|] == '\\'
  {
    if |dir| == 0 then name
    else if dir[|dir| - 1] in {'\\', '/', ':'} then dir + name
    else dir + "\\" + name
  }

  /** What the two directory probes say about the working copy. */
  datatype RepoState = Absent | Uninitialised | Ready

  /** The working directory is probed first, then its `.git` subdirectory. */
  function Probe(fs: FileSystem, dir: string): (state: RepoState)
    ensures state == Absent <==> !fs(dir)
    ensures state == Ready <==> fs(dir) && fs(CombinePath(dir, ".git"))
  {
    if !fs(dir) then Absent
    else if !fs(CombinePath(dir, ".git")) then Uninitialised
    else Ready
  }

  /** The commands that bring the working copy to a fetched repository. */
  function SetupCommands(cfg: Config, r: IntegrationResult, state: RepoState): (cmds: seq<Invocation>)
    ensures |cmds| == (if state == Uninitialised then 6 else 1)
    ensures cmds[|cmds| - 1] == (if state == Absent then CloneCommand(cfg, r) else FetchCommand(cfg, r))
    ensures state == Uninitialised ==> cmds[0] == InitCommand(cfg, r) && cmds[1..5] == ConfigCommands(cfg, r)
    ensures forall i :: 0 <= i < |cmds| ==> InWorkingCopy(cmds[i], cfg, r)
  {
    match state
    case Absent => [CloneCommand(cfg, r)]
    case Uninitialised => [InitCommand(cfg, r)] + ConfigCommands(cfg, r) + [FetchCommand(cfg, r)]
    case Ready => [FetchCommand(cfg, r)]
  }

  /** `Fetch`: clone a missing working directory; initialise, configure and
      fetch a directory that is not a repository yet; fetch otherwise. The
      value says whether the repository was created by this call. */
  function Fetch(cfg: Config, r: IntegrationResult, fs: FileSystem, exec: Executor): (f: Run<bool>)
    ensures f.trace <= SetupCommands(cfg, r, Probe(fs, r.workingDirectory))
    ensures f.result.Success? <==> AllOk(SetupCommands(cfg, r, Probe(fs, r.workingDirectory)), exec)
    ensures f.result.Success? ==>
              f == Run(SetupCommands(cfg, r, Probe(fs, r.workingDirectory)),
                       Success(Probe(fs, r.workingDirectory) != Ready))
    ensures f.result.Failure? ==>
              && |f.trace| > 0
              && AllOk(f.trace[..|f.trace| - 1], exec)
              && exec(f.trace[|f.trace| - 1]).Fail?
              && f.result.error == CommandFailed(exec(f.trace[|f.trace| - 1]).message)
  {
    var state := Probe(fs, r.workingDirectory);
    var setup := RunAll(SetupCommands(cfg, r, state), exec);
    match setup.result
    case Success(_) => Run(setup.trace, Success(state != Ready))
    case Failure(e) => Run(setup.trace, Failure(e))
  }

  /** `git_log_origin_hash`: the remote head, trimmed; a failure escapes. */
  function OriginHash(cfg: Config, r: IntegrationResult, exec: Executor): (h: Run<string>)
    ensures h.trace == [OriginHashCommand(cfg, r)]
    ensures h.result.Success? <==> exec(OriginHashCommand(cfg, r)).Ok?
    ensures h.result.Success? ==> h.result.value == Text.Trim(exec(OriginHashCommand(cfg, r)).stdout)
    ensures h.result.Failure? ==> h.result.error == CommandFailed(exec(OriginHashCommand(cfg, r)).message)
  {
    var run := Execute(OriginHashCommand(cfg, r), exec);
    match run.result
    case Success(out) => Run(run.trace, Success(Text.Trim(out)))
    case Failure(e) => Run(run.trace, Failure(e))
  }

  /** `git_log_local_hash`: the local head, trimmed. One failure is expected
      and absorbed, the one whose message says the repository has no commit
      yet; it yields no hash. Every other failure escapes. */
  function LocalHash(cfg: Config, r: IntegrationResult, exec: Executor): (h: Run<Option<string>>)
    ensures h.trace == [LocalHashCommand(cfg, r)]
    ensures exec(LocalHashCommand(cfg, r)).Ok? ==>
              h.result == Success(Some(Text.Trim(exec(LocalHashCommand(cfg, r)).stdout)))
    ensures h.result == Success(None) <==>
              exec(LocalHashCommand(cfg, r)).Fail?
              && Text.Contains(exec(LocalHashCommand(cfg, r)).message, NoLocalHead)
    ensures h.result.Failure? <==>
              exec(LocalHashCommand(cfg, r)).Fail?
              && !Text.Contains(exec(LocalHashCommand(cfg, r)).message, NoLocalHead)
    ensures h.result.Failure? ==> h.result.error == CommandFailed(exec(LocalHashCommand(cfg, r)).message)
  {
    var c := LocalHashCommand(cfg, r);
    match exec(c)
    case Ok(out) => Run([c], Success(Some(Text.Trim(out))))
    case Fail(m) =>
      if Text.Contains(m, NoLocalHead) then Run([c], Success(None))
      else Run([c], Failure(CommandFailed(m)))
  }

  /** `git_log_history`: the whole remote history, with every git-style
      timestamp element rewritten to the extended ISO 8601 form. The text keeps
      its length and no git-style element is left in it. */
  function LogHistory(cfg: Config, r: IntegrationResult, exec: Executor): (h: Run<string>)
    ensures h.trace == [HistoryCommand(cfg, r)]
    ensures h.result.Success? <==> exec(HistoryCommand(cfg, r)).Ok?
    ensures h.result.Success? ==>
              && |h.result.value| == |exec(HistoryCommand(cfg, r)).stdout|
              && h.result.value == Timestamps.Rewrite(exec(HistoryCommand(cfg, r)).stdout)
              && Timestamps.RewrittenFrom(h.result.value, exec(HistoryCommand(cfg, r)).stdout)
              && Timestamps.NoNative(h.result.value)
              && Timestamps.DigitsAndSigns(h.result.value)
                 == Timestamps.DigitsAndSigns(exec(HistoryCommand(cfg, r)).stdout)
    ensures h.result.Failure? ==> h.result.error == CommandFailed(exec(HistoryCommand(cfg, r)).message)
  {
    var run := Execute(HistoryCommand(cfg, r), exec);
    match run.result
    case Success(out) =>
      Timestamps.RewriteMeetsDescription(out);
      Timestamps.RewriteLeavesNoNative(out);
      Timestamps.RewriteKeepsDigitsAndSigns(out);
      Run(run.trace, Success(Timestamps.Rewrite(out)))
    case Failure(e) => Run(run.trace, Failure(e))
  }

  /** The injected history parser: history text and the two instants of the
      polling window. */
  type Parser = (string, Time, Time) -> Result<seq<Modification>>

  /** A command whose failure ends the operation: any failed command except
      the local-head query failing because there is no commit yet. */
  predicate Fatal(cfg: Config, r: IntegrationResult, c: Invocation, exec: Executor) {
    exec(c).Fail? && !(c == LocalHashCommand(cfg, r) && Text.Contains(exec(c).message, NoLocalHead))
  }

  /** Only the last command of `trace` may have been fatal, and if it was,
      its failure is what escaped. */
  predicate HaltsOnFatal<T>(cfg: Config, r: IntegrationResult, run: Run<T>, exec: Executor) {
    && (forall i :: 0 <= i < |run.trace| - 1 ==> !Fatal(cfg, r, run.trace[i], exec))
    && (|run.trace| > 0 && Fatal(cfg, r, run.trace[|run.trace| - 1], exec) ==>
          run.result == Failure(CommandFailed(exec(run.trace[|run.trace| - 1]).message)))
  }

  /** A run of `RunAll` halts at its first failure, which is fatal. */
  lemma RunAllHalts(cfg: Config, r: IntegrationResult, cmds: seq<Invocation>, exec: Executor)
    ensures HaltsOnFatal(cfg, r, RunAll(cmds, exec), exec)
  {
  }

  /** Commands none of which was fatal, followed by a run that halts on a fatal
      failure, still halt on a fatal failure. */
  lemma HaltsAfter<T>(cfg: Config, r: IntegrationResult, first: seq<Invocation>, second: Run<T>, exec: Executor)
    requires forall i :: 0 <= i < |first| ==> !Fatal(cfg, r, first[i], exec)
    requires HaltsOnFatal(cfg, r, second, exec)
    ensures HaltsOnFatal(cfg, r, Run(first + second.trace, second.result), exec)
  {
  }

  /** `Fetch` halts at its first failure. */
  lemma FetchHalts(cfg: Config, r: IntegrationResult, fs: FileSystem, exec: Executor)
    ensures HaltsOnFatal(cfg, r, Fetch(cfg, r, fs, exec), exec)
  {
    RunAllHalts(cfg, r, SetupCommands(cfg, r, Probe(fs, r.workingDirectory)), exec);
  }

  /** The history, extracted and parsed over the window from `from`'s start
      to `to`'s start. */
  function Extract(cfg: Config, from: IntegrationResult, to: IntegrationResult,
                   exec: Executor, parse: Parser): (x: Run<seq<Modification>>)
    ensures x.trace == [HistoryCommand(cfg, to)]
    ensures exec(HistoryCommand(cfg, to)).Ok? ==>
              x.result == parse(Timestamps.Rewrite(exec(HistoryCommand(cfg, to)).stdout), from.startTime, to.startTime)
    ensures exec(HistoryCommand(cfg, to)).Fail? ==>
              x.result == Failure(CommandFailed(exec(HistoryCommand(cfg, to)).message))
  {
    var history := LogHistory(cfg, to, exec);
    match history.result
    case Success(text) => Run(history.trace, parse(text, from.startTime, to.startTime))
    case Failure(e) => Run(history.trace, Failure(e))
  }

  /** The second half of the comparison: the local head against a remote
      head already read. Equal heads mean nothing changed; otherwise the
      history is extracted. */
  function CompareWith(cfg: Config, from: IntegrationResult, to: IntegrationResult,
                       exec: Executor, parse: Parser, remote: string): (c: Run<seq<Modification>>)
    ensures LocalHash(cfg, to, exec).result.Failure? ==>
              c == Run([LocalHashCommand(cfg, to)], Failure(LocalHash(cfg, to, exec).result.error))
    ensures LocalHash(cfg, to, exec).result == Success(Some(remote)) ==>
              c == Run([LocalHashCommand(cfg, to)], Success([]))
    ensures LocalHash(cfg, to, exec).result.Success? && LocalHash(cfg, to, exec).result != Success(Some(remote)) ==>
              c == Run([LocalHashCommand(cfg, to), HistoryCommand(cfg, to)], Extract(cfg, from, to, exec, parse).result)
  {
    var local := LocalHash(cfg, to, exec);
    match local.result
    case Failure(e) => Run(local.trace, Failure(e))
    case Success(head) =>
      if head == Some(remote) then
        Run(local.trace, Success([]))
      else
        var extract := Extract(cfg, from, to, exec, parse);
        Run(local.trace + extract.trace, extract.result)
  }

  /** The comparison of an existing repository: the remote head first, then
      the local head. */
  function Compare(cfg: Config, from: IntegrationResult, to: IntegrationResult,
                   exec: Executor, parse: Parser): (c: Run<seq<Modification>>)
    ensures exec(OriginHashCommand(cfg, to)).Fail? ==>
              c == Run([OriginHashCommand(cfg, to)], Failure(CommandFailed(exec(OriginHashCommand(cfg, to)).message)))
    ensures exec(OriginHashCommand(cfg, to)).Ok? ==>
              var rest := CompareWith(cfg, from, to, exec, parse, Text.Trim(exec(OriginHashCommand(cfg, to)).stdout));
              c == Run([OriginHashCommand(cfg, to)] + rest.trace, rest.result)
  {
    var origin := OriginHash(cfg, to, exec);
    match origin.result
    case Failure(e) => Run(origin.trace, Failure(e))
    case Success(remote) =>
      var rest := CompareWith(cfg, from, to, exec, parse, remote);
      Run(origin.trace + rest.trace, rest.result)
  }

  /** `GetModifications`: fetch; when the repository already existed, compare
      the remote head with the local one and report no change when they are
      equal; otherwise extract and parse the history. A freshly created
      repository is never compared. */
  function GetModifications(cfg: Config, from: IntegrationResult, to: IntegrationResult,
                            fs: FileSystem, exec: Executor, parse: Parser): (m: Run<seq<Modification>>)
    ensures Fetch(cfg, to, fs, exec).result.Failure? ==> m == Run(Fetch(cfg, to, fs, exec).trace, Failure(Fetch(cfg, to, fs, exec).result.error))
    ensures Fetch(cfg, to, fs, exec).result == Success(true) ==>
              m == Run(Fetch(cfg, to, fs, exec).trace + [HistoryCommand(cfg, to)], Extract(cfg, from, to, exec, parse).result)
    ensures Fetch(cfg, to, fs, exec).result == Success(false) ==>
              m == Run(Fetch(cfg, to, fs, exec).trace + Compare(cfg, from, to, exec, parse).trace,
                       Compare(cfg, from, to, exec, parse).result)
  {
    var fetch := Fetch(cfg, to, fs, exec);
    match fetch.result
    case Failure(e) => Run(fetch.trace, Failure(e))
    case Success(created) =>
      var rest := if created then Extract(cfg, from, to, exec, parse) else Compare(cfg, from, to, exec, parse);
      Run(fetch.trace + rest.trace, rest.result)
  }

  /** The commands of a poll are a prefix of the setup commands followed by
      the history query when the repository is created by the poll, and a
      prefix of fetch, remote head, local head, history otherwise. */
  lemma GetModificationsPlan(cfg: Config, from: IntegrationResult, to: IntegrationResult,
                             fs: FileSystem, exec: Executor, parse: Parser)
    ensures Probe(fs, to.workingDirectory) != Ready ==>
              GetModifications(cfg, from, to, fs, exec, parse).trace
              <= SetupCommands(cfg, to, Probe(fs, to.workingDirectory)) + [HistoryCommand(cfg, to)]
    ensures Probe(fs, to.workingDirectory) == Ready ==>
              GetModifications(cfg, from, to, fs, exec, parse).trace
              <= [FetchCommand(cfg, to), OriginHashCommand(cfg, to), LocalHashCommand(cfg, to), HistoryCommand(cfg, to)]
  {
    if Probe(fs, to.workingDirectory) == Ready && exec(FetchCommand(cfg, to)).Ok? {
      ReadyModifications(cfg, from, to, fs, exec, parse);
      ComparePlan(cfg, from, to, exec, parse);
      PrefixExtend([FetchCommand(cfg, to)], Compare(cfg, from, to, exec, parse).trace,
                   [OriginHashCommand(cfg, to), LocalHashCommand(cfg, to), HistoryCommand(cfg, to)]);
      PrependThree(FetchCommand(cfg, to), OriginHashCommand(cfg, to), LocalHashCommand(cfg, to), HistoryCommand(cfg, to));
    }
  }

  /** The comparison issues a prefix of remote head, local head, history. */
  lemma ComparePlan(cfg: Config, from: IntegrationResult, to: IntegrationResult, exec: Executor, parse: Parser)
    ensures Compare(cfg, from, to, exec, parse).trace
            <= [OriginHashCommand(cfg, to), LocalHashCommand(cfg, to), HistoryCommand(cfg, to)]
  {
    if exec(OriginHashCommand(cfg, to)).Ok? {
      var remote := Text.Trim(exec(OriginHashCommand(cfg, to)).stdout);
      var rest := CompareWith(cfg, from, to, exec, parse, remote);
      CompareWithPlan(cfg, from, to, exec, parse, remote);
      PrefixExtend([OriginHashCommand(cfg, to)], rest.trace, [LocalHashCommand(cfg, to), HistoryCommand(cfg, to)]);
      PrependTwo(OriginHashCommand(cfg, to), LocalHashCommand(cfg, to), HistoryCommand(cfg, to));
    }
  }

  /** The second half of the comparison issues a prefix of local head, history. */
  lemma CompareWithPlan(cfg: Config, from: IntegrationResult, to: IntegrationResult,
                        exec: Executor, parse: Parser, remote: string)
    ensures CompareWith(cfg, from, to, exec, parse, remote).trace
            <= [LocalHashCommand(cfg, to), HistoryCommand(cfg, to)]
  {
    var local := LocalHash(cfg, to, exec).result;
    if local.Failure? || local == Success(Some(remote)) {
      assert CompareWith(cfg, from, to, exec, parse, remote).trace == [LocalHashCommand(cfg, to)];
    }
  }

  /** `GetModifications` halts at its first fatal failure. */
  lemma GetModificationsHalts(cfg: Config, from: IntegrationResult, to: IntegrationResult,
                              fs: FileSystem, exec: Executor, parse: Parser)
    ensures HaltsOnFatal(cfg, to, GetModifications(cfg, from, to, fs, exec, parse), exec)
  {
    var fetch := Fetch(cfg, to, fs, exec);
    FetchHalts(cfg, to, fs, exec);
    if fetch.result.Success? {
      assert AllOk(fetch.trace, exec);
      if fetch.result.value {
        HaltsAfter(cfg, to, fetch.trace, Extract(cfg, from, to, exec, parse), exec);
      } else {
        CompareHalts(cfg, from, to, exec, parse);
        HaltsAfter(cfg, to, fetch.trace, Compare(cfg, from, to, exec, parse), exec);
      }
    }
  }

  /** The comparison halts at its first fatal failure; a local head query
      that finds no commit is not fatal. */
  lemma CompareHalts(cfg: Config, from: IntegrationResult, to: IntegrationResult, exec: Executor, parse: Parser)
    ensures HaltsOnFatal(cfg, to, Compare(cfg, from, to, exec, parse), exec)
  {
    if exec(OriginHashCommand(cfg, to)).Ok? {
      var remote := Text.Trim(exec(OriginHashCommand(cfg, to)).stdout);
      CompareWithHalts(cfg, from, to, exec, parse, remote);
      HaltsAfter(cfg, to, [OriginHashCommand(cfg, to)], CompareWith(cfg, from, to, exec, parse, remote), exec);
    }
  }

  /** The second half of the comparison halts at its first fatal failure. */
  lemma CompareWithHalts(cfg: Config, from: IntegrationResult, to: IntegrationResult,
                         exec: Executor, parse: Parser, remote: string)
    ensures HaltsOnFatal(cfg, to, CompareWith(cfg, from, to, exec, parse, remote), exec)
  {
    var local := LocalHash(cfg, to, exec).result;
    if local.Success? && local != Success(Some(remote)) {
      assert !Fatal(cfg, to, LocalHashCommand(cfg, to), exec);
    }
  }

  /** A repository created by this poll is never compared: its setup
      commands are followed by the history query, and the result is the
      parsed, rewritten history. */
  lemma FreshRepositoryIsExtracted(cfg: Config, from: IntegrationResult, to: IntegrationResult,
                                   fs: FileSystem, exec: Executor, parse: Parser)
    requires Probe(fs, to.workingDirectory) != Ready
    requires AllOk(SetupCommands(cfg, to, Probe(fs, to.workingDirectory)), exec)
    requires exec(HistoryCommand(cfg, to)).Ok?
    ensures GetModifications(cfg, from, to, fs, exec, parse).trace
            == SetupCommands(cfg, to, Probe(fs, to.workingDirectory)) + [HistoryCommand(cfg, to)]
    ensures GetModifications(cfg, from, to, fs, exec, parse).result
            == parse(Timestamps.Rewrite(exec(HistoryCommand(cfg, to)).stdout), from.startTime, to.startTime)
  {
    var fetch := Fetch(cfg, to, fs, exec);
    assert fetch == Run(SetupCommands(cfg, to, Probe(fs, to.workingDirectory)), Success(true));
  }

  /** An existing repository is only fetched. */
  lemma ReadyFetch(cfg: Config, r: IntegrationResult, fs: FileSystem, exec: Executor)
    requires Probe(fs, r.workingDirectory) == Ready && exec(FetchCommand(cfg, r)).Ok?
    ensures Fetch(cfg, r, fs, exec) == Run([FetchCommand(cfg, r)], Success(false))
  {
    assert AllOk(SetupCommands(cfg, r, Ready), exec);
  }

  /** A successful fetch of an existing repository is followed by the comparison. */
  lemma ReadyModifications(cfg: Config, from: IntegrationResult, to: IntegrationResult,
                           fs: FileSystem, exec: Executor, parse: Parser)
    requires Probe(fs, to.workingDirectory) == Ready && exec(FetchCommand(cfg, to)).Ok?
    ensures GetModifications(cfg, from, to, fs, exec, parse)
            == Run([FetchCommand(cfg, to)] + Compare(cfg, from, to, exec, parse).trace,
                   Compare(cfg, from, to, exec, parse).result)
  {
    ReadyFetch(cfg, to, fs, exec);
  }

  /** Equal heads end the comparison after the local-head query. */
  lemma CompareSameHeads(cfg: Config, from: IntegrationResult, to: IntegrationResult, exec: Executor, parse: Parser)
    requires exec(OriginHashCommand(cfg, to)).Ok?
    requires LocalHash(cfg, to, exec).result == Success(Some(Text.Trim(exec(OriginHashCommand(cfg, to)).stdout)))
    ensures Compare(cfg, from, to, exec, parse)
            == Run([OriginHashCommand(cfg, to), LocalHashCommand(cfg, to)], Success([]))
  {
    var remote := Text.Trim(exec(OriginHashCommand(cfg, to)).stdout);
    var rest := CompareWith(cfg, from, to, exec, parse, remote);
    assert rest == Run([LocalHashCommand(cfg, to)], Success([]));
    assert [OriginHashCommand(cfg, to)] + rest.trace == [OriginHashCommand(cfg, to), LocalHashCommand(cfg, to)];
  }

  /** Different heads make the comparison go on to the history. */
  lemma CompareDifferentHeads(cfg: Config, from: IntegrationResult, to: IntegrationResult, exec: Executor, parse: Parser)
    requires exec(OriginHashCommand(cfg, to)).Ok?
    requires LocalHash(cfg, to, exec).result.Success?
    requires LocalHash(cfg, to, exec).result != Success(Some(Text.Trim(exec(OriginHashCommand(cfg, to)).stdout)))
    requires exec(HistoryCommand(cfg, to)).Ok?
    ensures Compare(cfg, from, to, exec, parse)
            == Run([OriginHashCommand(cfg, to), LocalHashCommand(cfg, to), HistoryCommand(cfg, to)],
                   parse(Timestamps.Rewrite(exec(HistoryCommand(cfg, to)).stdout), from.startTime, to.startTime))
  {
    var remote := Text.Trim(exec(OriginHashCommand(cfg, to)).stdout);
    var rest := CompareWith(cfg, from, to, exec, parse, remote);
    assert rest == Run([LocalHashCommand(cfg, to), HistoryCommand(cfg, to)], Extract(cfg, from, to, exec, parse).result);
  }

  /** An existing repository whose local head equals the remote head (after
      trimming) has no modifications, and the history is never queried. */
  lemma SameHeadsReportNothing(cfg: Config, from: IntegrationResult, to: IntegrationResult,
                               fs: FileSystem, exec: Executor, parse: Parser)
    requires Probe(fs, to.workingDirectory) == Ready
    requires exec(FetchCommand(cfg, to)).Ok? && exec(OriginHashCommand(cfg, to)).Ok?
    requires LocalHash(cfg, to, exec).result == Success(Some(Text.Trim(exec(OriginHashCommand(cfg, to)).stdout)))
    ensures GetModifications(cfg, from, to, fs, exec, parse)
            == Run([FetchCommand(cfg, to), OriginHashCommand(cfg, to), LocalHashCommand(cfg, to)], Success([]))
  {
    ReadyModifications(cfg, from, to, fs, exec, parse);
    CompareSameHeads(cfg, from, to, exec, parse);
    PrependTwo(FetchCommand(cfg, to), OriginHashCommand(cfg, to), LocalHashCommand(cfg, to));
  }

  /** An existing repository whose local head differs from the remote head,
      or that has no local head, is compared and then extracted. */
  lemma DifferentHeadsAreExtracted(cfg: Config, from: IntegrationResult, to: IntegrationResult,
                                   fs: FileSystem, exec: Executor, parse: Parser)
    requires Probe(fs, to.workingDirectory) == Ready
    requires exec(FetchCommand(cfg, to)).Ok? && exec(OriginHashCommand(cfg, to)).Ok?
    requires LocalHash(cfg, to, exec).result.Success?
    requires LocalHash(cfg, to, exec).result != Success(Some(Text.Trim(exec(OriginHashCommand(cfg, to)).stdout)))
    requires exec(HistoryCommand(cfg, to)).Ok?
    ensures GetModifications(cfg, from, to, fs, exec, parse).trace
            == [FetchCommand(cfg, to), OriginHashCommand(cfg, to), LocalHashCommand(cfg, to), HistoryCommand(cfg, to)]
    ensures GetModifications(cfg, from, to, fs, exec, parse).result
            == parse(Timestamps.Rewrite(exec(HistoryCommand(cfg, to)).stdout), from.startTime, to.startTime)
  {
    ReadyModifications(cfg, from, to, fs, exec, parse);
    CompareDifferentHeads(cfg, from, to, exec, parse);
    PrependThree(FetchCommand(cfg, to), OriginHashCommand(cfg, to), LocalHashCommand(cfg, to), HistoryCommand(cfg, to));
  }

  /** The commands `GetSource` issues after the local-head query. */
  function UpdateCommands(cfg: Config, r: IntegrationResult, hasHead: bool): seq<Invocation> {
    (if hasHead then [ResetCommand(cfg, r)] else []) + [MergeCommand(cfg, r)]
  }

  /** `GetSource`: when enabled, remove untracked files, reset to the local
      head when there is one, and merge the remote branch, in that order. */
  function GetSource(cfg: Config, r: IntegrationResult, exec: Executor): (g: Run<()>)
    ensures !cfg.autoGetSource ==> g == Run([], Success(()))
    ensures cfg.autoGetSource && exec(CleanCommand(cfg, r)).Fail? ==>
              g == Run([CleanCommand(cfg, r)], Failure(CommandFailed(exec(CleanCommand(cfg, r)).message)))
    ensures cfg.autoGetSource && exec(CleanCommand(cfg, r)).Ok? ==>
              g == Run([CleanCommand(cfg, r)] + Update(cfg, r, exec).trace, Update(cfg, r, exec).result)
  {
    if !cfg.autoGetSource then
      Run([], Success(()))
    else
      var clean := Execute(CleanCommand(cfg, r), exec);
      match clean.result
      case Failure(e) => Run(clean.trace, Failure(e))
      case Success(_) =>
        var rest := Update(cfg, r, exec);
        Run(clean.trace + rest.trace, rest.result)
  }

  /** The part of `GetSource` after the clean: the local-head query, the
      reset when there is a head, and the merge. */
  function Update(cfg: Config, r: IntegrationResult, exec: Executor): (u: Run<()>)
    ensures LocalHash(cfg, r, exec).result.Failure? ==>
              u == Run([LocalHashCommand(cfg, r)], Failure(LocalHash(cfg, r, exec).result.error))
    ensures LocalHash(cfg, r, exec).result.Success? ==>
              var rest := RunAll(UpdateCommands(cfg, r, LocalHash(cfg, r, exec).result.value.Some?), exec);
              u == Run([LocalHashCommand(cfg, r)] + rest.trace, rest.result)
  {
    var local := LocalHash(cfg, r, exec);
    match local.result
    case Failure(e) => Run(local.trace, Failure(e))
    case Success(head) =>
      var rest := RunAll(UpdateCommands(cfg, r, head.Some?), exec);
      Run(local.trace + rest.trace, rest.result)
  }

  /** The commands of `GetSource` are a prefix of clean, local-head query,
      reset when there is a head, merge; the query is the last one when it
      fails; and a successful run ends with the merge. */
  lemma GetSourcePlan(cfg: Config, r: IntegrationResult, exec: Executor)
    requires cfg.autoGetSource
    ensures GetSource(cfg, r, exec).trace
            <= [CleanCommand(cfg, r), LocalHashCommand(cfg, r)]
               + UpdateCommands(cfg, r, LocalHash(cfg, r, exec).result != Success(None))
    ensures LocalHash(cfg, r, exec).result.Failure? ==> |GetSource(cfg, r, exec).trace| <= 2
    ensures GetSource(cfg, r, exec).trace[0] == CleanCommand(cfg, r)
    ensures GetSource(cfg, r, exec).result.Success? ==>
              GetSource(cfg, r, exec).trace[|GetSource(cfg, r, exec).trace| - 1] == MergeCommand(cfg, r)
  {
    if exec(CleanCommand(cfg, r)).Ok? {
      UpdatePlan(cfg, r, exec);
      var update := UpdateCommands(cfg, r, LocalHash(cfg, r, exec).result != Success(None));
      PrefixExtend([CleanCommand(cfg, r)], Update(cfg, r, exec).trace, [LocalHashCommand(cfg, r)] + update);
      PrependPair(CleanCommand(cfg, r), LocalHashCommand(cfg, r), update);
    }
  }

  /** The part after the clean issues a prefix of local-head query, reset when
      there is a head, merge, and ends with the merge when it succeeds. */
  lemma UpdatePlan(cfg: Config, r: IntegrationResult, exec: Executor)
    ensures Update(cfg, r, exec).trace
            <= [LocalHashCommand(cfg, r)] + UpdateCommands(cfg, r, LocalHash(cfg, r, exec).result != Success(None))
    ensures LocalHash(cfg, r, exec).result.Failure? ==> |Update(cfg, r, exec).trace| == 1
    ensures |Update(cfg, r, exec).trace| > 0
    ensures Update(cfg, r, exec).result.Success? ==>
              Update(cfg, r, exec).trace[|Update(cfg, r, exec).trace| - 1] == MergeCommand(cfg, r)
  {
    if LocalHash(cfg, r, exec).result.Success? {
      var update := UpdateCommands(cfg, r, LocalHash(cfg, r, exec).result.value.Some?);
      PrefixExtend([LocalHashCommand(cfg, r)], RunAll(update, exec).trace, update);
    }
  }

  /** `GetSource` halts at its first fatal failure. */
  lemma GetSourceHalts(cfg: Config, r: IntegrationResult, exec: Executor)
    ensures HaltsOnFatal(cfg, r, GetSource(cfg, r, exec), exec)
  {
    if cfg.autoGetSource && exec(CleanCommand(cfg, r)).Ok? {
      var local := LocalHash(cfg, r, exec);
      if local.result.Success? {
        var update := UpdateCommands(cfg, r, local.result.value.Some?);
        RunAllHalts(cfg, r, update, exec);
        HaltsAfter(cfg, r, [LocalHashCommand(cfg, r)], RunAll(update, exec), exec);
      }
      HaltsAfter(cfg, r, [CleanCommand(cfg, r)], Update(cfg, r, exec), exec);
    }
  }

  /** With a local head, a clean working copy is reset to it before the
      remote branch is merged. */
  lemma GetSourceResetsLocalHead(cfg: Config, r: IntegrationResult, exec: Executor)
    requires cfg.autoGetSource && exec(CleanCommand(cfg, r)).Ok?
    requires LocalHash(cfg, r, exec).result.Success? && LocalHash(cfg, r, exec).result.value.Some?
    requires exec(ResetCommand(cfg, r)).Ok? && exec(MergeCommand(cfg, r)).Ok?
    ensures GetSource(cfg, r, exec)
            == Run([CleanCommand(cfg, r), LocalHashCommand(cfg, r), ResetCommand(cfg, r), MergeCommand(cfg, r)],
                   Success(()))
  {
    var update := UpdateCommands(cfg, r, true);
    assert update == [ResetCommand(cfg, r), MergeCommand(cfg, r)];
    assert AllOk(update, exec);
    assert RunAll(update, exec) == Run(update, Success(()));
    PrependTwo(LocalHashCommand(cfg, r), ResetCommand(cfg, r), MergeCommand(cfg, r));
    assert Update(cfg, r, exec)
        == Run([LocalHashCommand(cfg, r), ResetCommand(cfg, r), MergeCommand(cfg, r)], Success(()));
    PrependThree(CleanCommand(cfg, r), LocalHashCommand(cfg, r), ResetCommand(cfg, r), MergeCommand(cfg, r));
  }

  /** Without a local head there is nothing to reset to: the remote branch is
      merged straight after the query. */
  lemma GetSourceWithoutLocalHead(cfg: Config, r: IntegrationResult, exec: Executor)
    requires cfg.autoGetSource && exec(CleanCommand(cfg, r)).Ok?
    requires LocalHash(cfg, r, exec).result == Success(None)
    requires exec(MergeCommand(cfg, r)).Ok?
    ensures GetSource(cfg, r, exec)
            == Run([CleanCommand(cfg, r), LocalHashCommand(cfg, r), MergeCommand(cfg, r)], Success(()))
  {
    var update := UpdateCommands(cfg, r, false);
    assert update == [MergeCommand(cfg, r)];
    assert AllOk(update, exec);
    assert Update(cfg, r, exec) == Run([LocalHashCommand(cfg, r), MergeCommand(cfg, r)], Success(()));
    PrependTwo(CleanCommand(cfg, r), LocalHashCommand(cfg, r), MergeCommand(cfg, r));
  }

  /** `LabelSourceControl`: when tagging is on and the build did not fail,
      create the tag and then push the tags; a failed tag is never pushed. */
  function LabelSourceControl(cfg: Config, r: IntegrationResult, exec: Executor): (l: Run<()>)
    ensures l.trace == [] <==> !cfg.tagOnSuccess || r.failed
    ensures l.trace == [] ==> l.result == Success(())
    ensures |l.trace| > 0 ==>
              && l.trace[0] == TagCommand(cfg, r)
              && l.trace[0].args[3] == Text.FormatLabel(cfg.tagCommitMessage, r.buildLabel)
              && l.trace[0].args[4] == r.buildLabel
    ensures l.trace <= [TagCommand(cfg, r), PushTagsCommand(cfg, r)]
    ensures |l.trace| == 2 ==> exec(TagCommand(cfg, r)).Ok?
    ensures cfg.tagOnSuccess && !r.failed && exec(TagCommand(cfg, r)).Ok? && exec(PushTagsCommand(cfg, r)).Ok? ==>
              l == Run([TagCommand(cfg, r), PushTagsCommand(cfg, r)], Success(()))
    ensures HaltsOnFatal(cfg, r, l, exec)
  {
    if !cfg.tagOnSuccess || r.failed then
      Run([], Success(()))
    else
      var cmds := [TagCommand(cfg, r), PushTagsCommand(cfg, r)];
      assert exec(cmds[0]).Ok? && exec(cmds[1]).Ok? ==> AllOk(cmds, exec);
      RunAllHalts(cfg, r, cmds, exec);
      RunAll(cmds, exec)
  }
}
