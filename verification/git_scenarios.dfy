/** Properties of the git plugin that relate several commands or several
    configurations, and the plugin's unit-test scenarios stated for every
    executor that answers the way the scenario's mock does. */
module GitScenarios {
  import opened Results
  import opened Process
  import Text
  import opened HistoryParser
  import opened Git

  /** The default tag message is "ccnet build " followed by the label. */
  lemma DefaultTagMessage(repository: string, name: string)
    ensures Text.FormatLabel(DefaultConfig(repository).tagCommitMessage, name) == "ccnet build " + name
  {
    assert DefaultTagTemplate + "" == DefaultTagTemplate;
    Text.FormatOnePlaceholder("ccnet build ", "", name);
  }

  /** A query for the newest commit, remote or local. */
  predicate IsHeadQuery(c: Invocation) {
    |c.args| >= 4 && c.args[0] == "log" && c.args[|c.args| - 2] == "-1"
  }

  /** A fresh repository's commands are the setup commands and the history
      query, none of them a head query. */
  lemma FreshPlanHasNoHeadQuery(cfg: Config, r: IntegrationResult, state: RepoState)
    requires state != Ready
    ensures forall i :: 0 <= i < |SetupCommands(cfg, r, state) + [HistoryCommand(cfg, r)]| ==>
              !IsHeadQuery((SetupCommands(cfg, r, state) + [HistoryCommand(cfg, r)])[i])
  {
  }

  /** The remote and local head queries are issued only for a repository
      that existed before the poll. */
  lemma {:induction false} HashQueriesOnlyWhenReady(cfg: Config, from: IntegrationResult, to: IntegrationResult,
                                                    fs: FileSystem, exec: Executor, parse: Parser)
    requires Probe(fs, to.workingDirectory) != Ready
    ensures forall i :: 0 <= i < |GetModifications(cfg, from, to, fs, exec, parse).trace| ==>
              !IsHeadQuery(GetModifications(cfg, from, to, fs, exec, parse).trace[i])
    ensures OriginHashCommand(cfg, to) !in GetModifications(cfg, from, to, fs, exec, parse).trace
    ensures LocalHashCommand(cfg, to) !in GetModifications(cfg, from, to, fs, exec, parse).trace
  {
    var trace := GetModifications(cfg, from, to, fs, exec, parse).trace;
    var plan := SetupCommands(cfg, to, Probe(fs, to.workingDirectory)) + [HistoryCommand(cfg, to)];
    FreshPlanHasNoHeadQuery(cfg, to, Probe(fs, to.workingDirectory));
    GetModificationsPlan(cfg, from, to, fs, exec, parse);
    assert trace <= plan;
    forall i | 0 <= i < |trace|
      ensures !IsHeadQuery(trace[i])
    {
      assert trace[i] == plan[i];
    }
    assert IsHeadQuery(OriginHashCommand(cfg, to)) && IsHeadQuery(LocalHashCommand(cfg, to));
  }

  /** The history is queried exactly when the repository was created by this
      poll or the two heads differ, given that every command succeeds. */
  lemma HistoryQueriedIffChanged(cfg: Config, from: IntegrationResult, to: IntegrationResult,
                                 fs: FileSystem, exec: Executor, parse: Parser)
    requires forall c :: exec(c).Ok?
    ensures HistoryCommand(cfg, to) in GetModifications(cfg, from, to, fs, exec, parse).trace
            <==> Probe(fs, to.workingDirectory) != Ready
                 || Text.Trim(exec(LocalHashCommand(cfg, to)).stdout) != Text.Trim(exec(OriginHashCommand(cfg, to)).stdout)
  {
    var state := Probe(fs, to.workingDirectory);
    if state != Ready {
      assert AllOk(SetupCommands(cfg, to, state), exec);
      FreshRepositoryIsExtracted(cfg, from, to, fs, exec, parse);
    } else if Text.Trim(exec(LocalHashCommand(cfg, to)).stdout) == Text.Trim(exec(OriginHashCommand(cfg, to)).stdout) {
      SameHeadsSkipHistory(cfg, from, to, fs, exec, parse);
    } else {
      DifferentHeadsAreExtracted(cfg, from, to, fs, exec, parse);
    }
  }

  /** The equal-heads case of `HistoryQueriedIffChanged`. */
  lemma SameHeadsSkipHistory(cfg: Config, from: IntegrationResult, to: IntegrationResult,
                             fs: FileSystem, exec: Executor, parse: Parser)
    requires Probe(fs, to.workingDirectory) == Ready
    requires exec(FetchCommand(cfg, to)).Ok? && exec(OriginHashCommand(cfg, to)).Ok?
    requires exec(LocalHashCommand(cfg, to)).Ok?
    requires Text.Trim(exec(LocalHashCommand(cfg, to)).stdout) == Text.Trim(exec(OriginHashCommand(cfg, to)).stdout)
    ensures HistoryCommand(cfg, to) !in GetModifications(cfg, from, to, fs, exec, parse).trace
  {
    SameHeadsReportNothing(cfg, from, to, fs, exec, parse);
    HistoryIsNoOtherQuery(cfg, to);
  }

  /** The history query is neither the fetch nor one of the head queries. */
  lemma HistoryIsNoOtherQuery(cfg: Config, r: IntegrationResult)
    ensures HistoryCommand(cfg, r) !in [FetchCommand(cfg, r), OriginHashCommand(cfg, r), LocalHashCommand(cfg, r)]
  {
    var history := HistoryCommand(cfg, r).args;
    assert history[0] == "log" && history[3] == "--reverse" && |history| == 5;
    assert FetchCommand(cfg, r).args[0] == "fetch";
    assert OriginHashCommand(cfg, r).args[3] == "-1";
    assert |LocalHashCommand(cfg, r).args| == 4;
  }

  /** The configured branch plays no part in polling a repository that
      already exists or is cloned: the remote head and history queries name
      `origin/master` whatever the branch. Only the configuration of an
      initialised directory mentions it. */
  lemma PollingIgnoresBranch(cfg: Config, branch: string, from: IntegrationResult, to: IntegrationResult,
                             fs: FileSystem, exec: Executor, parse: Parser)
    requires Probe(fs, to.workingDirectory) != Uninitialised
    ensures GetModifications(cfg.(branch := branch), from, to, fs, exec, parse)
            == GetModifications(cfg, from, to, fs, exec, parse)
  {
    var other := cfg.(branch := branch);
    assert SetupCommands(other, to, Probe(fs, to.workingDirectory))
        == SetupCommands(cfg, to, Probe(fs, to.workingDirectory));
    assert Fetch(other, to, fs, exec) == Fetch(cfg, to, fs, exec);
    ComparisonIgnoresBranch(cfg, branch, from, to, exec, parse);
  }

  /** Neither the head queries nor the history query mention the branch. */
  lemma ComparisonIgnoresBranch(cfg: Config, branch: string, from: IntegrationResult, to: IntegrationResult,
                                exec: Executor, parse: Parser)
    ensures Extract(cfg.(branch := branch), from, to, exec, parse) == Extract(cfg, from, to, exec, parse)
    ensures Compare(cfg.(branch := branch), from, to, exec, parse) == Compare(cfg, from, to, exec, parse)
  {
    var other := cfg.(branch := branch);
    assert LogHistory(other, to, exec) == LogHistory(cfg, to, exec);
    assert LocalHash(other, to, exec) == LocalHash(cfg, to, exec);
    assert OriginHash(other, to, exec) == OriginHash(cfg, to, exec);
    assert Extract(other, from, to, exec, parse) == Extract(cfg, from, to, exec, parse);
    forall remote: string
      ensures CompareWith(other, from, to, exec, parse, remote) == CompareWith(cfg, from, to, exec, parse, remote)
    {
    }
  }

  /** The working copy is reset only when the local repository has a head. */
  lemma ResetOnlyWithLocalHead(cfg: Config, r: IntegrationResult, exec: Executor)
    ensures ResetCommand(cfg, r) in GetSource(cfg, r, exec).trace ==>
              LocalHash(cfg, r, exec).result.Success? && LocalHash(cfg, r, exec).result.value.Some?
  {
    var local := LocalHash(cfg, r, exec).result;
    if cfg.autoGetSource && !(local.Success? && local.value.Some?) {
      var plan := [CleanCommand(cfg, r), LocalHashCommand(cfg, r)] + UpdateCommands(cfg, r, local != Success(None));
      var trace := GetSource(cfg, r, exec).trace;
      GetSourcePlan(cfg, r, exec);
      forall i | 0 <= i < |trace|
        ensures trace[i] != ResetCommand(cfg, r)
      {
        assert trace[i] == plan[i];
        if i >= 2 {
          assert local == Success(None);
          assert plan[i] == MergeCommand(cfg, r);
        }
      }
    }
  }

  // The unit-test fixture: repository `xyz.git`, working directory
  // `c:\source\`, every other option at its default unless a scenario sets it.

  const TestDirectory := "c:\\source\\"

  function TestConfig(): Config {
    DefaultConfig("xyz.git")
  }

  function TestResult(start: Time, name: string, failed: bool): IntegrationResult {
    IntegrationResult(start, name, failed, TestDirectory)
  }

  /** The command line `git <args>` issued in the test directory. */
  function TestCommand(args: seq<string>): Invocation {
    Invocation("git", args, TestDirectory)
  }

  const OriginHashArgs := ["log", "origin/master", "--date-order", "-1", "--pretty=format:'%H'"]
  const LocalHashArgs := ["log", "--date-order", "-1", "--pretty=format:'%H'"]
  const HistoryArgs := ["log", "origin/master", "--date-order", "--reverse",
    "--pretty=format:" + "\"<Modification><Type>Commit %H</Type><ModifiedTime>%ci</ModifiedTime><UserName>%cN</UserName><EmailAddress>%ce</EmailAddress><Comment>%s</Comment></Modification>\""]

  /** Every command of the fixture, spelled out as the tests expect it. */
  lemma FixtureCommands(cfg: Config, r: IntegrationResult)
    requires cfg.executable == "git" && cfg.repository == "xyz.git" && cfg.branch == "master"
    requires r.workingDirectory == TestDirectory
    ensures CloneCommand(cfg, r) == TestCommand(["clone", "xyz.git", "c:\\source\\"])
    ensures InitCommand(cfg, r) == TestCommand(["init"])
    ensures ConfigCommands(cfg, r) == [
              TestCommand(["config", "remote.origin.url", "xyz.git"]),
              TestCommand(["config", "remote.origin.fetch", "+refs/heads/*:refs/remotes/origin/*"]),
              TestCommand(["config", "branch.master.remote", "origin"]),
              TestCommand(["config", "branch.master.merge", "refs/heads/master"])]
    ensures FetchCommand(cfg, r) == TestCommand(["fetch"])
    ensures OriginHashCommand(cfg, r) == TestCommand(OriginHashArgs)
    ensures LocalHashCommand(cfg, r) == TestCommand(LocalHashArgs)
    ensures HistoryCommand(cfg, r) == TestCommand(HistoryArgs)
    ensures CleanCommand(cfg, r) == TestCommand(["clean", "-d", "-f", "-x"])
    ensures ResetCommand(cfg, r) == TestCommand(["reset", "HEAD", "--hard"])
    ensures MergeCommand(cfg, r) == TestCommand(["merge", "origin/master"])
    ensures PushTagsCommand(cfg, r) == TestCommand(["push", "--tags"])
  {
    assert "branch." + "master" + ".remote" == "branch.master.remote";
    assert "branch." + "master" + ".merge" == "branch.master.merge";
    assert "refs/heads/" + "master" == "refs/heads/master";
    assert "origin/" + "master" == "origin/master";
  }

  /** A missing working directory is cloned into, and the history is read
      right away. */
  lemma CloneScenario(from: Time, to: Time, fs: FileSystem, exec: Executor, parse: Parser)
    requires !fs(TestDirectory)
    requires forall c :: exec(c).Ok?
    ensures GetModifications(TestConfig(), TestResult(from, "", false), TestResult(to, "", false), fs, exec, parse).trace
            == [TestCommand(["clone", "xyz.git", "c:\\source\\"]), TestCommand(HistoryArgs)]
  {
    var r := TestResult(to, "", false);
    FixtureCommands(TestConfig(), r);
    assert AllOk(SetupCommands(TestConfig(), r, Absent), exec);
    FreshRepositoryIsExtracted(TestConfig(), TestResult(from, "", false), r, fs, exec, parse);
  }

  /** The `.git` subdirectory the probe looks for in the test directory. */
  lemma TestRepositoryPath()
    ensures CombinePath(TestDirectory, ".git") == "c:\\source\\.git"
  {
  }

  /** A working directory without `.git` is initialised, configured to track
      `master` of the remote, fetched, and its history read. */
  lemma InitScenario(from: Time, to: Time, fs: FileSystem, exec: Executor, parse: Parser)
    requires fs(TestDirectory) && !fs("c:\\source\\.git")
    requires forall c :: exec(c).Ok?
    ensures GetModifications(TestConfig(), TestResult(from, "", false), TestResult(to, "", false), fs, exec, parse).trace
            == [TestCommand(["init"]),
                TestCommand(["config", "remote.origin.url", "xyz.git"]),
                TestCommand(["config", "remote.origin.fetch", "+refs/heads/*:refs/remotes/origin/*"]),
                TestCommand(["config", "branch.master.remote", "origin"]),
                TestCommand(["config", "branch.master.merge", "refs/heads/master"]),
                TestCommand(["fetch"]),
                TestCommand(HistoryArgs)]
  {
    var r := TestResult(to, "", false);
    FixtureCommands(TestConfig(), r);
    TestRepositoryPath();
    assert Probe(fs, TestDirectory) == Uninitialised;
    var setup := SetupCommands(TestConfig(), r, Uninitialised);
    assert setup == [InitCommand(TestConfig(), r)] + ConfigCommands(TestConfig(), r) + [FetchCommand(TestConfig(), r)];
    assert AllOk(setup, exec);
    FreshRepositoryIsExtracted(TestConfig(), TestResult(from, "", false), r, fs, exec, parse);
    var c := ConfigCommands(TestConfig(), r);
    SetupThenHistory(InitCommand(TestConfig(), r), c, FetchCommand(TestConfig(), r), HistoryCommand(TestConfig(), r));
  }

  /** The trace of initialising: one command, four settings, the fetch, and
      the history query. */
  lemma SetupThenHistory<T>(init: T, settings: seq<T>, fetch: T, history: T)
    requires |settings| == 4
    ensures [init] + settings + [fetch] + [history]
            == [init, settings[0], settings[1], settings[2], settings[3], fetch, history]
  {
  }

  /** Equal heads: fetch, the two head queries, and no modifications. */
  lemma HashesMatchScenario(from: Time, to: Time, fs: FileSystem, exec: Executor, parse: Parser)
    requires forall d :: fs(d)
    requires forall c :: exec(c).Ok?
    requires exec(TestCommand(OriginHashArgs)) == Ok("abcdef")
    requires exec(TestCommand(LocalHashArgs)) == Ok("abcdef")
    ensures GetModifications(TestConfig(), TestResult(from, "", false), TestResult(to, "", false), fs, exec, parse)
            == Run([TestCommand(["fetch"]), TestCommand(OriginHashArgs), TestCommand(LocalHashArgs)], Success([]))
  {
    var r := TestResult(to, "", false);
    FixtureCommands(TestConfig(), r);
    assert Probe(fs, TestDirectory) == Ready;
    SameHeadsReportNothing(TestConfig(), TestResult(from, "", false), r, fs, exec, parse);
  }

  /** A hash of lower-case letters has no white space to trim. */
  lemma PlainHash(s: string)
    requires forall i :: 0 <= i < |s| ==> 'a' <= s[i] <= 'z'
    ensures Text.Trim(s) == s
  {
    if |s| > 0 {
      var first, last := s[0], s[|s| - 1];
      assert 'a' <= first <= 'z' && 'a' <= last <= 'z';
      assert !Text.IsWhiteSpace(first) && !Text.IsWhiteSpace(last);
    }
  }

  /** Different heads: fetch, the two head queries, the history query, and
      the parser's answer for the window from `from` to `to`. */
  lemma HashesDifferScenario(from: Time, to: Time, fs: FileSystem, exec: Executor, parse: Parser)
    requires forall d :: fs(d)
    requires forall c :: exec(c).Ok?
    requires exec(TestCommand(OriginHashArgs)) == Ok("abcdef")
    requires exec(TestCommand(LocalHashArgs)) == Ok("ghijkl")
    ensures GetModifications(TestConfig(), TestResult(from, "", false), TestResult(to, "", false), fs, exec, parse)
            == Run([TestCommand(["fetch"]), TestCommand(OriginHashArgs), TestCommand(LocalHashArgs),
                    TestCommand(HistoryArgs)],
                   parse(Timestamps.Rewrite(exec(TestCommand(HistoryArgs)).stdout), from, to))
  {
    var r := TestResult(to, "", false);
    FixtureCommands(TestConfig(), r);
    assert Probe(fs, TestDirectory) == Ready;
    PlainHash("abcdef");
    PlainHash("ghijkl");
    assert "abcdef"[0] != "ghijkl"[0];
    DifferentHeadsAreExtracted(TestConfig(), TestResult(from, "", false), r, fs, exec, parse);
  }

  /** Getting the source of a repository with a head: clean, query the
      head, reset, merge `origin/master`. */
  lemma GetSourceScenario(start: Time, exec: Executor)
    requires forall c :: exec(c).Ok?
    ensures GetSource(TestConfig(), TestResult(start, "", false), exec)
            == Run([TestCommand(["clean", "-d", "-f", "-x"]), TestCommand(LocalHashArgs),
                    TestCommand(["reset", "HEAD", "--hard"]), TestCommand(["merge", "origin/master"])],
                   Success(()))
  {
    var r := TestResult(start, "", false);
    FixtureCommands(TestConfig(), r);
    GetSourceResetsLocalHead(TestConfig(), r, exec);
  }

  /** With tagging on, a successful build is tagged with the default message
      "ccnet build " and its label (the scenario's label is `foo`), and the
      tags are pushed. */
  lemma DefaultLabelScenario(start: Time, name: string, exec: Executor)
    requires forall c :: exec(c).Ok?
    ensures LabelSourceControl(TestConfig().(tagOnSuccess := true), TestResult(start, name, false), exec)
            == Run([TestCommand(["tag", "-a", "-m", "ccnet build " + name, name]), TestCommand(["push", "--tags"])],
                   Success(()))
  {
    var cfg := TestConfig().(tagOnSuccess := true);
    var r := TestResult(start, name, false);
    FixtureCommands(cfg, r);
    DefaultTagMessage("xyz.git", name);
    assert TagCommand(cfg, r) == TestCommand(["tag", "-a", "-m", "ccnet build " + name, name]);
  }

  /** The custom template of the scenario puts the label between the dashes. */
  lemma CustomTagMessage(name: string)
    ensures Text.FormatLabel("a---- " + Text.Placeholder + " ----a", name) == "a---- " + name + " ----a"
  {
    Text.FormatOnePlaceholder("a---- ", " ----a", name);
  }

  /** A custom message `a---- {0} ----a` has the label (`foo` in the
      scenario) put in place of the placeholder. */
  lemma CustomLabelScenario(start: Time, name: string, exec: Executor)
    requires forall c :: exec(c).Ok?
    ensures LabelSourceControl(TestConfig().(tagOnSuccess := true, tagCommitMessage := "a---- " + Text.Placeholder + " ----a"),
                               TestResult(start, name, false), exec)
            == Run([TestCommand(["tag", "-a", "-m", "a---- " + name + " ----a", name]), TestCommand(["push", "--tags"])],
                   Success(()))
  {
    var cfg := TestConfig().(tagOnSuccess := true, tagCommitMessage := "a---- " + Text.Placeholder + " ----a");
    var r := TestResult(start, name, false);
    FixtureCommands(cfg, r);
    CustomTagMessage(name);
    assert TagCommand(cfg, r) == TestCommand(["tag", "-a", "-m", "a---- " + name + " ----a", name]);
  }

  /** No command is issued to tag a failed build, to tag with tagging off,
      or to get the source with automatic checkout off. */
  lemma NothingIssuedScenarios(start: Time, name: string, exec: Executor)
    ensures LabelSourceControl(TestConfig().(tagOnSuccess := true), TestResult(start, name, true), exec).trace == []
    ensures LabelSourceControl(TestConfig(), TestResult(start, name, false), exec).trace == []
    ensures GetSource(TestConfig().(autoGetSource := false), TestResult(start, name, false), exec).trace == []
  {
  }
}
