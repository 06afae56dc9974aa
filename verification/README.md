# git source-control plugin for CruiseControl.NET, modelled in Dafny

This project models the plugin that lets a CruiseControl.NET build server poll
a git repository. It covers four operations:

- **Polling for changes** (`GetModifications`). The plugin brings the working
  copy to a fetched repository: it clones a missing directory, initialises and
  configures a directory without `.git`, and fetches an existing repository.
  For an existing repository it then compares the remote head with the local
  head. Equal heads report nothing. Otherwise it reads the whole history,
  rewrites git's timestamps into the extended ISO 8601 form, and hands the
  text to the history parser.
- **The history parser** (`gitHistoryParser.Parse`). It wraps the history in
  an `ArrayOfModification` element and deserialises it. It then numbers every
  record by its 1-based position in the whole list, and keeps the records whose
  time lies in the inclusive window `[from, to]`. Numbering comes before
  filtering, so the surviving numbers are absolute positions.
- **Getting the source** (`GetSource`). When enabled, it cleans the working
  copy, resets it to the local head when there is one, and merges
  `origin/<branch>`.
- **Tagging a build** (`LabelSourceControl`). When enabled and the build
  did not fail, it creates an annotated tag whose message is the configured
  template with the label in place of `{0}`, then pushes the tags.

The process executor is an oracle from a command (executable, argument list,
directory) to `Ok(stdout)` or `Fail(message)`. Every operation returns a `Run`:
the commands it issued, in order, and its value or the exception that escaped.
The directory probe is a function from a path to whether it exists. The XML
deserialiser and the parser used by a poll are injected functions.

Modules:

- `Results`: the `Option` and `Result` types, and the plugin's two errors.
- `Text`: `Char.IsWhiteSpace`, `String.Trim`, `String.Contains`, and
  `String.Format` with the single placeholder `{0}`.
- `Process`: invocations, outcomes, traces, and `RunAll`, which stops at the
  first failure.
- `HistoryParser`: the parser, with `Select` as its reference definition.
- `Timestamps`: the regular-expression rewrite of `<ModifiedTime>` elements.
- `Git`: configuration, command builders, repository probing, and the
  operations.
- `GitScenarios`: properties that relate several commands or configurations,
  and the unit-test scenarios. Each scenario holds for every executor that
  answers the way the test's mock does.

The remote head query and the history query name `origin/master` whatever
branch is configured (ccnet.git.plugin/git.cs:147 and :184); the local head
query names no ref (ccnet.git.plugin/git.cs:159-163). `Git.HistoryCommand` and
`Git.OriginHashCommand` therefore hard-code `master`,
and `GitScenarios.PollingIgnoresBranch` proves that the branch does not affect
polling a cloned or existing repository. Only the configuration writes and the
merge use the branch.

## Model

| member | source | states |
|---|---|---|
| HistoryParser.Parse | ccnet.git.plugin/gitHistoryParser.cs:18-46 | A document the deserialiser rejects yields exactly the "History Parsing Failed" error and no records. Otherwise the result equals the reference `Select` (number, then filter). It is no longer than the input, its numbers strictly increase, each element is the input record at its number and lies in the window, and every input record in the window appears with its position as number. For an empty list this gives an empty result. |
| HistoryParser.SelectIsOrderedSubsequence | ccnet.git.plugin/gitHistoryParser.cs:34-45 | The output is a subsequence of the input in its original order. Each change number lies in 1..n and names the input record it came from. The numbers strictly increase. |
| HistoryParser.SelectMembership | ccnet.git.plugin/gitHistoryParser.cs:35-43 | Record i, numbered i+1, is in the output if and only if `from <= time <= to`; both bounds are inclusive. |
| HistoryParser.FilterMembership | ccnet.git.plugin/gitHistoryParser.cs:40-43 | The window filter keeps exactly the elements inside the window. |
| HistoryParser.FilterKeepsIncreasing | ccnet.git.plugin/gitHistoryParser.cs:36-44 | Filtering keeps change numbers increasing and never lengthens the list. |
| HistoryParser.SelectEmpty | ccnet.git.plugin.tests/gitHistoryParserTest.cs:56-60 | An empty history yields no records for any window. |
| HistoryParser.FourRecordExample | ccnet.git.plugin.tests/gitHistoryParserTest.cs:71-80 | The test's four records, polled from 2009-01-01 10:00, give exactly two records, numbered 3 and 4, with comments "Commit Message 3" and "Commit Message 4". |
| Text.Trim | ccnet.git.plugin/git.cs:151 | The result is a slice of the input with only white space before and after it, and it neither starts nor ends with white space. All-white-space text trims to empty. Text without white space at either end is left unchanged. |
| Text.Contains | ccnet.git.plugin/git.cs:172 | The scan answers true exactly when the pattern occurs at some index. |
| Text.FormatLabel | ccnet.git.plugin/git.cs:238 | Formatting with `{0}` itself as the label gives back the template: every placeholder is replaced by exactly the label and all other text is copied. |
| Text.FormatWithoutPlaceholder | ccnet.git.plugin/git.cs:238 | A template without `{0}` formats to itself. |
| Text.FormatAroundPlaceholder | ccnet.git.plugin/git.cs:238 | Formatting `before + {0} + after` formats each side on its own and puts the label in between. |
| Text.FormatOnePlaceholder | ccnet.git.plugin/git.cs:238 | A template with one `{0}` and no other `{` or `}` formats to the text around it with the label in place. |
| Process.RunAll | ccnet.git.plugin/git.cs:107-119 | Commands run in order. The trace is a prefix of the list. The run succeeds exactly when every command succeeds, and then the trace is the whole list. On failure, the last command issued failed, every earlier one succeeded, and its message is the escaping error. |
| Timestamps.ToIsoAt | ccnet.git.plugin/git.cs:191-195 | A rewritten match is in the extended form. Each of its characters is read from the match: `T` replaces the first white space, the sign and hours move one place left, and `:` is inserted before the minutes. |
| Timestamps.ToNativeAt | ccnet.git.plugin/git.cs:191-195 | The inverse mapping gives a match of the pattern, character by character. |
| Timestamps.NativeRoundTrip | ccnet.git.plugin/git.cs:195 | Rewriting a match and restoring its two white-space characters gives the match back. |
| Timestamps.IsoRoundTrip | ccnet.git.plugin/git.cs:195 | Every extended-form element is the rewrite of a match, whatever white space that match used. |
| Timestamps.Rewrite | ccnet.git.plugin/git.cs:195 | The rewrite keeps the length of the text. |
| Timestamps.MatchesDoNotOverlap | ccnet.git.plugin/git.cs:195 | No match of the pattern starts strictly inside another match, so the left-to-right scan cannot be misaligned by overlapping candidates. |
| Timestamps.RewriteInPlace | ccnet.git.plugin/git.cs:195 | Every match of the input is replaced, at its own index, by its rewrite. |
| Timestamps.RewriteCopiesOutsideMatches | ccnet.git.plugin/git.cs:195 | Every character that no match covers is copied unchanged to the same index. |
| Timestamps.RewriteMeetsDescription | ccnet.git.plugin/git.cs:195 | The scan's output meets the position-by-position description of `Regex.Replace`: matches rewritten in place, every other character kept. |
| Timestamps.DescriptionDeterminesRewrite | ccnet.git.plugin/git.cs:195 | Any text that meets that description is the scan's output, so the description and the scan define the same rewrite. |
| Timestamps.RewriteLeavesNoNative | ccnet.git.plugin/git.cs:191-195 | No match of the pattern survives anywhere in the output. |
| Timestamps.RewriteIdentity | ccnet.git.plugin/git.cs:195 | Text without a match is left exactly as it was. |
| Timestamps.RewriteIdempotent | ccnet.git.plugin/git.cs:195 | Rewriting twice is the same as rewriting once. |
| Timestamps.ToIsoKeepsDigitsAndSigns | ccnet.git.plugin/git.cs:195 | One rewritten match keeps all its digits and its sign, in order. |
| Timestamps.RewriteKeepsDigitsAndSigns | ccnet.git.plugin/git.cs:191-195 | The whole rewrite keeps every digit and sign of its input, in order. |
| Timestamps.RewriteKeepsOpens | ccnet.git.plugin/git.cs:195 | Every `<M` of the input is still at the same index of the output. |
| Git.CommandLines | ccnet.git.plugin/git.cs:130-276 | Every command runs the configured executable in the build's working directory, with the argument list its builder adds: clone, init, fetch, the remote and local head queries, the history query, clean, reset, merge `origin/<branch>`, the annotated tag with the formatted message, and push of the tags. |
| Git.ConfigCommands | ccnet.git.plugin/git.cs:110-113 | Four `config` writes in the working copy, in order: the remote's URL, its fetch refspec, and the remote and merge ref of the configured branch. |
| Git.CombinePath | ccnet.git.plugin/git.cs:104 | The path is the directory, at most one separator, then the name. A `\` is inserted exactly when the directory is non-empty and does not already end in `\`, `/` or `:`. |
| Git.Probe | ccnet.git.plugin/git.cs:102-104 | The repository is absent exactly when the working directory does not exist, and ready exactly when both it and its `.git` subdirectory exist. |
| Git.SetupCommands | ccnet.git.plugin/git.cs:97-128 | One clone for an absent directory, one fetch for a ready one, and init, the four settings and a fetch for a directory without `.git`. Every setup ends with the clone or the fetch, and every command runs in the working copy. |
| Git.Fetch | ccnet.git.plugin/git.cs:97-128 | The trace is a prefix of the setup for the probed state: clone when the directory is absent; init, the four config writes and fetch when `.git` is absent; fetch otherwise. It succeeds exactly when every setup command does, and then returns "created" exactly when the repository was not ready. The first failure escapes. |
| Git.FetchHalts | ccnet.git.plugin/git.cs:97-128 | No command after a failed setup command is issued, and the failure escapes. |
| Git.OriginHash | ccnet.git.plugin/git.cs:143-152 | One remote-head query. It succeeds exactly when the command does, with its output trimmed; a failure escapes. |
| Git.LocalHash | ccnet.git.plugin/git.cs:157-175 | One local-head query. Success gives the trimmed output. The result is "no hash" exactly when the command fails with a message containing `fatal: bad default revision 'HEAD'`. It is an error exactly when it fails with any other message, and that message escapes. |
| Git.LogHistory | ccnet.git.plugin/git.cs:180-199 | One history query. On success the text is git's output with every timestamp match rewritten in place and every other character kept; it keeps its length, holds no git-style timestamp element, and keeps every digit and sign of git's output. A failure escapes. |
| Git.Extract | ccnet.git.plugin/git.cs:57 | The history query's rewritten output goes to the parser with the window from the previous build's start to this build's start. A failed query escapes. |
| Git.CompareWith | ccnet.git.plugin/git.cs:55 | After the remote head: a failed local query escapes; a local head equal to the remote head gives no modifications after one query; otherwise, including no local head, the history is extracted. |
| Git.Compare | ccnet.git.plugin/git.cs:55 | The remote head is queried before the local head. A failed remote query escapes before the local head is queried. |
| Git.GetModifications | ccnet.git.plugin/git.cs:53-58 | A failed fetch escapes. A repository created by this poll goes straight to the history query, with no head query. An existing repository is compared first. |
| Git.GetModificationsPlan | ccnet.git.plugin/git.cs:53-58 | A poll of a new repository issues a prefix of its setup followed by the history query. A poll of an existing one issues a prefix of fetch, remote head, local head, history. |
| Git.GetModificationsHalts | ccnet.git.plugin/git.cs:53-58 | The poll stops at its first fatal failure, which escapes. A local head query that finds no commit is not fatal. |
| Git.CompareHalts | ccnet.git.plugin/git.cs:55 | The comparison stops at its first fatal failure. |
| Git.FreshRepositoryIsExtracted | ccnet.git.plugin/git.cs:55-57 | When the poll creates the repository and its commands succeed, the trace is the setup followed by the history query, and the result is the parser's answer. |
| Git.SameHeadsReportNothing | ccnet.git.plugin/git.cs:55 | For an existing repository whose trimmed local and remote heads are equal, the trace is exactly fetch, remote head, local head, and no modifications are reported. |
| Git.DifferentHeadsAreExtracted | ccnet.git.plugin/git.cs:55-57 | For an existing repository whose heads differ, or which has no local head, the trace is fetch, remote head, local head, history, and the result is the parser's answer. |
| Git.GetSource | ccnet.git.plugin/git.cs:60-66 | With automatic checkout off, no command is issued. Otherwise the clean comes first, and its failure escapes before anything else runs. After a successful clean the local-head part follows. |
| Git.Update | ccnet.git.plugin/git.cs:64-65 | A failed local query escapes. Otherwise the reset runs only with a local head, and then the merge runs, stopping at the first failure. |
| Git.GetSourcePlan | ccnet.git.plugin/git.cs:60-66 | The commands are a prefix of clean, local query, reset when there is a head, merge. The clean always comes first. A failed query ends the run after two commands. A successful run ends with the merge. |
| Git.GetSourceHalts | ccnet.git.plugin/git.cs:60-66 | Getting the source stops at its first fatal failure, which escapes. |
| Git.GetSourceResetsLocalHead | ccnet.git.plugin/git.cs:62-65 | With a local head and successful commands, the run is exactly clean, query, reset, merge. |
| Git.GetSourceWithoutLocalHead | ccnet.git.plugin/git.cs:64-65 | Without a local head, the run is exactly clean, query, merge: there is no reset. |
| Git.LabelSourceControl | ccnet.git.plugin/git.cs:68-73 | No command is issued exactly when tagging is off or the build failed. Otherwise the tag comes first, with the formatted message and the label as its name, then the push. The push is issued only after a successful tag, and a failure escapes. |
| GitScenarios.DefaultTagMessage | ccnet.git.plugin/git.cs:37 | The default template tags a build with "ccnet build " followed by its label. |
| GitScenarios.HashQueriesOnlyWhenReady | ccnet.git.plugin/git.cs:55 | A poll that creates the repository never queries a head, remote or local. |
| GitScenarios.HistoryQueriedIffChanged | ccnet.git.plugin/git.cs:55-57 | With every command succeeding, the history is queried exactly when the repository is new or the trimmed heads differ. |
| GitScenarios.PollingIgnoresBranch | ccnet.git.plugin/git.cs:147 | Changing the configured branch changes nothing in a poll unless the poll initialises the directory: the remote head query and the history query read `origin/master`, and the local head query names no ref. |
| GitScenarios.ComparisonIgnoresBranch | ccnet.git.plugin/git.cs:184 | The comparison and the history extraction do not depend on the branch. |
| GitScenarios.ResetOnlyWithLocalHead | ccnet.git.plugin/git.cs:64 | A reset in the trace implies that the local head query found a head. |
| GitScenarios.FixtureCommands | ccnet.git.plugin.tests/gitTest.cs:20-29 | With the test's repository, branch and directory, every command builder gives the test's literal command line as an argument list. |
| GitScenarios.CloneScenario | ccnet.git.plugin.tests/gitTest.cs:149-161 | A missing directory: clone, then the history query. |
| GitScenarios.InitScenario | ccnet.git.plugin.tests/gitTest.cs:163-182 | A directory without `.git`: init, the four config writes, fetch, then the history query. |
| GitScenarios.HashesMatchScenario | ccnet.git.plugin.tests/gitTest.cs:184-195 | Both heads `abcdef`: fetch, the two head queries, and no modifications. |
| GitScenarios.HashesDifferScenario | ccnet.git.plugin.tests/gitTest.cs:245-261 | Heads `abcdef` and `ghijkl`: fetch, the two head queries, the history query, and the parser's answer for the polling window. |
| GitScenarios.GetSourceScenario | ccnet.git.plugin.tests/gitTest.cs:202-213 | Clean, local head query, reset, merge `origin/master`. |
| GitScenarios.DefaultLabelScenario | ccnet.git.plugin.tests/gitTest.cs:126-135 | A successful build is tagged "ccnet build <label>" under its label, then the tags are pushed. |
| GitScenarios.CustomLabelScenario | ccnet.git.plugin.tests/gitTest.cs:137-147 | The template `a---- {0} ----a` gives the message "a---- <label> ----a". |
| GitScenarios.NothingIssuedScenarios | ccnet.git.plugin.tests/gitTest.cs:215-243 | Nothing is issued for a failed build, with tagging off, or with automatic checkout off. |

## Left out

- Process launching, `ProcessInfo`, the UTF-8 stream encoding, timeouts and
  logging: the executor is an oracle over command values.
- `ProcessArgumentBuilder` quoting: arguments are kept as a list of strings.
  The tests' quoted command lines appear unquoted in `GitScenarios`.
- `XmlSerializer`, including CDATA comments: the deserialiser is an injected
  function. Only the envelope it receives is modelled.
- `DateTime`, time zones and the parse of the rewritten timestamps: instants
  are integers with their usual order.
- NetReflector configuration binding and `BaseFromWorkingDirectory`: the
  configuration is a plain record, and the working directory arrives already
  resolved in the integration result.
- Text.FormatLabel: models `String.Format` only for the item `{0}`. The
  escapes `{{` and `}}`, the forms `{0,n}` and `{0:fmt}`, other indices, and
  the exception a malformed template raises are not modelled; such text is
  copied verbatim.
- Git.CombinePath: follows `Path.Combine` on Windows, where the separator is
  `\` and a directory ending in `\`, `/` or `:` gets none. Other platforms,
  and a rooted second part, are not modelled: the second part is always
  `.git`.
- Timestamps.IsDigit: `\d` is restricted to the ASCII digits, while .NET
  matches every Unicode decimal digit.
- HistoryParser.Parse: change numbers are unbounded integers. The source's
  32-bit counter cannot overflow for any history of realistic length.
- The exception a failed command raises is modelled only by its message.
- The tests of configuration loading from XML and of the stub file system.
  These concern reflection and test plumbing, not the plugin's logic.
