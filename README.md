# simple-js-test-fixer core, modelled in Dafny

The core of simple-js-test-fixer (`packages/core`) takes failing Jest tests
reported by CircleCI and turns them into a fix proposal for a pull request.
It does this in four steps:

1. The **test analyzer** classifies each failure, by keywords in its message
   and stack trace, as a snapshot mismatch, an assertion, a property change,
   a mock problem, a type error or unknown. It also gives the failure a
   confidence score.
2. The **fix generator** sends each analyzed failure to the strategy
   registered for its category, unless the score is below the threshold.
   It then builds a proposal: every result, the mean confidence of the
   successful ones, and 15 minutes saved per successful fix.
3. The **strategies** produce the fixes:
   - snapshot: accept the new output;
   - assertion: parse the expected and received values out of the message
     and swap them inside quotes in the test file;
   - AI: build a prompt and ask a language model.
4. The **orchestrator** wires these together. It gathers the test files and
   the commit diff, and picks the branch the pull request targets.

Two clients are also modelled, in their pure parts:
- the **OpenAI client**: the prompt it builds and the parser that reads the
  code and the explanation back out of an answer;
- the **CircleCI client**: the pipeline and workflow status summaries, the
  test-result conversion, the log normalisation, and the extraction of the
  test file, test name and stack trace from Jest output.

Each source file is one Dafny module:

| source file | module | file |
|---|---|---|
| models/TestFailure.ts | `TestFailureModel` | `test_failure.dfy` |
| models/FixResult.ts | `FixResultModel` | `fix_result.dfy` |
| services/TestAnalyzer.ts | `TestAnalyzer` | `test_analyzer.dfy` |
| strategies/IFixStrategy.ts | `FixStrategy` | `fix_strategy.dfy` |
| strategies/SnapshotFixStrategy.ts | `SnapshotFixStrategy` | `snapshot_strategy.dfy` |
| strategies/AssertionFixStrategy.ts | `AssertionFixStrategy` | `assertion_strategy.dfy` |
| strategies/AIFixStrategy.ts | `AIFixStrategy` | `ai_strategy.dfy` |
| services/FixGenerator.ts | `FixGeneration` | `fix_generator.dfy` |
| TestFixerOrchestrator.ts | `Orchestration` | `orchestrator.dfy` |
| integrations/OpenAIClient.ts | `OpenAI` | `openai_client.dfy` |
| integrations/CircleCIClient.ts | `CircleCI` | `circleci_client.dfy` |

`Wrappers` (Option, Result) and `JsString` hold the shared helpers.
`JsString` models the JavaScript string operations the source relies on:
`trim` with JavaScript's whitespace set, `includes`, `startsWith`,
`split`, `join` and ASCII `toLowerCase`.

The fix generator and the orchestrator update their own fields, so they are
Dafny classes. `FixGenerator.registerStrategy` and `generateProposal`, and
the orchestrator's `setupStrategies` and `gatherContext`, are methods. The
loops in the source are `while` loops with invariants. Everything else in
the core computes a value and is written as functions.

The strategy interface `IFixStrategy` is a datatype with one variant per
implementation. Each variant dispatches to its own module.

Network calls are parameters of the operations that make them:
- the language-model call: `callAI: string -> Result<string, string>`;
- the GitHub file and diff fetches: `fetchFile` and `fetchDiff`;
- the CircleCI answers: data passed in.

`AIFixStrategy.callAI` in the source always throws "not implemented".
`AIFixStrategy.CallAI` models that, and `Orchestration.StandardOutcome` uses
it to state which failures the standard setup can fix.

Points of the code that the model keeps as written:
- The classifier tests snapshot, then assertion, then property change, then
  mock, then type error (services/TestAnalyzer.ts:38-63).
- A result can be successful with empty fixed code. The snapshot strategy
  returns the file content unchanged, even when that content is "".
- The Jest-gutter clause of the stack-line filter can never hold
  (integrations/CircleCIClient.ts:331). It tests the trimmed line against a
  pattern that starts with whitespace. `CircleCI.GutterNeverOnTrimmed`
  proves this.
- `TestFailure` declares no `branch` field, yet the fix generator reads one
  and the CircleCI client sets one. The model gives `TestFailure` an
  optional `branch`.

## Model

| member | source | states |
|---|---|---|
| TestFailureModel.FailureTypeTagsDistinct | packages/core/models/TestFailure.ts:26-33 | There are exactly six failure categories, and their string tags are pairwise distinct. The fix generator's registry keys therefore identify a category. |
| TestFailureModel.FailureType.Tag | packages/core/models/TestFailure.ts:26-33 | Every category's tag is a non-empty string. |
| FixResultModel.FailedResult | packages/core/models/FixResult.ts:4-22 | A failed result is unsuccessful. It carries the given errors, has no code, and has no model or token count. |
| TestAnalyzer.DetectIsFirstMatch | packages/core/services/TestAnalyzer.ts:33-66 | The nested keyword tests of `detectFailureType`, over the lower-cased message and stack trace, equal a first-match reading of an ordered table of keyword cues. |
| TestAnalyzer.FirstMatchIsFirst | packages/core/services/TestAnalyzer.ts:33-66 | Reading a rule table first-match-wins gives the category of a rule that holds with no holding rule before it, or UNKNOWN when no rule holds. |
| TestAnalyzer.ClassificationIsFirstMatch | packages/core/services/TestAnalyzer.ts:33-66 | A failure is UNKNOWN exactly when no cue holds. Otherwise its category is that of the first cue that holds. |
| TestAnalyzer.SnapshotCueInMessageWins | packages/core/services/TestAnalyzer.ts:38-41 | A message mentioning "snapshot" and "mismatch" or "does not match", in any case, is classified SNAPSHOT whatever else it says. |
| TestAnalyzer.StackTraceCueCounts | packages/core/services/TestAnalyzer.ts:35 | A keyword found in the lower-cased stack trace is in the classified text, so the stack trace takes part in classification. |
| TestAnalyzer.CalculateConfidence | packages/core/services/TestAnalyzer.ts:71-87 | The score lies in [0.3, 0.9]. It is below 0.5 exactly for UNKNOWN and is 0.9 for snapshots. For other categories it is at least 0.7, and exactly 0.7 when there is no stack trace and the message has at most 50 characters. |
| TestAnalyzer.ConfidenceCapNeverBinds | packages/core/services/TestAnalyzer.ts:71-87 | For categories other than snapshot and unknown, the `Math.min(…, 1.0)` cap never changes the score: it is 0.7 plus the two 0.1 bonuses. |
| TestAnalyzer.ExtractAffectedCode | packages/core/services/TestAnalyzer.ts:92-97 | The affected code is the stack trace. |
| TestAnalyzer.Analyze | packages/core/services/TestAnalyzer.ts:10-21 | The analysis keeps the failure. It records the detected category and the stack trace, and its score is in [0.3, 0.9], below 0.5 exactly when the category is UNKNOWN. |
| TestAnalyzer.AnalyzeMany | packages/core/services/TestAnalyzer.ts:26-28 | Analyzing many failures analyzes each one, in order. |
| TestAnalyzer.AnalysisIgnoresCase | packages/core/services/TestAnalyzer.ts:33-35 | Failures whose message and stack trace agree up to case get the same category and score. |
| FixStrategy.Strategy.Name | packages/core/strategies/IFixStrategy.ts:11 | Every strategy has a non-empty name. |
| FixStrategy.Strategy.GenerateFix | packages/core/strategies/IFixStrategy.ts:21-25 | Every strategy reports its own name and the failure's file. It keeps the score in [0, 1] when the analyzer's score is, and a successful result carries no validation errors. |
| FixStrategy.NamesIdentifyStrategies | packages/core/strategies/IFixStrategy.ts:11 | Two strategies have the same name exactly when they are of the same kind. |
| FixStrategy.FailedResultsCarryNoNewCode | packages/core/strategies/IFixStrategy.ts:21-25 | No strategy returns a failed result whose fixed code differs from its original code. |
| SnapshotFixStrategy.GenerateExplanation | packages/core/strategies/SnapshotFixStrategy.ts:37-48 | The explanation opens with the mismatch sentence and ends with the review sentence. It includes the code-modifications sentence exactly when a non-empty diff is given. |
| SnapshotFixStrategy.GenerateFix | packages/core/strategies/SnapshotFixStrategy.ts:15-35 | The fix always succeeds, with confidence 0.95. It leaves the file content unchanged (Jest rewrites the snapshot) and names the failure's file and the strategy. |
| SnapshotFixStrategy.ResultIgnoresFailureText | packages/core/strategies/SnapshotFixStrategy.ts:15-35 | The result depends only on the test file, the content and the diff, never on the failure's message. |
| AssertionFixStrategy.ParseAssertionError | packages/core/strategies/AssertionFixStrategy.ts:62-81 | Both parsed values are trimmed: trimming them again changes nothing. |
| AssertionFixStrategy.UnparsedWithoutExpected | packages/core/strategies/AssertionFixStrategy.ts:64-68 | A message that does not contain "expected", in any case, never parses, since every pattern needs that word. |
| AssertionFixStrategy.NoExpectedNoMatch | packages/core/strategies/AssertionFixStrategy.ts:64-68 | With no "expected" at or after a position, neither the quoted patterns nor the labelled pattern match from there. |
| AssertionFixStrategy.NoKeywordNoMatch | packages/core/strategies/AssertionFixStrategy.ts:65-66 | A quoted pattern whose second keyword ("received" or "but got") does not occur in the message never matches. |
| AssertionFixStrategy.WithoutKeywordsOnlyLabelled | packages/core/strategies/AssertionFixStrategy.ts:64-79 | A message with neither "received" nor "but got" is read by the labelled `Expected: … Received: …` pattern alone. |
| AssertionFixStrategy.EscapedIsLiteral | packages/core/strategies/AssertionFixStrategy.ts:91-93 | Escaping every regular-expression metacharacter gives a pattern that matches exactly the original text: reading the escaped pattern back as a literal gives the input. |
| AssertionFixStrategy.ApplySimpleFix | packages/core/strategies/AssertionFixStrategy.ts:83-89 | The fix replaces every occurrence of the expected value inside matching quotes by the received value, keeping the quotes. |
| AssertionFixStrategy.ReplacedLength | packages/core/strategies/AssertionFixStrategy.ts:83-89 | The rewritten code's length is the old length plus, for each quoted occurrence replaced, the difference in length between the two values. |
| AssertionFixStrategy.NoOccurrenceNoChange | packages/core/strategies/AssertionFixStrategy.ts:83-89 | Code with no quoted occurrence of the expected value is returned unchanged, with no replacement counted. |
| AssertionFixStrategy.ReplaceBySelf | packages/core/strategies/AssertionFixStrategy.ts:83-89 | Replacing a value by itself leaves the code unchanged. |
| AssertionFixStrategy.FirstOccurrenceReplaced | packages/core/strategies/AssertionFixStrategy.ts:83-89 | Everything before the first quoted occurrence is kept. That occurrence becomes the received value inside the same quotes, and the rest is rewritten the same way. |
| AssertionFixStrategy.ReplaceChangesIff | packages/core/strategies/AssertionFixStrategy.ts:83-89 | The rewrite changes the code exactly when the expected value occurs quoted in it and differs from the received value. |
| AssertionFixStrategy.Explanation | packages/core/strategies/AssertionFixStrategy.ts:49 | The explanation mentions both the received and the expected value. |
| AssertionFixStrategy.GenerateFix | packages/core/strategies/AssertionFixStrategy.ts:20-60 | An unparseable message gives a failed result with confidence 0, the content unchanged and the parse error recorded. Otherwise the content is rewritten with confidence 0.7, and the result succeeds exactly when the expected value appears quoted in the file and differs from the received one. |
| AIFixStrategy.BuildPrompt | packages/core/strategies/AIFixStrategy.ts:52-71 | The prompt starts with the assistant header and ends with the instruction. It contains the test file content, and the diff whenever the diff is non-empty. |
| AIFixStrategy.DiffSectionOnly | packages/core/strategies/AIFixStrategy.ts:59-67 | A non-empty diff adds exactly one section, between the failure's sections and the test file. An empty diff gives the same prompt as no diff. |
| AIFixStrategy.CallAI | packages/core/strategies/AIFixStrategy.ts:73-77 | The model call, as written, always fails with its "not implemented" error. |
| AIFixStrategy.GenerateExplanation | packages/core/strategies/AIFixStrategy.ts:79-88 | The explanation is never empty. It is the generic one exactly for snapshot and assertion failures. |
| AIFixStrategy.ExplanationsDistinguishNamedCategories | packages/core/strategies/AIFixStrategy.ts:79-88 | The categories without a generic explanation each get a different explanation. |
| AIFixStrategy.CalculateConfidence | packages/core/strategies/AIFixStrategy.ts:90-93 | The score is the analyzer's score times 0.8, capped at 0.75. It is non-negative when the analyzer's score is. |
| AIFixStrategy.ConfidenceBelowAnalyzer | packages/core/strategies/AIFixStrategy.ts:90-93 | For every score the analyzer can produce, the cap never binds. The model's score is 80% of the analyzer's, strictly lower, and lies in [0.24, 0.72]. |
| AIFixStrategy.CreateFailureResult | packages/core/strategies/AIFixStrategy.ts:95-106 | A failure result is unsuccessful with confidence 0. Its explanation is the error, which is also its only validation error. |
| AIFixStrategy.GenerateFix | packages/core/strategies/AIFixStrategy.ts:21-50 | No client gives "AI client not configured". A failed call gives "AI fix failed: " and the error. The fix succeeds exactly when a client exists and the call answers, and then carries the answer as fixed code, the reduced score, the category's explanation and the model name. |
| AIFixStrategy.AsWrittenNeverSucceeds | packages/core/strategies/AIFixStrategy.ts:21-50 | With the model call as written, the AI strategy never succeeds. Its only error is the message it explains. |
| FixGeneration.Threshold | packages/core/services/FixGenerator.ts:19-25 | The threshold is the configured one, or 0.5 when none is set or the setting is 0. It is never 0. |
| FixGeneration.Successful | packages/core/services/FixGenerator.ts:90 | The successful results are exactly the results that succeeded. |
| FixGeneration.MeanBounds | packages/core/services/FixGenerator.ts:91-93 | With no success the mean confidence is 0. Otherwise it lies between any bounds that hold for every successful result's confidence. |
| FixGeneration.FailedFixKeepsMean | packages/core/services/FixGenerator.ts:90-93 | Adding a failed result changes neither the successful results nor the mean confidence. |
| FixGeneration.FixGenerator.constructor | packages/core/services/FixGenerator.ts:19-25 | A new generator keeps its configuration and has no strategy registered. |
| FixGeneration.FixGenerator.RegisterStrategy | packages/core/services/FixGenerator.ts:30-32 | Registering maps the category to the strategy and keeps every other entry. |
| FixGeneration.FixGenerator.GenerateFix | packages/core/services/FixGenerator.ts:37-72 | With no strategy the result fails with "No strategy found". Below the threshold it fails with "Low confidence" and the analyzer's score. Otherwise it is the registered strategy's result. |
| FixGeneration.FixGenerator.SuccessPassedTheGate | packages/core/services/FixGenerator.ts:37-72 | A successful fix was made by the registered strategy, for a failure whose score met the threshold. |
| FixGeneration.FixGenerator.GenerateProposal | packages/core/services/FixGenerator.ts:77-103 | There is one result per failure, in order, each fixed with its file's content ("" if absent). The total confidence is the mean over the successful results. Each success saves 15 minutes. Build number, commit and branch come from the first failure, with defaults when there is none. |
| Orchestration.StandardRegistry | packages/core/TestFixerOrchestrator.ts:216-248 | The registry covers every category, and each category's strategy can handle every failure of that category. No other key is registered. |
| Orchestration.RegistryAsUpdates | packages/core/TestFixerOrchestrator.ts:216-248 | The six registrations, made in order, give the existing registry overridden by the standard one. |
| Orchestration.BaseBranch | packages/core/TestFixerOrchestrator.ts:104 | The pull request targets the proposal's branch, or "main" when it is missing or empty. The target is never empty. |
| Orchestration.UniqueFiles | packages/core/TestFixerOrchestrator.ts:168 | A file is fetched exactly when it is some failure's test file, is not empty and is not "Unknown". Each file is fetched once. |
| Orchestration.CommitRef | packages/core/TestFixerOrchestrator.ts:165 | Files are read at the first failure's commit when it is non-empty, and at the default branch otherwise. |
| Orchestration.ContentOrPlaceholder | packages/core/TestFixerOrchestrator.ts:177-191 | A fetched file keeps its content. A failed fetch becomes the "Unable to fetch file content" comment followed by the error message. |
| Orchestration.ContextDiff | packages/core/TestFixerOrchestrator.ts:170-210 | There is no diff when there is no file to fetch or no commit. Otherwise the diff is the fetched one, or none when that fetch failed. |
| Orchestration.TestFixerOrchestrator.constructor | packages/core/TestFixerOrchestrator.ts:50-71 | The generator gets the configured threshold and model, and the standard strategies are registered. |
| Orchestration.TestFixerOrchestrator.SetupStrategies | packages/core/TestFixerOrchestrator.ts:216-248 | The registry becomes the previous one overridden by the standard strategies. |
| Orchestration.TestFixerOrchestrator.GatherContext | packages/core/TestFixerOrchestrator.ts:160-211 | The map holds exactly the unique test files, each with its fetched content or placeholder, and the content the generator looks up agrees with that. The diff is `ContextDiff`. |
| Orchestration.TestFixerOrchestrator.GenerateFixes | packages/core/TestFixerOrchestrator.ts:131-141 | The proposal holds one generator result per failure, each using the gathered content and diff. Its confidence is the mean of the successes, and its build, commit and branch come from the first failure. |
| Orchestration.TestFixerOrchestrator.FixFailuresAndCreatePR | packages/core/TestFixerOrchestrator.ts:76-110 | No failures is exactly the error "No test failures found for this build". Otherwise the result is a plan, and every fetched failure is analyzed and fixed in order. The plan carries the first failure's build and commit and targets its branch, or "main". |
| Orchestration.StandardOutcome | packages/core/TestFixerOrchestrator.ts:216-248 | With the standard strategies, the default threshold and the model call as written, a failure is fixed exactly when it is a snapshot mismatch, or an assertion whose message parses and whose expected value appears quoted in the file and differs from the received one. |
| Orchestration.RegistryEntry | packages/core/TestFixerOrchestrator.ts:216-248 | The standard registry maps snapshot to the snapshot strategy, assertion to the assertion strategy, and every other category to the AI strategy. |
| OpenAI.BuildFixPrompt | packages/core/integrations/OpenAIClient.ts:119-142 | The prompt starts with the analysis heading. It contains the error, the stack trace and the test file, and the diff block whenever the diff is non-empty. It ends with the example answer. |
| OpenAI.DiffBlockOnly | packages/core/integrations/OpenAIClient.ts:129-131 | A non-empty diff adds exactly one diff block between the failure sections and the file section. An empty diff gives the same prompt as no diff. |
| OpenAI.ParseFixResponse | packages/core/integrations/OpenAIClient.ts:147-155 | The code is the whole answer or a non-empty trimmed block. The explanation is the default text or a non-empty trimmed text, and it is the default when the answer has no "EXPLANATION:" marker. |
| OpenAI.CodeRoundTrip | packages/core/integrations/OpenAIClient.ts:138-148 | Code formatted as the prompt's example asks, with no fence inside it, is read back trimmed. |
| OpenAI.ExplanationRoundTrip | packages/core/integrations/OpenAIClient.ts:138-149 | An explanation formatted as the prompt's example asks, after code without the marker, is read back trimmed. |
| OpenAI.ParseFormatted | packages/core/integrations/OpenAIClient.ts:134-155 | Parsing an answer in the requested format gives back the trimmed code and the trimmed explanation. |
| OpenAI.ExplanationFromIs | packages/core/integrations/OpenAIClient.ts:149 | The explanation starts right after the first case-insensitive "EXPLANATION:" marker. |
| CircleCI.CountStatus | packages/core/integrations/CircleCIClient.ts:109-111 | A count is zero exactly when the status is absent, and equals the total exactly when every entry has that status. |
| CircleCI.CountsFit | packages/core/integrations/CircleCIClient.ts:107-112 | The failed, success and running counts together never exceed the total. |
| CircleCI.OverallStatus | packages/core/integrations/CircleCIClient.ts:180-191 | "failed" if any workflow failed. Otherwise "running" if any is running. Otherwise "success" if there is at least one and all succeeded. Otherwise "unknown", which includes no workflows at all. |
| CircleCI.Summarize | packages/core/integrations/CircleCIClient.ts:107-112 | The summary counts all entries and those failed, successful and running. The three counts fit within the total. |
| CircleCI.StatusFromSummary | packages/core/integrations/CircleCIClient.ts:95-112 | The overall status can be read off the summary's counts alone. |
| CircleCI.PipelineStatus | packages/core/integrations/CircleCIClient.ts:84-121 | A pipeline whose workflows were fetched gets their overall status and summary. A failed fetch gives "unknown" and all-zero counts. |
| CircleCI.FailedJobs | packages/core/integrations/CircleCIClient.ts:151 | The failed jobs are exactly the jobs with status "failed", and there are as many as the summary counts. |
| CircleCI.FailedJobsAppend | packages/core/integrations/CircleCIClient.ts:151 | The failed jobs keep the jobs' order: a concatenation gives the failed jobs of each part in turn, and one job is kept exactly when its status is "failed". |
| CircleCI.DescribeWorkflow | packages/core/integrations/CircleCIClient.ts:147-175 | A workflow's details summarize its jobs. They list exactly its failed jobs, in the order `FailedJobsAppend` fixes, as many as the summary's failed count. |
| CircleCI.DescribePipeline | packages/core/integrations/CircleCIClient.ts:146-217 | The pipeline's status is the overall status of its workflows, each described in order. The failed-job list is the workflows' failed jobs in turn, its count is its length, and every listed job carries the pipeline number. |
| CircleCI.AllFailedJobsAppend | packages/core/integrations/CircleCIClient.ts:194-199 | The flattened failed-job list keeps the workflows' order: a concatenation gives the list of each part in turn, and one workflow gives its own failed jobs tagged with the pipeline number. |
| CircleCI.InAllFailedJobs | packages/core/integrations/CircleCIClient.ts:194-199 | A reference is in the flattened list exactly when it comes from one workflow's failed jobs. |
| CircleCI.PipelineFailedJobs | packages/core/integrations/CircleCIClient.ts:146-199 | A reference is in the pipeline's failed-job list exactly when it is built from a job with status "failed" in one of the workflows, with the pipeline number. |
| CircleCI.WorkflowRefs | packages/core/integrations/CircleCIClient.ts:151-174 | A reference comes from a workflow's failed jobs exactly when it is built from one of its jobs with status "failed". |
| CircleCI.PipelineSummaryAddsUp | packages/core/integrations/CircleCIClient.ts:194-215 | The pipeline's failed-job count is the sum over its workflows and never exceeds its total job count. |
| CircleCI.ItemToFailure | packages/core/integrations/CircleCIClient.ts:409-419 | A test item becomes a failure with its name and its file, or its class name when the file is empty. The message defaults to "". The stack trace is empty exactly when there is no run time or it is 0, and otherwise is "Runtime: " followed by the run time in decimal and "ms". The timestamp is the moment of parsing and there is no branch. Job, build and commit are left for the caller. |
| CircleCI.ParseTestResults | packages/core/integrations/CircleCIClient.ts:406-420 | The failures are exactly the converted items whose result is "failure", with job, build and commit unset. |
| CircleCI.ParseTestResultsAppend | packages/core/integrations/CircleCIClient.ts:406-420 | Parsing two batches of items one after the other gives the same failures as parsing them together. |
| CircleCI.NonEmptyMessages | packages/core/integrations/CircleCIClient.ts:361-363 | Every kept message is non-empty, and a text is kept exactly when some entry carries it as a non-empty message. |
| CircleCI.NonEmptyMessagesAppend | packages/core/integrations/CircleCIClient.ts:361-363 | The messages keep the log's order: a concatenation gives the messages of each part in turn, and one entry gives its message exactly when it is non-empty. |
| CircleCI.NormalizeOutput | packages/core/integrations/CircleCIClient.ts:359-377 | A list of entries becomes its non-empty messages joined by newlines. Text stays as it is, and an object gives its message. Anything else is "Unable to parse error output". |
| CircleCI.EntriesSplitBack | packages/core/integrations/CircleCIClient.ts:359-365 | When no message holds a newline, splitting the joined log at newlines gives back exactly the non-empty messages. |
| CircleCI.TestFileOf | packages/core/integrations/CircleCIClient.ts:314-317 | A path taken from a FAIL line is a test file name (`.spec` or `.test`, then `.js`, `.ts`, `.jsx` or `.tsx`) and occurs in the line. |
| CircleCI.FailLineNamesPath | packages/core/integrations/CircleCIClient.ts:312-317 | For "FAIL " followed by a one-line path ending in `.spec.js`, `.spec.ts`, `.test.js` or `.test.ts`, the test file read is that path. |
| CircleCI.GutterNeverOnTrimmed | packages/core/integrations/CircleCIClient.ts:327-332 | The Jest-gutter test never holds on a trimmed line. A line is a stack line exactly when, trimmed, it starts with "at " or contains ".ts:" or ".js:". |
| CircleCI.StackLines | packages/core/integrations/CircleCIClient.ts:327-332 | The stack lines are exactly the lines that pass the stack-line test. |
| CircleCI.FilterAppend | packages/core/integrations/CircleCIClient.ts:327-332 | Filtering keeps the order: a concatenation gives the kept elements of each part in turn, and one element is kept exactly when it passes. |
| CircleCI.StackLinesAppend | packages/core/integrations/CircleCIClient.ts:327-332 | The stack lines keep the output's order: a concatenation gives the stack lines of each part in turn, and one line is kept exactly when it passes the stack-line test. |
| CircleCI.CleanName | packages/core/integrations/CircleCIClient.ts:323 | The name is the line with every "●" removed, then trimmed. It holds no "●" and trimming it again changes nothing. |
| JsString.RemoveAll | packages/core/integrations/CircleCIClient.ts:323 | The result holds exactly the characters of the text other than the removed one, and a text without that character is unchanged. |
| JsString.RemoveAllAppend | packages/core/integrations/CircleCIClient.ts:323 | Removal keeps the order of the other characters: a concatenation loses the character part by part, and a single character stays exactly when it is not the removed one. |
| CircleCI.ParseTestInfo | packages/core/integrations/CircleCIClient.ts:301-339 | The test file comes from the first FAIL line. The test name is the first line holding "●", cleaned by `CleanName`; there is one exactly when the output contains "●". There is a stack trace exactly when some line is a stack line; it is those lines, in order, joined by newlines, and splitting it gives them back. |
| CircleCI.SplitJoin | packages/core/integrations/CircleCIClient.ts:306-335 | Splitting a join of separator-free parts at the separator gives back the parts. |

## Left out

- Network access is left out: the HTTP `fetch` helpers, the GitHub client,
  the OpenAI completion call (`generateCompletion`, `generateTestFix`) and
  the CircleCI requests. Their answers are parameters of the modelled
  operations.
- Creating the pull request (`PRCreator.preparePRData`,
  `GitHubClient.createPullRequest`) is out of scope: the model stops at the
  pull-request plan, which holds the proposal and the target branch.
- `fetchTestFailures`, `analyzeFailures` and `createPR` only forward to
  another component. `analyzeFailures` is `TestAnalyzer.AnalyzeMany`, and
  `createPR` is the `BaseBranch` choice plus the left-out pull-request step.
- CircleCI's fetching operations are not part of this model:
  `getProjects`, `getFailedJobs`, `getTestResults`, `getFailedTestOutput`,
  `getJobLogs`, `getWorkflowJobs`, the step and action lookup of
  `getPipelineErrorMessages`, and the constructor's URL defaults. Their
  pure parts are modelled: the status summaries, `parseTestResults`, the log
  normalisation and `parseTestInfo`.
- The OpenAI client's constructor defaults (model "gpt-4" and the base
  URL) are left out: they only configure the request.
- `async`, `await` and `Promise.all` are modelled as sequential evaluation.
  The source never relies on interleaving.
- Console logging is left out.
- Confidence scores are exact `real`s, not IEEE doubles. The model has no
  rounding and no NaN.
- Dates are a `Timestamp` value passed in.
- Strings are sequences of Unicode code points. `toLowerCase` is modelled for
  ASCII letters only.
- `TestAnalyzer.CalculateConfidence`: lengths count code points; JavaScript
  counts UTF-16 units, so a character outside the Basic Multilingual Plane
  counts once, not twice, against the 50-character rule.
- `AssertionFixStrategy.ApplySimpleFix`: JavaScript's `$` patterns in a
  replacement string (`$&`, `$1`, …) are not modelled. The received value
  is inserted literally.
- The unused `aiModel` setting of the fix generator and the unused
  `aiClient` of the assertion strategy are carried but never read, as in
  the source.
- JavaScript's distinction between `undefined` and `""` is modelled with
  `Option` only where the source tests it for truthiness.
- `CircleCI.ItemToFailure`: a fractional `run_time` is not modelled. Run
  times are natural numbers, printed in decimal.
- `OpenAI.ParseFormatted`, `OpenAI.CodeRoundTrip`, `OpenAI.ExplanationRoundTrip`: the round trips are proved for code with no fence and no "EXPLANATION:" marker inside it, and with non-empty trimmed text. With other text, the lazy regular expression stops at the first fence, and an empty capture falls back to the defaults.
- `CircleCI.FailLineNamesPath`: stated for paths ending in `.js` or `.ts`. Paths ending in `.jsx` or `.tsx` are covered only by `CircleCI.TestFileOf`, which proves that whatever path is read is a test file name.
- `AssertionFixStrategy.ParseAssertionError`: the contract states that the captured values are trimmed and, through the lemmas beside it, when nothing matches. It does not restate which of the three patterns applies to a given message. The matchers follow JavaScript's backtracking order case by case.
- `OpenAI.ParseFixResponse`: the contract gives the shape of the result and the default explanation. Exact results are stated for well-formed answers by `OpenAI.ParseFormatted`.
