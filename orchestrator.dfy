/** packages/core/TestFixerOrchestrator.ts: wires the analyzer, the fix
    generator and its strategies together, gathers the test files and the
    commit diff, and drives one build from its failures to a proposal and
    the branch a pull request would target. Fetching from the CI service and
    from the code host are parameters: `fetchFile(path, ref)` and
    `fetchDiff(sha)` either give the text or fail with a message. */
module Orchestration {
  import opened Wrappers
  import opened JsString
  import opened TestFailureModel
  import opened FixResultModel
  import opened TestAnalyzer
  import opened FixStrategy
  import opened FixGeneration
  import AI = AIFixStrategy
  import Assertion = AssertionFixStrategy

  /** The parts of `TestFixerConfig` the workflow reads; tokens and keys
      only reach the network clients. */
  datatype TestFixerConfig = TestFixerConfig(
    owner: string,
    repo: string,
    openaiModel: Option<string>,
    fixConfidenceThreshold: Option<real>)

  /** What the workflow hands to the pull-request step: the proposal and
      the branch the request targets. */
  datatype PullRequestPlan = PullRequestPlan(proposal: FixProposal, baseBranch: string)

  /** The registry `setupStrategies` builds: snapshot and assertion
      strategies for their categories, the model-backed fallback for the
      other four. */
  function StandardRegistry(client: Option<AI.AIClient>): (m: map<string, Strategy>)
    ensures forall f: AnalyzedFailure :: f.failureType.Tag() in m && m[f.failureType.Tag()].CanHandle(f)
    ensures forall k :: k in m ==> exists t: FailureType :: t.Tag() == k
  {
    map[SNAPSHOT.Tag() := SnapshotStrategy,
        ASSERTION.Tag() := AssertionStrategy(client),
        MOCK.Tag() := AIStrategy(client),
        PROPERTY_CHANGE.Tag() := AIStrategy(client),
        TYPE_ERROR.Tag() := AIStrategy(client),
        UNKNOWN.Tag() := AIStrategy(client)]
  }

  /** Registering the six entries one after the other over `m` gives `m`
      overridden by the standard registry. */
  lemma RegistryAsUpdates(m: map<string, Strategy>, client: Option<AI.AIClient>)
    ensures m + StandardRegistry(client) ==
      m[SNAPSHOT.Tag() := SnapshotStrategy][ASSERTION.Tag() := AssertionStrategy(client)]
       [MOCK.Tag() := AIStrategy(client)][PROPERTY_CHANGE.Tag() := AIStrategy(client)]
       [TYPE_ERROR.Tag() := AIStrategy(client)][UNKNOWN.Tag() := AIStrategy(client)]
  {
  }

  /** The branch a pull request targets: the proposal's branch, or "main"
      when it is missing or empty. */
  function BaseBranch(branch: Option<string>): (b: string)
    ensures b != []
    ensures Truthy(branch) ==> b == branch.value
    ensures !Truthy(branch) ==> b == "main"
  {
    if Truthy(branch) then branch.value else "main"
  }

  /** The test files worth fetching, in order of first appearance:
      non-empty, not "Unknown", each once. */
  function UniqueFiles(failures: seq<AnalyzedFailure>): (files: seq<string>)
    ensures forall x :: x in files <==>
      x != "" && x != "Unknown" && exists i :: 0 <= i < |failures| && failures[i].failure.testFile == x
    ensures forall i, j :: 0 <= i < j < |files| ==> files[i] != files[j]
  {
    if failures == [] then []
    else
      var front := UniqueFiles(failures[..|failures| - 1]);
      var file := failures[|failures| - 1].failure.testFile;
      assert forall i :: 0 <= i < |failures| - 1 ==> failures[..|failures| - 1][i] == failures[i];
      if file == "" || file == "Unknown" || file in front then front else front + [file]
  }

  /** The revision files are read at: the first failure's commit, unless it
      is missing or empty. */
  function CommitRef(failures: seq<AnalyzedFailure>): (r: Option<string>)
    ensures r.Some? ==> failures != [] && r.value == failures[0].failure.commitSha && r.value != ""
    ensures r.None? ==> failures == [] || failures[0].failure.commitSha == ""
  {
    if failures != [] && failures[0].failure.commitSha != "" then Some(failures[0].failure.commitSha) else None
  }

  const PlaceholderPrefix: string := "// Unable to fetch file content: "

  /** A fetched file, or the placeholder comment that records the failure. */
  function ContentOrPlaceholder(fetched: Result<string, string>): (c: string)
    ensures fetched.Success? ==> c == fetched.value
    ensures fetched.Failure? ==> StartsWith(c, PlaceholderPrefix) && c[|PlaceholderPrefix|..] == fetched.error
  {
    match fetched
    case Success(content) => content
    case Failure(message) => PlaceholderPrefix + message
  }

  /** The diff `gatherContext` ends with: none when there is no file to
      fetch or no commit; otherwise the fetched diff, or none if the fetch
      failed. */
  function ContextDiff(failures: seq<AnalyzedFailure>, fetchDiff: string -> Result<string, string>): (d: Option<string>)
    ensures UniqueFiles(failures) == [] || CommitRef(failures).None? ==> d == None
    ensures UniqueFiles(failures) != [] && CommitRef(failures).Some? ==>
      d == fetchDiff(CommitRef(failures).value).ToOption()
  {
    if UniqueFiles(failures) == [] then None
    else match CommitRef(failures)
      case None => None
      case Some(sha) => fetchDiff(sha).ToOption()
  }

  /** The content `generateProposal` sees for a test file after
      `gatherContext`: what was fetched (or the placeholder) for a file that
      was fetched, "" for any other. */
  function ContextContent(failures: seq<AnalyzedFailure>, file: string,
                          fetchFile: (string, Option<string>) -> Result<string, string>): string {
    if file in UniqueFiles(failures) then ContentOrPlaceholder(fetchFile(file, CommitRef(failures))) else ""
  }

  class TestFixerOrchestrator {
    const config: TestFixerConfig
    const generator: FixGenerator

    /** The constructor: a generator configured with the threshold and the
        model name, and the standard strategies registered. */
    constructor(config: TestFixerConfig)
      ensures this.config == config
      ensures generator.config == FixGeneratorConfig(config.fixConfidenceThreshold, config.openaiModel)
      ensures generator.strategies == StandardRegistry(Some(AI.AIClient))
      ensures fresh(generator)
    {
      this.config := config;
      generator := new FixGenerator(FixGeneratorConfig(config.fixConfidenceThreshold, config.openaiModel));
      new;
      SetupStrategies();
    }

    /** `setupStrategies`: the six registrations, each with the model
        client. */
    method SetupStrategies()
      modifies generator
      ensures generator.strategies == old(generator.strategies) + StandardRegistry(Some(AI.AIClient))
    {
      var client := Some(AI.AIClient);
      RegistryAsUpdates(generator.strategies, client);
      generator.RegisterStrategy(SNAPSHOT.Tag(), SnapshotStrategy);
      generator.RegisterStrategy(ASSERTION.Tag(), AssertionStrategy(client));
      generator.RegisterStrategy(MOCK.Tag(), AIStrategy(client));
      generator.RegisterStrategy(PROPERTY_CHANGE.Tag(), AIStrategy(client));
      generator.RegisterStrategy(TYPE_ERROR.Tag(), AIStrategy(client));
      generator.RegisterStrategy(UNKNOWN.Tag(), AIStrategy(client));
    }

    /** `gatherContext`: every unique test file fetched at the first
        failure's commit (a failed fetch leaves a placeholder), then the
        commit's diff; with no file to fetch it returns at once with
        nothing. */
    method GatherContext(failures: seq<AnalyzedFailure>,
                         fetchFile: (string, Option<string>) -> Result<string, string>,
                         fetchDiff: string -> Result<string, string>)
      returns (testFiles: map<string, string>, codeDiff: Option<string>)
      ensures forall x :: x in testFiles <==> x in UniqueFiles(failures)
      ensures forall x :: x in testFiles ==> testFiles[x] == ContentOrPlaceholder(fetchFile(x, CommitRef(failures)))
      ensures forall x :: ContentFor(testFiles, x) == ContextContent(failures, x, fetchFile)
      ensures codeDiff == ContextDiff(failures, fetchDiff)
    {
      testFiles := map[];
      var commitSha := CommitRef(failures);
      var uniqueFiles := UniqueFiles(failures);
      if uniqueFiles == [] {
        return testFiles, None;
      }
      var i := 0;
      while i < |uniqueFiles|
        invariant 0 <= i <= |uniqueFiles|
        invariant forall x :: x in testFiles <==> x in uniqueFiles[..i]
        invariant forall x :: x in testFiles ==> testFiles[x] == ContentOrPlaceholder(fetchFile(x, commitSha))
      {
        var file := uniqueFiles[i];
        var content := ContentOrPlaceholder(fetchFile(file, commitSha));
        testFiles := testFiles[file := content];
        i := i + 1;
      }
      assert uniqueFiles[..i] == uniqueFiles;
      codeDiff := None;
      if commitSha.Some? {
        match fetchDiff(commitSha.value)
        case Success(diff) => codeDiff := Some(diff);
        case Failure(_) =>
      }
    }

    /** `generateFixes`: the context, then the proposal. */
    method GenerateFixes(failures: seq<AnalyzedFailure>,
                         fetchFile: (string, Option<string>) -> Result<string, string>,
                         fetchDiff: string -> Result<string, string>,
                         callAI: string -> Result<string, string>)
      returns (proposal: FixProposal)
      ensures |proposal.fixes| == |failures|
      ensures forall i :: 0 <= i < |failures| ==>
        proposal.fixes[i] == generator.GenerateFix(failures[i],
          ContextContent(failures, failures[i].failure.testFile, fetchFile),
          ContextDiff(failures, fetchDiff), callAI)
      ensures proposal.totalConfidence == MeanConfidence(proposal.fixes)
      ensures failures != [] ==>
        proposal.buildNumber == failures[0].failure.buildNumber &&
        proposal.commitSha == failures[0].failure.commitSha &&
        proposal.branch == failures[0].failure.branch
    {
      var testFiles, codeDiff := GatherContext(failures, fetchFile, fetchDiff);
      proposal := generator.GenerateProposal(failures, testFiles, codeDiff, callAI);
    }

    /** `fixFailuresAndCreatePR`, up to the pull request itself: no failures
        is an error; otherwise the failures are analyzed, the context
        gathered, the proposal generated and the target branch chosen. */
    method FixFailuresAndCreatePR(fetched: seq<TestFailure>,
                                  fetchFile: (string, Option<string>) -> Result<string, string>,
                                  fetchDiff: string -> Result<string, string>,
                                  callAI: string -> Result<string, string>)
      returns (r: Result<PullRequestPlan, string>)
      ensures fetched == [] <==> r == Failure("No test failures found for this build")
      ensures fetched != [] ==> r.Success?
      ensures r.Success? ==>
        var analyzed := AnalyzeMany(fetched);
        |r.value.proposal.fixes| == |fetched| &&
        (forall i :: 0 <= i < |fetched| ==>
          r.value.proposal.fixes[i] == generator.GenerateFix(Analyze(fetched[i]),
            ContextContent(analyzed, fetched[i].testFile, fetchFile),
            ContextDiff(analyzed, fetchDiff), callAI)) &&
        r.value.proposal.buildNumber == fetched[0].buildNumber &&
        r.value.proposal.commitSha == fetched[0].commitSha &&
        r.value.baseBranch == BaseBranch(fetched[0].branch)
    {
      if fetched == [] {
        return Failure("No test failures found for this build");
      }
      var analyzed := AnalyzeMany(fetched);
      var proposal := GenerateFixes(analyzed, fetchFile, fetchDiff, callAI);
      assert forall i :: 0 <= i < |fetched| ==> analyzed[i].failure == fetched[i];
      r := Success(PullRequestPlan(proposal, BaseBranch(proposal.branch)));
    }
  }

  /** With the strategies the orchestrator registers, the default threshold
      and the model call as written, a failure read by the analyzer is
      fixed exactly when it is a snapshot mismatch, or an assertion whose
      message parses and whose expected value appears quoted in the file
      and differs from the received one. Everything routed to the model
      fails, and unknown failures are refused for low confidence. */
  lemma StandardOutcome(g: FixGenerator, t: TestFailure, content: string, codeDiff: Option<string>)
    requires g.strategies == StandardRegistry(Some(AI.AIClient))
    requires Threshold(g.config) == DefaultThreshold
    ensures var a := Analyze(t);
      var info := Assertion.ParseAssertionError(t.errorMessage);
      g.GenerateFix(a, content, codeDiff, AI.CallAI).success <==>
        a.failureType == SNAPSHOT ||
        (a.failureType == ASSERTION && info.Some? &&
         Assertion.HasQuoted(content, info.value.expected) && info.value.expected != info.value.received)
  {
    var a := Analyze(t);
    var c := Some(AI.AIClient);
    RegistryEntry(c, a.failureType);
    match a.failureType
    case SNAPSHOT =>
    case ASSERTION =>
    case UNKNOWN =>
    case _ =>
      AI.AsWrittenNeverSucceeds(c, a, content, codeDiff);
  }

  /** The strategy the standard registry holds for each category. */
  lemma RegistryEntry(client: Option<AI.AIClient>, t: FailureType)
    ensures t.Tag() in StandardRegistry(client)
    ensures StandardRegistry(client)[t.Tag()] ==
      match t
      case SNAPSHOT => SnapshotStrategy
      case ASSERTION => AssertionStrategy(client)
      case _ => AIStrategy(client)
  {
    FailureTypeTagsDistinct();
  }
}
