/** packages/core/strategies/IFixStrategy.ts: the interface every repair
    strategy implements (a name, `canHandle`, `generateFix`), closed over the
    three implementations of the core. */
module FixStrategy {
  import opened Wrappers
  import opened TestFailureModel
  import opened FixResultModel
  import Snapshot = SnapshotFixStrategy
  import Assertion = AssertionFixStrategy
  import AI = AIFixStrategy

  /** One value per strategy class; the two that take a model client keep it. */
  datatype Strategy =
    | SnapshotStrategy
    | AssertionStrategy(aiClient: Option<AI.AIClient>)
    | AIStrategy(aiClient: Option<AI.AIClient>)
  {
    /** `name`. */
    function Name(): (n: string)
      ensures n != []
    {
      match this
      case SnapshotStrategy => Snapshot.Name
      case AssertionStrategy(_) => Assertion.Name
      case AIStrategy(_) => AI.Name
    }

    /** `canHandle`. */
    predicate CanHandle(f: AnalyzedFailure) {
      match this
      case SnapshotStrategy => Snapshot.CanHandle(f)
      case AssertionStrategy(_) => Assertion.CanHandle(f)
      case AIStrategy(_) => AI.CanHandle(f)
    }

    /** `generateFix`, with the model call as a parameter. Every strategy
        reports its own name and the failure's file, and keeps the score in
        [0, 1] when the analyzer's score is. */
    function GenerateFix(f: AnalyzedFailure, testFileContent: string, codeDiff: Option<string>,
                         callAI: string -> Result<string, string>): (r: FixResult)
      ensures r.strategy == Name() && r.filePath == f.failure.testFile
      ensures 0.0 <= f.confidence <= 1.0 ==> 0.0 <= r.confidence <= 1.0
      ensures r.success ==> r.validationErrors == None
    {
      match this
      case SnapshotStrategy => Snapshot.GenerateFix(f, testFileContent, codeDiff)
      case AssertionStrategy(_) => Assertion.GenerateFix(f, testFileContent, codeDiff)
      case AIStrategy(client) => AI.GenerateFix(client, f, testFileContent, codeDiff, callAI)
    }
  }

  /** The three names are different, so a result's `strategy` field tells
      which strategy produced it. */
  lemma NamesIdentifyStrategies(s: Strategy, t: Strategy)
    ensures s.Name() == t.Name() <==> s.SnapshotStrategy? == t.SnapshotStrategy? &&
                                      s.AssertionStrategy? == t.AssertionStrategy?
  {
  }

  /** A failed result never carries proposed code, except for the assertion
      strategy, which hands back the unchanged file. */
  lemma FailedResultsCarryNoNewCode(s: Strategy, f: AnalyzedFailure, content: string,
                                    codeDiff: Option<string>, callAI: string -> Result<string, string>)
    ensures var r := s.GenerateFix(f, content, codeDiff, callAI);
      !r.success ==> r.fixedCode == r.originalCode
  {
    if s.AssertionStrategy? {
      var info := Assertion.ParseAssertionError(f.failure.errorMessage);
      if info.Some? {
        Assertion.ReplaceChangesIff(content, info.value.expected, info.value.received);
      }
    }
  }
}
