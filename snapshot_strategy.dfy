/** packages/core/strategies/SnapshotFixStrategy.ts: snapshot mismatches are
    confirmed and explained; the file itself is never edited (the test runner
    regenerates snapshots). */
module SnapshotFixStrategy {
  import opened Wrappers
  import opened JsString
  import opened TestFailureModel
  import opened FixResultModel

  const Name: string := "snapshot"

  const Opening: string := "Snapshot mismatch detected. "
  const RecentChanges: string := "The UI or component output has changed due to recent code modifications. "
  const Closing: string :=
    "The snapshot will be updated to match the current output. " +
    "Please review the snapshot diff to ensure the changes are intentional."

  predicate CanHandle(f: AnalyzedFailure) {
    f.failureType == SNAPSHOT
  }

  /** `generateExplanation`: the opening sentence, the code-modifications
      sentence when a non-empty diff is given, then the review sentences. */
  function GenerateExplanation(f: AnalyzedFailure, codeDiff: Option<string>): (e: string)
    ensures StartsWith(e, Opening)
    ensures |Closing| <= |e| && e[|e| - |Closing|..] == Closing
    ensures Truthy(codeDiff) ==> e == Opening + RecentChanges + Closing
    ensures !Truthy(codeDiff) ==> e == Opening + Closing
  {
    var explanation := Opening;
    var explanation := if Truthy(codeDiff) then explanation + RecentChanges else explanation;
    explanation + Closing
  }

  /** `generateFix`: always succeeds with confidence 0.95 and leaves the
      content as it is. */
  function GenerateFix(f: AnalyzedFailure, testFileContent: string, codeDiff: Option<string>): (r: FixResult)
    ensures r.success && r.validationErrors == None
    ensures r.originalCode == testFileContent && r.fixedCode == testFileContent
    ensures r.confidence == 0.95
    ensures r.filePath == f.failure.testFile && r.strategy == Name
    ensures r.explanation == GenerateExplanation(f, codeDiff)
    ensures r.aiModel == None && r.tokensUsed == None
  {
    FixResult(testFileContent, testFileContent, f.failure.testFile, Name,
              GenerateExplanation(f, codeDiff), 0.95, true, None, None, None)
  }

  /** The result depends on the failure only through its test file: the
      error message, stack trace, category and score play no part. */
  lemma ResultIgnoresFailureText(f: AnalyzedFailure, g: AnalyzedFailure, content: string, codeDiff: Option<string>)
    requires f.failure.testFile == g.failure.testFile
    ensures GenerateFix(f, content, codeDiff) == GenerateFix(g, content, codeDiff)
  {
  }
}
