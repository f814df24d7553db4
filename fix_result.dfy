/** The repair records of packages/core/models/FixResult.ts. */
module FixResultModel {
  import opened Wrappers

  /** The outcome of one repair attempt. `validationErrors`, `aiModel` and
      `tokensUsed` are optional, as in the source. */
  datatype FixResult = FixResult(
    originalCode: string,
    fixedCode: string,
    filePath: string,
    strategy: string,
    explanation: string,
    confidence: real,
    success: bool,
    validationErrors: Option<seq<string>>,
    aiModel: Option<string>,
    tokensUsed: Option<nat>)

  /** All repair attempts for one build. `estimatedTimesSaved` is in minutes;
      `branch` is copied from the first failure (the fix generator writes it
      although the source's interface does not declare it). */
  datatype FixProposal = FixProposal(
    buildNumber: int,
    commitSha: string,
    branch: Option<string>,
    fixes: seq<FixResult>,
    totalConfidence: real,
    estimatedTimesSaved: nat)

  /** A failed result: no proposed code, `success` false and the given
      validation errors. */
  function FailedResult(filePath: string, strategy: string, explanation: string,
                        confidence: real, errors: seq<string>): (r: FixResult)
    ensures !r.success && r.validationErrors == Some(errors)
    ensures r.originalCode == "" && r.fixedCode == ""
    ensures r.filePath == filePath && r.strategy == strategy && r.confidence == confidence
    ensures r.aiModel == None && r.tokensUsed == None
  {
    FixResult("", "", filePath, strategy, explanation, confidence, false, Some(errors), None, None)
  }
}
