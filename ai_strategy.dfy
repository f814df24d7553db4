/** packages/core/strategies/AIFixStrategy.ts: the fallback strategy. It
    accepts every failure, builds a prompt and asks a language model for the
    corrected test file. The model call is a parameter `callAI`; the call as
    the source writes it, which always fails, is `CallAI`. */
module AIFixStrategy {
  import opened Wrappers
  import opened JsString
  import opened TestFailureModel
  import opened FixResultModel

  const Name: string := "ai-powered"
  const ModelName: string := "gpt-4"

  /** The injected model client; only its presence matters here. */
  datatype AIClient = AIClient

  predicate CanHandle(f: AnalyzedFailure) {
    true
  }

  const PromptHeader: string := "You are a test fixing assistant. Fix the following test failure:\n\n"
  const DiffHeading: string := "## Recent Code Changes:\n"
  const PromptClosing: string :=
    "Please provide the corrected test file. Only return the fixed code, no explanations."

  const FenceOpen: string := "## Current Test File:\n```typescript\n"
  const FenceClose: string := "\n```\n\n"

  /** The failure's sections: test file, error and stack trace. */
  function FailureSections(f: AnalyzedFailure): string {
    "## Test File: " + f.failure.testFile + "\n" +
    "## Error: " + f.failure.errorMessage + "\n\n" +
    "## Stack Trace:\n" + f.failure.stackTrace + "\n\n"
  }

  /** The diff section, present only for a non-empty diff. */
  function DiffSection(codeDiff: Option<string>): string {
    if Truthy(codeDiff) then DiffHeading + codeDiff.value + "\n\n" else ""
  }

  /** `buildPrompt`: the failure's file, error and stack trace, the diff
      section when a non-empty diff is given, then the fenced test file and
      the instruction. */
  function BuildPrompt(f: AnalyzedFailure, testFileContent: string, codeDiff: Option<string>): (prompt: string)
    ensures StartsWith(prompt, PromptHeader)
    ensures Contains(prompt, testFileContent)
    ensures Truthy(codeDiff) ==> Contains(prompt, codeDiff.value)
    ensures EndsWith(prompt, PromptClosing)
  {
    var back := FenceOpen + testFileContent + (FenceClose + PromptClosing);
    PartsStartAndEnd(PromptHeader, FailureSections(f));
    ContainsItself(FenceOpen, testFileContent, FenceClose + PromptClosing);
    PartsStartAndEnd(FenceClose, PromptClosing);
    EndsWithPrepend(FenceOpen + testFileContent, FenceClose + PromptClosing, PromptClosing);
    var diff := if Truthy(codeDiff) then codeDiff.value else [];
    DiffSectionHolds(codeDiff);
    PromptLayout(PromptHeader + FailureSections(f), DiffSection(codeDiff), back,
                 PromptHeader, testFileContent, PromptClosing, Truthy(codeDiff), diff);
    PromptHeader + FailureSections(f) + DiffSection(codeDiff) + back
  }

  lemma DiffSectionHolds(codeDiff: Option<string>)
    ensures Truthy(codeDiff) ==> Contains(DiffSection(codeDiff), codeDiff.value)
  {
    if Truthy(codeDiff) {
      ContainsItself(DiffHeading, codeDiff.value, "\n\n");
    }
  }

  /** What the three parts hold carries over to the prompt. */
  lemma PromptLayout(front: string, d: string, back: string, header: string, content: string,
                     closing: string, withDiff: bool, diff: string)
    requires StartsWith(front, header) && Contains(back, content) && EndsWith(back, closing)
    requires withDiff ==> Contains(d, diff)
    ensures StartsWith(front + d + back, header)
    ensures Contains(front + d + back, content)
    ensures withDiff ==> Contains(front + d + back, diff)
    ensures EndsWith(front + d + back, closing)
  {
    StartsWithAppend(front, d, header);
    StartsWithAppend(front + d, back, header);
    ContainsInRight(front + d, back, content);
    EndsWithPrepend(front + d, back, closing);
    if withDiff {
      ContainsInRight(front, d, diff);
      ContainsInLeft(front + d, back, diff);
    }
  }

  /** A non-empty diff adds exactly its section between the stack trace and
      the test file; an absent or empty diff adds nothing. */
  lemma DiffSectionOnly(f: AnalyzedFailure, content: string, codeDiff: string)
    requires codeDiff != []
    ensures BuildPrompt(f, content, Some(codeDiff)) ==
      BuildPrompt(f, content, None)[..|PromptHeader + FailureSections(f)|] +
      DiffSection(Some(codeDiff)) +
      BuildPrompt(f, content, None)[|PromptHeader + FailureSections(f)|..]
    ensures DiffSection(Some(codeDiff)) == DiffHeading + codeDiff + "\n\n"
    ensures BuildPrompt(f, content, Some([])) == BuildPrompt(f, content, None)
  {
    var front := PromptHeader + FailureSections(f);
    var back := FenceOpen + content + (FenceClose + PromptClosing);
    Insertion(front, DiffSection(Some(codeDiff)), back);
  }

  /** Inserting `mid` between `front` and `back`. */
  lemma Insertion(front: string, mid: string, back: string)
    ensures front + mid + back == (front + back)[..|front|] + mid + (front + back)[|front|..]
    ensures front + [] + back == front + back
  {
    assert (front + back)[..|front|] == front;
    assert (front + back)[|front|..] == back;
  }

  const NotImplemented: string := "AI client not implemented yet - wire up OpenAI in integration layer"

  /** `callAI` as the source writes it: it always throws. */
  function CallAI(prompt: string): (r: Result<string, string>)
    ensures r.Failure? && r.error == NotImplemented
  {
    Failure(NotImplemented)
  }

  /** `generateExplanation`: a fixed sentence per category, with a generic
      one for the categories the table does not name. */
  function GenerateExplanation(t: FailureType): (e: string)
    ensures e != []
    ensures (t == SNAPSHOT || t == ASSERTION) <==> e == "Applied automated fix"
  {
    match t
    case MOCK => "Updated mock to match new implementation"
    case PROPERTY_CHANGE => "Fixed property/method name changes"
    case TYPE_ERROR => "Corrected TypeScript type definitions"
    case UNKNOWN => "Applied AI-suggested fix based on error analysis"
    case _ => "Applied automated fix"
  }

  /** The four categories the table names get four different sentences. */
  lemma ExplanationsDistinguishNamedCategories(s: FailureType, t: FailureType)
    requires s != SNAPSHOT && s != ASSERTION && t != SNAPSHOT && t != ASSERTION
    ensures GenerateExplanation(s) == GenerateExplanation(t) <==> s == t
  {
  }

  /** `calculateConfidence`: the analyzer's score scaled by 0.8 and capped at
      0.75. */
  function CalculateConfidence(f: AnalyzedFailure): (c: real)
    ensures c <= 0.75 && c <= f.confidence * 0.8
    ensures c == 0.75 || c == f.confidence * 0.8
    ensures 0.0 <= f.confidence ==> 0.0 <= c
  {
    if f.confidence * 0.8 < 0.75 then f.confidence * 0.8 else 0.75
  }

  /** For every score the analyzer hands out (0.3, 0.7, 0.8, 0.9) the cap does
      not bind, and the AI strategy's score is strictly below the analyzer's. */
  lemma ConfidenceBelowAnalyzer(f: AnalyzedFailure)
    requires f.confidence == 0.3 || f.confidence == 0.7 || f.confidence == 0.8 || f.confidence == 0.9
    ensures CalculateConfidence(f) == f.confidence * 0.8
    ensures CalculateConfidence(f) < f.confidence
    ensures 0.24 <= CalculateConfidence(f) <= 0.72
  {
  }

  /** `createFailureResult`. */
  function CreateFailureResult(f: AnalyzedFailure, error: string): (r: FixResult)
    ensures !r.success && r.confidence == 0.0
    ensures r.explanation == error && r.validationErrors == Some([error])
    ensures r.originalCode == "" && r.fixedCode == ""
    ensures r.filePath == f.failure.testFile && r.strategy == Name
  {
    FailedResult(f.failure.testFile, Name, error, 0.0, [error])
  }

  /** `generateFix`: without a client it fails at once; otherwise the model's
      answer becomes the fixed code, and a failed call becomes a failed
      result that carries the call's message. */
  function GenerateFix(aiClient: Option<AIClient>, f: AnalyzedFailure, testFileContent: string,
                       codeDiff: Option<string>, callAI: string -> Result<string, string>): (r: FixResult)
    ensures r.filePath == f.failure.testFile && r.strategy == Name
    ensures aiClient.None? ==> r == CreateFailureResult(f, "AI client not configured")
    ensures aiClient.Some? && callAI(BuildPrompt(f, testFileContent, codeDiff)).Failure? ==>
      r == CreateFailureResult(f, "AI fix failed: " + callAI(BuildPrompt(f, testFileContent, codeDiff)).error)
    ensures r.success <==> aiClient.Some? && callAI(BuildPrompt(f, testFileContent, codeDiff)).Success?
    ensures r.success ==>
      r.originalCode == testFileContent &&
      r.fixedCode == callAI(BuildPrompt(f, testFileContent, codeDiff)).value &&
      r.confidence == CalculateConfidence(f) &&
      r.explanation == GenerateExplanation(f.failureType) &&
      r.validationErrors == None && r.aiModel == Some(ModelName)
  {
    if aiClient.None? then CreateFailureResult(f, "AI client not configured")
    else
      match callAI(BuildPrompt(f, testFileContent, codeDiff))
      case Success(fixedCode) =>
        FixResult(testFileContent, fixedCode, f.failure.testFile, Name,
                  GenerateExplanation(f.failureType), CalculateConfidence(f), true, None, Some(ModelName), None)
      case Failure(message) => CreateFailureResult(f, "AI fix failed: " + message)
  }

  /** With the model call as written, the strategy never succeeds: every
      result is a failure whose single validation error is its explanation. */
  lemma AsWrittenNeverSucceeds(aiClient: Option<AIClient>, f: AnalyzedFailure, content: string, codeDiff: Option<string>)
    ensures !GenerateFix(aiClient, f, content, codeDiff, CallAI).success
    ensures GenerateFix(aiClient, f, content, codeDiff, CallAI).explanation ==
      (if aiClient.None? then "AI client not configured" else "AI fix failed: " + NotImplemented)
    ensures GenerateFix(aiClient, f, content, codeDiff, CallAI).validationErrors ==
      Some([GenerateFix(aiClient, f, content, codeDiff, CallAI).explanation])
  {
  }
}
