/** packages/core/services/FixGenerator.ts: routes each analyzed failure to
    the strategy registered for its category, refuses to fix below the
    confidence threshold, and collects the results into a proposal. */
module FixGeneration {
  import opened Wrappers
  import opened TestFailureModel
  import opened FixResultModel
  import opened FixStrategy

  /** `FixGeneratorConfig`; a missing (or explicitly undefined) field is None. */
  datatype FixGeneratorConfig = FixGeneratorConfig(maxConfidenceThreshold: Option<real>, aiModel: Option<string>)

  const DefaultThreshold: real := 0.5
  const MinutesPerFix: nat := 15

  /** The threshold `generateFix` compares against: the configured one,
      unless it is missing or zero (falsy), in which case 0.5. */
  function Threshold(config: FixGeneratorConfig): (t: real)
    ensures t != 0.0
    ensures config.maxConfidenceThreshold == Some(t) || t == DefaultThreshold
    ensures (config.maxConfidenceThreshold.None? || config.maxConfidenceThreshold == Some(0.0)) ==> t == DefaultThreshold
  {
    match config.maxConfidenceThreshold
    case Some(t) => if t != 0.0 then t else DefaultThreshold
    case None => DefaultThreshold
  }

  /** `testFileContents.get(file) || ''`. */
  function ContentFor(testFileContents: map<string, string>, file: string): (c: string)
    ensures file in testFileContents ==> c == testFileContents[file]
    ensures file !in testFileContents ==> c == ""
  {
    if file in testFileContents then testFileContents[file] else ""
  }

  /** The results with `success` set, in order (`fixes.filter(f => f.success)`). */
  function Successful(fixes: seq<FixResult>): (s: seq<FixResult>)
    ensures |s| <= |fixes|
    ensures forall i :: 0 <= i < |s| ==> s[i].success
    ensures forall i :: 0 <= i < |fixes| && fixes[i].success ==> fixes[i] in s
    ensures forall r :: r in s ==> r in fixes
  {
    if fixes == [] then []
    else (if fixes[0].success then [fixes[0]] else []) + Successful(fixes[1..])
  }

  /** The sum of the confidences (`reduce((sum, f) => sum + f.confidence, 0)`). */
  function SumConfidence(fixes: seq<FixResult>): real {
    if fixes == [] then 0.0 else SumConfidence(fixes[..|fixes| - 1]) + fixes[|fixes| - 1].confidence
  }

  /** `totalConfidence`: the mean confidence of the successful results, 0
      when there are none. */
  function MeanConfidence(fixes: seq<FixResult>): real {
    var ok := Successful(fixes);
    if |ok| > 0 then SumConfidence(ok) / (|ok| as real) else 0.0
  }

  /** Sums of values that all lie in [lo, hi] lie between n * lo and n * hi. */
  lemma {:induction false} SumBounds(fixes: seq<FixResult>, lo: real, hi: real)
    requires forall i :: 0 <= i < |fixes| ==> lo <= fixes[i].confidence <= hi
    ensures (|fixes| as real) * lo <= SumConfidence(fixes) <= (|fixes| as real) * hi
  {
    if fixes != [] {
      SumBounds(fixes[..|fixes| - 1], lo, hi);
    }
  }

  /** The mean of the successful results lies between the least and the
      greatest confidence a successful result may have; with no success it
      is 0. */
  lemma MeanBounds(fixes: seq<FixResult>, lo: real, hi: real)
    requires forall r :: r in fixes && r.success ==> lo <= r.confidence <= hi
    ensures Successful(fixes) == [] ==> MeanConfidence(fixes) == 0.0
    ensures Successful(fixes) != [] ==> lo <= MeanConfidence(fixes) <= hi
  {
    var ok := Successful(fixes);
    if ok != [] {
      forall i | 0 <= i < |ok| ensures lo <= ok[i].confidence <= hi {
        assert ok[i] in fixes && ok[i].success;
      }
      AverageBounds(ok, lo, hi);
    }
  }

  lemma AverageBounds(ok: seq<FixResult>, lo: real, hi: real)
    requires ok != []
    requires forall i :: 0 <= i < |ok| ==> lo <= ok[i].confidence <= hi
    ensures lo <= SumConfidence(ok) / (|ok| as real) <= hi
  {
    SumBounds(ok, lo, hi);
    DivisionBounds(SumConfidence(ok), |ok| as real, lo, hi);
  }

  lemma DivisionBounds(sum: real, n: real, lo: real, hi: real)
    requires n > 0.0 && n * lo <= sum <= n * hi
    ensures lo <= sum / n <= hi
  {
  }

  /** Appending a failed result leaves the successful ones, and so the mean,
      unchanged. */
  lemma {:induction false} FailedFixKeepsMean(fixes: seq<FixResult>, r: FixResult)
    requires !r.success
    ensures Successful(fixes + [r]) == Successful(fixes)
    ensures MeanConfidence(fixes + [r]) == MeanConfidence(fixes)
  {
    if fixes == [] {
      assert fixes + [r] == [r];
    } else {
      assert (fixes + [r])[1..] == fixes[1..] + [r];
      FailedFixKeepsMean(fixes[1..], r);
    }
  }

  /** Holds the strategies by category name, and the configuration. */
  class FixGenerator {
    var strategies: map<string, Strategy>
    const config: FixGeneratorConfig

    /** A generator with no strategies. */
    constructor(config: FixGeneratorConfig)
      ensures this.config == config && strategies == map[]
    {
      this.config := config;
      strategies := map[];
    }

    /** `registerStrategy`: the entry for `failureType` is set (or
        replaced); every other entry is kept. */
    method RegisterStrategy(failureType: string, strategy: Strategy)
      modifies this
      ensures strategies == old(strategies)[failureType := strategy]
      ensures failureType in strategies && strategies[failureType] == strategy
      ensures forall k :: k in old(strategies) && k != failureType ==> k in strategies && strategies[k] == old(strategies)[k]
    {
      strategies := strategies[failureType := strategy];
    }

    /** `generateFix`: no strategy for the category gives a "none" result;
        a score below the threshold gives a refusal under the strategy's
        name; otherwise the strategy's own result. */
    function GenerateFix(f: AnalyzedFailure, testFileContent: string, codeDiff: Option<string>,
                         callAI: string -> Result<string, string>): (r: FixResult)
      reads this
      ensures r.filePath == f.failure.testFile
      ensures f.failureType.Tag() !in strategies ==>
        r == FailedResult(f.failure.testFile, "none", "No strategy available for " + f.failureType.Tag(),
                          0.0, ["No strategy found"])
      ensures f.failureType.Tag() in strategies && f.confidence < Threshold(config) ==>
        r == FailedResult(f.failure.testFile, strategies[f.failureType.Tag()].Name(),
                          "Confidence too low for automatic fix", f.confidence, ["Low confidence"])
      ensures f.failureType.Tag() in strategies && f.confidence >= Threshold(config) ==>
        r == strategies[f.failureType.Tag()].GenerateFix(f, testFileContent, codeDiff, callAI)
    {
      var key := f.failureType.Tag();
      if key !in strategies then
        FailedResult(f.failure.testFile, "none", "No strategy available for " + key, 0.0, ["No strategy found"])
      else if f.confidence < Threshold(config) then
        FailedResult(f.failure.testFile, strategies[key].Name(), "Confidence too low for automatic fix",
                     f.confidence, ["Low confidence"])
      else strategies[key].GenerateFix(f, testFileContent, codeDiff, callAI)
    }

    /** A successful result always comes from a registered strategy, for a
        failure whose score reached the threshold. */
    lemma SuccessPassedTheGate(f: AnalyzedFailure, content: string, codeDiff: Option<string>,
                               callAI: string -> Result<string, string>)
      ensures GenerateFix(f, content, codeDiff, callAI).success ==>
        f.failureType.Tag() in strategies && f.confidence >= Threshold(config) &&
        GenerateFix(f, content, codeDiff, callAI).strategy == strategies[f.failureType.Tag()].Name()
    {
    }

    /** `generateProposal`: one result per failure, in order, each with the
        file's fetched content (or ""); the mean score and 15 minutes per
        successful result; build, commit and branch of the first failure. */
    method GenerateProposal(failures: seq<AnalyzedFailure>, testFileContents: map<string, string>,
                            codeDiff: Option<string>, callAI: string -> Result<string, string>)
      returns (p: FixProposal)
      ensures |p.fixes| == |failures|
      ensures forall i :: 0 <= i < |failures| ==>
        p.fixes[i] == GenerateFix(failures[i], ContentFor(testFileContents, failures[i].failure.testFile), codeDiff, callAI)
      ensures p.totalConfidence == MeanConfidence(p.fixes)
      ensures p.estimatedTimesSaved == MinutesPerFix * |Successful(p.fixes)|
      ensures p.estimatedTimesSaved <= MinutesPerFix * |failures|
      ensures failures == [] ==> p.buildNumber == 0 && p.commitSha == "" && p.branch == None
      ensures failures != [] ==>
        p.buildNumber == failures[0].failure.buildNumber && p.commitSha == failures[0].failure.commitSha &&
        p.branch == failures[0].failure.branch
    {
      var fixes: seq<FixResult> := [];
      var i := 0;
      while i < |failures|
        invariant 0 <= i <= |failures|
        invariant |fixes| == i
        invariant forall k :: 0 <= k < i ==>
          fixes[k] == GenerateFix(failures[k], ContentFor(testFileContents, failures[k].failure.testFile), codeDiff, callAI)
      {
        var failure := failures[i];
        var content := ContentFor(testFileContents, failure.failure.testFile);
        var fix := GenerateFix(failure, content, codeDiff, callAI);
        fixes := fixes + [fix];
        i := i + 1;
      }
      var successfulFixes := Successful(fixes);
      var totalConfidence := if |successfulFixes| > 0 then SumConfidence(successfulFixes) / (|successfulFixes| as real) else 0.0;
      var first := if failures == [] then None else Some(failures[0].failure);
      p := FixProposal(
        if first.Some? then first.value.buildNumber else 0,
        if first.Some? then first.value.commitSha else "",
        if first.Some? then first.value.branch else None,
        fixes, totalConfidence, MinutesPerFix * |successfulFixes|);
    }
  }
}
