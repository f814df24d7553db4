/** packages/core/integrations/OpenAIClient.ts, its two pure members: the
    prompt `buildFixPrompt` sends and `parseFixResponse`, which reads the
    fixed code and the explanation back out of the model's answer. */
module OpenAI {
  import opened Wrappers
  import opened JsString

  const PromptOpening: string := "## Test Failure Analysis\n\n"
  const DiffOpening: string := "**Recent Code Changes:**\n```diff\n"
  const FileOpening: string := "**Current Test File:**\n```typescript\n"
  const Fence: string := "```"
  const CodeMarker: string := "fixed_code:"
  const ExplanationMarker: string := "explanation:"
  const DefaultExplanation: string := "AI-generated fix applied"

  /** An answer in the format the prompt asks for. */
  function FormatResponse(code: string, explanation: string): string {
    ResponseHead + code + ResponseMiddle + explanation
  }

  const ResponseHead: string := "FIXED_CODE:\n```typescript\n"
  const ResponseMiddle: string := "\n```\n\nEXPLANATION:\n"

  const Instructions: string :=
    "Please provide:\n" +
    "1. The corrected test file code (complete file)\n" +
    "2. A brief explanation of what was fixed\n\n" +
    "Format your response as:\n"

  /** The example answer the prompt ends with. */
  const Example: string := FormatResponse("[code here]", "[explanation here]")

  const ErrorHeading: string := PromptOpening + "**Error Message:**\n"
  const StackHeading: string := "\n\n" + "**Stack Trace:**\n"
  const FileClosing: string := "\n```\n\n" + Instructions + Example

  /** The diff block, present only for a non-empty diff. */
  function DiffBlock(codeDiff: Option<string>): (block: string)
    ensures Truthy(codeDiff) ==> Contains(block, DiffOpening + codeDiff.value)
    ensures !Truthy(codeDiff) ==> block == []
  {
    if Truthy(codeDiff) then
      ContainsItself([], DiffOpening + codeDiff.value, "\n```\n\n");
      assert [] + (DiffOpening + codeDiff.value) + "\n```\n\n" == DiffOpening + codeDiff.value + "\n```\n\n";
      DiffOpening + codeDiff.value + "\n```\n\n"
    else ""
  }

  /** The part of the prompt before the optional diff block. */
  function FailureSections(errorMessage: string, stackTrace: string): string {
    ErrorHeading + errorMessage + StackHeading + stackTrace + "\n\n"
  }

  /** The part of the prompt after the optional diff block. */
  function FileSection(testFile: string): string {
    FileOpening + testFile + FileClosing
  }

  /** `buildFixPrompt`: the error and the stack trace, the diff block when a
      non-empty diff is given, the fenced test file, and the instructions
      ending with an example of the answer format. */
  function BuildFixPrompt(testFile: string, errorMessage: string, stackTrace: string,
                          codeDiff: Option<string>): (prompt: string)
    ensures StartsWith(prompt, PromptOpening)
    ensures Contains(prompt, errorMessage) && Contains(prompt, stackTrace) && Contains(prompt, testFile)
    ensures Truthy(codeDiff) ==> Contains(prompt, DiffOpening + codeDiff.value)
    ensures EndsWith(prompt, Example)
  {
    SectionsFacts(errorMessage, stackTrace);
    FileFacts(testFile);
    var diff := if Truthy(codeDiff) then DiffOpening + codeDiff.value else [];
    PromptFacts(FailureSections(errorMessage, stackTrace), DiffBlock(codeDiff), FileSection(testFile),
                errorMessage, stackTrace, testFile, Truthy(codeDiff), diff);
    FailureSections(errorMessage, stackTrace) + DiffBlock(codeDiff) + FileSection(testFile)
  }

  /** What the failure sections and the file section hold carries over to
      the whole prompt. */
  lemma PromptFacts(a: string, d: string, f: string, e: string, st: string, t: string,
                    withDiff: bool, diff: string)
    requires StartsWith(a, PromptOpening) && Contains(a, e) && Contains(a, st)
    requires Contains(f, t) && EndsWith(f, Example)
    requires withDiff ==> Contains(d, diff)
    ensures StartsWith(a + d + f, PromptOpening)
    ensures Contains(a + d + f, e) && Contains(a + d + f, st) && Contains(a + d + f, t)
    ensures withDiff ==> Contains(a + d + f, diff)
    ensures EndsWith(a + d + f, Example)
  {
    if withDiff {
      ContainsInRight(a, d, diff);
      ContainsInLeft(a + d, f, diff);
    }
    StartsWithAppend(a, d, PromptOpening);
    StartsWithAppend(a + d, f, PromptOpening);
    ContainsInLeft(a, d, e);
    ContainsInLeft(a + d, f, e);
    ContainsInLeft(a, d, st);
    ContainsInLeft(a + d, f, st);
    ContainsInRight(a + d, f, t);
    EndsWithPrepend(a + d, f, Example);
  }

  /** The failure sections open the prompt and hold the error and the
      stack trace. */
  lemma SectionsFacts(errorMessage: string, stackTrace: string)
    ensures StartsWith(FailureSections(errorMessage, stackTrace), PromptOpening)
    ensures Contains(FailureSections(errorMessage, stackTrace), errorMessage)
    ensures Contains(FailureSections(errorMessage, stackTrace), stackTrace)
  {
    var rest := StackHeading + stackTrace + "\n\n";
    assert FailureSections(errorMessage, stackTrace) == ErrorHeading + errorMessage + rest;
    PartsStartAndEnd(PromptOpening, "**Error Message:**\n");
    StartsWithAppend(ErrorHeading, errorMessage + rest, PromptOpening);
    ContainsItself(ErrorHeading, errorMessage, rest);
    assert FailureSections(errorMessage, stackTrace) == ErrorHeading + errorMessage + StackHeading + stackTrace + "\n\n";
    ContainsItself(ErrorHeading + errorMessage + StackHeading, stackTrace, "\n\n");
  }

  /** The file section holds the test file and ends with the example. */
  lemma FileFacts(testFile: string)
    ensures Contains(FileSection(testFile), testFile) && EndsWith(FileSection(testFile), Example)
  {
    ContainsItself(FileOpening, testFile, FileClosing);
    PartsStartAndEnd("\n```\n\n" + Instructions, Example);
    EndsWithPrepend(FileOpening + testFile, FileClosing, Example);
  }

  /** A non-empty diff adds exactly its block between the stack trace and
      the test file; an absent or empty diff adds nothing. */
  lemma DiffBlockOnly(testFile: string, errorMessage: string, stackTrace: string, codeDiff: string)
    requires codeDiff != []
    ensures BuildFixPrompt(testFile, errorMessage, stackTrace, None) ==
      FailureSections(errorMessage, stackTrace) + FileSection(testFile)
    ensures BuildFixPrompt(testFile, errorMessage, stackTrace, Some(codeDiff)) ==
      FailureSections(errorMessage, stackTrace) + (DiffOpening + codeDiff + "\n```\n\n") + FileSection(testFile)
    ensures BuildFixPrompt(testFile, errorMessage, stackTrace, Some([])) ==
      BuildFixPrompt(testFile, errorMessage, stackTrace, None)
  {
    assert FailureSections(errorMessage, stackTrace) + [] == FailureSections(errorMessage, stackTrace);
  }

  // ---------------------------------------------------------------------
  // `parseFixResponse`
  // ---------------------------------------------------------------------

  predicate FenceAt(s: string, i: nat) {
    i + 3 <= |s| && s[i..i + 3] == Fence
  }

  /** The first fence at or after `i`, or `|s|` when there is none. */
  function FirstFence(s: string, i: nat): (k: nat)
    requires i <= |s|
    ensures i <= k <= |s|
    ensures k < |s| ==> FenceAt(s, k)
    ensures forall j :: i <= j < k ==> !FenceAt(s, j)
    decreases |s| - i
  {
    if i == |s| then i else if FenceAt(s, i) then i else FirstFence(s, i + 1)
  }

  /** `FIXED_CODE:\s*```(?:typescript|javascript)?\s*([\s\S]*?)```` with the
      `i` flag, tried at `p`; the result is the group `s[start..end]`.
      Backtracking cannot help here: a shorter white-space run before the
      fence leaves white space where a backtick has to be, and a shorter run
      before the group, or dropping the language word, only moves the start
      of the lazy search for the closing fence back over white space or
      letters, where no fence can begin. */
  function CodeBlockAt(s: string, p: nat): (r: Option<(nat, nat)>)
    requires p <= |s|
    ensures r.Some? ==> p < r.value.0 <= r.value.1 <= |s| && FenceAt(s, r.value.1)
  {
    if !MatchesAt(s, p, CodeMarker) then None
    else
      var a := SpaceEnd(s, p + |CodeMarker|);
      if !FenceAt(s, a) then None
      else
        var b := a + 3;
        var t := if MatchesAt(s, b, "typescript") || MatchesAt(s, b, "javascript") then b + 10 else b;
        var g := SpaceEnd(s, t);
        var c := FirstFence(s, g);
        if c == |s| then None else Some((g, c))
  }

  /** The leftmost code block at or after `p`. */
  function CodeBlockFrom(s: string, p: nat): (r: Option<(nat, nat)>)
    requires p <= |s|
    ensures r.Some? ==> r.value.0 <= r.value.1 <= |s|
    decreases |s| - p
  {
    var here := CodeBlockAt(s, p);
    if here.Some? then here else if p < |s| then CodeBlockFrom(s, p + 1) else None
  }

  /** `EXPLANATION:\s*([\s\S]*?)$` with the `i` flag: the leftmost marker;
      the lazy group has to reach the end of the text, so it is everything
      after the marker's white space. The result is where the marker ends. */
  function ExplanationFrom(s: string, p: nat): (r: Option<nat>)
    requires p <= |s|
    ensures r.Some? ==> p + |ExplanationMarker| <= r.value <= |s|
    decreases |s| - p
  {
    if MatchesAt(s, p, ExplanationMarker) then Some(p + |ExplanationMarker|)
    else if p < |s| then ExplanationFrom(s, p + 1)
    else None
  }

  datatype FixResponse = FixResponse(code: string, explanation: string)

  /** `codeMatch?.[1]?.trim()`, empty when there is no block. */
  function TrimmedCode(response: string): (code: string)
    ensures code == [] || code == Trim(code)
  {
    match CodeBlockFrom(response, 0)
    case None => []
    case Some(block) =>
      var code := Trim(response[block.0..block.1]);
      TrimOfTrimmed(code);
      code
  }

  /** `explanationMatch?.[1]?.trim()`, empty when there is no marker. */
  function TrimmedExplanation(response: string): (explanation: string)
    ensures explanation == [] || explanation == Trim(explanation)
    ensures ExplanationFrom(response, 0).None? ==> explanation == []
  {
    match ExplanationFrom(response, 0)
    case None => []
    case Some(start) =>
      var explanation := Trim(response[start..]);
      TrimOfTrimmed(explanation);
      explanation
  }

  /** `parseFixResponse`: the trimmed code block, or the whole answer when
      there is none or it is blank; the trimmed explanation, or the default
      sentence when there is none or it is blank. */
  function ParseFixResponse(response: string): (r: FixResponse)
    ensures r.code == response || (r.code != [] && r.code == Trim(r.code))
    ensures r.explanation == DefaultExplanation || (r.explanation != [] && r.explanation == Trim(r.explanation))
    ensures ExplanationFrom(response, 0).None? ==> r.explanation == DefaultExplanation
  {
    var code := TrimmedCode(response);
    var explanation := TrimmedExplanation(response);
    FixResponse(if code != [] then code else response,
                if explanation != [] then explanation else DefaultExplanation)
  }

  // ---------------------------------------------------------------------
  // The round trip
  // ---------------------------------------------------------------------

  /** A window that holds a newline, or starts with a backtick, is not the
      explanation marker. */
  lemma NotMarkerAt(s: string, p: nat, k: nat)
    requires p <= k < |s| && k < p + |ExplanationMarker|
    requires s[k] == '\n' || (k == p && s[k] == '`')
    ensures !MatchesAt(s, p, ExplanationMarker)
  {
    if p + |ExplanationMarker| <= |s| {
      assert Lower(s[p..p + |ExplanationMarker|])[k - p] == LowerChar(s[k]);
      assert LowerChar(s[k]) != ExplanationMarker[k - p];
    }
  }

  /** A leftmost fence is found wherever it is. */
  lemma FirstFenceIs(s: string, i: nat, c: nat)
    requires i <= c < |s| && FenceAt(s, c)
    requires forall j :: i <= j < c ==> !FenceAt(s, j)
    ensures FirstFence(s, i) == c
  {
  }

  /** A leftmost marker is found wherever it is. */
  lemma {:induction false} ExplanationFromIs(s: string, p: nat, m: nat)
    requires p <= m && MatchesAt(s, m, ExplanationMarker)
    requires forall q :: p <= q < m ==> !MatchesAt(s, q, ExplanationMarker)
    ensures ExplanationFrom(s, p) == Some(m + |ExplanationMarker|)
    decreases m - p
  {
    if p < m {
      ExplanationFromIs(s, p + 1, m);
    }
  }

  /** The characters of a formatted answer, part by part. */
  lemma ResponseChars(code: string, explanation: string)
    ensures var r := FormatResponse(code, explanation);
      |r| == 26 + |code| + 19 + |explanation| &&
      r[..26] == ResponseHead &&
      r[26..26 + |code|] == code &&
      r[26 + |code|..26 + |code| + 19] == ResponseMiddle &&
      r[26 + |code| + 19..] == explanation
  {
    var r := FormatResponse(code, explanation);
    assert |ResponseHead| == 26 && |ResponseMiddle| == 19;
    assert r == ResponseHead + code + ResponseMiddle + explanation;
  }

  /** The head of a formatted answer passes the code pattern up to the
      language word. */
  lemma HeadParses(r: string)
    requires 26 <= |r| && r[..26] == ResponseHead
    ensures MatchesAt(r, 0, CodeMarker) && SpaceEnd(r, 11) == 12 && FenceAt(r, 12)
    ensures MatchesAt(r, 15, "typescript") && IsJsSpace(r[25])
  {
    HeadMarker(r);
    HeadSpace(r);
    HeadFence(r);
    HeadLanguage(r);
  }

  lemma HeadMarker(r: string)
    requires 26 <= |r| && r[..26] == ResponseHead
    ensures MatchesAt(r, 0, CodeMarker)
  {
    assert r[0..11] == ResponseHead[0..11] == "FIXED_CODE:";
    LowerMarker();
  }

  lemma LowerMarker()
    ensures Lower("FIXED_CODE:") == CodeMarker
  {
  }

  lemma HeadSpace(r: string)
    requires 26 <= |r| && r[..26] == ResponseHead
    ensures SpaceEnd(r, 11) == 12
  {
    assert r[11] == r[..26][11] == '\n';
    assert r[12] == r[..26][12] == '`';
    assert SpaceEnd(r, 12) == 12;
  }

  lemma HeadFence(r: string)
    requires 26 <= |r| && r[..26] == ResponseHead
    ensures FenceAt(r, 12)
  {
    assert r[12..15] == ResponseHead[12..15];
  }

  lemma HeadLanguage(r: string)
    requires 26 <= |r| && r[..26] == ResponseHead
    ensures MatchesAt(r, 15, "typescript") && IsJsSpace(r[25])
  {
    assert r[15..25] == ResponseHead[15..25] == "typescript";
    LowerLanguage();
    assert r[25] == r[..26][25];
  }

  lemma LowerLanguage()
    ensures Lower("typescript") == "typescript"
  {
  }

  /** A slice inside a part of `r` is the matching slice of that part. */
  lemma SliceWithin(r: string, w: string, off: nat, j: nat, len: nat)
    requires off + |w| <= |r| && r[off..off + |w|] == w
    requires off <= j && j + len <= off + |w|
    ensures r[j..j + len] == w[j - off..j - off + len]
  {
    forall i | j <= i < j + len ensures r[i] == w[i - off] {
      assert r[i] == r[off..off + |w|][i - off];
    }
  }

  /** With some non-blank text in the code, `\s*` after the language word
      stops inside the code. */
  lemma GroupStart(r: string, code: string)
    requires 26 + |code| <= |r| && r[..26] == ResponseHead && r[26..26 + |code|] == code
    requires Trim(code) != []
    ensures 26 <= SpaceEnd(r, 25) < 26 + |code|
    ensures forall k :: 0 <= k < SpaceEnd(r, 25) - 26 ==> IsJsSpace(code[k])
  {
    HeadLanguage(r);
    var g := SpaceEnd(r, 25);
    forall k | 0 <= k < g - 26 && k < |code| ensures IsJsSpace(code[k]) {
      assert r[26 + k] == code[k];
    }
    if g >= 26 + |code| {
      TrimStartAllSpace(code);
    }
  }

  /** A code part with no fence in it and some non-blank text comes back
      trimmed from the code block. */
  lemma {:induction false} CodeRoundTrip(code: string, explanation: string)
    requires forall j :: 0 <= j ==> !FenceAt(code, j)
    requires Trim(code) != []
    ensures TrimmedCode(FormatResponse(code, explanation)) == Trim(code)
  {
    ResponseChars(code, explanation);
    CodeOfLayout(FormatResponse(code, explanation), code);
  }

  lemma CodeOfLayout(r: string, code: string)
    requires 26 + |code| + 19 <= |r| && r[..26] == ResponseHead
    requires r[26..26 + |code|] == code && r[26 + |code|..26 + |code| + 19] == ResponseMiddle
    requires forall j :: 0 <= j ==> !FenceAt(code, j)
    requires Trim(code) != []
    ensures TrimmedCode(r) == Trim(code)
  {
    GroupStart(r, code);
    var g := SpaceEnd(r, 25);
    BlockSpan(r, code, g);
    GroupTrim(r, code, g);
  }

  /** The middle part opens with a newline and the closing fence. */
  lemma ClosingFence(r: string, n: nat)
    requires 26 + n + 19 <= |r| && r[26 + n..26 + n + 19] == ResponseMiddle
    ensures FenceAt(r, 26 + n + 1) && r[26 + n] == '\n'
  {
    SliceWithin(r, ResponseMiddle, 26 + n, 26 + n + 1, 3);
    assert ResponseMiddle[1..4] == Fence;
    assert r[26 + n] == r[26 + n..26 + n + 19][0];
  }

  /** The code block runs from `g` to the fence after the code part. */
  lemma BlockSpan(r: string, code: string, g: nat)
    requires 26 + |code| + 19 <= |r| && r[..26] == ResponseHead
    requires r[26..26 + |code|] == code && r[26 + |code|..26 + |code| + 19] == ResponseMiddle
    requires forall j :: 0 <= j ==> !FenceAt(code, j)
    requires g == SpaceEnd(r, 25) && 26 <= g <= 26 + |code|
    ensures TrimmedCode(r) == Trim(r[g..26 + |code| + 1])
  {
    HeadParses(r);
    ClosingFence(r, |code|);
    FenceAfterCode(r, code, g);
    CodeBlockOfHead(r, 26 + |code| + 1);
    TrimmedCodeOf(r, g, 26 + |code| + 1);
  }

  /** The first fence from `g` on is the one after the code part. */
  lemma FenceAfterCode(r: string, code: string, g: nat)
    requires 26 + |code| + 1 < |r| && r[26..26 + |code|] == code && r[26 + |code|] == '\n'
    requires FenceAt(r, 26 + |code| + 1)
    requires forall j :: 0 <= j ==> !FenceAt(code, j)
    requires 26 <= g <= 26 + |code| + 1
    ensures FirstFence(r, g) == 26 + |code| + 1
  {
    NoFenceInCode(r, code, g);
    FirstFenceIs(r, g, 26 + |code| + 1);
  }

  lemma TrimmedCodeOf(r: string, g: nat, c: nat)
    requires CodeBlockFrom(r, 0) == Some((g, c))
    ensures TrimmedCode(r) == Trim(r[g..c])
  {
  }

  /** No fence starts between the start of the group and the newline after
      a code part that holds no fence. */
  lemma NoFenceInCode(r: string, code: string, g: nat)
    requires 26 + |code| + 1 <= |r| && r[26..26 + |code|] == code && r[26 + |code|] == '\n'
    requires forall j :: 0 <= j ==> !FenceAt(code, j)
    requires 26 <= g
    ensures forall j :: g <= j < 26 + |code| + 1 ==> !FenceAt(r, j)
  {
    forall j | g <= j < 26 + |code| + 1 ensures !FenceAt(r, j) {
      if j + 3 <= 26 + |code| {
        SliceWithin(r, code, 26, j, 3);
        assert !FenceAt(code, j - 26);
      } else if j + 3 <= |r| {
        assert r[j..j + 3][26 + |code| - j] == r[26 + |code|];
      }
    }
  }

  /** Behind a formatted head the code block runs from the end of the
      white space after the language word to the first fence. */
  lemma CodeBlockOfHead(r: string, c: nat)
    requires MatchesAt(r, 0, CodeMarker) && SpaceEnd(r, 11) == 12 && FenceAt(r, 12)
    requires MatchesAt(r, 15, "typescript")
    requires c < |r| && FirstFence(r, SpaceEnd(r, 25)) == c
    ensures CodeBlockFrom(r, 0) == Some((SpaceEnd(r, 25), c))
  {
  }

  /** The group, from the first non-blank character of the code to the
      closing fence, trims to the trimmed code. */
  lemma GroupTrim(r: string, code: string, g: nat)
    requires 26 + |code| + 19 <= |r| && r[26..26 + |code|] == code
    requires r[26 + |code|..26 + |code| + 19] == ResponseMiddle
    requires 26 <= g <= 26 + |code|
    requires forall k :: 0 <= k < g - 26 ==> IsJsSpace(code[k])
    ensures Trim(r[g..26 + |code| + 1]) == Trim(code)
  {
    ClosingFence(r, |code|);
    GroupIsCodeTail(r, code, g);
    TrimOfLineTail(code, g - 26);
  }

  lemma GroupIsCodeTail(r: string, code: string, g: nat)
    requires 26 + |code| + 1 <= |r| && r[26..26 + |code|] == code && r[26 + |code|] == '\n'
    requires 26 <= g <= 26 + |code|
    ensures r[g..26 + |code| + 1] == code[g - 26..] + "\n"
  {
    SliceWithin(r, code, 26, g, |code| - (g - 26));
    assert r[g..26 + |code| + 1] == r[g..26 + |code|] + [r[26 + |code|]];
  }

  /** Dropping leading white space and adding a newline keeps the trim. */
  lemma TrimOfLineTail(code: string, k: nat)
    requires k <= |code|
    requires forall i :: 0 <= i < k ==> IsJsSpace(code[i])
    ensures Trim(code[k..] + "\n") == Trim(code)
  {
    TrimSkipsLeadingSpace(code, k);
    TrimSkipsNewline(code[k..]);
  }

  lemma TrimSkipsLeadingSpace(s: string, k: nat)
    requires k <= |s|
    requires forall i :: 0 <= i < k ==> IsJsSpace(s[i])
    ensures Trim(s[k..]) == Trim(s)
  {
    assert s == s[..k] + s[k..] + [];
    TrimAroundSpace(s[..k], s[k..], []);
  }

  lemma TrimSkipsNewline(s: string)
    ensures Trim(s + "\n") == Trim(s)
  {
    assert s + "\n" == [] + s + "\n";
    TrimAroundSpace([], s, "\n");
  }

  /** Any explanation comes back trimmed, provided the code part holds no
      explanation marker of its own. */
  lemma ExplanationRoundTrip(code: string, explanation: string)
    requires forall j :: 0 <= j ==> !MatchesAt(code, j, ExplanationMarker)
    ensures TrimmedExplanation(FormatResponse(code, explanation)) == Trim(explanation)
  {
    ResponseChars(code, explanation);
    ExplanationOfLayout(FormatResponse(code, explanation), code, explanation);
  }

  lemma ExplanationOfLayout(r: string, code: string, explanation: string)
    requires |r| == 26 + |code| + 19 + |explanation| && r[..26] == ResponseHead
    requires r[26..26 + |code|] == code && r[26 + |code|..26 + |code| + 19] == ResponseMiddle
    requires r[26 + |code| + 19..] == explanation
    requires forall j :: 0 <= j ==> !MatchesAt(code, j, ExplanationMarker)
    ensures TrimmedExplanation(r) == Trim(explanation)
  {
    var m := 26 + |code| + 6;
    MarkerInMiddle(r, |code|);
    NoEarlierMarker(r, code);
    ExplanationFromIs(r, 0, m);
    assert r[m + 12..] == "\n" + explanation;
    assert "\n" + explanation == "\n" + explanation + [];
    TrimAroundSpace("\n", explanation, []);
  }

  /** The middle part holds the explanation marker, six characters in. */
  lemma MarkerInMiddle(r: string, n: nat)
    requires 26 + n + 19 <= |r| && r[26 + n..26 + n + 19] == ResponseMiddle
    ensures MatchesAt(r, 26 + n + 6, ExplanationMarker)
  {
    SliceWithin(r, ResponseMiddle, 26 + n, 26 + n + 6, 12);
    assert ResponseMiddle[6..18] == "EXPLANATION:";
    LowerExplanation();
  }

  lemma LowerExplanation()
    ensures Lower("EXPLANATION:") == ExplanationMarker
  {
  }

  /** No marker starts before the one in the middle part. */
  lemma NoEarlierMarker(r: string, code: string)
    requires 26 + |code| + 19 <= |r| && r[..26] == ResponseHead
    requires r[26..26 + |code|] == code && r[26 + |code|..26 + |code| + 19] == ResponseMiddle
    requires forall j :: 0 <= j ==> !MatchesAt(code, j, ExplanationMarker)
    ensures forall q :: 0 <= q < 26 + |code| + 6 ==> !MatchesAt(r, q, ExplanationMarker)
  {
    var n := |code|;
    forall q | 0 <= q < 26 + n + 6 ensures !MatchesAt(r, q, ExplanationMarker) {
      if q < 26 {
        NoMarkerInHead(r, q);
      } else if q + 12 <= 26 + n {
        SliceWithin(r, code, 26, q, 12);
        assert !MatchesAt(code, q - 26, ExplanationMarker);
      } else {
        NoMarkerAcrossMiddle(r, n, q);
      }
    }
  }

  lemma NoMarkerInHead(r: string, q: nat)
    requires 26 <= |r| && r[..26] == ResponseHead && q < 26
    ensures !MatchesAt(r, q, ExplanationMarker)
  {
    assert r[11] == r[..26][11] && r[12] == r[..26][12] && r[25] == r[..26][25];
    if q < 12 {
      NotMarkerAt(r, q, 11);
    } else if q < 15 {
      assert r[q] == r[..26][q];
      NotMarkerAt(r, q, q);
    } else {
      NotMarkerAt(r, q, 25);
    }
  }

  lemma NoMarkerAcrossMiddle(r: string, n: nat, q: nat)
    requires 26 + n + 19 <= |r| && r[26 + n..26 + n + 19] == ResponseMiddle
    requires 26 + n < q + 12 && q < 26 + n + 6
    ensures !MatchesAt(r, q, ExplanationMarker)
  {
    assert r[26 + n] == r[26 + n..26 + n + 19][0];
    assert r[31 + n] == r[26 + n..26 + n + 19][5];
    if q <= 26 + n {
      NotMarkerAt(r, q, 26 + n);
    } else if q < 30 + n {
      assert r[q] == r[26 + n..26 + n + 19][q - 26 - n];
      NotMarkerAt(r, q, q);
    } else {
      NotMarkerAt(r, q, 31 + n);
    }
  }

  /** `parseFixResponse` reads back an answer written in the format the
      prompt asks for: the trimmed code and the trimmed explanation, when the
      code holds no fence and no explanation marker and neither part is
      blank. */
  lemma ParseFormatted(code: string, explanation: string)
    requires forall j :: 0 <= j ==> !FenceAt(code, j)
    requires forall j :: 0 <= j ==> !MatchesAt(code, j, ExplanationMarker)
    requires Trim(code) != [] && Trim(explanation) != []
    ensures ParseFixResponse(FormatResponse(code, explanation)) == FixResponse(Trim(code), Trim(explanation))
  {
    CodeRoundTrip(code, explanation);
    ExplanationRoundTrip(code, explanation);
  }
}
