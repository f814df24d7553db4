/** The classifier of packages/core/services/TestAnalyzer.ts: it reads the
    lower-cased error message and stack trace, picks a failure category by an
    ordered chain of keyword tests, and scores its confidence. */
module TestAnalyzer {
  import opened JsString
  import opened TestFailureModel

  /** The only text classification looks at: the error message, a space and
      the stack trace, lower-cased. */
  function CombinedText(f: TestFailure): string {
    Lower(f.errorMessage + " " + f.stackTrace)
  }

  /** `detectFailureType`: the first keyword test that holds decides. */
  function DetectFailureType(f: TestFailure): FailureType {
    var combined := CombinedText(f);
    if Contains(combined, "snapshot") &&
       (Contains(combined, "mismatch") || Contains(combined, "does not match")) then SNAPSHOT
    else if Contains(combined, "expected") && Contains(combined, "received") then ASSERTION
    else if Contains(combined, "is not a function") ||
            (Contains(combined, "undefined") && Contains(combined, "property")) then PROPERTY_CHANGE
    else if Contains(combined, "mock") || Contains(combined, "spy") then MOCK
    else if Contains(combined, "type") &&
            (Contains(combined, "error") || Contains(combined, "mismatch")) then TYPE_ERROR
    else UNKNOWN
  }

  // An independent statement of the classification policy: an ordered table
  // of keyword cues, read first-match-wins.

  /** A keyword test over the classified text. */
  datatype Cue = Word(w: string) | Both(left: Cue, right: Cue) | Either(left: Cue, right: Cue)

  predicate Holds(c: Cue, text: string) {
    match c
    case Word(w) => Contains(text, w)
    case Both(a, b) => Holds(a, text) && Holds(b, text)
    case Either(a, b) => Holds(a, text) || Holds(b, text)
  }

  datatype Rule = Rule(cue: Cue, category: FailureType)

  /** The classification table, highest priority first; a text no rule
      matches is UNKNOWN. */
  const ClassificationRules: seq<Rule> := [
    Rule(Both(Word("snapshot"), Either(Word("mismatch"), Word("does not match"))), SNAPSHOT),
    Rule(Both(Word("expected"), Word("received")), ASSERTION),
    Rule(Either(Word("is not a function"), Both(Word("undefined"), Word("property"))), PROPERTY_CHANGE),
    Rule(Either(Word("mock"), Word("spy")), MOCK),
    Rule(Both(Word("type"), Either(Word("error"), Word("mismatch"))), TYPE_ERROR)
  ]

  /** The category of the first rule whose cue holds, or UNKNOWN. */
  function FirstMatch(rules: seq<Rule>, text: string): FailureType {
    if rules == [] then UNKNOWN
    else if Holds(rules[0].cue, text) then rules[0].category
    else FirstMatch(rules[1..], text)
  }

  /** First-match reading of a rule table: the result is the category of a
      rule that holds with no holding rule before it, or UNKNOWN when no rule
      holds. */
  lemma {:induction false} FirstMatchIsFirst(rules: seq<Rule>, text: string)
    ensures (exists i :: 0 <= i < |rules| && Holds(rules[i].cue, text)) ==>
      exists i :: 0 <= i < |rules| && Holds(rules[i].cue, text) &&
        FirstMatch(rules, text) == rules[i].category &&
        forall j :: 0 <= j < i ==> !Holds(rules[j].cue, text)
    ensures (forall i :: 0 <= i < |rules| ==> !Holds(rules[i].cue, text)) ==>
      FirstMatch(rules, text) == UNKNOWN
  {
    if rules != [] && !Holds(rules[0].cue, text) {
      FirstMatchIsFirst(rules[1..], text);
      if exists i :: 0 <= i < |rules| && Holds(rules[i].cue, text) {
        var i :| 0 <= i < |rules| && Holds(rules[i].cue, text);
        assert Holds(rules[1..][i - 1].cue, text);
        var k :| 0 <= k < |rules[1..]| && Holds(rules[1..][k].cue, text) &&
          FirstMatch(rules[1..], text) == rules[1..][k].category &&
          forall j :: 0 <= j < k ==> !Holds(rules[1..][j].cue, text);
        assert forall j :: 0 <= j < k + 1 ==> !Holds(rules[j].cue, text) by {
          forall j | 1 <= j < k + 1 ensures !Holds(rules[j].cue, text) {
            assert rules[j] == rules[1..][j - 1];
          }
        }
        assert Holds(rules[k + 1].cue, text) && FirstMatch(rules, text) == rules[k + 1].category;
      } else {
        forall i | 0 <= i < |rules[1..]| ensures !Holds(rules[1..][i].cue, text) {
          assert rules[1..][i] == rules[i + 1];
        }
      }
    } else if rules != [] {
      assert Holds(rules[0].cue, text) && FirstMatch(rules, text) == rules[0].category;
    }
  }

  /** The if-chain of `detectFailureType` is exactly first-match over the
      classification table. */
  lemma DetectIsFirstMatch(f: TestFailure)
    ensures DetectFailureType(f) == FirstMatch(ClassificationRules, CombinedText(f))
  {
    var text := CombinedText(f);
    var r0 := ClassificationRules;
    var r1, r2, r3, r4 := r0[1..], r0[2..], r0[3..], r0[4..];
    assert r1[1..] == r2 && r2[1..] == r3 && r3[1..] == r4 && r4[1..] == [];
    assert FirstMatch(r4, text) == if Holds(r4[0].cue, text) then TYPE_ERROR else UNKNOWN;
    assert FirstMatch(r3, text) == if Holds(r3[0].cue, text) then MOCK else FirstMatch(r4, text);
    assert FirstMatch(r2, text) == if Holds(r2[0].cue, text) then PROPERTY_CHANGE else FirstMatch(r3, text);
    assert FirstMatch(r1, text) == if Holds(r1[0].cue, text) then ASSERTION else FirstMatch(r2, text);
    assert FirstMatch(r0, text) == if Holds(r0[0].cue, text) then SNAPSHOT else FirstMatch(r1, text);
    var mismatch := Either(Word("mismatch"), Word("does not match"));
    assert Holds(mismatch, text) == (Contains(text, "mismatch") || Contains(text, "does not match"));
    assert Holds(r0[0].cue, text) == (Contains(text, "snapshot") && Holds(mismatch, text));
    var undefinedProperty := Both(Word("undefined"), Word("property"));
    assert Holds(undefinedProperty, text) == (Contains(text, "undefined") && Contains(text, "property"));
    assert Holds(r2[0].cue, text) == (Contains(text, "is not a function") || Holds(undefinedProperty, text));
    var errorOrMismatch := Either(Word("error"), Word("mismatch"));
    assert Holds(errorOrMismatch, text) == (Contains(text, "error") || Contains(text, "mismatch"));
    assert Holds(r4[0].cue, text) == (Contains(text, "type") && Holds(errorOrMismatch, text));
    assert Holds(r1[0].cue, text) == (Contains(text, "expected") && Contains(text, "received"));
    assert Holds(r3[0].cue, text) == (Contains(text, "mock") || Contains(text, "spy"));
  }

  /** First match wins: the category is the one of the highest-priority rule
      that holds, no rule before it holds, and UNKNOWN means none holds. */
  lemma {:induction false} ClassificationIsFirstMatch(f: TestFailure)
    ensures DetectFailureType(f) != UNKNOWN ==>
      exists i :: 0 <= i < |ClassificationRules| &&
        ClassificationRules[i].category == DetectFailureType(f) &&
        Holds(ClassificationRules[i].cue, CombinedText(f)) &&
        forall j :: 0 <= j < i ==> !Holds(ClassificationRules[j].cue, CombinedText(f))
    ensures DetectFailureType(f) == UNKNOWN <==>
      forall i :: 0 <= i < |ClassificationRules| ==> !Holds(ClassificationRules[i].cue, CombinedText(f))
  {
    DetectIsFirstMatch(f);
    var text := CombinedText(f);
    FirstMatchIsFirst(ClassificationRules, text);
    if exists i :: 0 <= i < |ClassificationRules| && Holds(ClassificationRules[i].cue, text) {
      var i :| 0 <= i < |ClassificationRules| && Holds(ClassificationRules[i].cue, text) &&
        DetectFailureType(f) == ClassificationRules[i].category &&
        forall j :: 0 <= j < i ==> !Holds(ClassificationRules[j].cue, text);
      assert ClassificationRules[i].category != UNKNOWN;
    }
  }

  /** A snapshot cue anywhere in the error message (in any letter case) makes
      the failure a SNAPSHOT, whatever other keywords the message or the
      stack trace contain. */
  lemma SnapshotCueInMessageWins(f: TestFailure)
    requires Contains(Lower(f.errorMessage), "snapshot")
    requires Contains(Lower(f.errorMessage), "mismatch") || Contains(Lower(f.errorMessage), "does not match")
    ensures DetectFailureType(f) == SNAPSHOT
  {
    var rest := " " + f.stackTrace;
    assert f.errorMessage + " " + f.stackTrace == f.errorMessage + rest;
    LowerAppend(f.errorMessage, rest);
    ContainsInLeft(Lower(f.errorMessage), Lower(rest), "snapshot");
    if Contains(Lower(f.errorMessage), "mismatch") {
      ContainsInLeft(Lower(f.errorMessage), Lower(rest), "mismatch");
    } else {
      ContainsInLeft(Lower(f.errorMessage), Lower(rest), "does not match");
    }
  }

  /** Keywords in the stack trace count as much as keywords in the message. */
  lemma StackTraceCueCounts(f: TestFailure, w: string)
    requires Contains(Lower(f.stackTrace), w)
    ensures Contains(CombinedText(f), w)
  {
    var head := f.errorMessage + " ";
    assert f.errorMessage + " " + f.stackTrace == head + f.stackTrace;
    LowerAppend(head, f.stackTrace);
    ContainsInRight(Lower(head), Lower(f.stackTrace), w);
  }

  /** `calculateConfidence`: UNKNOWN 0.3, SNAPSHOT 0.9, otherwise 0.7 raised
      by 0.1 for a stack trace and 0.1 for a message over 50 characters,
      capped at 1.0. */
  function CalculateConfidence(f: TestFailure, t: FailureType): (c: real)
    ensures 0.3 <= c <= 0.9
    ensures c < 0.5 <==> t == UNKNOWN
    ensures t == SNAPSHOT ==> c == 0.9
    ensures t != UNKNOWN && t != SNAPSHOT ==>
      0.7 <= c && (c == 0.7 <==> f.stackTrace == [] && |f.errorMessage| <= 50)
  {
    if t == UNKNOWN then 0.3
    else if t == SNAPSHOT then 0.9
    else
      var hasStackTrace := |f.stackTrace| > 0;
      var hasDetailedError := |f.errorMessage| > 50;
      var c0 := 0.7;
      var c1 := if hasStackTrace then c0 + 0.1 else c0;
      var c2 := if hasDetailedError then c1 + 0.1 else c1;
      if c2 < 1.0 then c2 else 1.0
  }

  /** The 1.0 cap never takes effect: every score is the uncapped one. */
  lemma ConfidenceCapNeverBinds(f: TestFailure, t: FailureType)
    requires t != UNKNOWN && t != SNAPSHOT
    ensures CalculateConfidence(f, t) ==
      0.7 + (if |f.stackTrace| > 0 then 0.1 else 0.0) + (if |f.errorMessage| > 50 then 0.1 else 0.0)
  {
  }

  /** `extractAffectedCode`: for now, the stack trace itself. */
  function ExtractAffectedCode(f: TestFailure): (code: string)
    ensures code == f.stackTrace
  {
    f.stackTrace
  }

  /** `analyze`: the failure with its category, confidence and excerpt. */
  function Analyze(f: TestFailure): (a: AnalyzedFailure)
    ensures a.failure == f
    ensures a.affectedCode == f.stackTrace
    ensures a.failureType == DetectFailureType(f)
    ensures 0.3 <= a.confidence <= 0.9
    ensures a.confidence < 0.5 <==> a.failureType == UNKNOWN
  {
    var failureType := DetectFailureType(f);
    AnalyzedFailure(f, failureType, CalculateConfidence(f, failureType), ExtractAffectedCode(f))
  }

  /** `analyzeMany`: one result per input, in input order. */
  function AnalyzeMany(failures: seq<TestFailure>): (r: seq<AnalyzedFailure>)
    ensures |r| == |failures|
    ensures forall i :: 0 <= i < |failures| ==> r[i] == Analyze(failures[i])
  {
    seq(|failures|, i requires 0 <= i < |failures| => Analyze(failures[i]))
  }

  /** Classification is case-insensitive: failures whose message and stack
      trace agree after lower-casing get the same category and score. */
  lemma AnalysisIgnoresCase(f: TestFailure, g: TestFailure)
    requires Lower(f.errorMessage) == Lower(g.errorMessage)
    requires Lower(f.stackTrace) == Lower(g.stackTrace)
    ensures Analyze(f).failureType == Analyze(g).failureType
    ensures Analyze(f).confidence == Analyze(g).confidence
  {
    LowerAppend(f.errorMessage + " ", f.stackTrace);
    LowerAppend(g.errorMessage + " ", g.stackTrace);
    LowerAppend(f.errorMessage, " ");
    LowerAppend(g.errorMessage, " ");
    assert CombinedText(f) == CombinedText(g);
    assert |f.errorMessage| == |Lower(f.errorMessage)|;
  }
}
