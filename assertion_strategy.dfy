/** packages/core/strategies/AssertionFixStrategy.ts: reads the expected and
    the received value out of an assertion message and rewrites every quoted
    occurrence of the expected value in the test file to the received one. */
module AssertionFixStrategy {
  import opened Wrappers
  import opened JsString
  import opened TestFailureModel
  import opened FixResultModel

  const Name: string := "assertion"

  predicate CanHandle(f: AnalyzedFailure) {
    f.failureType == ASSERTION
  }

  datatype AssertionInfo = AssertionInfo(expected: string, received: string)

  /** A capture group: the characters `s[start..end]`. */
  datatype Span = Span(start: nat, end: nat)

  // ---------------------------------------------------------------------
  // Matchers for the three patterns of `parseAssertionError`, each written
  // as the regular-expression engine runs it: leftmost start position,
  // greedy quantifiers tried longest first, backtracking in that order.
  // Letters are compared case-insensitively (the `i` flag).
  // ---------------------------------------------------------------------

  /** `['"]`, the quote class of the first two patterns. */
  predicate IsPatternQuote(c: char) {
    c == '\'' || c == '"'
  }

  /** `[:\s]`. */
  predicate IsSeparator(c: char) {
    c == ':' || IsJsSpace(c)
  }

  /** End of the longest run of separators from `i`. */
  function SeparatorEnd(s: string, i: nat): (j: nat)
    requires i <= |s|
    ensures i <= j <= |s|
    ensures forall k :: i <= k < j ==> IsSeparator(s[k])
    ensures j == |s| || !IsSeparator(s[j])
    decreases |s| - i
  {
    if i < |s| && IsSeparator(s[i]) then SeparatorEnd(s, i + 1) else i
  }

  /** End of the longest run of non-quote characters from `i` (`[^'"]+`). */
  function NonQuoteEnd(s: string, i: nat): (j: nat)
    requires i <= |s|
    ensures i <= j <= |s|
    ensures forall k :: i <= k < j ==> !IsPatternQuote(s[k])
    ensures j == |s| || IsPatternQuote(s[j])
    decreases |s| - i
  {
    if i < |s| && !IsPatternQuote(s[i]) then NonQuoteEnd(s, i + 1) else i
  }

  /** End of the longest run of characters other than a newline from `i`
      (`[^\n]+`). */
  function NonNewlineEnd(s: string, i: nat): (j: nat)
    requires i <= |s|
    ensures i <= j <= |s|
    ensures forall k :: i <= k < j ==> s[k] != '\n'
    ensures j == |s| || s[j] == '\n'
    decreases |s| - i
  {
    if i < |s| && s[i] != '\n' then NonNewlineEnd(s, i + 1) else i
  }

  /** The tail `[:\s]+['"]?([^'"]+)['"]?` of the first two patterns, at `i`,
      with the separator run cut to `j` characters (tried from the longest
      down). The final optional quote always matches, so the group is the
      longest non-quote run where it starts. */
  function TailWithSeparators(s: string, i: nat, j: nat): (g: Option<Span>)
    requires i + j <= |s|
    ensures g.Some? ==> i < g.value.start < g.value.end <= |s|
    decreases j
  {
    if j == 0 then None
    else
      var q := i + j;
      if q + 1 < |s| && IsPatternQuote(s[q]) && !IsPatternQuote(s[q + 1]) then
        Some(Span(q + 1, NonQuoteEnd(s, q + 1)))
      else if q < |s| && !IsPatternQuote(s[q]) then
        Some(Span(q, NonQuoteEnd(s, q)))
      else TailWithSeparators(s, i, j - 1)
  }

  function ValueTail(s: string, i: nat): (g: Option<Span>)
    requires i <= |s|
    ensures g.Some? ==> i < g.value.start < g.value.end <= |s|
  {
    TailWithSeparators(s, i, SeparatorEnd(s, i) - i)
  }

  /** `.*` followed by the keyword and the tail: `.*` first takes every
      character up to the end of the line, then gives them back one by one;
      `r` is where the keyword is tried. */
  function KeywordFrom(s: string, from: nat, r: nat, keyword: string): (g: Option<Span>)
    requires from <= r <= |s|
    ensures g.Some? ==> g.value.end <= |s|
    decreases r - from
  {
    if MatchesAt(s, r, keyword) && ValueTail(s, r + |keyword|).Some? then ValueTail(s, r + |keyword|)
    else if r > from then KeywordFrom(s, from, r - 1, keyword)
    else None
  }

  function DotStarKeyword(s: string, from: nat, keyword: string): (g: Option<Span>)
    requires from <= |s|
    ensures g.Some? ==> g.value.end <= |s|
  {
    KeywordFrom(s, from, LineEnd(s, from), keyword)
  }

  /** The first group is `s[g..m]`; `['"]?.*keyword tail` is tried after it,
      and on failure the group gives back its last character. */
  function FirstGroupUpTo(s: string, g: nat, m: nat, keyword: string): (r: Option<(Span, Span)>)
    requires g < m <= |s|
    ensures r.Some? ==> r.value.0.start == g && r.value.0.end <= |s| && r.value.1.end <= |s|
    decreases m
  {
    var afterQuote := if m < |s| && IsPatternQuote(s[m]) then DotStarKeyword(s, m + 1, keyword) else None;
    var rest := if afterQuote.Some? then afterQuote else DotStarKeyword(s, m, keyword);
    if rest.Some? then Some((Span(g, m), rest.value))
    else if m > g + 1 then FirstGroupUpTo(s, g, m - 1, keyword)
    else None
  }

  function FirstGroupFrom(s: string, g: nat, keyword: string): (r: Option<(Span, Span)>)
    requires g <= |s|
    ensures r.Some? ==> r.value.0.start == g && r.value.0.end <= |s| && r.value.1.end <= |s|
  {
    if g == |s| || IsPatternQuote(s[g]) then None
    else FirstGroupUpTo(s, g, NonQuoteEnd(s, g), keyword)
  }

  /** After `expected`, the separator run cut to `j` characters, then the
      optional quote (tried taken first) and the first group. */
  function HeadWithSeparators(s: string, i: nat, j: nat, keyword: string): (r: Option<(Span, Span)>)
    requires i + j <= |s|
    ensures r.Some? ==> r.value.0.end <= |s| && r.value.1.end <= |s|
    decreases j
  {
    if j == 0 then None
    else
      var q := i + j;
      var withQuote := if q < |s| && IsPatternQuote(s[q]) then FirstGroupFrom(s, q + 1, keyword) else None;
      var r := if withQuote.Some? then withQuote else FirstGroupFrom(s, q, keyword);
      if r.Some? then r else HeadWithSeparators(s, i, j - 1, keyword)
  }

  /** `expected[:\s]+['"]?([^'"]+)['"]?.*KEYWORD[:\s]+['"]?([^'"]+)['"]?`
      matched at position `p`. */
  function QuotedPatternAt(s: string, p: nat, keyword: string): (r: Option<(Span, Span)>)
    requires p <= |s|
    ensures r.Some? ==> r.value.0.end <= |s| && r.value.1.end <= |s|
  {
    if !MatchesAt(s, p, "expected") then None
    else HeadWithSeparators(s, p + 8, SeparatorEnd(s, p + 8) - (p + 8), keyword)
  }

  /** The leftmost match of that pattern at or after `p`. */
  function QuotedPatternFrom(s: string, p: nat, keyword: string): (r: Option<(Span, Span)>)
    requires p <= |s|
    ensures r.Some? ==> r.value.0.end <= |s| && r.value.1.end <= |s|
    decreases |s| - p
  {
    var here := QuotedPatternAt(s, p, keyword);
    if here.Some? then here
    else if p < |s| then QuotedPatternFrom(s, p + 1, keyword)
    else None
  }

  /** `\s*([^\n]+)` at `i`, the white-space run cut to `j` characters. */
  function LineTailWithSpace(s: string, i: nat, j: nat): (g: Option<Span>)
    requires i + j <= |s|
    ensures g.Some? ==> g.value.start < g.value.end <= |s|
    decreases j
  {
    var q := i + j;
    if q < |s| && s[q] != '\n' then Some(Span(q, NonNewlineEnd(s, q)))
    else if j > 0 then LineTailWithSpace(s, i, j - 1)
    else None
  }

  /** `\s*Received:\s*([^\n]+)` at `m`, the first run cut to `j`. */
  function LabelWithSpace(s: string, m: nat, j: nat): (g: Option<Span>)
    requires m + j <= |s|
    ensures g.Some? ==> g.value.end <= |s|
    decreases j
  {
    var w := m + j;
    if MatchesAt(s, w, "received:") && LineTailWithSpace(s, w + 9, SpaceEnd(s, w + 9) - (w + 9)).Some? then
      LineTailWithSpace(s, w + 9, SpaceEnd(s, w + 9) - (w + 9))
    else if j > 0 then LabelWithSpace(s, m, j - 1)
    else None
  }

  /** The first group of the third pattern is `s[g..m]`; on failure it gives
      back its last character. */
  function LineGroupUpTo(s: string, g: nat, m: nat): (r: Option<(Span, Span)>)
    requires g < m <= |s|
    ensures r.Some? ==> r.value.0.end <= |s| && r.value.1.end <= |s|
    decreases m
  {
    var rest := LabelWithSpace(s, m, SpaceEnd(s, m) - m);
    if rest.Some? then Some((Span(g, m), rest.value))
    else if m > g + 1 then LineGroupUpTo(s, g, m - 1)
    else None
  }

  function LineHeadWithSpace(s: string, i: nat, j: nat): (r: Option<(Span, Span)>)
    requires i + j <= |s|
    ensures r.Some? ==> r.value.0.end <= |s| && r.value.1.end <= |s|
    decreases j
  {
    var g := i + j;
    var r := if g < |s| && s[g] != '\n' then LineGroupUpTo(s, g, NonNewlineEnd(s, g)) else None;
    if r.Some? then r
    else if j > 0 then LineHeadWithSpace(s, i, j - 1)
    else None
  }

  /** `Expected:\s*([^\n]+)\s*Received:\s*([^\n]+)` matched at `p`. */
  function LabelledPatternAt(s: string, p: nat): (r: Option<(Span, Span)>)
    requires p <= |s|
    ensures r.Some? ==> r.value.0.end <= |s| && r.value.1.end <= |s|
  {
    if !MatchesAt(s, p, "expected:") then None
    else LineHeadWithSpace(s, p + 9, SpaceEnd(s, p + 9) - (p + 9))
  }

  function LabelledPatternFrom(s: string, p: nat): (r: Option<(Span, Span)>)
    requires p <= |s|
    ensures r.Some? ==> r.value.0.end <= |s| && r.value.1.end <= |s|
    decreases |s| - p
  {
    var here := LabelledPatternAt(s, p);
    if here.Some? then here
    else if p < |s| then LabelledPatternFrom(s, p + 1)
    else None
  }

  function Capture(s: string, g: Span): string {
    if g.start <= g.end <= |s| then s[g.start..g.end] else []
  }

  function Captured(s: string, m: (Span, Span)): (info: AssertionInfo)
    ensures info.expected == Trim(Capture(s, m.0)) && info.received == Trim(Capture(s, m.1))
  {
    AssertionInfo(Trim(Capture(s, m.0)), Trim(Capture(s, m.1)))
  }

  /** `parseAssertionError`: the three patterns in order, first match wins,
      both groups trimmed. */
  function ParseAssertionError(errorMessage: string): (r: Option<AssertionInfo>)
    ensures r.Some? ==> Trim(r.value.expected) == r.value.expected && Trim(r.value.received) == r.value.received
  {
    var first := QuotedPatternFrom(errorMessage, 0, "received");
    var second := QuotedPatternFrom(errorMessage, 0, "but got");
    var third := LabelledPatternFrom(errorMessage, 0);
    var r :=
      if first.Some? then Some(Captured(errorMessage, first.value))
      else if second.Some? then Some(Captured(errorMessage, second.value))
      else if third.Some? then Some(Captured(errorMessage, third.value))
      else None;
    if r.Some? then
      TrimIdempotent(Capture(errorMessage, if first.Some? then first.value.0 else if second.Some? then second.value.0 else third.value.0));
      TrimIdempotent(Capture(errorMessage, if first.Some? then first.value.1 else if second.Some? then second.value.1 else third.value.1));
      r
    else r
  }

  /** A case-insensitive match of `w + t` starts with a match of `w`. */
  lemma MatchesPrefix(s: string, i: nat, w: string, t: string)
    requires MatchesAt(s, i, w + t)
    ensures MatchesAt(s, i, w)
  {
    assert Lower(s[i..i + |w|]) == Lower(s[i..i + |w + t|])[..|w|];
  }

  /** None of the three patterns can match from `p` on when `expected` does
      not occur there in any letter case. */
  lemma {:induction false} NoExpectedNoMatch(s: string, p: nat, keyword: string)
    requires p <= |s|
    requires forall q: nat :: p <= q <= |s| ==> !MatchesAt(s, q, "expected")
    ensures QuotedPatternFrom(s, p, keyword) == None
    ensures LabelledPatternFrom(s, p) == None
    decreases |s| - p
  {
    if MatchesAt(s, p, "expected:") {
      MatchesPrefix(s, p, "expected", ":");
    }
    if p < |s| {
      NoExpectedNoMatch(s, p + 1, keyword);
    }
  }

  /** A message that never says `expected`, in any letter case, cannot be
      parsed. */
  lemma UnparsedWithoutExpected(errorMessage: string)
    requires forall q: nat :: q <= |errorMessage| ==> !MatchesAt(errorMessage, q, "expected")
    ensures ParseAssertionError(errorMessage) == None
  {
    NoExpectedNoMatch(errorMessage, 0, "received");
    NoExpectedNoMatch(errorMessage, 0, "but got");
  }

  /** Without the keyword, `.*KEYWORD...` fails from every split point. */
  lemma {:induction false} NoKeywordNoTail(s: string, from: nat, r: nat, keyword: string)
    requires from <= r <= |s|
    requires forall q: nat :: q <= |s| ==> !MatchesAt(s, q, keyword)
    ensures KeywordFrom(s, from, r, keyword) == None
    decreases r - from
  {
    if r > from {
      NoKeywordNoTail(s, from, r - 1, keyword);
    }
  }

  lemma {:induction false} NoKeywordNoGroup(s: string, g: nat, m: nat, keyword: string)
    requires g < m <= |s|
    requires forall q: nat :: q <= |s| ==> !MatchesAt(s, q, keyword)
    ensures FirstGroupUpTo(s, g, m, keyword) == None
    decreases m
  {
    NoKeywordNoTail(s, m, LineEnd(s, m), keyword);
    if m < |s| {
      NoKeywordNoTail(s, m + 1, LineEnd(s, m + 1), keyword);
    }
    if m > g + 1 {
      NoKeywordNoGroup(s, g, m - 1, keyword);
    }
  }

  lemma {:induction false} NoKeywordNoHead(s: string, i: nat, j: nat, keyword: string)
    requires i + j <= |s|
    requires forall q: nat :: q <= |s| ==> !MatchesAt(s, q, keyword)
    ensures HeadWithSeparators(s, i, j, keyword) == None
    decreases j
  {
    if j > 0 {
      NoKeywordNoGroupFrom(s, i + j, keyword);
      if i + j < |s| {
        NoKeywordNoGroupFrom(s, i + j + 1, keyword);
      }
      NoKeywordNoHead(s, i, j - 1, keyword);
    }
  }

  lemma NoKeywordNoGroupFrom(s: string, g: nat, keyword: string)
    requires g <= |s|
    requires forall q: nat :: q <= |s| ==> !MatchesAt(s, q, keyword)
    ensures FirstGroupFrom(s, g, keyword) == None
  {
    if g < |s| && !IsPatternQuote(s[g]) {
      NoKeywordNoGroup(s, g, NonQuoteEnd(s, g), keyword);
    }
  }

  /** The first two patterns need their keyword (`received`, `but got`)
      somewhere in the message. */
  lemma {:induction false} NoKeywordNoMatch(s: string, p: nat, keyword: string)
    requires p <= |s|
    requires forall q: nat :: q <= |s| ==> !MatchesAt(s, q, keyword)
    ensures QuotedPatternFrom(s, p, keyword) == None
    decreases |s| - p
  {
    NoKeywordNoMatchAt(s, p, keyword);
    if p < |s| {
      NoKeywordNoMatch(s, p + 1, keyword);
    }
  }

  lemma NoKeywordNoMatchAt(s: string, p: nat, keyword: string)
    requires p <= |s|
    requires forall q: nat :: q <= |s| ==> !MatchesAt(s, q, keyword)
    ensures QuotedPatternAt(s, p, keyword) == None
  {
    if MatchesAt(s, p, "expected") {
      NoKeywordNoHead(s, p + 8, SeparatorEnd(s, p + 8) - (p + 8), keyword);
    }
  }

  /** A message with neither `received` nor `but got` is read by the
      labelled `Expected: ... Received: ...` pattern alone. */
  lemma WithoutKeywordsOnlyLabelled(errorMessage: string)
    requires forall q: nat :: q <= |errorMessage| ==>
      !MatchesAt(errorMessage, q, "received") && !MatchesAt(errorMessage, q, "but got")
    ensures ParseAssertionError(errorMessage) ==
      match LabelledPatternFrom(errorMessage, 0)
      case None => None
      case Some(m) => Some(Captured(errorMessage, m))
  {
    NoKeywordNoMatch(errorMessage, 0, "received");
    NoKeywordNoMatch(errorMessage, 0, "but got");
  }

  lemma TrimIdempotent(s: string)
    ensures Trim(Trim(s)) == Trim(s)
  {
    TrimOfTrimmed(Trim(s));
  }

  // ---------------------------------------------------------------------
  // `escapeRegex` and `applySimpleFix`.
  // ---------------------------------------------------------------------

  /** The characters `escapeRegex` puts a backslash before. */
  predicate IsRegexSyntax(c: char) {
    c in ".*+?^${}()|[]\\"
  }

  /** `escapeRegex`: a backslash before every syntax character. */
  function EscapeRegex(s: string): (r: string)
    ensures |r| >= |s|
  {
    if s == [] then []
    else (if IsRegexSyntax(s[0]) then ['\\', s[0]] else [s[0]]) + EscapeRegex(s[1..])
  }

  /** The text a pattern made only of plain characters and escaped syntax
      characters matches, or None if the pattern has any other construct. */
  function LiteralText(pattern: string): Option<string> {
    if pattern == [] then Some([])
    else if pattern[0] == '\\' then
      if |pattern| >= 2 && IsRegexSyntax(pattern[1]) then
        match LiteralText(pattern[2..])
        case Some(t) => Some([pattern[1]] + t)
        case None => None
      else None
    else if IsRegexSyntax(pattern[0]) then None
    else
      match LiteralText(pattern[1..])
      case Some(t) => Some([pattern[0]] + t)
      case None => None
  }

  /** The escaped pattern is a plain literal and matches exactly the text it
      was built from. */
  lemma {:induction false} EscapedIsLiteral(s: string)
    ensures LiteralText(EscapeRegex(s)) == Some(s)
  {
    if s != [] {
      EscapedIsLiteral(s[1..]);
      var e := EscapeRegex(s);
      if IsRegexSyntax(s[0]) {
        assert e == ['\\', s[0]] + EscapeRegex(s[1..]);
        assert e[2..] == EscapeRegex(s[1..]);
        assert e[0] == '\\' && e[1] == s[0];
        assert [s[0]] + s[1..] == s;
      } else {
        assert e == [s[0]] + EscapeRegex(s[1..]);
        assert e[0] == s[0] && e[0] != '\\';
        assert [s[0]] + s[1..] == s;
        assert e[1..] == EscapeRegex(s[1..]);
      }
    }
  }

  /** `['"\`]`, the quote class of the replacement pattern. */
  predicate IsQuote(c: char) {
    c == '\'' || c == '"' || c == '`'
  }

  /** `x` occurs at `i` between two equal quote characters. */
  predicate QuotedAt(s: string, x: string, i: nat) {
    i + |x| + 2 <= |s| && IsQuote(s[i]) && s[i + 1..i + 1 + |x|] == x && s[i + 1 + |x|] == s[i]
  }

  predicate HasQuoted(s: string, x: string) {
    exists i: nat :: i < |s| && QuotedAt(s, x, i)
  }

  /** A global replace of `q x q` by `q y q`, scanning left to right and
      resuming after each replaced occurrence. */
  function ReplaceQuoted(s: string, x: string, y: string): string
    decreases |s|
  {
    if s == [] then []
    else if QuotedAt(s, x, 0) then [s[0]] + y + [s[0]] + ReplaceQuoted(s[|x| + 2..], x, y)
    else [s[0]] + ReplaceQuoted(s[1..], x, y)
  }

  /** How many occurrences that scan replaces. */
  function ReplacedCount(s: string, x: string): nat
    decreases |s|
  {
    if s == [] then 0
    else if QuotedAt(s, x, 0) then 1 + ReplacedCount(s[|x| + 2..], x)
    else ReplacedCount(s[1..], x)
  }

  /** `applySimpleFix`: the regular expression built from the escaped
      expected value, replaced globally. */
  function ApplySimpleFix(code: string, expected: string, received: string): (r: string)
    ensures r == ReplaceQuoted(code, expected, received)
  {
    EscapedIsLiteral(expected);
    var literal := LiteralText(EscapeRegex(expected)).value;
    ReplaceQuoted(code, literal, received)
  }

  /** Every replacement changes the length by the same amount. */
  lemma {:induction false} ReplacedLength(s: string, x: string, y: string)
    ensures |ReplaceQuoted(s, x, y)| == |s| + ReplacedCount(s, x) * (|y| - |x|)
    decreases |s|
  {
    if s != [] {
      if QuotedAt(s, x, 0) {
        var t := s[|x| + 2..];
        ReplacedLength(t, x, y);
        OneMore(ReplacedCount(t, x), |y| - |x|);
        assert |ReplaceQuoted(s, x, y)| == |y| + 2 + |ReplaceQuoted(t, x, y)|;
      } else {
        ReplacedLength(s[1..], x, y);
      }
    }
  }

  lemma OneMore(c: nat, d: int)
    ensures (1 + c) * d == d + c * d
  {
  }

  /** Quoted occurrences in the tail of `s` are those of `s`, shifted by one. */
  lemma QuotedShift(s: string, x: string, k: nat)
    requires s != []
    ensures QuotedAt(s[1..], x, k) <==> QuotedAt(s, x, k + 1)
  {
    if k + |x| + 3 <= |s| {
      assert s[1..][k + 1..k + 1 + |x|] == s[k + 2..k + 2 + |x|];
    }
  }

  /** Text without a quoted occurrence is left unchanged. */
  lemma {:induction false} NoOccurrenceNoChange(s: string, x: string, y: string)
    requires !HasQuoted(s, x)
    ensures ReplaceQuoted(s, x, y) == s
    ensures ReplacedCount(s, x) == 0
    decreases |s|
  {
    if s != [] {
      assert !QuotedAt(s, x, 0);
      forall i: nat | i < |s[1..]| ensures !QuotedAt(s[1..], x, i) {
        QuotedShift(s, x, i);
      }
      NoOccurrenceNoChange(s[1..], x, y);
    }
  }

  /** Replacing a value by itself changes nothing. */
  lemma {:induction false} ReplaceBySelf(s: string, x: string)
    ensures ReplaceQuoted(s, x, x) == s
    decreases |s|
  {
    if s != [] {
      if QuotedAt(s, x, 0) {
        ReplaceBySelf(s[|x| + 2..], x);
        assert s == [s[0]] + x + [s[0]] + s[|x| + 2..];
      } else {
        ReplaceBySelf(s[1..], x);
      }
    }
  }

  /** The first quoted occurrence is the first one replaced, and everything
      before it is kept. */
  lemma {:induction false} FirstOccurrenceReplaced(s: string, x: string, y: string, i: nat)
    requires QuotedAt(s, x, i)
    requires forall k: nat :: k < i ==> !QuotedAt(s, x, k)
    ensures ReplaceQuoted(s, x, y) == s[..i] + [s[i]] + y + [s[i]] + ReplaceQuoted(s[i + |x| + 2..], x, y)
    ensures ReplacedCount(s, x) >= 1
    decreases i
  {
    if i > 0 {
      var t := s[1..];
      FirstInTail(s, x, i);
      FirstOccurrenceReplaced(t, x, y, i - 1);
      assert t[i - 1 + |x| + 2..] == s[i + |x| + 2..];
      PrependFirst(s, y, i, ReplaceQuoted(t, x, y), ReplaceQuoted(s[i + |x| + 2..], x, y));
    }
  }

  /** The first occurrence, when it is not at the start, is the first one
      of the tail. */
  lemma FirstInTail(s: string, x: string, i: nat)
    requires 0 < i && QuotedAt(s, x, i)
    requires forall k: nat :: k < i ==> !QuotedAt(s, x, k)
    ensures !QuotedAt(s, x, 0)
    ensures QuotedAt(s[1..], x, i - 1) && forall k: nat :: k < i - 1 ==> !QuotedAt(s[1..], x, k)
  {
    QuotedShift(s, x, i - 1);
    forall k: nat | k < i - 1 ensures !QuotedAt(s[1..], x, k) {
      QuotedShift(s, x, k);
    }
  }

  /** Putting back the first character in front of the tail's rewrite. */
  lemma PrependFirst(s: string, y: string, i: nat, rt: string, rest: string)
    requires 0 < i < |s|
    requires rt == s[1..][..i - 1] + [s[1..][i - 1]] + y + [s[1..][i - 1]] + rest
    ensures [s[0]] + rt == s[..i] + [s[i]] + y + [s[i]] + rest
  {
    assert s[..i] == [s[0]] + s[1..][..i - 1];
  }

  /** Replacing a first occurrence by a different value of the same length
      changes the characters where it stood. */
  lemma SameLengthReplacementDiffers(s: string, x: string, y: string, i: nat)
    requires QuotedAt(s, x, i)
    requires forall k: nat :: k < i ==> !QuotedAt(s, x, k)
    requires x != y && |x| == |y|
    ensures ReplaceQuoted(s, x, y) != s
  {
    FirstOccurrenceReplaced(s, x, y, i);
    DiffersInMiddle(s, ReplaceQuoted(s, x, y), i, x, y, ReplaceQuoted(s[i + |x| + 2..], x, y));
  }

  /** The rewrite holds `y` where `s` holds `x`. */
  lemma DiffersInMiddle(s: string, r: string, i: nat, x: string, y: string, rest: string)
    requires QuotedAt(s, x, i) && |x| == |y| && x != y
    requires r == s[..i] + [s[i]] + y + [s[i]] + rest
    ensures r != s
  {
    var front := s[..i] + [s[i]];
    assert r == front + y + ([s[i]] + rest);
    assert r[i + 1..i + 1 + |y|] == y;
  }

  /** A replacement by a value of another length changes the length. */
  lemma OtherLengthReplacementDiffers(s: string, x: string, y: string)
    requires HasQuoted(s, x) && |x| != |y|
    ensures ReplaceQuoted(s, x, y) != s
  {
    OccurrenceIsCounted(s, x);
    ReplacedLength(s, x, y);
    ProductNonZero(ReplacedCount(s, x), |y| - |x|);
  }

  /** A quoted occurrence means at least one replacement. */
  lemma {:induction false} OccurrenceIsCounted(s: string, x: string)
    requires HasQuoted(s, x)
    ensures ReplacedCount(s, x) >= 1
    decreases |s|
  {
    if !QuotedAt(s, x, 0) {
      var j: nat :| j < |s| && QuotedAt(s, x, j);
      QuotedShift(s, x, j - 1);
      OccurrenceIsCounted(s[1..], x);
    }
  }

  lemma ProductNonZero(n: nat, d: int)
    requires n >= 1 && d != 0
    ensures n * d != 0
  {
  }

  /** The rewrite changes the text exactly when there is a quoted occurrence
      of the expected value and the received value differs from it. */
  lemma ReplaceChangesIff(s: string, x: string, y: string)
    ensures ReplaceQuoted(s, x, y) != s <==> HasQuoted(s, x) && x != y
  {
    if !HasQuoted(s, x) {
      NoOccurrenceNoChange(s, x, y);
    } else if x == y {
      ReplaceBySelf(s, x);
    } else {
      if |x| == |y| {
        SameLengthReplacementDiffers(s, x, y, FirstQuoted(s, x, 0));
      } else {
        OtherLengthReplacementDiffers(s, x, y);
      }
    }
  }

  /** The least index of a quoted occurrence at or after `from`. */
  function FirstQuoted(s: string, x: string, from: nat): (i: nat)
    requires HasQuoted(s, x)
    requires forall k: nat :: k < from ==> !QuotedAt(s, x, k)
    ensures QuotedAt(s, x, i) && forall k: nat :: k < i ==> !QuotedAt(s, x, k)
    decreases |s| - from
  {
    if QuotedAt(s, x, from) then from
    else
      assert from < |s| by {
        var j: nat :| j < |s| && QuotedAt(s, x, j);
        assert from <= j;
      }
      FirstQuoted(s, x, from + 1)
  }

  // ---------------------------------------------------------------------
  // `generateFix`.
  // ---------------------------------------------------------------------

  const ParseFailureExplanation: string := "Could not parse assertion error"
  const ParseFailureError: string := "Unable to parse assertion"

  function Explanation(info: AssertionInfo): (e: string)
    ensures Contains(e, info.received) && Contains(e, info.expected)
  {
    var e := "Updated assertion: expected \"" + info.received + "\" instead of \"" + info.expected + "\"";
    ContainsItself("Updated assertion: expected \"", info.received,
                   "\" instead of \"" + info.expected + "\"");
    assert e == "Updated assertion: expected \"" + info.received + ("\" instead of \"" + info.expected + "\"");
    ContainsItself("Updated assertion: expected \"" + info.received + "\" instead of \"", info.expected, "\"");
    e
  }

  /** `generateFix`: an unparseable message gives a failed result with the
      content unchanged; otherwise the content is rewritten and the result
      succeeds exactly when the rewrite changed it. */
  function GenerateFix(f: AnalyzedFailure, testFileContent: string, codeDiff: Option<string>): (r: FixResult)
    ensures r.originalCode == testFileContent
    ensures r.filePath == f.failure.testFile && r.strategy == Name
    ensures r.aiModel == None && r.tokensUsed == None
    ensures ParseAssertionError(f.failure.errorMessage).None? ==>
      !r.success && r.confidence == 0.0 && r.fixedCode == testFileContent &&
      r.validationErrors == Some([ParseFailureError])
    ensures ParseAssertionError(f.failure.errorMessage).Some? ==>
      var info := ParseAssertionError(f.failure.errorMessage).value;
      r.confidence == 0.7 && r.validationErrors == None &&
      r.fixedCode == ReplaceQuoted(testFileContent, info.expected, info.received) &&
      (r.success <==> HasQuoted(testFileContent, info.expected) && info.expected != info.received) &&
      Contains(r.explanation, info.expected) && Contains(r.explanation, info.received)
  {
    match ParseAssertionError(f.failure.errorMessage)
    case None =>
      FixResult(testFileContent, testFileContent, f.failure.testFile, Name,
                ParseFailureExplanation, 0.0, false, Some([ParseFailureError]), None, None)
    case Some(info) =>
      var fixedCode := ApplySimpleFix(testFileContent, info.expected, info.received);
      ReplaceChangesIff(testFileContent, info.expected, info.received);
      FixResult(testFileContent, fixedCode, f.failure.testFile, Name,
                Explanation(info), 0.7, fixedCode != testFileContent, None, None, None)
  }
}
