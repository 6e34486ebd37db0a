/**
 * A document holding one well-formed question, parsed by the block split as
 * written and by the corrected one.  As written, the lookahead also matches at
 * the `0` of `10. `, so a question numbered 10 leaves a stray block `1` that is
 * counted as a question and reported as skipped.
 */
module ImporterFindings {
  import opened Wrappers
  import opened JsStrings
  import opened WordQuestionImporter

  /** `pat` sits right after `p` in `p + pat + q`. */
  lemma OccursAfter(p: string, pat: string, q: string)
    ensures OccursAt(p + pat + q, pat, |p|)
  {
    assert (p + pat + q)[|p|..|p| + |pat|] == pat;
  }

  /** An occurrence stays one when text is put in front. */
  lemma OccursShift(p: string, s: string, pat: string, i: nat)
    requires OccursAt(s, pat, i)
    ensures OccursAt(p + s, pat, |p| + i)
  {
    assert (p + s)[|p| + i..|p| + i + |pat|] == s[i..i + |pat|];
  }

  /** The search from `from` stops at `at` when no earlier position holds the
      first character of `pat`. */
  lemma {:induction false} FirstOccurrence(s: string, pat: string, from: nat, at: nat)
    requires pat != [] && from <= at && OccursAt(s, pat, at)
    requires forall j :: from <= j < at ==> s[j] != pat[0]
    ensures IndexOfFrom(s, pat, from) == Some(at)
    decreases at - from
  {
    if from < at {
      assert s[from..from + |pat|][0] == s[from];
      FirstOccurrence(s, pat, from + 1, at);
    }
  }

  /** Without the first character of `pat` anywhere, the search finds nothing. */
  lemma NoOccurrence(s: string, pat: string)
    requires pat != [] && forall j :: 0 <= j < |s| ==> s[j] != pat[0]
    ensures IndexOfFrom(s, pat, 0) == None
  {
    forall j: nat | j + |pat| <= |s| ensures !OccursAt(s, pat, j) {
      assert s[j..j + |pat|][0] == s[j];
    }
  }

  predicate AllDigitString(n: string) {
    forall j :: 0 <= j < |n| ==> IsDigit(n[j])
  }

  const Lead: string := ". Q "
  const Middle: string := " x "
  const Tail: string := " A"

  /** Everything of the example question after its number. */
  function Body(): string { Lead + FirstOption + Middle + AnswerMarker + Tail }

  /** The example question numbered `n`: `<n>. Q A. x Correct Answer: A`. */
  function Numbered(n: string): string { n + Body() }

  /** The one record the example question yields. */
  const Expected: ParsedQuestion := ParsedQuestion("Q", ["x"], 0, None)

  lemma BodyIsLiteral()
    ensures Body() == ". Q A. x Correct Answer: A"
  {
  }

  lemma BodyChars()
    ensures |Body()| == 26
    ensures forall j :: 0 <= j < 26 ==> !IsDigit(Body()[j]) && Body()[j] != 'E'
    ensures forall j :: 0 <= j < 9 ==> Body()[j] != 'C'
    ensures forall j :: 0 <= j < 4 ==> Body()[j] != 'A'
    ensures Body()[0] == '.' && IsWhiteSpace(Body()[1])
    ensures Body()[2] == 'Q' && Body()[3] == ' '
    ensures Body()[4] == 'A' && Body()[5] == '.' && Body()[6] == ' ' && Body()[7] == 'x' && Body()[8] == ' '
    ensures IsWhiteSpace(Body()[24]) && Body()[25] == 'A'
  {
    BodyIsLiteral();
  }

  lemma NumberedChars(n: string)
    requires AllDigitString(n)
    ensures var d := Numbered(n); var k := |n|;
            |d| == k + 26
            && (forall j :: 0 <= j < k ==> d[j] == n[j])
            && (forall j :: k <= j < k + 26 ==> d[j] == Body()[j - k])
            && d[k + 2..k + 4] == "Q " && d[k + 4..k + 9] == "A. x "
  {
    BodyChars();
    var d := Numbered(n);
    var k := |n|;
    assert d[k + 2..k + 4] == "Q " by {
      assert d[k + 2] == 'Q' && d[k + 3] == ' ';
    }
    assert d[k + 4..k + 9] == "A. x " by {
      assert d[k + 4] == 'A' && d[k + 5] == '.' && d[k + 6] == ' ' && d[k + 7] == 'x' && d[k + 8] == ' ';
    }
  }

  lemma NumberOfNumbered(n: string)
    requires n != [] && AllDigitString(n)
    ensures DigitRunEnd(Numbered(n), 0) == |n|
    ensures NumberMarkerAt(Numbered(n), 0)
  {
    BodyChars();
    NumberedChars(n);
    assert !IsDigit(Numbered(n)[|n|]);
  }

  lemma QuestionTextOfNumbered(n: string)
    requires n != [] && AllDigitString(n)
    ensures QuestionText(Numbered(n)) == "Q"
  {
    NumberedChars(n);
    NumberOfNumbered(n);
    OptionInNumbered(n, |n| + 2);
    var d := Numbered(n);
    assert QuestionTextMatch(d) == Some(d[|n| + 2..|n| + 4]);
    assert QuestionTextMatch(d) == Some("Q ");
    assert WhiteSpaceRunEnd("Q ", 0) == 0;
    assert WhiteSpaceRunStart("Q ", 2) == 1;
  }

  lemma OptionInNumbered(n: string, from: nat)
    requires AllDigitString(n) && from <= |n| + 4
    ensures IndexOfFrom(Numbered(n), FirstOption, from) == Some(|n| + 4)
  {
    BodyChars();
    assert Body()[4..6] == FirstOption by {
      assert Body()[4] == 'A' && Body()[5] == '.';
    }
    OccursShift(n, Body(), FirstOption, 4);
    var d := Numbered(n);
    forall j | from <= j < |n| + 4 ensures d[j] != FirstOption[0] {
      if j < |n| {
        assert d[j] == n[j];
      } else {
        assert d[j] == Body()[j - |n|];
      }
    }
    FirstOccurrence(d, FirstOption, from, |n| + 4);
  }

  lemma MarkerInNumbered(n: string, from: nat)
    requires AllDigitString(n) && from <= |n| + 9
    ensures IndexOfFrom(Numbered(n), AnswerMarker, from) == Some(|n| + 9)
  {
    BodyChars();
    OccursAfter(Lead + FirstOption + Middle, AnswerMarker, Tail);
    OccursShift(n, Body(), AnswerMarker, 9);
    var d := Numbered(n);
    forall j | from <= j < |n| + 9 ensures d[j] != AnswerMarker[0] {
      if j < |n| {
        assert d[j] == n[j];
      } else {
        assert d[j] == Body()[j - |n|];
      }
    }
    FirstOccurrence(d, AnswerMarker, from, |n| + 9);
  }

  lemma LetterOfNumbered(n: string)
    requires AllDigitString(n)
    ensures CorrectLetter(Numbered(n)) == Some('A')
  {
    BodyChars();
    NumberedChars(n);
    MarkerInNumbered(n, 0);
    var d := Numbered(n);
    assert WhiteSpaceRunEnd(d, |n| + 24) == |n| + 25;
    assert AnswerMatchAt(d, |n| + 9);
  }

  lemma SpanOfNumbered(n: string)
    requires AllDigitString(n)
    ensures OptionsSpan(Numbered(n)) == Some("A. x ")
  {
    NumberedChars(n);
    OptionInNumbered(n, 0);
    MarkerInNumbered(n, |n| + 6);
  }

  lemma TokensOfSpan()
    ensures OptionTokens("A. x ") == ["A. x "]
  {
    var span := "A. x ";
    var m := CutMask(OptionLetter, span);
    assert m[0] && !m[1] && !m[2] && !m[3] && !m[4];
    assert NextCut(m, 1) == 5;
    assert Split(OptionLetter, span) == [span];
    OptionTokensOfSpan(span);
  }

  lemma StripOfSpan()
    ensures StripMarker("A. x ") == "x"
  {
    var span := "A. x ";
    assert span[2..] == " x ";
    assert WhiteSpaceRunEnd(" x ", 0) == 1;
    assert WhiteSpaceRunStart(" x ", 3) == 2;
  }

  lemma OptionsOfSpan()
    ensures Options("A. x ") == ["x"]
  {
    TokensOfSpan();
    StripOfSpan();
  }

  lemma NoExplanationInNumbered(n: string)
    requires AllDigitString(n)
    ensures Explanation(Numbered(n)) == None
  {
    BodyChars();
    NumberedChars(n);
    NoOccurrence(Numbered(n), ExplanationMarker);
  }

  /** A block whose three parts are present and whose letter names an option
      parses to the record built from its fragments. */
  lemma ParsedFromFragments(b: string, span: string, letter: char)
    requires QuestionText(b) != [] && CorrectLetter(b) == Some(letter) && OptionsSpan(b) == Some(span)
    requires 0 <= LetterIndex(letter) < |Options(span)|
    ensures ParseBlock(b) == Parsed(ParsedQuestion(QuestionText(b), Options(span), LetterIndex(letter), Explanation(b)))
  {
  }

  /** The example question parses, whatever its number. */
  lemma NumberedParses(n: string)
    requires n != [] && AllDigitString(n)
    ensures ParseBlock(Numbered(n)) == Parsed(Expected)
  {
    QuestionTextOfNumbered(n);
    LetterOfNumbered(n);
    SpanOfNumbered(n);
    OptionsOfSpan();
    NoExplanationInNumbered(n);
    ParsedFromFragments(Numbered(n), "A. x ", 'A');
  }

  /** After the number `10` no position of the document starts a number. */
  lemma NoMarkerAfterTen()
    ensures forall q :: 2 <= q < |Numbered("10")| ==> !NumberMarkerAt(Numbered("10"), q)
    ensures NumberMarkerAt(Numbered("10"), 1)
  {
    BodyChars();
    NumberedChars("10");
    var text := Numbered("10");
    assert forall q :: 2 <= q < |text| ==> !IsDigit(text[q]);
    assert DigitRunEnd(text, 1) == 2;
  }

  lemma WrittenSplitOfTen()
    ensures Split(QuestionNumber, Numbered("10")) == ["1", Numbered("0")]
  {
    NoMarkerAfterTen();
    var text := Numbered("10");
    var m := CutMask(QuestionNumber, text);
    assert m[1];
    assert NextCut(m, 1) == 1;
    assert NextCut(m, 2) == |text|;
    assert text == "1" + Numbered("0");
    assert text[0..1] == "1" && text[1..] == Numbered("0");
  }

  lemma CorrectedSplitOfTen()
    ensures Split(QuestionStart, Numbered("10")) == [Numbered("10")]
  {
    NoMarkerAfterTen();
    var text := Numbered("10");
    var m := CutMask(QuestionStart, text);
    assert text[0] == '1';
    assert !m[1];
    assert NextCut(m, 1) == |text|;
  }

  lemma WrittenBlocksOfTen()
    ensures QuestionBlocksAsWritten(Numbered("10")) == ["1", Numbered("0")]
  {
    WrittenSplitOfTen();
    var pieces := ["1", Numbered("0")];
    assert !IsWhiteSpace(pieces[0][0]) && !IsWhiteSpace(pieces[1][0]);
    NonBlankKeepsAll(pieces);
  }

  lemma CorrectedBlocksOfTen()
    ensures QuestionBlocks(Numbered("10")) == [Numbered("10")]
  {
    CorrectedSplitOfTen();
    var pieces := [Numbered("10")];
    assert !IsWhiteSpace(pieces[0][0]);
    NonBlankKeepsAll(pieces);
  }

  /** Where each split cuts the question numbered 10. */
  lemma BlocksOfTen()
    ensures QuestionBlocksAsWritten(Numbered("10")) == ["1", Numbered("0")]
    ensures QuestionBlocks(Numbered("10")) == [Numbered("10")]
  {
    WrittenBlocksOfTen();
    CorrectedBlocksOfTen();
  }

  /** A block made of digits alone has no question text, so it never parses. */
  lemma DigitsAloneSkipped(b: string)
    requires AllDigitString(b)
    ensures ParseBlock(b) == Skipped(MissingParts)
  {
    assert DigitRunEnd(b, 0) == |b|;
    assert QuestionTextMatch(b) == None;
  }

  /** Two blocks emit the records of the first, then those of the second. */
  lemma ParseAllPair(a: string, b: string)
    ensures ParseAll([a, b]) == Emit(ParseBlock(a)) + Emit(ParseBlock(b))
  {
    ParseAllAppend([a], [b]);
    assert [a] + [b] == [a, b];
    ParseAllSingle(a);
    ParseAllSingle(b);
  }

  /** The stray block `1` is skipped; the rest of the question still parses. */
  lemma RecordsOfStrayBlocks()
    ensures ParseAll(["1", Numbered("0")]) == [Expected]
  {
    assert AllDigitString("1");
    DigitsAloneSkipped("1");
    NumberedParses("0");
    ParseAllPair("1", Numbered("0"));
  }

  /** As written, the one valid question numbered 10 is reported with one
      question skipped. */
  lemma StrayBlockReportedSkipped()
    ensures ParseTextAsWritten(Numbered("10")) == ParseResult([Expected], 2)
    ensures Report(ParseTextAsWritten(Numbered("10"))) == Imported(ImportReport(1, 1))
  {
    WrittenBlocksOfTen();
    RecordsOfStrayBlocks();
    assert ParseTextAsWritten(Numbered("10")) == Tally(["1", Numbered("0")]);
  }

  /** With the corrected split the document is one block and nothing is skipped. */
  lemma CorrectedReportsNoSkip()
    ensures ParseText(Numbered("10")) == ParseResult([Expected], 1)
    ensures Report(ParseText(Numbered("10"))) == Imported(ImportReport(1, 0))
  {
    CorrectedBlocksOfTen();
    assert AllDigitString("10");
    NumberedParses("10");
    ParseAllSingle(Numbered("10"));
    assert ParseText(Numbered("10")) == Tally([Numbered("10")]);
  }
}
