/**
 * The bulk-import parser of the Word question importer: it turns the plain text
 * of a document into question records.  The regular expressions of the source
 * are written out as string functions with the matching semantics of JavaScript
 * (leftmost match, greedy `\s*`, lazy `.*?`, zero-width lookahead splits).
 */
module WordQuestionImporter {
  import opened Wrappers
  import opened JsStrings

  /** One imported question. `explanation` is `None` when the block has no
      `Explanation:` marker. */
  datatype ParsedQuestion = ParsedQuestion(
    questionText: string,
    options: seq<string>,
    correctOptionIndex: int,
    explanation: Option<string>)

  /** Why a block was dropped: one of the two skip branches of the driver loop. */
  datatype SkipReason = MissingParts | InvalidCorrectIndex

  datatype BlockOutcome = Parsed(question: ParsedQuestion) | Skipped(reason: SkipReason)

  /** What the driver hands back: the kept records and the number of candidate blocks. */
  datatype ParseResult = ParseResult(parsedQuestions: seq<ParsedQuestion>, totalQuestions: nat)

  predicate AllTrimmed(texts: seq<string>) {
    forall i :: 0 <= i < |texts| ==> IsTrimmed(texts[i])
  }

  /** The invariants every emitted record satisfies. */
  predicate WellFormed(q: ParsedQuestion) {
    && q.questionText != [] && IsTrimmed(q.questionText)
    && |q.options| > 0
    && AllTrimmed(q.options)
    && 0 <= q.correctOptionIndex < |q.options|
    && (q.explanation.Some? ==> IsTrimmed(q.explanation.value))
  }

  // ---------------------------------------------------------------------------
  // Character classes and the two split delimiters

  predicate IsDigit(c: char) { '0' <= c <= '9' }
  predicate IsUpper(c: char) { 'A' <= c <= 'Z' }

  /** The end of the run of digits that starts at `i` (what a greedy `\d+` consumes). */
  function DigitRunEnd(s: string, i: nat): (k: nat)
    requires i <= |s|
    ensures i <= k <= |s|
    ensures forall j :: i <= j < k ==> IsDigit(s[j])
    ensures k == |s| || !IsDigit(s[k])
    decreases |s| - i
  {
    if i < |s| && IsDigit(s[i]) then DigitRunEnd(s, i + 1) else i
  }

  /** `\d+\.\s` matches at `i`.  The digits must be the whole run: a shorter run
      would have to be followed by '.', which is not a digit. */
  predicate NumberMarkerAt(s: string, i: nat) {
    i <= |s| &&
    var k := DigitRunEnd(s, i);
    i < k && k + 1 < |s| && s[k] == '.' && IsWhiteSpace(s[k + 1])
  }

  /** The regular expression `\d+\.\s` read literally: some non-empty run of
      digits, a period, one whitespace character. */
  ghost predicate NumberMarkerMatches(s: string, i: nat) {
    exists k :: i < k && k + 1 < |s| && AllDigits(s, i, k) && s[k] == '.' && IsWhiteSpace(s[k + 1])
  }

  predicate AllDigits(s: string, i: nat, k: nat)
    requires k <= |s|
  {
    forall j :: i <= j < k ==> IsDigit(s[j])
  }

  lemma NumberMarkerAtIsRegex(s: string, i: nat)
    ensures NumberMarkerAt(s, i) <==> NumberMarkerMatches(s, i)
  {
    if NumberMarkerMatches(s, i) {
      var k :| i < k && k + 1 < |s| && AllDigits(s, i, k) && s[k] == '.' && IsWhiteSpace(s[k + 1]);
      var e := DigitRunEnd(s, i);
      assert e == k by {
        assert !IsDigit(s[k]);
      }
    }
  }

  /** The lookaheads of the two `split` calls: `(?=\d+\.\s)` cuts the document
      into question blocks, `(?=[A-Z]\.)` cuts an options span into options.
      `QuestionStart` is the block cut as intended: a question number that is
      not the tail of a longer number. */
  datatype Delimiter = QuestionNumber | QuestionStart | OptionLetter

  predicate BoundaryAt(d: Delimiter, s: string, q: nat) {
    match d
    case QuestionNumber => NumberMarkerAt(s, q)
    case QuestionStart => NumberMarkerAt(s, q) && (q == 0 || !IsDigit(s[q - 1]))
    case OptionLetter => q + 1 < |s| && IsUpper(s[q]) && s[q + 1] == '.'
  }

  /** Where `split` may cut `s`: position `q` is marked exactly when the lookahead
      of `d` matches there (matching looks at the whole string, not just at the
      piece being cut). */
  function CutMask(d: Delimiter, s: string): seq<bool> {
    seq(|s|, q requires 0 <= q < |s| => BoundaryAt(d, s, q))
  }

  /** The first marked position at or after `q`, or `|m|`. */
  function NextCut(m: seq<bool>, q: nat): (r: nat)
    requires q <= |m|
    ensures q <= r <= |m|
    ensures r < |m| ==> m[r]
    ensures forall j :: q <= j < r ==> !m[j]
    decreases |m| - q
  {
    if q == |m| || m[q] then q else NextCut(m, q + 1)
  }

  // ---------------------------------------------------------------------------
  // `String.prototype.split` with a zero-width lookahead

  /** The pieces joined back together. */
  function Concat(pieces: seq<string>): string {
    if pieces == [] then [] else pieces[0] + Concat(pieces[1..])
  }

  /** The pieces of `s[p..]`, cut at every later marked position (JavaScript never
      cuts at the position where the current piece began). */
  function SplitFrom(s: string, m: seq<bool>, p: nat): (r: seq<string>)
    requires |m| == |s| && p < |s|
    ensures |r| >= 1 && Concat(r) == s[p..]
    ensures forall i :: 0 <= i < |r| ==> r[i] != []
    decreases |s| - p
  {
    var q := NextCut(m, p + 1);
    if q == |s| then [s[p..]] else [s[p..q]] + SplitFrom(s, m, q)
  }

  /** `s.split(/(?=…)/)` with the lookahead of `d`; the empty string gives one
      empty piece. */
  function Split(d: Delimiter, s: string): (r: seq<string>)
    ensures |r| >= 1 && Concat(r) == s
    ensures s != [] ==> forall i :: 0 <= i < |r| ==> r[i] != []
  {
    if s == [] then [s] else SplitFrom(s, CutMask(d, s), 0)
  }

  /** Where the `i`-th piece starts within the split string. */
  function PieceStart(pieces: seq<string>, i: nat): nat
    requires i <= |pieces|
  {
    |Concat(pieces[..i])|
  }

  lemma ConcatCons(a: string, rest: seq<string>, i: nat)
    requires i <= |rest|
    ensures PieceStart([a] + rest, i + 1) == |a| + PieceStart(rest, i)
  {
    assert ([a] + rest)[..i + 1] == [a] + rest[..i];
    assert ([a] + rest[..i])[1..] == rest[..i];
  }

  /** Every piece of `SplitFrom` after the first starts at a marked position. */
  lemma {:induction false} PieceStartsAtCut(s: string, m: seq<bool>, p: nat, i: nat)
    requires |m| == |s| && p < |s| && 0 < i < |SplitFrom(s, m, p)|
    ensures p + PieceStart(SplitFrom(s, m, p), i) < |s|
    ensures m[p + PieceStart(SplitFrom(s, m, p), i)]
    decreases |s| - p
  {
    var q := NextCut(m, p + 1);
    var rest := SplitFrom(s, m, q);
    ConcatCons(s[p..q], rest, i - 1);
    if i == 1 {
      assert rest[..0] == [];
    } else {
      PieceStartsAtCut(s, m, q, i - 1);
    }
  }

  /** No piece of `SplitFrom` holds a marked position anywhere but at its start:
      `split` cuts at every boundary. */
  lemma {:induction false} NoCutInsidePiece(s: string, m: seq<bool>, p: nat, i: nat, j: nat)
    requires |m| == |s| && p < |s| && i < |SplitFrom(s, m, p)|
    requires var start := p + PieceStart(SplitFrom(s, m, p), i);
      start < j < start + |SplitFrom(s, m, p)[i]|
    ensures j < |s| && !m[j]
    decreases |s| - p
  {
    var r := SplitFrom(s, m, p);
    var q := NextCut(m, p + 1);
    if i == 0 {
      assert r[..0] == [];
    } else {
      var rest := SplitFrom(s, m, q);
      ConcatCons(s[p..q], rest, i - 1);
      NoCutInsidePiece(s, m, q, i - 1, j);
    }
  }

  /** The pieces of `split` are exactly the stretches between boundaries: every
      piece after the first starts where the lookahead matches, and the lookahead
      matches nowhere inside a piece. */
  lemma SplitCutsAtBoundaries(d: Delimiter, s: string, i: nat, j: nat)
    requires i < |Split(d, s)|
    ensures 0 < i ==> BoundaryAt(d, s, PieceStart(Split(d, s), i))
    ensures PieceStart(Split(d, s), i) < j < PieceStart(Split(d, s), i) + |Split(d, s)[i]|
            ==> !BoundaryAt(d, s, j)
  {
    if s != [] {
      var m := CutMask(d, s);
      assert |m| == |s|;
      if 0 < i {
        var p := PieceStart(Split(d, s), i);
        PieceStartsAtCut(s, m, 0, i);
        assert m[p] == BoundaryAt(d, s, p);
      }
      var start := PieceStart(Split(d, s), i);
      if start < j < start + |Split(d, s)[i]| {
        NoCutInsidePiece(s, m, 0, i, j);
        assert m[j] == BoundaryAt(d, s, j);
      }
    }
  }

  /** Splitting at option markers a span that starts with a marker: every piece
      starts with its own `X.` marker. */
  lemma {:induction false} MarkedPieces(s: string, p: nat)
    requires p < |s| && BoundaryAt(OptionLetter, s, p)
    ensures forall t :: t in SplitFrom(s, CutMask(OptionLetter, s), p) ==>
                          |t| >= 2 && IsUpper(t[0]) && t[1] == '.'
    decreases |s| - p
  {
    var m := CutMask(OptionLetter, s);
    var q := NextCut(m, p + 1);
    assert q != p + 1 by { assert !IsUpper(s[p + 1]); }
    if q < |s| {
      MarkedPieces(s, q);
    }
  }

  // ---------------------------------------------------------------------------
  // Candidate blocks

  /** `.filter(b => b.trim() !== "")`, keeping order. */
  function NonBlank(pieces: seq<string>): (r: seq<string>)
    ensures |r| <= |pieces|
    ensures forall b :: b in r ==> b in pieces && !IsBlank(b)
    ensures forall b :: b in pieces && !IsBlank(b) ==> b in r
  {
    if pieces == [] then []
    else if IsBlank(pieces[0]) then NonBlank(pieces[1..])
    else [pieces[0]] + NonBlank(pieces[1..])
  }

  /** The filter works piece by piece: it keeps order and repeats, so the
      candidate count at line 113 counts every non-blank piece. */
  lemma {:induction false} NonBlankAppend(xs: seq<string>, ys: seq<string>)
    ensures NonBlank(xs + ys) == NonBlank(xs) + NonBlank(ys)
  {
    if xs == [] {
      assert xs + ys == ys;
    } else {
      assert (xs + ys)[0] == xs[0];
      assert (xs + ys)[1..] == xs[1..] + ys;
      NonBlankAppend(xs[1..], ys);
    }
  }

  /** A single piece survives exactly when it is not blank. */
  lemma NonBlankSingle(x: string)
    ensures NonBlank([x]) == if IsBlank(x) then [] else [x]
  {
    assert [x][1..] == [];
  }

  lemma {:induction false} NonBlankKeepsAll(pieces: seq<string>)
    requires forall b :: b in pieces ==> !IsBlank(b)
    ensures NonBlank(pieces) == pieces
  {
    if pieces != [] {
      NonBlankKeepsAll(pieces[1..]);
    }
  }

  /** The candidate question blocks of a document as line 77 of the importer
      computes them: the lookahead also matches inside a number of two or more
      digits, so `10. ` yields a block `1` of its own. */
  function QuestionBlocksAsWritten(text: string): (r: seq<string>)
    ensures forall b :: b in r ==> !IsBlank(b)
  {
    NonBlank(Split(QuestionNumber, text))
  }

  /** The candidate question blocks, cut only where a question number begins. */
  function QuestionBlocks(text: string): (r: seq<string>)
    ensures forall b :: b in r ==> !IsBlank(b)
  {
    NonBlank(Split(QuestionStart, text))
  }

  lemma {:induction false} ConcatAppend(xs: seq<string>, ys: seq<string>)
    ensures Concat(xs + ys) == Concat(xs) + Concat(ys)
  {
    if xs != [] {
      assert (xs + ys)[0] == xs[0] && (xs + ys)[1..] == xs[1..] + ys;
      assert Concat(xs + ys) == xs[0] + Concat(xs[1..] + ys);
      ConcatAppend(xs[1..], ys);
      assert Concat(xs) + Concat(ys) == xs[0] + (Concat(xs[1..]) + Concat(ys));
    } else {
      assert xs + ys == ys;
    }
  }

  /** Piece `i` sits in the split string at its start offset. */
  lemma PieceAt(pieces: seq<string>, i: nat)
    requires i < |pieces|
    ensures Concat(pieces) == Concat(pieces[..i]) + pieces[i] + Concat(pieces[i + 1..])
    ensures PieceStart(pieces, i + 1) == PieceStart(pieces, i) + |pieces[i]|
  {
    assert pieces == pieces[..i] + [pieces[i]] + pieces[i + 1..];
    assert pieces[..i + 1] == pieces[..i] + [pieces[i]];
    ConcatAppend(pieces[..i] + [pieces[i]], pieces[i + 1..]);
    ConcatAppend(pieces[..i], [pieces[i]]);
    assert Concat([pieces[i]]) == pieces[i];
  }

  /** With cuts only where a number begins, no block but the last ends in a
      digit: a question number is never torn from its leading digits. */
  lemma CorrectedBlocksKeepNumbersWhole(text: string, i: nat)
    requires i + 1 < |Split(QuestionStart, text)|
    ensures var piece := Split(QuestionStart, text)[i];
            piece != [] && !IsDigit(piece[|piece| - 1])
  {
    var pieces := Split(QuestionStart, text);
    PieceAt(pieces, i);
    SplitCutsAtBoundaries(QuestionStart, text, i + 1, 0);
    var start := PieceStart(pieces, i);
    var next := PieceStart(pieces, i + 1);
    assert |Concat(pieces[..i])| == start;
    assert text[next - 1] == pieces[i][|pieces[i]| - 1];
  }

  // ---------------------------------------------------------------------------
  // The four fragments of a block

  const AnswerMarker: string := "Correct Answer:"
  const ExplanationMarker: string := "Explanation:"
  const FirstOption: string := "A."

  /** Group 1 of `/^\d+\.\s(.*?)(?=A\.)/s`: from just after the leading number
      to the first `A.` after it.  It is found exactly when the block starts with
      a number marker and an `A.` follows it. */
  function QuestionTextMatch(b: string): (r: Option<string>)
    ensures r.Some? ==> NumberMarkerAt(b, 0)
    ensures r.Some? ==>
              var start := DigitRunEnd(b, 0) + 2;
              var end := start + |r.value|;
              && end + |FirstOption| <= |b|
              && r.value == b[start..end]
              && OccursAt(b, FirstOption, end)
              && forall j :: start <= j < end ==> !OccursAt(b, FirstOption, j)
    ensures r.None? ==>
              !NumberMarkerAt(b, 0) || forall j :: DigitRunEnd(b, 0) + 2 <= j ==> !OccursAt(b, FirstOption, j)
  {
    if !NumberMarkerAt(b, 0) then None
    else
      var start := DigitRunEnd(b, 0) + 2;
      match IndexOfFrom(b, FirstOption, start)
      case None => None
      case Some(j) => Some(b[start..j])
  }

  /** The trimmed question text, or `''` when the pattern does not match. */
  function QuestionText(b: string): (r: string)
    ensures IsTrimmed(r)
    ensures r == [] <==> QuestionTextMatch(b).None? || IsBlank(QuestionTextMatch(b).value)
  {
    match QuestionTextMatch(b)
    case None => []
    case Some(g) => Trim(g)
  }

  /** The question text is the captured group (the part of the block between
      the number marker and the first `A.`) with only whitespace cut from either
      side: it sits in the group at `c`, after a whitespace-only prefix and before
      a whitespace-only suffix. */
  lemma QuestionTextInBlock(b: string) returns (c: nat)
    requires QuestionTextMatch(b).Some?
    ensures var g := QuestionTextMatch(b).value;
            var t := QuestionText(b);
            && c + |t| <= |g| && t == g[c..c + |t|]
            && (forall k :: 0 <= k < c ==> IsWhiteSpace(g[k]))
            && (forall k :: c + |t| <= k < |g| ==> IsWhiteSpace(g[k]))
  {
    c := TrimIsSlice(QuestionTextMatch(b).value);
  }

  /** `Correct Answer:\s*([A-Z])` matches at `i`. */
  predicate AnswerMatchAt(b: string, i: nat) {
    OccursAt(b, AnswerMarker, i) &&
    var k := WhiteSpaceRunEnd(b, i + |AnswerMarker|);
    k < |b| && IsUpper(b[k])
  }

  /** The leftmost position at or after `from` where the correct-answer pattern
      matches; an occurrence of the marker without a letter is passed over. */
  function FindAnswer(b: string, from: nat): (r: Option<nat>)
    ensures r.Some? ==> from <= r.value && AnswerMatchAt(b, r.value)
    ensures r.Some? ==> forall j :: from <= j < r.value ==> !AnswerMatchAt(b, j)
    ensures r.None? ==> forall j :: from <= j ==> !AnswerMatchAt(b, j)
    decreases |b| - from
  {
    match IndexOfFrom(b, AnswerMarker, from)
    case None => None
    case Some(i) =>
      if AnswerMatchAt(b, i) then Some(i)
      else
        assert forall j :: from <= j <= i ==> !AnswerMatchAt(b, j);
        FindAnswer(b, i + 1)
  }

  /** Group 1 of `/Correct Answer:\s*([A-Z])/`: the letter of the leftmost match,
      absent exactly when the pattern matches nowhere. */
  function CorrectLetter(b: string): (r: Option<char>)
    ensures r.Some? ==> IsUpper(r.value)
    ensures r.None? <==> forall i: nat :: !AnswerMatchAt(b, i)
    ensures r.Some? ==>
              exists i: nat :: && AnswerMatchAt(b, i)
                               && (forall j: nat :: j < i ==> !AnswerMatchAt(b, j))
                               && r.value == b[WhiteSpaceRunEnd(b, i + |AnswerMarker|)]
  {
    match FindAnswer(b, 0)
    case None => None
    case Some(i) =>
      assert forall j: nat :: j < i ==> !AnswerMatchAt(b, j);
      Some(b[WhiteSpaceRunEnd(b, i + |AnswerMarker|)])
  }

  /** Group 1 of `/Explanation:\s*(.*)/s`, trimmed: everything after the first
      `Explanation:` to the end of the block. */
  function Explanation(b: string): (r: Option<string>)
    ensures r.None? <==> forall i: nat :: !OccursAt(b, ExplanationMarker, i)
    ensures r.Some? ==>
              exists i: nat :: && OccursAt(b, ExplanationMarker, i)
                               && (forall j: nat :: j < i ==> !OccursAt(b, ExplanationMarker, j))
                               && r.value == Trim(b[i + |ExplanationMarker|..])
    ensures r.Some? ==> IsTrimmed(r.value)
  {
    match IndexOfFrom(b, ExplanationMarker, 0)
    case None => None
    case Some(i) =>
      TrimAfterRun(b, i + |ExplanationMarker|);
      assert OccursAt(b, ExplanationMarker, i);
      Some(Trim(b[WhiteSpaceRunEnd(b, i + |ExplanationMarker|)..]))
  }

  /** The whole match of `/A\..*?(?=Correct Answer:)/s`: from the first `A.` to
      the first `Correct Answer:` after it.  No later `A.` could match when the
      first cannot, since it would need a marker even further on. */
  function OptionsSpan(b: string): (r: Option<string>)
    ensures r.Some? ==> |r.value| >= 2 && r.value[..2] == FirstOption
    ensures r.None? <==>
              forall i: nat, j: nat :: OccursAt(b, FirstOption, i) && i + |FirstOption| <= j ==> !OccursAt(b, AnswerMarker, j)
    ensures r.Some? ==>
              exists i: nat, j: nat ::
                && OccursAt(b, FirstOption, i) && (forall p: nat :: p < i ==> !OccursAt(b, FirstOption, p))
                && i + |FirstOption| <= j && OccursAt(b, AnswerMarker, j)
                && (forall p: nat :: i + |FirstOption| <= p < j ==> !OccursAt(b, AnswerMarker, p))
                && r.value == b[i..j]
  {
    match IndexOfFrom(b, FirstOption, 0)
    case None => None
    case Some(i) =>
      match IndexOfFrom(b, AnswerMarker, i + 2)
      case None => None
      case Some(j) => Some(b[i..j])
  }

  /** An option token with its leading `X.` marker and the whitespace after it
      removed, then trimmed (line 100 of the importer). */
  function StripMarker(t: string): (r: string)
    ensures IsTrimmed(r)
    ensures |t| >= 2 && IsUpper(t[0]) && t[1] == '.' ==> r == Trim(t[2..])
    ensures !(|t| >= 2 && IsUpper(t[0]) && t[1] == '.') ==> r == Trim(t)
  {
    if |t| >= 2 && IsUpper(t[0]) && t[1] == '.' then
      TrimAfterRun(t, 2);
      Trim(t[WhiteSpaceRunEnd(t, 2)..])
    else Trim(t)
  }

  /** The option tokens of a span: `optionsBlock.split(/(?=[A-Z]\.)/)` without blanks. */
  function OptionTokens(span: string): seq<string> {
    NonBlank(Split(OptionLetter, span))
  }

  /** The option texts of a span, in order. */
  function Options(span: string): (r: seq<string>)
    ensures AllTrimmed(r)
    ensures |r| == |OptionTokens(span)|
    ensures forall i :: 0 <= i < |r| ==> r[i] == StripMarker(OptionTokens(span)[i])
  {
    var tokens := OptionTokens(span);
    seq(|tokens|, i requires 0 <= i < |tokens| => StripMarker(tokens[i]))
  }

  /** A span as the options pattern yields it (starting with `A.`) splits into
      one token per option marker, each starting with its marker, none dropped
      as blank; so the `options.length > 0` test never fails. */
  lemma OptionTokensOfSpan(span: string)
    requires |span| >= 2 && span[..2] == FirstOption
    ensures OptionTokens(span) == Split(OptionLetter, span) && Concat(OptionTokens(span)) == span
    ensures |Options(span)| >= 1
    ensures forall t :: t in OptionTokens(span) ==> |t| >= 2 && IsUpper(t[0]) && t[1] == '.'
  {
    assert span[0] == 'A' && span[1] == '.';
    MarkedPieces(span, 0);
    var pieces := Split(OptionLetter, span);
    forall t | t in pieces ensures !IsBlank(t) {
      assert !IsWhiteSpace(t[0]);
    }
    NonBlankKeepsAll(pieces);
  }

  /** `letter.charCodeAt(0) - 65` */
  function LetterIndex(c: char): int {
    c as int - 'A' as int
  }

  // ---------------------------------------------------------------------------
  // One block

  /** The body of the driver loop for one block (lines 82-108 of the importer). */
  function ParseBlock(b: string): (r: BlockOutcome)
    ensures r.Parsed? ==> WellFormed(r.question)
    ensures r == Skipped(MissingParts) <==>
              QuestionText(b) == [] || CorrectLetter(b).None? || OptionsSpan(b).None?
    ensures r.Parsed? ==>
              && r.question.questionText == QuestionText(b)
              && r.question.options == Options(OptionsSpan(b).value)
              && r.question.correctOptionIndex == CorrectLetter(b).value as int - 'A' as int
              && r.question.explanation == Explanation(b)
  {
    var questionText := QuestionText(b);
    var correctLetter := CorrectLetter(b);
    var optionsBlock := OptionsSpan(b);
    if questionText == [] || correctLetter.None? || optionsBlock.None? then
      Skipped(MissingParts)
    else
      var options := Options(optionsBlock.value);
      var correctOptionIndex := LetterIndex(correctLetter.value);
      if |options| > 0 && correctOptionIndex >= 0 && correctOptionIndex < |options| then
        Parsed(ParsedQuestion(questionText, options, correctOptionIndex, Explanation(b)))
      else
        Skipped(InvalidCorrectIndex)
  }

  /** A block with all three parts is dropped exactly when its letter names no option. */
  lemma InvalidIndexIsOutOfRange(b: string)
    requires QuestionText(b) != [] && CorrectLetter(b).Some? && OptionsSpan(b).Some?
    ensures ParseBlock(b) == Skipped(InvalidCorrectIndex) <==>
              LetterIndex(CorrectLetter(b).value) >= |Options(OptionsSpan(b).value)|
  {
    var span := OptionsSpan(b).value;
    OptionTokensOfSpan(span);
    assert |Options(span)| > 0 && LetterIndex(CorrectLetter(b).value) >= 0;
  }

  /** The chosen option is the one at the letter's position: the token of the
      options span at index letter - 'A', with its marker stripped. */
  lemma CorrectOptionIsLettersToken(b: string)
    requires ParseBlock(b).Parsed?
    ensures var q := ParseBlock(b).question;
      var tokens := OptionTokens(OptionsSpan(b).value);
      && q.correctOptionIndex == LetterIndex(CorrectLetter(b).value)
      && q.correctOptionIndex < |tokens|
      && q.options[q.correctOptionIndex] == StripMarker(tokens[q.correctOptionIndex])
  {
  }

  // ---------------------------------------------------------------------------
  // The whole document

  /** The records one block contributes: its parsed question, or none. */
  function Emit(outcome: BlockOutcome): (r: seq<ParsedQuestion>)
    ensures |r| <= 1
    ensures |r| == 1 <==> outcome.Parsed?
    ensures outcome.Parsed? ==> r == [outcome.question]
  {
    match outcome
    case Parsed(q) => [q]
    case Skipped(_) => []
  }

  /** The records emitted for `blocks`, block by block in order. */
  function ParseAll(blocks: seq<string>): (r: seq<ParsedQuestion>)
    ensures |r| <= |blocks|
    ensures forall q :: q in r ==> WellFormed(q)
  {
    if blocks == [] then []
    else ParseAll(blocks[..|blocks| - 1]) + Emit(ParseBlock(blocks[|blocks| - 1]))
  }

  lemma ParseAllStep(blocks: seq<string>, i: nat)
    requires i < |blocks|
    ensures ParseAll(blocks[..i + 1]) == ParseAll(blocks[..i]) + Emit(ParseBlock(blocks[i]))
  {
    assert blocks[..i + 1][..i] == blocks[..i];
  }

  /** Blocks are independent: the records of a concatenation of blocks are the
      records of each part, in order. */
  lemma {:induction false} ParseAllAppend(xs: seq<string>, ys: seq<string>)
    ensures ParseAll(xs + ys) == ParseAll(xs) + ParseAll(ys)
    decreases |ys|
  {
    if ys == [] {
      assert xs + ys == xs;
    } else {
      var init := ys[..|ys| - 1];
      var last := ys[|ys| - 1];
      assert (xs + ys)[..|xs + ys| - 1] == xs + init;
      assert (xs + ys)[|xs + ys| - 1] == last;
      var a, b, e := ParseAll(xs), ParseAll(init), Emit(ParseBlock(last));
      assert ParseAll(xs + ys) == ParseAll(xs + init) + e;
      assert ParseAll(ys) == b + e;
      ParseAllAppend(xs, init);
      assert (a + b) + e == a + (b + e);
    }
  }

  /** A block emits a record exactly when `ParseBlock` accepts it. */
  lemma ParseAllSingle(b: string)
    ensures ParseAll([b]) == Emit(ParseBlock(b))
  {
    assert [b][..0] == [];
  }

  /** The records of `blocks` and how many candidate blocks there were. */
  function Tally(blocks: seq<string>): (r: ParseResult)
    ensures r.totalQuestions == |blocks|
    ensures |r.parsedQuestions| <= r.totalQuestions
    ensures forall q :: q in r.parsedQuestions ==> WellFormed(q)
  {
    ParseResult(ParseAll(blocks), |blocks|)
  }

  /** The parser with the corrected block cut: blocks start only where a whole
      question number begins. */
  function ParseText(text: string): (r: ParseResult)
    ensures r.totalQuestions == |QuestionBlocks(text)|
    ensures |r.parsedQuestions| <= r.totalQuestions
    ensures forall q :: q in r.parsedQuestions ==> WellFormed(q)
  {
    Tally(QuestionBlocks(text))
  }

  /** `parseQuestionsFromText` as a function of the document, with the block cut
      of line 77 as written (which also cuts inside numbers). */
  function ParseTextAsWritten(text: string): (r: ParseResult)
    ensures r.totalQuestions == |QuestionBlocksAsWritten(text)|
    ensures |r.parsedQuestions| <= r.totalQuestions
    ensures forall q :: q in r.parsedQuestions ==> WellFormed(q)
  {
    Tally(QuestionBlocksAsWritten(text))
  }

  /** `parseQuestionsFromText` (lines 76-114): split into blocks, then run the
      block parser over them in order, pushing each record that survives. */
  method ParseQuestionsFromText(text: string) returns (parsedQuestions: seq<ParsedQuestion>, totalQuestions: nat)
    ensures ParseResult(parsedQuestions, totalQuestions) == ParseTextAsWritten(text)
    ensures totalQuestions == |QuestionBlocksAsWritten(text)|
  {
    var questionBlocks := QuestionBlocksAsWritten(text);
    parsedQuestions := [];
    for i := 0 to |questionBlocks|
      invariant parsedQuestions == ParseAll(questionBlocks[..i])
    {
      ParseAllStep(questionBlocks, i);
      var outcome := ParseBlock(questionBlocks[i]);
      if outcome.Parsed? {
        parsedQuestions := parsedQuestions + [outcome.question];
      }
    }
    assert questionBlocks[..|questionBlocks|] == questionBlocks;
    totalQuestions := |questionBlocks|;
  }

  // ---------------------------------------------------------------------------
  // The import report (lines 43-45 and 59 of the importer)

  datatype ImportError = NoValidQuestions

  datatype ImportReport = ImportReport(imported: nat, skipped: nat)

  datatype Outcome = Imported(report: ImportReport) | Failed(error: ImportError)

  /** No records is an error; otherwise the number imported and the number of
      candidate blocks that were skipped. */
  function Report(result: ParseResult): (r: Outcome)
    requires |result.parsedQuestions| <= result.totalQuestions
    ensures r.Failed? <==> result.parsedQuestions == []
    ensures r.Imported? ==> r.report.imported + r.report.skipped == result.totalQuestions
    ensures r.Imported? ==> r.report.imported == |result.parsedQuestions| > 0
  {
    if |result.parsedQuestions| == 0 then Failed(NoValidQuestions)
    else Imported(ImportReport(|result.parsedQuestions|, result.totalQuestions - |result.parsedQuestions|))
  }

  /** The pieces of a blank string are all blank. */
  lemma {:induction false} BlankPieces(pieces: seq<string>)
    requires IsBlank(Concat(pieces))
    ensures forall t :: t in pieces ==> IsBlank(t)
  {
    if pieces != [] {
      var head, tail := pieces[0], Concat(pieces[1..]);
      assert Concat(pieces) == head + tail;
      forall k | 0 <= k < |tail| ensures IsWhiteSpace(tail[k]) {
        assert tail[k] == Concat(pieces)[|head| + k];
      }
      forall k | 0 <= k < |head| ensures IsWhiteSpace(head[k]) {
        assert head[k] == Concat(pieces)[k];
      }
      BlankPieces(pieces[1..]);
      forall t | t in pieces ensures IsBlank(t) {
        if t != head {
          assert t in pieces[1..];
        }
      }
    }
  }

  /** A blank document has no candidate block under either cut, so the import
      fails. */
  lemma NoBlocksFails(text: string)
    requires IsBlank(text)
    ensures QuestionBlocksAsWritten(text) == [] && QuestionBlocks(text) == []
    ensures Report(ParseTextAsWritten(text)).Failed? && Report(ParseText(text)).Failed?
  {
    BlankPieces(Split(QuestionNumber, text));
    BlankPieces(Split(QuestionStart, text));
  }
}
