/**
 * The question editor's two conversions: a stored question (options carrying
 * `isCorrect` flags) becomes flat form fields `option_a` .. `option_d` plus a
 * correct-answer letter, and the submitted form becomes the payload the API
 * expects (option texts plus the index of the correct one).
 */
module QuestionForm {
  import opened Wrappers
  import opened QuizTypes

  datatype StoredOption = StoredOption(optionText: string, isCorrect: bool)

  /** A question as stored; `options` and `correctAnswer` are optional fields. */
  datatype StoredQuestion = StoredQuestion(
    questionText: string,
    questionType: QuestionType,
    options: Option<seq<StoredOption>>,
    correctAnswer: Option<string>)

  /** The form's values.  The option fields are absent (`None`) when the form
      was filled from an input question, which spreads no option fields. */
  datatype FormValues = FormValues(
    questionText: string,
    questionType: QuestionType,
    optionA: Option<string>,
    optionB: Option<string>,
    optionC: Option<string>,
    optionD: Option<string>,
    correctAnswer: string)
  {
    /** `option_a` .. `option_d` by position. */
    function OptionField(k: nat): Option<string>
      requires k < 4
    {
      [optionA, optionB, optionC, optionD][k]
    }
  }

  /** The payload posted for a question; absent fields are `None`. */
  datatype Payload = Payload(
    questionText: string,
    questionType: QuestionType,
    options: Option<seq<string>>,
    correctOptionIndex: Option<int>,
    correctAnswer: Option<string>)

  /** The letters naming the four option fields. */
  const Letters: seq<string> := ["a", "b", "c", "d"]

  /** `xs.indexOf(x)`: the first position holding `x`, or -1. */
  function IndexOf(xs: seq<string>, x: string): (i: int)
    ensures -1 <= i < |xs|
    ensures 0 <= i ==> xs[i] == x && forall j :: 0 <= j < i ==> xs[j] != x
    ensures i == -1 <==> x !in xs
  {
    if xs == [] then -1
    else if xs[0] == x then 0
    else
      var k := IndexOf(xs[1..], x);
      assert forall j :: 1 <= j < |xs| ==> xs[j] == xs[1..][j - 1];
      if k == -1 then -1 else k + 1
  }

  /** `['a', 'b', 'c', 'd'][i] || ''`: the letter at `i`, or empty outside 0..3. */
  function LetterAt(i: int): (letter: string)
    ensures letter == "" <==> !(0 <= i < 4)
    ensures letter != "" ==> letter in Letters
  {
    if 0 <= i < 4 then Letters[i] else ""
  }

  /** The index of the first option flagged correct, or -1 (`findIndex`). */
  function FirstCorrectIndex(opts: seq<StoredOption>): (i: int)
    ensures -1 <= i < |opts|
    ensures 0 <= i ==> opts[i].isCorrect && forall j :: 0 <= j < i ==> !opts[j].isCorrect
    ensures i == -1 <==> forall j :: 0 <= j < |opts| ==> !opts[j].isCorrect
  {
    if opts == [] then -1
    else if opts[0].isCorrect then 0
    else
      var k := FirstCorrectIndex(opts[1..]);
      assert forall j :: 1 <= j < |opts| ==> opts[j] == opts[1..][j - 1];
      if k == -1 then -1 else k + 1
  }

  /** `question.options?.[k]?.optionText || ''` */
  function OptionTextAt(options: Option<seq<StoredOption>>, k: nat): string {
    if options.Some? && k < |options.value| then options.value[k].optionText else ""
  }

  /** The first `n` form option texts taken from the stored options. */
  function StoredTexts(options: Option<seq<StoredOption>>, n: nat): seq<string> {
    seq(n, (k: nat) => OptionTextAt(options, k))
  }

  /** The texts of a list of stored options, in order. */
  function Texts(opts: seq<StoredOption>): seq<string> {
    seq(|opts|, k requires 0 <= k < |opts| => opts[k].optionText)
  }

  /** `question.options?.findIndex(opt => opt.isCorrect) ?? -1` */
  function CorrectIndexOf(options: Option<seq<StoredOption>>): int {
    if options.Some? then FirstCorrectIndex(options.value) else -1
  }

  /** `transformDataForForm`: the form's starting values for a stored question,
      or the blank four-choice defaults when there is none. */
  function TransformDataForForm(question: Option<StoredQuestion>): (form: FormValues)
    ensures question.None? ==>
              form.questionType == FourChoices && form.questionText == "" && form.correctAnswer == ""
              && forall k :: 0 <= k < 4 ==> form.OptionField(k) == Some("")
    ensures question.Some? ==>
              form.questionText == question.value.questionText && form.questionType == question.value.questionType
    ensures question.Some? && question.value.questionType.IsChoice() ==>
              (forall k :: 0 <= k < 4 ==> form.OptionField(k) == Some(OptionTextAt(question.value.options, k)))
              && (form.correctAnswer == "" <==> !(0 <= CorrectIndexOf(question.value.options) < 4))
              && (form.correctAnswer != "" ==> IndexOf(Letters, form.correctAnswer) == CorrectIndexOf(question.value.options))
    ensures question.Some? && question.value.questionType == Input ==>
              (forall k :: 0 <= k < 4 ==> form.OptionField(k).None?)
              && form.correctAnswer == question.value.correctAnswer.GetOr("")
  {
    match question
    case None => FormValues("", FourChoices, Some(""), Some(""), Some(""), Some(""), "")
    case Some(q) =>
      if q.questionType.IsChoice() then
        var letter := LetterAt(CorrectIndexOf(q.options));
        LetterIndexRoundTrip(CorrectIndexOf(q.options));
        var form := FormValues(q.questionText, q.questionType,
                               Some(OptionTextAt(q.options, 0)), Some(OptionTextAt(q.options, 1)),
                               Some(OptionTextAt(q.options, 2)), Some(OptionTextAt(q.options, 3)),
                               letter);
        assert forall k :: 0 <= k < 4 ==> form.OptionField(k) == Some(OptionTextAt(q.options, k));
        form
      else
        FormValues(q.questionText, q.questionType, None, None, None, None, q.correctAnswer.GetOr(""))
  }

  /** The option fields a form of this type renders (and requires). */
  function RenderedFields(t: QuestionType): nat {
    match t
    case TwoChoices => 2
    case FourChoices => 4
    case Input => 0
  }

  /** The form's required-field rules hold for every rendered option field. */
  predicate RenderedFieldsPresent(data: FormValues) {
    forall k :: 0 <= k < RenderedFields(data.questionType) ==> data.OptionField(k).Some?
  }

  /** The form's `required` rules on the question text, on every rendered option
      field and on the correct answer: react-hook-form refuses to submit while any
      of them is the empty string, so `handleFormSubmit` only ever sees values
      that pass them. */
  predicate PassesRequiredRules(data: FormValues)
    ensures PassesRequiredRules(data) ==> RenderedFieldsPresent(data)
  {
    && data.questionText != ""
    && data.correctAnswer != ""
    && forall k :: 0 <= k < RenderedFields(data.questionType) ==>
         data.OptionField(k).Some? && data.OptionField(k).value != ""
  }

  /** `handleFormSubmit`: build the API payload.  It runs only after the form's
      validation, which requires every rendered option field. */
  function HandleFormSubmit(data: FormValues): (p: Payload)
    requires RenderedFieldsPresent(data)
    ensures p.questionText == data.questionText && p.questionType == data.questionType
    ensures data.questionType.IsChoice() ==>
              p.options.Some? && |p.options.value| == RenderedFields(data.questionType)
              && (forall k :: 0 <= k < |p.options.value| ==> Some(p.options.value[k]) == data.OptionField(k))
              && p.correctOptionIndex.Some? && p.correctAnswer.None?
              && -1 <= p.correctOptionIndex.value < 4
              && (p.correctOptionIndex.value == -1 <==> data.correctAnswer !in Letters)
              && (0 <= p.correctOptionIndex.value ==> Letters[p.correctOptionIndex.value] == data.correctAnswer)
    ensures data.questionType == Input ==>
              p.options.None? && p.correctOptionIndex.None? && p.correctAnswer == Some(data.correctAnswer)
  {
    assert 0 < RenderedFields(data.questionType) ==> data.OptionField(0).Some? && data.OptionField(1).Some?;
    match data.questionType
    case TwoChoices =>
      Payload(data.questionText, data.questionType,
              Some([data.optionA.value, data.optionB.value]), Some(IndexOf(Letters, data.correctAnswer)), None)
    case FourChoices =>
      assert data.OptionField(2).Some? && data.OptionField(3).Some?;
      Payload(data.questionText, data.questionType,
              Some([data.optionA.value, data.optionB.value, data.optionC.value, data.optionD.value]),
              Some(IndexOf(Letters, data.correctAnswer)), None)
    case Input =>
      Payload(data.questionText, data.questionType, None, None, Some(data.correctAnswer))
  }

  // ---------------------------------------------------------------------------
  // Letters and indices

  /** The letter of an index in 0..3 indexes back to it, and any letter found in
      `Letters` is the letter of its own index. */
  lemma LetterIndexRoundTrip(i: int)
    ensures 0 <= i < 4 ==> IndexOf(Letters, LetterAt(i)) == i
    ensures LetterAt(i) == "" ==> IndexOf(Letters, LetterAt(i)) == -1
  {
    if 0 <= i < 4 {
      assert Letters[i] != Letters[(i + 1) % 4] && Letters[i] != Letters[(i + 2) % 4] && Letters[i] != Letters[(i + 3) % 4];
    }
  }

  lemma IndexLetterRoundTrip(s: string)
    ensures IndexOf(Letters, s) != -1 ==> LetterAt(IndexOf(Letters, s)) == s
  {
  }

  // ---------------------------------------------------------------------------
  // Stored question -> form -> payload

  /** A form filled from a stored question is always submittable. */
  lemma TransformedFormIsComplete(question: Option<StoredQuestion>)
    ensures RenderedFieldsPresent(TransformDataForForm(question))
  {
    var form := TransformDataForForm(question);
    if form.questionType.IsChoice() {
      assert forall k :: 0 <= k < 4 ==> form.OptionField(k).Some?;
    }
  }

  /** The form filled from a choice question passes the required rules exactly
      when the question has text, an option flagged correct among the first four,
      and non-empty texts in every rendered option field. */
  lemma ChoiceFormPassesRules(q: StoredQuestion)
    requires q.questionType.IsChoice()
    ensures PassesRequiredRules(TransformDataForForm(Some(q))) <==>
              && q.questionText != ""
              && 0 <= CorrectIndexOf(q.options) < 4
              && forall k :: 0 <= k < RenderedFields(q.questionType) ==> OptionTextAt(q.options, k) != ""
  {
    var form := TransformDataForForm(Some(q));
    assert forall k :: 0 <= k < RenderedFields(q.questionType) ==>
             form.OptionField(k) == Some(OptionTextAt(q.options, k));
  }

  /** Applied to the form filled from a choice question, `handleFormSubmit`
      keeps the text and the type, builds the first `RenderedFields` option
      texts (empty where the stored list is short), and the first `isCorrect`
      index when it names one of the four fields, -1 otherwise (a form the
      required rules hold back, by `ChoiceFormPassesRules`). */
  lemma ChoiceRoundTrip(q: StoredQuestion)
    requires q.questionType.IsChoice()
    ensures RenderedFieldsPresent(TransformDataForForm(Some(q)))
    ensures var p := HandleFormSubmit(TransformDataForForm(Some(q)));
            p.questionText == q.questionText && p.questionType == q.questionType
            && p.options == Some(StoredTexts(q.options, RenderedFields(q.questionType)))
            && p.correctOptionIndex == Some(if 0 <= CorrectIndexOf(q.options) < 4 then CorrectIndexOf(q.options) else -1)
  {
    TransformedFormIsComplete(Some(q));
    var form := TransformDataForForm(Some(q));
    var i := CorrectIndexOf(q.options);
    LetterIndexRoundTrip(i);
    SubmittedOptionTexts(q);
    if !(0 <= i < 4) {
      assert form.correctAnswer == "";
      assert "" !in Letters;
    }
  }

  /** The options sent for an unedited choice question are its first
      `RenderedFields` stored texts. */
  lemma SubmittedOptionTexts(q: StoredQuestion)
    requires q.questionType.IsChoice()
    ensures RenderedFieldsPresent(TransformDataForForm(Some(q)))
    ensures HandleFormSubmit(TransformDataForForm(Some(q))).options
            == Some(StoredTexts(q.options, RenderedFields(q.questionType)))
  {
    TransformedFormIsComplete(Some(q));
    var form := TransformDataForForm(Some(q));
    var p := HandleFormSubmit(form);
    forall k | 0 <= k < RenderedFields(q.questionType)
      ensures p.options.value[k] == OptionTextAt(q.options, k)
    {
      assert Some(p.options.value[k]) == form.OptionField(k);
    }
    assert p.options.value == StoredTexts(q.options, RenderedFields(q.questionType));
  }

  /** In particular a four-choice question stored with exactly four options comes
      back with the same option texts and the same correct index. */
  lemma FourChoiceRoundTrip(q: StoredQuestion, opts: seq<StoredOption>)
    requires q.questionType == FourChoices && q.options == Some(opts) && |opts| == 4
    ensures var p := HandleFormSubmit(TransformDataForForm(Some(q)));
            p.options == Some(Texts(opts))
            && p.correctOptionIndex == Some(FirstCorrectIndex(opts))
  {
    ChoiceRoundTrip(q);
    assert StoredTexts(q.options, 4) == Texts(opts);
  }

  /** The same for a two-choice question stored with exactly two options. */
  lemma TwoChoiceRoundTrip(q: StoredQuestion, opts: seq<StoredOption>)
    requires q.questionType == TwoChoices && q.options == Some(opts) && |opts| == 2
    ensures var p := HandleFormSubmit(TransformDataForForm(Some(q)));
            p.options == Some(Texts(opts))
            && p.correctOptionIndex == Some(FirstCorrectIndex(opts))
  {
    ChoiceRoundTrip(q);
    assert StoredTexts(q.options, 2) == Texts(opts);
  }

  /** A choice question with no option flagged correct loads with no correct
      answer, so the rules hold the form back until one is picked; the payload
      built from the form as loaded would carry index -1. */
  lemma NoCorrectOptionSendsMinusOne(q: StoredQuestion)
    requires q.questionType.IsChoice()
    requires q.options.None? || forall j :: 0 <= j < |q.options.value| ==> !q.options.value[j].isCorrect
    ensures !PassesRequiredRules(TransformDataForForm(Some(q)))
    ensures HandleFormSubmit(TransformDataForForm(Some(q))).correctOptionIndex == Some(-1)
  {
    ChoiceFormPassesRules(q);
    ChoiceRoundTrip(q);
  }

  /** The form filled from an input question passes the required rules exactly
      when the question has text and a non-empty stored answer; applied to that
      form, `handleFormSubmit` gives the stored answer and no options or index. */
  lemma InputRoundTrip(q: StoredQuestion)
    requires q.questionType == Input
    ensures PassesRequiredRules(TransformDataForForm(Some(q))) <==>
              q.questionText != "" && q.correctAnswer.GetOr("") != ""
    ensures RenderedFieldsPresent(TransformDataForForm(Some(q)))
    ensures HandleFormSubmit(TransformDataForForm(Some(q)))
            == Payload(q.questionText, Input, None, None, Some(q.correctAnswer.GetOr("")))
  {
  }

  /** The untouched blank form fails the required rules; the payload built from
      it would hold four empty options and index -1. */
  lemma BlankFormSubmit()
    ensures !PassesRequiredRules(TransformDataForForm(None))
    ensures RenderedFieldsPresent(TransformDataForForm(None))
    ensures HandleFormSubmit(TransformDataForForm(None))
            == Payload("", FourChoices, Some(["", "", "", ""]), Some(-1), None)
  {
    var form := TransformDataForForm(None);
    assert forall k :: 0 <= k < 4 ==> form.OptionField(k) == Some("");
    assert "" !in Letters;
  }

  /** A two-choice question stored with its third option flagged correct gets
      the letter "c" in the form, passes the required rules, and is sent with
      index 2 beside only two options. */
  lemma TwoChoiceIndexBeyondOptions()
    ensures var q := StoredQuestion("Q", TwoChoices,
                       Some([StoredOption("x", false), StoredOption("y", false), StoredOption("z", true)]), None);
            var p := HandleFormSubmit(TransformDataForForm(Some(q)));
            TransformDataForForm(Some(q)).correctAnswer == "c"
            && PassesRequiredRules(TransformDataForForm(Some(q)))
            && p.options.Some? && |p.options.value| == 2 && p.correctOptionIndex == Some(2)
  {
    var opts := [StoredOption("x", false), StoredOption("y", false), StoredOption("z", true)];
    var q := StoredQuestion("Q", TwoChoices, Some(opts), None);
    assert FirstCorrectIndex(opts) == 2 by {
      assert FirstCorrectIndex(opts[1..][1..]) == 0;
    }
    ChoiceRoundTrip(q);
  }

  /** A choice form that passes the required rules, with the correct answer set
      by one of the radio buttons (a letter `a` to `d`, or `''` after a change of
      type), is sent with that letter's index: never -1. */
  lemma SubmittedChoiceHasIndex(data: FormValues)
    requires PassesRequiredRules(data) && data.questionType.IsChoice()
    requires data.correctAnswer in Letters || data.correctAnswer == ""
    ensures var p := HandleFormSubmit(data);
            0 <= p.correctOptionIndex.value < 4 && Letters[p.correctOptionIndex.value] == data.correctAnswer
  {
  }
}
