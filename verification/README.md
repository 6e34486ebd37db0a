# Quiz app core, modelled in Dafny

This project models the logic core of a quiz web application (Next.js, React, TypeScript) and proves properties about it. The core has four parts:

- **Bulk question import** (`components/quiz/WordQuestionImporter.tsx`). The plain text of a Word document is cut into question blocks. Each block is parsed into a question record with its text, options, correct option index and optional explanation, or it is skipped. The count of skipped blocks is reported to the user. The JavaScript regular expressions are written out as string functions with JavaScript's matching rules (`JsStrings.dfy`, `WordQuestionImporter.dfy`). `ParseQuestionsFromText` cuts the document as line 77 does; `ParseText` is the same parser with the corrected cut described under Findings.
- **Quiz taking** (`components/quiz/QuizPreview.tsx`). A session steps through the questions and records one answer per question. At the end it shows a score, a rounded percentage and a result tier. The session is a class whose methods update the current index, the answers and the results flag (`QuizPreview.dfy`).
- **Question editor mapping** (`components/quiz/QuestionForm.tsx`). A stored question (options with `isCorrect` flags) becomes the form fields `option_a` to `option_d` plus a correct-answer letter. A submitted form becomes the API payload (option texts plus the index of the correct one) (`QuestionForm.dfy`).
- **Route guard** (`lib/auth.tsx`). The guard decides which paths are public and when to redirect to `/login` (`Auth.dfy`).

`QuizTypes.dfy` holds the question type shared by the quiz screens. `Wrappers.dfy` holds `Option`. `ImporterFindings.dfy` works through the finding below on a concrete document.

## Model

| member | source | states |
|---|---|---|
| JsStrings.WhiteSpaceRunEnd | components/quiz/WordQuestionImporter.tsx:85 | what a greedy `\s*` consumes: a run of whitespace that cannot be extended |
| JsStrings.WhiteSpaceRunStart | components/quiz/WordQuestionImporter.tsx:83 | scanning back from a position over whitespace stops just after the last non-whitespace character: the run cannot be extended |
| JsStrings.Trim | components/quiz/WordQuestionImporter.tsx:83 | `trim()` gives a string with no whitespace at either end, empty exactly when the input is all whitespace |
| JsStrings.TrimIsSlice | components/quiz/WordQuestionImporter.tsx:100 | `trim()` removes exactly a whitespace prefix and a whitespace suffix and keeps the slice between them |
| JsStrings.TrimOfTrimmed | components/quiz/WordQuestionImporter.tsx:100 | trimming an already trimmed string changes nothing |
| JsStrings.TrimAfterRun | components/quiz/WordQuestionImporter.tsx:88-89 | trimming what follows a greedy `\s*` is trimming from where the run starts, so `\s*(.*)` followed by `trim()` yields the trimmed rest |
| JsStrings.IndexOfFrom | components/quiz/WordQuestionImporter.tsx:91 | the first occurrence of a pattern at or after a position, or none when there is no occurrence |
| WordQuestionImporter.DigitRunEnd | components/quiz/WordQuestionImporter.tsx:82 | what a greedy `\d+` consumes: a run of digits that cannot be extended |
| WordQuestionImporter.NumberMarkerAtIsRegex | components/quiz/WordQuestionImporter.tsx:77 | the maximal-digit-run test matches exactly where `\d+\.\s` matches literally (some digits, a period, one whitespace) |
| WordQuestionImporter.SplitFrom | components/quiz/WordQuestionImporter.tsx:77 | the pieces are non-empty and join back to the split suffix |
| WordQuestionImporter.Split | components/quiz/WordQuestionImporter.tsx:99 | `split` with a lookahead returns at least one piece, the pieces join back to the input, and none is empty unless the input is |
| WordQuestionImporter.SplitCutsAtBoundaries | components/quiz/WordQuestionImporter.tsx:77 | every piece after the first starts where the lookahead matches, and it matches nowhere inside a piece |
| WordQuestionImporter.MarkedPieces | components/quiz/WordQuestionImporter.tsx:99 | splitting at option markers from a marker gives pieces that each start with an uppercase letter and a period |
| WordQuestionImporter.NonBlank | components/quiz/WordQuestionImporter.tsx:77 | the filter keeps only pieces of the input that are not blank, keeps every piece that is not blank, and never grows the list |
| WordQuestionImporter.NonBlankAppend | components/quiz/WordQuestionImporter.tsx:77 | the filter works piece by piece: filtering two lists joined is joining the two filtered lists, so order and repeats are kept |
| WordQuestionImporter.NonBlankSingle | components/quiz/WordQuestionImporter.tsx:77 | a single piece is kept exactly when it is not blank |
| WordQuestionImporter.NonBlankKeepsAll | components/quiz/WordQuestionImporter.tsx:99 | filtering a list with no blank piece returns it unchanged |
| WordQuestionImporter.QuestionBlocksAsWritten | components/quiz/WordQuestionImporter.tsx:77 | the candidate blocks as the source cuts them; none is blank |
| WordQuestionImporter.QuestionBlocks | components/quiz/WordQuestionImporter.tsx:77 | the candidate blocks cut only where a question number begins; none is blank |
| WordQuestionImporter.CorrectedBlocksKeepNumbersWhole | components/quiz/WordQuestionImporter.tsx:77 | with the corrected cut, no block but the last ends in a digit, so no number is torn apart |
| WordQuestionImporter.QuestionTextMatch | components/quiz/WordQuestionImporter.tsx:82 | group 1 of `/^\d+\.\s(.*?)(?=A\.)/s` is found exactly when the block starts with a number marker and an `A.` follows it; it is then the slice of the block from just after the marker up to the first such `A.` |
| WordQuestionImporter.QuestionText | components/quiz/WordQuestionImporter.tsx:82-83 | the question text is trimmed, and empty exactly when the pattern does not match or its capture is all whitespace |
| WordQuestionImporter.QuestionTextInBlock | components/quiz/WordQuestionImporter.tsx:82-83 | the question text is the capture with only whitespace removed: a slice of it after a whitespace-only prefix and before a whitespace-only suffix |
| WordQuestionImporter.FindAnswer | components/quiz/WordQuestionImporter.tsx:85 | the leftmost position where `Correct Answer:\s*[A-Z]` matches; an occurrence of the marker with no letter after it is passed over |
| WordQuestionImporter.CorrectLetter | components/quiz/WordQuestionImporter.tsx:85-86 | the letter is absent exactly when `Correct Answer:\s*[A-Z]` matches nowhere; otherwise it is the uppercase letter after the marker and its whitespace at the leftmost match |
| WordQuestionImporter.Explanation | components/quiz/WordQuestionImporter.tsx:88-89 | the explanation is absent exactly when the block has no `Explanation:`; otherwise it is the trimmed rest of the block after the first `Explanation:` |
| WordQuestionImporter.OptionsSpan | components/quiz/WordQuestionImporter.tsx:91-92 | the span is absent exactly when no `Correct Answer:` follows an `A.`; otherwise it is the slice from the first `A.` up to the first `Correct Answer:` after it, so it starts with `A.` |
| WordQuestionImporter.StripMarker | components/quiz/WordQuestionImporter.tsx:100 | a token that starts with an uppercase letter and a period gives the trimmed rest after those two characters; any other token is trimmed whole |
| WordQuestionImporter.Options | components/quiz/WordQuestionImporter.tsx:99-100 | one option per token, in token order, each the token with its marker stripped and trimmed |
| WordQuestionImporter.OptionTokensOfSpan | components/quiz/WordQuestionImporter.tsx:99-104 | a span starting with `A.` splits into tokens that join back to the span and each start with their marker; the blank filter drops none, so at least one option always results |
| WordQuestionImporter.ParseBlock | components/quiz/WordQuestionImporter.tsx:82-108 | a block is skipped for missing parts exactly when it lacks question text, a letter or an options span; every record emitted is well formed (non-empty trimmed text, trimmed options, index in range, trimmed explanation) and carries the block's fragments |
| WordQuestionImporter.InvalidIndexIsOutOfRange | components/quiz/WordQuestionImporter.tsx:102-108 | a block with all three parts is dropped exactly when its letter's index is past the last option |
| WordQuestionImporter.CorrectOptionIsLettersToken | components/quiz/WordQuestionImporter.tsx:99-105 | the correct index is the letter's code minus `A`, and the chosen option is the token at that position with its marker stripped |
| WordQuestionImporter.Emit | components/quiz/WordQuestionImporter.tsx:104-105 | a block contributes exactly its parsed record when it parses, and nothing otherwise |
| WordQuestionImporter.ParseAll | components/quiz/WordQuestionImporter.tsx:80-112 | the loop emits at most one record per block, all of them well formed |
| WordQuestionImporter.ParseAllAppend | components/quiz/WordQuestionImporter.tsx:80-112 | blocks are parsed independently: the records of two runs of blocks are the records of each, in order |
| WordQuestionImporter.ParseAllSingle | components/quiz/WordQuestionImporter.tsx:80-112 | a lone block emits exactly its own outcome |
| WordQuestionImporter.Tally | components/quiz/WordQuestionImporter.tsx:113 | the total is the number of candidate blocks and bounds the number of records |
| WordQuestionImporter.ParseText | components/quiz/WordQuestionImporter.tsx:76-114 | with the corrected cut, the records are well formed, the total is the number of candidate blocks, and there are no more records than blocks |
| WordQuestionImporter.ParseTextAsWritten | components/quiz/WordQuestionImporter.tsx:76-114 | with the block cut of line 77 as written, the records are well formed, the total counts those blocks, and there are no more records than blocks |
| WordQuestionImporter.ParseQuestionsFromText | components/quiz/WordQuestionImporter.tsx:76-114 | the loop over the blocks as line 77 cuts them, pushing each surviving record, returns exactly `ParseTextAsWritten`: the records in block order and the number of blocks |
| WordQuestionImporter.Report | components/quiz/WordQuestionImporter.tsx:43-62 | no records is the "no valid questions" failure; otherwise imported plus skipped equals the number of blocks, with at least one imported |
| WordQuestionImporter.NoBlocksFails | components/quiz/WordQuestionImporter.tsx:43-45 | a blank document yields no candidate block under either cut, so both the import as written and the corrected one fail |
| ImporterFindings.NumberedParses | components/quiz/WordQuestionImporter.tsx:82-105 | the question `<n>. Q A. x Correct Answer: A` parses to text `Q`, options `[x]`, index 0 and no explanation, whatever its number |
| ImporterFindings.DigitsAloneSkipped | components/quiz/WordQuestionImporter.tsx:94-97 | a block made only of digits is always skipped for missing parts |
| ImporterFindings.BlocksOfTen | components/quiz/WordQuestionImporter.tsx:77 | the source cuts the question numbered 10 into `1` and `0. …`; the corrected cut keeps it whole |
| ImporterFindings.StrayBlockReportedSkipped | components/quiz/WordQuestionImporter.tsx:59 | as written, one valid question numbered 10 is reported as 1 imported and 1 skipped |
| ImporterFindings.CorrectedReportsNoSkip | components/quiz/WordQuestionImporter.tsx:59 | with the corrected cut the same document is 1 imported and 0 skipped |
| QuizPreview.CountCorrect | components/quiz/QuizPreview.tsx:63-69 | the score never exceeds the number of questions |
| QuizPreview.CountCorrectIsCardinality | components/quiz/QuizPreview.tsx:63-69 | the score is the number of positions whose recorded answer equals the correct answer |
| QuizPreview.FullScoreIffAllCorrect | components/quiz/QuizPreview.tsx:63-69 | the score equals the total exactly when every question is answered correctly |
| QuizPreview.EmptyAnswersScoreZero | components/quiz/QuizPreview.tsx:77-81 | with no answers recorded, the score is 0 when every question has a correct answer |
| QuizPreview.RoundedPercent | components/quiz/QuizPreview.tsx:73 | the percentage is the integer nearest to 100·score/total, with halves rounded up |
| QuizPreview.PercentBounds | components/quiz/QuizPreview.tsx:73 | the percentage lies in 0..100, is 100 for a full score and 0 for no correct answer |
| QuizPreview.TierOf | components/quiz/QuizPreview.tsx:83-93 | the tier is Outstanding exactly from 80, Great Job exactly from 60 to 79, and Keep Practicing exactly below 60 |
| QuizPreview.GetResultMessage | components/quiz/QuizPreview.tsx:89-93 | the message is "Outstanding! 🎉" / "You're a quiz master!" in yellow exactly from 80, "Great Job! 😊" / "Well done, keep it up!" in green exactly from 60 to 79, and "Keep Practicing! 💪" / "You'll get better with practice!" in orange exactly below 60 |
| QuizPreview.GetResultIcon | components/quiz/QuizPreview.tsx:83-87 | the trophy shows exactly from 80, the smile exactly from 60 to 79, and the meh face exactly below 60 |
| QuizPreview.TiersAgree | components/quiz/QuizPreview.tsx:83-93 | the icon, the message's colour and its title always show the same tier (80 and above, 60 to 79, below 60) |
| QuizPreview.TierMonotone | components/quiz/QuizPreview.tsx:89-93 | a higher percentage never shows a lower tier |
| QuizPreview.ExtremeScoresTier | components/quiz/QuizPreview.tsx:73-93 | a full score is always "Outstanding"; no correct answer is always "Keep Practicing" |
| QuizPreview.QuizSession.constructor | components/quiz/QuizPreview.tsx:32-35 | a session starts at question 0 with no answers and results hidden |
| QuizPreview.QuizSession.PreviousEnabled | components/quiz/QuizPreview.tsx:287 | when Previous is enabled the index is positive and inside the questions, so stepping back lands on a question |
| QuizPreview.QuizSession.NextEnabled | components/quiz/QuizPreview.tsx:290 | Next is enabled exactly on a read-only screen or when the current question has a recorded, non-empty answer |
| QuizPreview.QuizSession.HandleAnswer | components/quiz/QuizPreview.tsx:40-45 | only the current question's answer changes; Next becomes enabled exactly when the screen is read-only or the value is non-empty |
| QuizPreview.QuizSession.HandleNext | components/quiz/QuizPreview.tsx:47-57 | on the last question the results are shown and the index stays; otherwise the index moves on by one; the index stays within the questions |
| QuizPreview.QuizSession.HandlePrevious | components/quiz/QuizPreview.tsx:59-61 | with Previous enabled (index not 0), the index moves back by one and stays within the questions |
| QuizPreview.QuizSession.ResetQuiz | components/quiz/QuizPreview.tsx:77-81 | back to question 0 with no answers and results hidden; Next is then enabled only on a read-only screen |
| QuizPreview.QuizSession.CalculateScore | components/quiz/QuizPreview.tsx:63-75 | the counting loop returns the number of correct answers, the number of questions, and the rounded percentage, which is at most 100 |
| QuestionForm.IndexOf | components/quiz/QuestionForm.tsx:102 | `indexOf` gives the first position holding the value, or -1 exactly when the value is absent |
| QuestionForm.LetterAt | components/quiz/QuestionForm.tsx:40 | the letter for an index is empty exactly outside 0..3, and otherwise one of `a` to `d` |
| QuestionForm.FirstCorrectIndex | components/quiz/QuestionForm.tsx:39 | `findIndex` gives the first option flagged correct, or -1 exactly when none is |
| QuestionForm.TransformDataForForm | components/quiz/QuestionForm.tsx:19-51 | no question gives the blank four-choice defaults; a choice question fills each option field with the stored text or `''`, and sets a letter exactly when the first correct option is among the first four, naming it; an input question has no option fields and carries its stored answer or `''` |
| QuestionForm.PassesRequiredRules | components/quiz/QuestionForm.tsx:126-201 | the `required` rules hold only when the question text, the correct answer and every rendered option field are non-empty, and then every rendered option field is present |
| QuestionForm.HandleFormSubmit | components/quiz/QuestionForm.tsx:89-108 | a choice form sends 2 or 4 options in a to d order and the letter's position in a to d (-1 exactly for any other value); an input form sends only its correct answer |
| QuestionForm.LetterIndexRoundTrip | components/quiz/QuestionForm.tsx:102 | the letter of an index in 0..3 indexes back to it, and the empty letter indexes to -1 |
| QuestionForm.IndexLetterRoundTrip | components/quiz/QuestionForm.tsx:40 | a value found among the letters is the letter of its own index |
| QuestionForm.TransformedFormIsComplete | components/quiz/QuestionForm.tsx:32-38 | a form filled from any stored question has every option field it renders |
| QuestionForm.ChoiceFormPassesRules | components/quiz/QuestionForm.tsx:32-40 | the form filled from a choice question passes the `required` rules exactly when the question has text, an option flagged correct among the first four, and non-empty texts in the rendered option fields |
| QuestionForm.ChoiceRoundTrip | components/quiz/QuestionForm.tsx:32-40 | `handleFormSubmit` applied to the form filled from a choice question keeps text and type, builds the stored option texts (empty where missing), and the first correct index when it is below 4, otherwise -1 (a form the `required` rules hold back) |
| QuestionForm.SubmittedOptionTexts | components/quiz/QuestionForm.tsx:94-98 | `handleFormSubmit` applied to the form filled from a choice question builds its first 2 or 4 stored option texts, in order, empty where missing |
| QuestionForm.FourChoiceRoundTrip | components/quiz/QuestionForm.tsx:94-102 | `handleFormSubmit` applied to the form filled from a four-choice question with four stored options would give the same option texts and the first correct index (−1 when none; whether the rules let that form through is `ChoiceFormPassesRules`) |
| QuestionForm.TwoChoiceRoundTrip | components/quiz/QuestionForm.tsx:94-102 | `handleFormSubmit` applied to the form filled from a two-choice question with two stored options would give the same option texts and the first correct index (−1 when none; whether the rules let that form through is `ChoiceFormPassesRules`) |
| QuestionForm.NoCorrectOptionSendsMinusOne | components/quiz/QuestionForm.tsx:39-40 | a choice question with no option flagged correct loads with no correct answer, so the `required` rules block submission; `handleFormSubmit` applied to that form would give index -1 |
| QuestionForm.InputRoundTrip | components/quiz/QuestionForm.tsx:41-42 | the form filled from an input question passes the required rules exactly when the question has text and a non-empty stored answer; `handleFormSubmit` applied to it would give that answer and no options or index |
| QuestionForm.BlankFormSubmit | components/quiz/QuestionForm.tsx:20-26 | the untouched blank form fails the `required` rules; `handleFormSubmit` applied to it would give four empty options and index -1 |
| QuestionForm.TwoChoiceIndexBeyondOptions | components/quiz/QuestionForm.tsx:94-102 | a two-choice question stored with its third option correct gets letter `c`, passes the `required` rules, and is sent with index 2 beside only two options |
| QuestionForm.SubmittedChoiceHasIndex | components/quiz/QuestionForm.tsx:186-192 | a choice form that passes the `required` rules, with its answer set by a radio button, is sent with that letter's index, never -1 |
| Auth.ContextOf | lib/auth.tsx:23-25 | the guard sees `isAuthenticating` exactly while the status is loading, and a user exactly when the session has one |
| Auth.GuardRedirect | lib/auth.tsx:95-97 | the guard redirects exactly when not authenticating, with no user, on a non-public path, and always to `/login`, which is public |
| Auth.IsPublicRoute | lib/auth.tsx:89-93 | every public route is an absolute path; which paths are public is stated by `PrefixRoutesPublic` and `ExactRoutesNotExtended` |
| Auth.NoRedirectWhileLoading | lib/auth.tsx:24 | while the session loads no path is redirected |
| Auth.NoRedirectWithUser | lib/auth.tsx:95 | with a user present no path is redirected |
| Auth.UnauthenticatedRedirects | lib/auth.tsx:95-97 | once the session is known and empty, exactly the non-public paths are redirected, and `/login` itself is not |
| Auth.RedirectSettles | lib/auth.tsx:91-96 | a redirect lands on a path the guard leaves alone |
| Auth.PrefixRoutesPublic | lib/auth.tsx:92-93 | every path starting with `/blog` or `/_next` is public, including ones like `/blogger` that only share the prefix |
| Auth.ExactRoutesNotExtended | lib/auth.tsx:90-91 | `/` and `/login` are public, but only as exact paths: nothing below `/login` is public, and a path `/` + rest is public exactly when rest is empty, `login`, or starts with `blog` or `_next` |

## Left out

- The `.docx` handling in `handleFileChange`: the extension check, text extraction and the POST to the bulk-import route. These are I/O and a foreign library. The parser starts from the extracted text.
- The `try`/`catch` around each block and the `console.warn`/`console.error` calls. No step of the block parser can throw on a string, and logging has no effect on the result.
- Characters are Unicode scalar values here, while JavaScript strings are UTF-16 code units. No digit, letter, marker or whitespace character the parser looks for lies outside the Basic Multilingual Plane, so matching is unaffected.
- WordQuestionImporter.QuestionTextInBlock: places the question text inside the capture of the question pattern, not directly inside the block; `QuestionTextMatch` places the capture in the block.
- QuizPreview.RoundedPercent: rounds the exact ratio half up, where the source rounds a floating-point product. The two can differ when the product lands just below a half.
- QuizPreview.QuizSession.HandleNext: shows the results at once. The one-second `setTimeout` and the `isSubmitting` flag are not modelled.
- QuizPreview.QuizSession.HandlePrevious: requires the Previous button to be enabled. At index 0 the source would set the index to -1, but the button is disabled there.
- QuizPreview.QuizSession.HandleAnswer: does not require an editable screen, although the inputs are disabled on a read-only one.
- The answers are a `map` of the keys the session set. Keys a plain JavaScript object inherits (such as `__proto__`) are not modelled.
- All rendering, the review list and the "No Questions" screen of the preview. The early return for an empty quiz appears only as `CalculateScore`'s requirement of at least one question.
- QuestionForm.HandleFormSubmit: requires only that the option fields the form renders be present. The `required` rules that run before it are `PassesRequiredRules`, related to the filled forms by lemmas rather than made a precondition. The form library, the effects that sync the radio selection into `correctAnswer`, and the `onSubmit` callback, which receives the payload, are not modelled.
- The question types are the three declared ones. A stored type outside them is not modelled.
- Auth: the sign-in, sign-up and sign-out calls (network), the `useAuth` context check, and the router itself. The guard's push is returned as the target path, and the current path and session are parameters.

## Findings

| source | as written | input that shows it | evidently intended | confidence | as-written member | corrected member |
|---|---|---|---|---|---|---|
| components/quiz/WordQuestionImporter.tsx:77 | the block split's lookahead `(?=\d+\.\s)` is tried at every position, so it also matches after the first digit of a number of two or more digits | `10. Q A. x Correct Answer: A` is cut into `1` and `0. Q A. x Correct Answer: A`; the block `1` is counted in `totalQuestions`, can never parse, and the import reports one question skipped | a block starts only where a whole question number starts, so a document of valid questions reports nothing skipped | high (not executed) | ImporterFindings.StrayBlockReportedSkipped | WordQuestionImporter.CorrectedBlocksKeepNumbersWhole |
