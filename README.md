# Quiz app: a verified model

The repository is a small quiz web application. Admins write quizzes on an
authoring page and publish them to an Express server. A quiz holds
multiple-choice questions, free-text questions and `case` entries. A `case`
entry is a context block that is neither answered nor scored. Participants take
a quiz on a second page, which scores the attempt and posts the result to the
server.

This project models the deterministic core of the three programs in Dafny:

- `wrappers.dfy` (`Wrappers`): the `Option` type.
- `strings.dfy` (`Strings`): JavaScript's `trim` and `toLowerCase`, plus the
  normal form `s.trim().toLowerCase()` used to compare free-text answers.
- `quiz.dfy` (`QuizModel`): questions as a tagged union, quizzes, recorded
  answers, and the lookups every component repeats:
  - `points || 1`;
  - the count of answerable (non-`case`) questions;
  - `findIndex` / `find` by id.
- `scoring.dfy` (`Scoring`): `calculateAndSubmitResult` of `public/app.js`.
  - A loop method, `CalculateResult`, is proved against recursive specification
    functions.
  - Lemmas state what the score means.
- `player.dfy` (`Player`): the participant page as a `Session` class. Its fields
  are the quiz, the participant number, the cursor, the answer map and the
  visible view.
  - Each button handler is a method.
  - The answer commit, the control pre-fill and the two derived lookups
    (progress number, case context) are functions.
- `admin.dfy` (`Admin`): the authoring page as a `Draft` class. Its fields are
  the draft question list, the option list of the question editor, the editor
  cursor, the quiz being edited, and the form fields the handlers write.
  - `escapeHtml`, the question checks of the save button and the publish
    decision are functions.
- `server.dfy` (`Server`): the server as a `Store` class holding:
  - the admin token set;
  - what a read of each JSON file (the quiz file and the results file) would
    find.
- `endtoend.dfy` (`EndToEnd`): lemmas across components:
  - a published quiz is stored as drafted;
  - the server's points normalization never changes a score;
  - the server stores answers the editor refuses;
  - the authoring total counts `case` entries;
  - a participant's submission is recorded.

Points are modelled as `real`. The value `0.0` stands for a `points` field that
is absent or zero, since both are falsy in `points || 1`. Every entry carries
points, `case` entries included: scoring skips them, but the server normalizes
their points and the authoring page adds them to its total.

## Model

| member | source | states |
|---|---|---|
| QuizModel.Weight | public/app.js:145 | the weight of an entry (stored points, or 1 when falsy) is never 0, and is positive when the stored points are non-negative |
| QuizModel.Lookup | public/app.js:100-104 | `currentQuizAnswers[i]` is present exactly when an answer is recorded at i, and is that answer |
| QuizModel.CountAnswerable | public/app.js:157 | the answerable count never exceeds the number of entries |
| QuizModel.CountAnswerablePrefix | public/app.js:82 | the answerable count over a longer prefix is no smaller; it is strictly larger when the last added entry is answerable, and the same when that entry is `case` |
| QuizModel.FindIndex | server.js:92 | the result is the first position holding the id; None means no quiz has the id |
| QuizModel.Find | public/app.js:29 | a quiz is found exactly when some quiz carries the id, and it is the one at the first such position |
| Strings.Normalize | public/app.js:151 | `trim().toLowerCase()` is never longer than the input, is empty exactly when the input is all white space, and has no white space at either end |
| Strings.Trim | public/app.js:151 | the result is no longer than the input and has no white space at either end; it is empty exactly when the input is all white space |
| Strings.TrimIsInfix | public/app.js:151 | the trimmed string is the slice of the input between a run of leading and a run of trailing white space |
| Strings.TrimIdempotent | public/app.js:151 | trimming twice equals trimming once |
| Strings.Lower | public/app.js:151 | the length is kept, and each character is lower-cased on its own |
| Strings.TrimLowerCommute | public/app.js:151 | trimming and lower-casing commute |
| Strings.NormalizeIdempotent | public/app.js:151 | the trimmed, lower-cased form of an answer is its own normal form |
| Scoring.CalculateResult | public/app.js:139-157 | the loop's earned points, total points, correct count and answerable total equal the specification functions over the whole list |
| Scoring.AnswerableQuestions | public/app.js:157 | the filtered list holds exactly the non-`case` entries of the quiz (an entry is in it exactly when it is in the quiz and is not `case`), and its length is the answerable count |
| Scoring.CaseQuestionsContributeNothing | public/app.js:143-146 | the total is the sum of the weights (stored points, or 1 when falsy) over the non-`case` questions; the answerable total is their number |
| Scoring.ScoreBounds | public/app.js:145-156 | correct count ≤ answerable total; with non-negative points, 0 ≤ earned ≤ total |
| Scoring.AllCorrectEarnsTotal | public/app.js:145-156 | answering every answerable question correctly earns the total points, whatever the sign of the points |
| Scoring.FullMarksIffAllCorrect | public/app.js:145-156 | with non-negative points, earned == total exactly when every answerable question is correct |
| Scoring.CorrectCountIffAllCorrect | public/app.js:148-156 | correct count == answerable total exactly when every answerable question is correct |
| Scoring.NegativePointsBreakBound | public/app.js:145-153 | one question worth -1 puts the earned points above the total, so the bound needs non-negative points |
| Scoring.UnansweredNeverCorrect | public/app.js:149-151 | an absent answer, or a blank answer to a free-text question, is never correct |
| Scoring.TextAnswerNormalized | public/app.js:151 | a free-text answer is judged the same as its trimmed, lower-cased form |
| Scoring.NumberOf | public/app.js:149 | `Number(v)` of a recorded option index is that index; a number read from text is never negative |
| Scoring.RecordedText | public/app.js:151 | `currentQuizAnswers[i] \|\| ''`: the recorded text when one is recorded, the empty string when nothing is |
| Scoring.TextCorrectness | public/app.js:151 | a free-text answer is correct exactly when its normalized form is non-empty and equals the normalized expected answer |
| Scoring.IsCorrect | public/app.js:148-151 | a question counts as correct only when an answer is recorded; a correct free-text answer is text that is not blank once trimmed |
| Scoring.TotalPoints | public/app.js:143-146 | the total is 0 when the quiz has no answerable question |
| Scoring.EarnedPoints | public/app.js:153 | no points are earned when no question is correct |
| Scoring.CorrectCount | public/app.js:148-155 | the number of correct questions never exceeds the number of answerable ones |
| Scoring.Score | public/app.js:155-158 | the result shows correct ≤ answerable ≤ number of entries, and a quiz without answerable questions scores 0 of 0 points |
| Scoring.CountCorrect | public/app.js:156 | counting the correct details never gives more than the number of details |
| Scoring.CountCorrectAll | public/app.js:156 | the count equals the number of details exactly when every detail is correct |
| Scoring.Numeral | public/app.js:101 | the value of a radio button, `${ii}`, is a non-empty string of decimal digits |
| Scoring.NumeralValue | public/app.js:101 | the digits of a radio button value spell its index |
| Scoring.NumeralRoundTrip | public/app.js:101-122 | `Number(String(k))` is k for every option index k |
| Scoring.NonNumeralNeverMatches | public/app.js:149 | text whose trimmed form holds a character no JavaScript numeric literal contains (anything but digits, signs, `.`, hexadecimal digits, radix letters and the letters of `Infinity`) is no number and never matches the answer index |
| Scoring.McqAnswerByValue | public/app.js:149 | for every multiple-choice question and every option index k, the recorded string `String(k)` is judged exactly as the index k itself, and either is correct exactly when k is the answer index |
| Player.Commit | public/app.js:120-128 | only the entry at the current position can change. A checked option overwrites it with its index. Non-blank text overwrites it with the trimmed text. An unchecked control, blank text or a `case` entry leaves the map as it was |
| Player.UpToQuote | public/app.js:104-105 | the text box shows the recorded text up to its first `"`, where the unescaped `value="…"` attribute ends: a prefix of it holding no `"`, all of it when it holds none |
| Player.Prefill | public/app.js:100-105 | for a multiple-choice question, a radio button is checked exactly when a recorded option index lies among the options, and it is that index; a text box holds the recorded text up to its first `"` |
| Player.CommitKeepsWellFormed | public/app.js:120-128 | committing keeps every recorded answer at a valid position and of the right kind for its question |
| Player.RevisitKeepsAnswers | public/app.js:100-128 | when every recorded text holds no `"` (or starts with one), committing the control exactly as pre-filled leaves the answer map unchanged |
| Player.RevisitRecordsShownText | public/app.js:100-128 | a visit that edits nothing records, for a free-text question, the recorded text up to its first `"` (when that is non-blank and trimmed) |
| Player.QuoteCutOnRevisit | public/app.js:100-128 | a well-formed recorded answer `a"b` to a free-text question is committed back as `a` by a visit that edits nothing |
| Player.Replay | public/app.js:130-131 | a sequence of Previous/Next visits without edits never touches a position it does not visit |
| Player.ReplayWithoutEdits | public/app.js:130-131 | when every recorded text holds no `"` (or starts with one), any sequence of Previous/Next visits without edits leaves the answer map unchanged |
| Player.AnswerableIndex | public/app.js:79-82 | the progress number is None exactly for `case` entries, and otherwise lies in 1..answerable total |
| Player.AnswerableIndexIncreasing | public/app.js:82 | progress numbers strictly increase along the quiz |
| Player.CaseContext | public/app.js:92-94 | the context shown is the last `case` entry at or before the cursor; None means there is no earlier one |
| Player.Session.constructor | public/app.js:7-10 | a page starts on the quiz list with no quiz, an empty answer map, cursor 0 and no participant number |
| Player.Session.StartQuiz | public/app.js:55-62 | an unknown id changes no session state (the "Quiz introuvable" page it shows, from which no control leads on, is not modelled); a known one loads the quiz with cursor 0 and an empty answer map |
| Player.Session.EnterParticipant | public/app.js:66-72 | the trimmed number is stored; questions are shown only when it is non-blank and the quiz has a question |
| Player.Session.SaveCurrentAnswer | public/app.js:120-128 | the new answer map is `Commit` of the old one, so only the entry on screen changes, and recorded answers keep fitting their questions |
| Player.Session.Prev | public/app.js:130 | moves only when the cursor is above 0: it commits, then steps back |
| Player.Session.Next | public/app.js:131 | moves only before the last question: it commits, then steps forward |
| Player.Session.Submit | public/app.js:133-136 | offered only on a last question that is answerable. It commits, scores with `Score` and sends a payload whose `total` is the answerable count |
| Player.Session.Finish | public/app.js:132 | offered only on a last entry that is `case`; it returns to the list, changes only the view, and keeps the answers, the quiz and the participant |
| Admin.ReplaceChar | public/admin.js:141 | a string without the character is unchanged, and the character is gone when the replacement does not hold it |
| Admin.EscapeHtml | public/admin.js:141 | the output holds no `<` or `>`; a string without `&`, `<` and `>` comes back unchanged |
| Admin.EscapeHtmlByChar | public/admin.js:141 | the three chained replacements escape each character on its own |
| Admin.UnescapeEscapeHtml | public/admin.js:141 | decoding the entities gives the original string back, so escaping loses nothing |
| Admin.BuildQuestion | public/admin.js:93-112 | a question is accepted exactly when the trimmed text is non-empty, points ≥ 1 (1 when not finite), a multiple-choice question has ≥ 2 options and an answer index in range, and a free-text answer is non-blank. An accepted question is well formed and carries those fields |
| Admin.RemoveAt | public/admin.js:139 | `splice(idx, 1)` removes exactly that entry and keeps the others in order |
| Admin.PublishRequest | public/admin.js:143-159 | refuses an empty trimmed id or title, then an empty list. Otherwise it sends the trimmed fields and the draft, as an update when a quiz is being edited and as a create otherwise |
| Admin.DraftTotalPoints | public/admin.js:122 | the total above the question list adds the weight of every entry, `case` entries included; with non-negative points it is non-negative, and positive for a non-empty list |
| Admin.IsEditing | public/admin.js:155 | a quiz is being edited exactly when the edited id is neither null nor the empty string |
| Admin.Draft.constructor | public/admin.js:6-9 | the page starts with no draft questions, no entry being edited, no options and no quiz being edited |
| Admin.Draft.OpenEditor | public/admin.js:12-38 | opening on a question copies its options and answer index into the editor; a new question starts with no options and index 0 |
| Admin.Draft.CloseEditor | public/admin.js:40-43 | the editor no longer edits any entry |
| Admin.Draft.TypeAnswerIndex | public/admin.js:102-103 | typing in the answer-index input sets the value the save button reads, and nothing else |
| Admin.Draft.TypeQuizFields | public/admin.js:144-146 | typing in the quiz id, title and description inputs sets the values the publish button reads, and nothing else |
| Admin.Draft.ChangeKind | public/admin.js:81-88 | switching to multiple choice empties the option list |
| Admin.Draft.AddOption | public/admin.js:72-79 | blank and duplicate texts are refused; otherwise the trimmed text is appended; a duplicate-free list stays duplicate-free |
| Admin.Draft.DeleteOption | public/admin.js:62-70 | removes exactly that option. When options remain, an answer index past the end is clamped to the last option |
| Admin.Draft.SaveQuestion | public/admin.js:92-115 | a refused question leaves the list unchanged. An accepted one either replaces the edited entry, keeping length and other entries, or is appended. A well-formed list stays well formed |
| Admin.Draft.Place | public/admin.js:106-113 | an accepted question overwrites the edited entry (length and other entries kept) or is appended when none is edited; the editor closes; a well-formed list stays well formed |
| Admin.Draft.DeleteQuestion | public/admin.js:139 | after confirmation, removes exactly that entry; otherwise nothing changes |
| Admin.Draft.LoadQuizToEdit | public/admin.js:196-210 | an unknown id changes nothing. Otherwise the quiz becomes the edited one, fills the form, and the draft becomes a copy of its questions |
| Admin.Draft.Publish | public/admin.js:143-170 | sends `PublishRequest`. Success clears the draft, the edited id and the form; a refusal or failure leaves them intact |
| Admin.Draft.Clear | public/admin.js:161-167 | after a successful publish no quiz is being edited and the draft list and the form fields are empty |
| Server.Blank | server.js:80 | a body field is falsy exactly when reading it with default `''` gives the empty string |
| Server.NoQuestionList | server.js:81 | the questions check fails exactly when reading the list with default `[]` gives an empty list |
| Server.ReadList | server.js:34-36 | a missing or unparsable file reads as the empty list |
| Server.NormalizeOne | server.js:83 | every entry, `case` included, keeps its kind, text, options, answer index and expected answer; its points become the stored points if truthy and 1 otherwise, so never 0 |
| Server.NormalizeOneTruthy | server.js:83 | an entry whose points are already truthy is left as it is |
| Server.NormalizePoints | server.js:83 | the length is kept and each entry is normalized on its own, in place |
| Server.NormalizePointsIdempotent | server.js:83 | normalizing stored questions again changes nothing; no stored entry has zero points |
| Server.NewQuiz | server.js:79-84 | the appended quiz carries the body's non-empty id, its title and description, and exactly the body's questions with normalized points |
| Server.Merge | server.js:97-98 | every field present in the body overwrites the stored one (the id included), every absent field is kept, and the questions are the normalized body questions |
| Server.RemoveId | server.js:106 | a quiz is kept exactly when it was in the list and has a different id |
| Server.RemoveIdAppend | server.js:106 | filtering distributes over concatenation, so kept quizzes stay in order |
| Server.RemoveAbsentId | server.js:106 | deleting an id no quiz carries leaves the list unchanged |
| Server.RemoveIdIdempotent | server.js:106 | deleting twice equals deleting once |
| Server.EntryOf | server.js:113-116 | no entry exactly when the participant or quiz id is falsy; otherwise the entry carries the five body fields and the time stamp |
| Server.Store.constructor | server.js:11-44 | both credentials are required, the token set starts empty, and a missing results file becomes an empty list |
| Server.Store.Authorized | server.js:64-68 | a falsy token never passes `requireAdmin`; a truthy one passes exactly while it is in the token set |
| Server.Store.Login | server.js:48-56 | a token is issued exactly when both email and password match; it joins the set and then authorizes |
| Server.Store.Logout | server.js:58-62 | a truthy presented token leaves the set, and it no longer authorizes |
| Server.Store.ListQuizzes | server.js:71-74 | an authorized caller gets the stored list; otherwise the call is unauthorized |
| Server.Store.CreateQuiz | server.js:77-87 | refuses an unauthorized caller, a falsy id, and a missing or empty question list. Otherwise exactly one normalized quiz is appended after the unchanged earlier entries |
| Server.Store.UpdateQuiz | server.js:90-101 | an unknown id is not found before the questions are checked. Otherwise only the first quiz with the id changes, merged with the body |
| Server.Store.DeleteQuiz | server.js:104-109 | every quiz with the id is removed and the rest keep their order; an absent id still succeeds |
| Server.Store.Submit | server.js:112-120 | a falsy participant or quiz id is refused; otherwise exactly one entry is appended after the unchanged earlier results |
| Server.Store.ListResults | server.js:123-126 | an authorized caller gets the stored results; otherwise the call is unauthorized |
| EndToEnd.BodyOf | public/admin.js:149-159 | the body the server reads back from a publish carries the quiz's title, description and questions; its id and question checks fail exactly when the quiz's id or list is empty |
| EndToEnd.ResultBodyOf | public/app.js:160-161 | the body the server reads back from a submission carries the score, correct count and total; its id checks fail exactly when the participant or quiz id is empty |
| EndToEnd.NormalizeTruthyPoints | server.js:83 | questions whose points are all truthy are stored unchanged |
| EndToEnd.PublishedQuizStoredAsDrafted | public/admin.js:149-159 | a sent quiz (non-empty id and question list, as PublishRequest guarantees) passes the server's checks; when every entry has truthy points (editor-built questions included, whatever their answer index), the server stores exactly that quiz, on create and on update |
| EndToEnd.ServerAcceptsOutOfRangeAnswer | public/admin.js:104 | an out-of-range answer index is refused by the editor, yet the server's create checks accept a quiz holding it, unchanged |
| EndToEnd.NormalizedQuestionScoresAlike | server.js:83 | a normalized entry has the same kind and weight as the original, and an answerable one is judged the same for every answer |
| EndToEnd.ScoreIgnoresNormalization | server.js:83 | the server's points normalization never changes the score of any set of answers |
| EndToEnd.DraftTotalCountsCaseEntries | public/admin.js:122 | the authoring total is the scoring total plus the weights of the `case` entries: never below it when those points are non-negative, and one point more per `case` entry when each is stored without points or with 1 |
| EndToEnd.SubmissionRecorded | public/app.js:161 | a submission carrying both ids is recorded with its score, correct count and answerable total |

## Behaviour of the code worth knowing

- The participant page writes a recorded text answer back into the text box as
  `value="${esc(txtVal)}"`, and `esc` does not escape `"` (`public/app.js:5,
  105`). The box then shows only the text before the first `"`, and the next
  Previous, Next or Submit click records that prefix instead. An answer `a"b`
  becomes `a` after a visit that changes nothing (`Player.QuoteCutOnRevisit`).
- The multiple-choice answer index is range-checked only by the question editor
  (`public/admin.js:104`). Publishing does not check it, and `server.js`
  validates only that `questions` is a non-empty array
  (`EndToEnd.ServerAcceptsOutOfRangeAnswer`).
- Deleting a quiz id that no quiz carries succeeds and leaves the list as it is
  (`server.js:104-109`).
- Creating a quiz does not check whether its id is already taken
  (`server.js:84`).
- An update merges the body over the stored quiz, so it can overwrite the id
  (`server.js:98`).
- Points are not forced to be integers (`public/admin.js:96`).
- The submitted `total` is the number of answerable questions, not a points sum
  (`public/app.js:157, 161`).
- The authoring page's points total adds `q.points || 1` of every entry,
  `case` entries included; the server stores every entry with truthy points
  (`public/admin.js:122`, `server.js:83`).

## Left out

- I/O is left out, and the values it would supply are parameters:
  - the DOM and the HTML each page builds; `alert`/`confirm` (a confirmation is a
    boolean parameter);
  - event wiring, `history.replaceState` and URL start-up;
  - `fetch` (the storage outcome of a publish is a boolean parameter);
  - Express routing, CORS, static files, `localStorage`, and the admin login UI
    flow;
  - `readJSON`/`writeJSON`: the files are fields holding what a read finds;
  - `Math.random` tokens and `new Date().toISOString()`: both are parameters.
- A quiz file that parses to something other than an array is not modelled.
  The list handler returns such a value unchanged (`server.js:71-74`). The
  create, update and delete handlers throw once the request passes their checks;
  a body refused with 400 is refused before the file's value is used.
- A results file that parses to something other than an array is not modelled
  either: `results.push` then throws in `/api/submit` (`server.js:116-117`).
- The participant page fetches its list from `/api/quizzes`, which `server.js`
  does not define. The model takes the list as a parameter.
- Scoring.NumberOf models `Number(v)` only on what the page records:
  - option indices;
  - strings whose trimmed form is decimal digits or blank;
  - every other string counts as no number.
  Exponents, signs, hex and fractions are not modelled.
- Scoring.NonNumeralNeverMatches holds for `Number` only because its text
  holds a character no numeric literal contains. Text such as `1.0`, `+1`,
  `1e0` or `0x1` is a number in JavaScript and can match; in the model's
  `NumberOf` it is no number.
- Strings.Lower lower-cases ASCII and Latin-1 capitals only, not the rest of
  Unicode.
- Scoring.IsCorrect treats a number recorded for a free-text question as no
  text; `trim` would throw on a non-zero number in JavaScript, while `0`
  becomes `''` through `||`, as in the model. The session invariant rules this
  case out.
- Admin.Draft.SaveQuestion requires the edited position to lie inside the list.
  JavaScript would write past the end and leave holes (`public/admin.js:106,
  111`). This happens when a publish or a quiz load completes while the editor
  is open on an entry past the end of the new list.
- Admin.Draft.Publish and Admin.Draft.LoadQuizToEdit are atomic steps. In
  JavaScript each awaits `fetch` (`public/admin.js:156-161`, 196-210), and other
  handlers can run in between. Such interleaving is not modelled: a question
  saved while a publish is pending is wiped when the publish succeeds, and a
  completion can leave the edited position past the end of the list.
- Admin.BuildQuestion takes the answer-index field as an integer. A fractional
  `Number(ai)` passes the range check in JavaScript.
- Server.NewQuiz stores an absent title or description as the empty string.
- Request bodies are typed: a field is present with the expected type or
  absent. Express always supplies a body object, so `!newQuiz` never holds.
- A failure of `writeJSON` is not modelled.
- Scoring.TotalPoints, Scoring.EarnedPoints and Admin.DraftTotalPoints add
  points as exact reals. JavaScript adds IEEE doubles, so its sums can round
  (`1.1 + 2.2` gives `3.3000000000000003`). A full-marks or total comparison can
  then differ from the model for fractional points.
- Admin.Draft.OpenEditor does not keep what `showQuestionModal` pre-fills into
  the text, type, points, free-text answer and new-option inputs. The save and
  add-option handlers take those inputs' values at the click as parameters.
