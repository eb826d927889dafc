/**
 * The participant page (public/app.js): choosing a quiz, entering a participant
 * number, moving through the questions with Previous / Next while the answer of
 * the question on screen is committed before every move, and submitting.
 *
 * The closure variables `currentQuiz`, `currentParticipantId`,
 * `currentQuestionIndex` and `currentQuizAnswers` are the fields of Session; the
 * HTML the page renders is not modelled, only which buttons it offers and what
 * each click does to the state.
 */
module Player {
  import opened Wrappers
  import opened Strings
  import opened QuizModel
  import Scoring

  /** Which view the page shows: the quiz list, the participant-number form, a question, the result. */
  datatype Phase = Listing | Identifying | Answering | Scored

  /**
   * The input control on screen when a button is clicked: the checked radio
   * button (multiple choice), if any, and the contents of the text box (free text).
   */
  datatype Control = Control(checked: Option<int>, typed: string)

  /**
   * An answer as `saveCurrentAnswer` records it: an option index of a
   * multiple-choice question, or trimmed non-empty text for a free-text question.
   * A `case` entry never has an answer.
   */
  predicate Fits(q: Question, a: Answer)
  {
    match q
    case Mcq(_, options, _, _) => a.Choice? && 0 <= a.index < |options|
    case Text(_, _, _) => a.Typed? && a.value != [] && Trim(a.value) == a.value
    case Case(_, _) => false
  }

  /** Every recorded answer sits at a position of the quiz and fits the question there. */
  ghost predicate WellFormedAnswers(qs: seq<Question>, answers: map<int, Answer>)
  {
    forall i :: i in answers ==> 0 <= i < |qs| && Fits(qs[i], answers[i])
  }

  /** A control the page can show for q: the radio buttons carry the values 0 .. options.length - 1. */
  predicate ControlFits(q: Question, c: Control)
  {
    q.Mcq? && c.checked.Some? ==> 0 <= c.checked.value < |q.options|
  }

  /**
   * `saveCurrentAnswer` for question q at position i. Only the entry at i can change:
   * a checked radio button overwrites it with its index, non-blank text overwrites
   * it with the trimmed text; no checked button, blank text, or a `case` entry keep
   * the map as it was.
   */
  function Commit(answers: map<int, Answer>, q: Question, i: int, c: Control): (r: map<int, Answer>)
    ensures forall j :: j != i ==> Lookup(r, j) == Lookup(answers, j)
    ensures q.Mcq? && c.checked.Some? ==> Lookup(r, i) == Some(Choice(c.checked.value))
    ensures q.Text? && Trim(c.typed) != [] ==> Lookup(r, i) == Some(Typed(Trim(c.typed)))
    ensures q.Case? || (q.Mcq? && c.checked.None?) || (q.Text? && Trim(c.typed) == []) ==> r == answers
  {
    match q
    case Mcq(_, _, _, _) => if c.checked.Some? then answers[i := Choice(c.checked.value)] else answers
    case Text(_, _, _) => var v := Trim(c.typed); if v != [] then answers[i := Typed(v)] else answers
    case Case(_, _) => answers
  }

  /**
   * What the browser reads back from `value="${esc(s)}"`: `esc` encodes `&`, `<`
   * and `>`, which the browser decodes again, but leaves `"` alone, so the
   * attribute ends at the first `"` of s.
   */
  function UpToQuote(s: string): (r: string)
    ensures |r| <= |s| && r == s[..|r|]
    ensures '"' !in r
    ensures '"' !in s ==> r == s
    ensures |r| < |s| ==> s[|r|] == '"'
  {
    if s == [] || s[0] == '"' then [] else [s[0]] + UpToQuote(s[1..])
  }

  /**
   * The control `renderQuestion` shows for q at position i: the radio button whose
   * index `===` the recorded answer is checked, and the text box holds
   * `currentQuizAnswers[i] || ''` up to its first `"`.
   */
  function Prefill(answers: map<int, Answer>, q: Question, i: int): (c: Control)
    ensures ControlFits(q, c)
    ensures q.Mcq? ==> (c.checked.Some? <==>
      Lookup(answers, i).Some? && Lookup(answers, i).value.Choice? && 0 <= Lookup(answers, i).value.index < |q.options|)
    ensures q.Mcq? && c.checked.Some? ==> Lookup(answers, i) == Some(Choice(c.checked.value))
    ensures q.Text? && Lookup(answers, i).Some? && Lookup(answers, i).value.Typed? ==>
      c.typed == UpToQuote(Lookup(answers, i).value.value)
  {
    var a := Lookup(answers, i);
    Control(
      if q.Mcq? && a.Some? && a.value.Choice? && 0 <= a.value.index < |q.options| then Some(a.value.index) else None,
      if a.Some? && a.value.Typed? then UpToQuote(a.value.value) else "")
  }

  /**
   * A recorded text the text box shows in full, or not at all: it holds no `"`,
   * or starts with one (the box then shows nothing, and committing nothing keeps
   * the answer).
   */
  predicate SurvivesTextBox(v: string)
  {
    '"' !in v || v[0] == '"'
  }

  /** Every recorded text answer survives the text box. */
  ghost predicate QuoteSafe(answers: map<int, Answer>)
  {
    forall i :: i in answers && answers[i].Typed? ==> SurvivesTextBox(answers[i].value)
  }

  /** Committing a control the page can show keeps every recorded answer well formed. */
  lemma CommitKeepsWellFormed(qs: seq<Question>, answers: map<int, Answer>, i: int, c: Control)
    requires WellFormedAnswers(qs, answers)
    requires 0 <= i < |qs| && ControlFits(qs[i], c)
    ensures WellFormedAnswers(qs, Commit(answers, qs[i], i, c))
  {
    var r := Commit(answers, qs[i], i, c);
    forall j | j in r
      ensures 0 <= j < |qs| && Fits(qs[j], r[j])
    {
      if j != i {
        assert Lookup(r, j) == Lookup(answers, j);
      } else if i !in answers || r[i] != answers[i] {
        if qs[i].Text? {
          TrimIdempotent(c.typed);
        }
      }
    }
  }

  /**
   * Re-committing the control exactly as it was pre-filled leaves the answer map
   * as it was, provided the recorded text survives the text box.
   */
  lemma RevisitKeepsAnswers(qs: seq<Question>, answers: map<int, Answer>, i: int)
    requires WellFormedAnswers(qs, answers)
    requires QuoteSafe(answers)
    requires 0 <= i < |qs|
    ensures Commit(answers, qs[i], i, Prefill(answers, qs[i], i)) == answers
  {
    if i in answers {
      if answers[i].Typed? {
        var v := answers[i].value;
        assert SurvivesTextBox(v);
        if '"' in v {
          assert UpToQuote(v) == [];
        }
      }
      assert answers[i := answers[i]] == answers;
    }
  }

  /**
   * A visit that edits nothing records, for a free-text question, what the text
   * box shows: the recorded text up to its first `"`, when that is non-blank and
   * already trimmed.
   */
  lemma RevisitRecordsShownText(q: Question, m: map<int, Answer>, i: int)
    requires q.Text? && i in m && m[i].Typed?
    requires UpToQuote(m[i].value) != [] && Trim(UpToQuote(m[i].value)) == UpToQuote(m[i].value)
    ensures Commit(m, q, i, Prefill(m, q, i)) == m[i := Typed(UpToQuote(m[i].value))]
  {
    var c := Prefill(m, q, i);
    assert c.typed == UpToQuote(m[i].value);
  }

  /**
   * The text box loses what follows a `"`: a recorded answer `a"b` is committed
   * back as `a` by a Previous or Next click that edits nothing.
   */
  lemma QuoteCutOnRevisit(qs: seq<Question>, m: map<int, Answer>)
    requires qs == [Text("Q", "a", 1.0)] && m == map[0 := Typed("a\"b")]
    ensures WellFormedAnswers(qs, m)
    ensures Commit(m, qs[0], 0, Prefill(m, qs[0], 0)) == map[0 := Typed("a")]
  {
    QuotedTextFits(qs[0], m[0].value);
    assert m.Keys == {0};
    QuoteAfterA(m[0].value);
    assert !IsSpace('a');
    TrimOfTrimmed("a");
    RevisitRecordsShownText(qs[0], m, 0);
    assert m[0 := Typed("a")] == map[0 := Typed("a")];
  }

  lemma QuotedTextFits(q: Question, v: string)
    requires q == Text("Q", "a", 1.0) && v == "a\"b"
    ensures Fits(q, Typed(v))
  {
    assert !IsSpace(v[0]) && !IsSpace(v[2]);
    TrimOfTrimmed(v);
  }

  lemma QuoteAfterA(v: string)
    requires v == "a\"b"
    ensures UpToQuote(v) == "a"
  {
    assert v[1..] == "\"b";
    assert UpToQuote(v[1..]) == [];
  }

  /**
   * The answer map after visiting the given positions in turn and leaving each
   * without editing its control; a position never visited keeps its answer.
   */
  function Replay(qs: seq<Question>, answers: map<int, Answer>, visits: seq<int>): (r: map<int, Answer>)
    requires forall k :: 0 <= k < |visits| ==> 0 <= visits[k] < |qs|
    ensures forall j :: j !in visits ==> Lookup(r, j) == Lookup(answers, j)
  {
    if visits == [] then answers
    else
      var i := visits[0];
      Replay(qs, Commit(answers, qs[i], i, Prefill(answers, qs[i], i)), visits[1..])
  }

  /**
   * Navigating back and forth any number of times without editing loses no answer
   * and invents none, as long as every recorded text survives the text box.
   */
  lemma {:induction false} ReplayWithoutEdits(qs: seq<Question>, answers: map<int, Answer>, visits: seq<int>)
    requires WellFormedAnswers(qs, answers)
    requires QuoteSafe(answers)
    requires forall k :: 0 <= k < |visits| ==> 0 <= visits[k] < |qs|
    ensures Replay(qs, answers, visits) == answers
  {
    if visits != [] {
      RevisitKeepsAnswers(qs, answers, visits[0]);
      ReplayWithoutEdits(qs, answers, visits[1..]);
    }
  }

  /**
   * The progress number "Question k / M" of the entry at position i: None for a
   * `case` entry, otherwise the number of answerable entries at positions 0..i,
   * which lies between 1 and the answerable total M.
   */
  function AnswerableIndex(qs: seq<Question>, i: nat): (r: Option<nat>)
    requires i < |qs|
    ensures r.None? <==> qs[i].Case?
    ensures r.Some? ==> 1 <= r.value <= CountAnswerable(qs)
  {
    if qs[i].Case? then None
    else
      CountAnswerablePrefix(qs, i, i + 1);
      CountAnswerablePrefix(qs, i + 1, |qs|);
      assert qs[..|qs|] == qs;
      Some(CountAnswerable(qs[..i + 1]))
  }

  /** Progress numbers strictly increase along the quiz, so no two answerable entries share one. */
  lemma AnswerableIndexIncreasing(qs: seq<Question>, i: nat, j: nat)
    requires i < j < |qs| && !qs[i].Case? && !qs[j].Case?
    ensures AnswerableIndex(qs, i).value < AnswerableIndex(qs, j).value
  {
    CountAnswerablePrefix(qs, i + 1, j + 1);
  }

  /**
   * The case study shown above the entry at position i: the last `case` entry at
   * or before i, if there is one.
   */
  function CaseContext(qs: seq<Question>, i: nat): (r: Option<nat>)
    requires i < |qs|
    ensures r.Some? ==> r.value <= i && qs[r.value].Case?
    ensures r.Some? ==> forall j :: r.value < j <= i ==> !qs[j].Case?
    ensures r.None? ==> forall j :: 0 <= j <= i ==> !qs[j].Case?
  {
    if qs[i].Case? then Some(i)
    else if i == 0 then None
    else CaseContext(qs, i - 1)
  }

  datatype StartOutcome =
    | BlankId      // "Entrez votre numéro": the trimmed participant number is empty
    | NoQuestions  // the quiz has no question: rendering the first one throws
    | Started

  /** What a submit click produces: the score shown on the result page and the payload sent to the server. */
  datatype Attempt = Attempt(card: Scoring.ScoreCard, payload: Submission)

  class Session {
    var quizId: string
    var questions: seq<Question>
    var participantId: string
    var index: int
    var answers: map<int, Answer>
    var phase: Phase

    /** The cursor stays on a question while one is shown, and recorded answers fit their questions. */
    ghost predicate Valid()
      reads this
    {
      && WellFormedAnswers(questions, answers)
      && ((phase == Answering || phase == Scored) ==> 0 <= index < |questions|)
      && (phase == Identifying ==> index == 0)
      && (phase == Answering ==> participantId != [])
    }

    constructor ()
      ensures Valid() && phase == Listing
      ensures questions == [] && answers == map[] && index == 0 && participantId == []
    {
      quizId, questions, participantId := [], [], [];
      index, answers, phase := 0, map[], Listing;
    }

    /**
     * `startQuiz(id)`: with an unknown id nothing changes ("Quiz introuvable");
     * otherwise the quiz is taken up with the cursor at 0 and a fresh answer map,
     * and the participant-number form is shown.
     */
    method StartQuiz(catalogue: seq<Quiz>, id: string) returns (found: bool)
      requires Valid()
      modifies this
      ensures Valid()
      ensures found <==> Find(catalogue, id).Some?
      ensures found ==> quizId == id && questions == Find(catalogue, id).value.questions
      ensures found ==> index == 0 && answers == map[] && phase == Identifying
      ensures !found ==> quizId == old(quizId) && questions == old(questions) && index == old(index)
                         && answers == old(answers) && phase == old(phase)
      ensures participantId == old(participantId)
    {
      var quiz := Find(catalogue, id);
      if quiz.None? {
        return false;
      }
      found := true;
      quizId := quiz.value.id;
      questions := quiz.value.questions;
      index := 0;
      answers := map[];
      phase := Identifying;
    }

    /**
     * The submit handler of the participant-number form. The trimmed number is
     * stored in any case; a blank one keeps the form on screen, and so does a quiz
     * without questions, whose first question cannot be rendered.
     */
    method EnterParticipant(input: string) returns (outcome: StartOutcome)
      requires Valid() && phase == Identifying
      modifies this
      ensures Valid()
      ensures participantId == Trim(input)
      ensures outcome == (if Trim(input) == [] then BlankId else if questions == [] then NoQuestions else Started)
      ensures outcome == Started ==> phase == Answering && index == 0
      ensures outcome != Started ==> phase == Identifying
      ensures questions == old(questions) && answers == old(answers) && quizId == old(quizId)
    {
      participantId := Trim(input);
      if participantId == [] {
        return BlankId;
      }
      index := 0;
      if questions == [] {
        return NoQuestions;
      }
      phase := Answering;
      outcome := Started;
    }

    /** `saveCurrentAnswer`: commits the control of the question on screen, as Commit describes. */
    method SaveCurrentAnswer(c: Control)
      requires Valid() && phase == Answering && ControlFits(questions[index], c)
      modifies this`answers
      ensures Valid()
      ensures answers == Commit(old(answers), questions[index], index, c)
    {
      CommitKeepsWellFormed(questions, answers, index, c);
      answers := Commit(answers, questions[index], index, c);
    }

    /** The "Précédent" button, shown only when the cursor is past the first question. */
    method Prev(c: Control) returns (moved: bool)
      requires Valid() && phase == Answering && ControlFits(questions[index], c)
      modifies this
      ensures Valid() && phase == Answering
      ensures moved == (old(index) > 0)
      ensures moved ==> index == old(index) - 1 && answers == Commit(old(answers), old(questions[index]), old(index), c)
      ensures !moved ==> index == old(index) && answers == old(answers)
      ensures questions == old(questions) && quizId == old(quizId) && participantId == old(participantId)
    {
      moved := index > 0;
      if moved {
        SaveCurrentAnswer(c);
        index := index - 1;
      }
    }

    /** The "Suivant" button, shown only before the last question. */
    method Next(c: Control) returns (moved: bool)
      requires Valid() && phase == Answering && ControlFits(questions[index], c)
      modifies this
      ensures Valid() && phase == Answering
      ensures moved == (old(index) < |questions| - 1)
      ensures moved ==> index == old(index) + 1 && answers == Commit(old(answers), old(questions[index]), old(index), c)
      ensures !moved ==> index == old(index) && answers == old(answers)
      ensures questions == old(questions) && quizId == old(quizId) && participantId == old(participantId)
    {
      moved := index < |questions| - 1;
      if moved {
        SaveCurrentAnswer(c);
        index := index + 1;
      }
    }

    /**
     * The "Soumettre" button, shown on the last question when it is answerable:
     * commits the control, scores the attempt and yields the payload for
     * `/api/submit`, whose `total` is the number of answerable questions.
     */
    method Submit(c: Control) returns (sent: Option<Attempt>)
      requires Valid() && phase == Answering && ControlFits(questions[index], c)
      modifies this
      ensures Valid()
      ensures sent.Some? <==> old(index) == |questions| - 1 && !questions[old(index)].Case?
      ensures sent.Some? ==> answers == Commit(old(answers), old(questions[index]), old(index), c) && phase == Scored
      ensures sent.Some? ==> sent.value.card == Scoring.Score(questions, answers)
      ensures sent.Some? ==> sent.value.payload == Submission(participantId, quizId,
                               sent.value.card.earned, sent.value.card.correct, CountAnswerable(questions))
      ensures sent.None? ==> answers == old(answers) && phase == old(phase)
      ensures index == old(index) && questions == old(questions)
      ensures quizId == old(quizId) && participantId == old(participantId)
    {
      if index != |questions| - 1 || questions[index].Case? {
        return None;
      }
      SaveCurrentAnswer(c);
      var card := Scoring.CalculateResult(questions, answers);
      phase := Scored;
      sent := Some(Attempt(card, Submission(participantId, quizId, card.earned, card.correct, card.answerable)));
    }

    /** The "Terminer" button, shown on the last question when it is a `case` entry: back to the quiz list, nothing scored. */
    method Finish() returns (done: bool)
      requires Valid() && phase == Answering
      modifies this`phase
      ensures Valid()
      ensures done <==> old(index) == |questions| - 1 && questions[old(index)].Case?
      ensures phase == if done then Listing else old(phase)
      ensures answers == old(answers) && index == old(index) && questions == old(questions)
      ensures quizId == old(quizId) && participantId == old(participantId)
    {
      done := index == |questions| - 1 && questions[index].Case?;
      if done {
        phase := Listing;
      }
    }
  }
}
