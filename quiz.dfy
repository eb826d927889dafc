/**
 * The quiz document shared by the participant page, the authoring page and the
 * server: questions as a tagged union, quizzes, recorded answers, and the two
 * lookups every component repeats (counting answerable questions, finding a quiz
 * by id).
 */
module QuizModel {
  import opened Wrappers

  /**
   * One entry of a quiz. `points` is the stored JSON value; 0.0 stands for a
   * value that is absent or zero, both of which are falsy in `points || 1`.
   * Points are numbers, not forced to be integers. A `case` entry is never
   * scored, but it carries whatever `points` it was stored with.
   */
  datatype Question =
    | Mcq(text: string, options: seq<string>, answerIndex: int, points: real)
    | Text(text: string, expected: string, points: real)
    | Case(text: string, points: real)

  /** `q.points || 1`: the weight of an entry. */
  function Weight(q: Question): (w: real)
    ensures w != 0.0
    ensures q.points >= 0.0 ==> w > 0.0
  {
    if q.points == 0.0 then 1.0 else q.points
  }

  /** A stored quiz document. */
  datatype Quiz = Quiz(id: string, title: string, description: string, questions: seq<Question>)

  /**
   * A recorded answer: the index of the checked radio button (stored with
   * `Number(v)`) or the trimmed text typed in the answer box.
   */
  datatype Answer = Choice(index: int) | Typed(value: string)

  /** The answer recorded at position `i`, if any (`currentQuizAnswers[i]`). */
  function Lookup(answers: map<int, Answer>, i: int): (r: Option<Answer>)
    ensures r.Some? <==> i in answers
    ensures r.Some? ==> r.value == answers[i]
  {
    if i in answers then Some(answers[i]) else None
  }

  /** The number of non-`case` entries: `questions.filter(x => x.type !== 'case').length`. */
  function CountAnswerable(qs: seq<Question>): (n: nat)
    ensures n <= |qs|
  {
    if qs == [] then 0
    else CountAnswerable(qs[..|qs| - 1]) + (if qs[|qs| - 1].Case? then 0 else 1)
  }

  /**
   * Counting over a longer prefix never gives less; an answerable entry adds one
   * and a `case` entry adds nothing.
   */
  lemma {:induction false} CountAnswerablePrefix(qs: seq<Question>, i: nat, j: nat)
    requires i <= j <= |qs|
    ensures CountAnswerable(qs[..i]) <= CountAnswerable(qs[..j])
    ensures i < j && !qs[j - 1].Case? ==> CountAnswerable(qs[..i]) < CountAnswerable(qs[..j])
    ensures 0 < j && qs[j - 1].Case? ==> CountAnswerable(qs[..j]) == CountAnswerable(qs[..j - 1])
  {
    if 0 < j {
      assert qs[..j][..j - 1] == qs[..j - 1];
    }
    if i < j {
      CountAnswerablePrefix(qs, i, j - 1);
    }
  }

  /**
   * `quizzes.findIndex(x => x.id === id)`: the first position holding that id,
   * or None when no quiz has it.
   */
  function FindIndex(quizzes: seq<Quiz>, id: string): (r: Option<nat>)
    ensures r.Some? ==> r.value < |quizzes| && quizzes[r.value].id == id
    ensures r.Some? ==> forall k :: 0 <= k < r.value ==> quizzes[k].id != id
    ensures r.None? ==> forall k :: 0 <= k < |quizzes| ==> quizzes[k].id != id
  {
    if quizzes == [] then None
    else if quizzes[0].id == id then Some(0)
    else match FindIndex(quizzes[1..], id)
      case None => None
      case Some(k) => Some(k + 1)
  }

  /** `quizzes.find(q => q.id === id)`: the first quiz holding that id. */
  function Find(quizzes: seq<Quiz>, id: string): (r: Option<Quiz>)
    ensures r.Some? <==> exists k :: 0 <= k < |quizzes| && quizzes[k].id == id
    ensures r.Some? ==> r.value.id == id && r.value == quizzes[FindIndex(quizzes, id).value]
  {
    match FindIndex(quizzes, id)
    case None => None
    case Some(k) => Some(quizzes[k])
  }

  /** The result the participant page sends to `/api/submit`. */
  datatype Submission = Submission(participantId: string, quizId: string, score: real, correct: nat, total: nat)
}
