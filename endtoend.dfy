/**
 * How the three components meet: what the authoring page publishes is what the
 * server stores, the server's normalization of points never changes a score,
 * the server stores multiple-choice answers the authoring page would refuse,
 * the points total shown while authoring differs from the score total by the
 * weights of the `case` entries, and what the participant page submits is
 * recorded.
 */
module EndToEnd {
  import opened Wrappers
  import opened Strings
  import opened QuizModel
  import opened Scoring
  import Admin
  import Server

  /** `JSON.stringify(payload)` as the server reads it back: every field present. */
  function BodyOf(quiz: Quiz): (b: Server.QuizBody)
    ensures Server.Blank(b.id) <==> quiz.id == []
    ensures Server.NoQuestionList(b.questions) <==> quiz.questions == []
    ensures b.title.GetOr("") == quiz.title && b.description.GetOr("") == quiz.description
    ensures b.questions.GetOr([]) == quiz.questions
  {
    Server.QuizBody(Some(quiz.id), Some(quiz.title), Some(quiz.description), Some(quiz.questions))
  }

  /** Points that are already truthy survive the server's normalization untouched. */
  lemma NormalizeTruthyPoints(qs: seq<Question>)
    requires forall i :: 0 <= i < |qs| ==> qs[i].points != 0.0
    ensures Server.NormalizePoints(qs) == qs
  {
    var r := Server.NormalizePoints(qs);
    forall i | 0 <= i < |qs|
      ensures r[i] == qs[i]
    {
      Server.NormalizeOneTruthy(qs[i]);
    }
  }

  /**
   * A quiz the publish button sends (Admin.PublishRequest promises a non-empty id
   * and question list) passes the server's checks, and when every entry has
   * truthy points (as every editor-built question, with points of at least 1, and
   * every entry the server has stored), the server stores exactly the drafted
   * quiz: on create as a new entry, on update merged over whatever was stored.
   * The answer indices are not looked at, so an out-of-range one is stored too.
   */
  lemma PublishedQuizStoredAsDrafted(quiz: Quiz, stored: Quiz)
    requires quiz.id != [] && quiz.questions != []
    requires forall i :: 0 <= i < |quiz.questions| ==> quiz.questions[i].points != 0.0
    ensures !Server.Blank(BodyOf(quiz).id) && !Server.NoQuestionList(BodyOf(quiz).questions)
    ensures Server.NewQuiz(BodyOf(quiz)) == quiz
    ensures Server.Merge(stored, BodyOf(quiz)) == quiz
  {
    NormalizeTruthyPoints(quiz.questions);
  }

  /**
   * The answer range is checked only by the question editor: a multiple-choice
   * question whose answer index lies outside its options is refused there, yet a
   * quiz holding it passes the server's create checks and is stored as sent.
   */
  lemma ServerAcceptsOutOfRangeAnswer(id: string, text: string, options: seq<string>, k: int, points: real)
    requires id != [] && Trim(text) != [] && |options| >= 2 && points >= 1.0
    requires k < 0 || k >= |options|
    ensures Admin.BuildQuestion(text, Admin.McqKind, Some(points), options, k, "") == Admin.Rejected(Admin.AnswerOutOfRange)
    ensures var body := Server.QuizBody(Some(id), None, None, Some([Mcq(text, options, k, points)]));
            && !Server.Blank(body.id) && !Server.NoQuestionList(body.questions)
            && Server.NewQuiz(body).questions == [Mcq(text, options, k, points)]
  {
    NormalizeTruthyPoints([Mcq(text, options, k, points)]);
  }

  /** One normalized question scores like the original: same kind, same weight, same correctness. */
  lemma NormalizedQuestionScoresAlike(q: Question, a: Option<Answer>)
    ensures Server.NormalizeOne(q).Case? == q.Case?
    ensures Weight(Server.NormalizeOne(q)) == Weight(q)
    ensures !q.Case? ==> IsCorrect(Server.NormalizeOne(q), a) == IsCorrect(q, a)
  {
  }

  /** The server's `points || 1` normalization never changes the score of any set of answers. */
  lemma {:induction false} ScoreIgnoresNormalization(qs: seq<Question>, answers: map<int, Answer>)
    ensures Score(Server.NormalizePoints(qs), answers) == Score(qs, answers)
  {
    if qs != [] {
      var i := |qs| - 1;
      var n := Server.NormalizePoints(qs);
      assert n == Server.NormalizePoints(qs[..i]) + [Server.NormalizeOne(qs[i])];
      assert n[..i] == Server.NormalizePoints(qs[..i]);
      ScoreIgnoresNormalization(qs[..i], answers);
      NormalizedQuestionScoresAlike(qs[i], Lookup(answers, i));
    }
  }

  /** The sum of the weights (`points || 1`) of the `case` entries. */
  function CaseEntryPoints(qs: seq<Question>): real
  {
    if qs == [] then 0.0
    else CaseEntryPoints(qs[..|qs| - 1]) + (if qs[|qs| - 1].Case? then Weight(qs[|qs| - 1]) else 0.0)
  }

  /**
   * The total shown under the draft question list adds the weight of every
   * `case` entry, which the total the participant is scored against leaves out.
   * So it is never below the scored total when the `case` points are
   * non-negative, and exceeds it by exactly one point per `case` entry when each
   * of them is stored without points or with 1.
   */
  lemma {:induction false} DraftTotalCountsCaseEntries(qs: seq<Question>)
    ensures Admin.DraftTotalPoints(qs) == TotalPoints(qs) + CaseEntryPoints(qs)
    ensures (forall i :: 0 <= i < |qs| && qs[i].Case? ==> qs[i].points >= 0.0) ==>
      Admin.DraftTotalPoints(qs) >= TotalPoints(qs)
    ensures (forall i :: 0 <= i < |qs| && qs[i].Case? ==> qs[i].points == 0.0 || qs[i].points == 1.0) ==>
      Admin.DraftTotalPoints(qs) == TotalPoints(qs) + (|qs| - CountAnswerable(qs)) as real
  {
    if qs != [] {
      var i := |qs| - 1;
      assert forall j :: 0 <= j < i ==> qs[..i][j] == qs[j];
      DraftTotalCountsCaseEntries(qs[..i]);
    }
  }

  /** `JSON.stringify(payload)` of a participant's submission, as the server reads it back. */
  function ResultBodyOf(s: Submission): (b: Server.ResultBody)
    ensures Server.Blank(b.participantId) <==> s.participantId == []
    ensures Server.Blank(b.quizId) <==> s.quizId == []
    ensures b.score == Some(s.score) && b.correct == Some(s.correct) && b.total == Some(s.total)
  {
    Server.ResultBody(Some(s.participantId), Some(s.quizId), Some(s.score), Some(s.correct), Some(s.total))
  }

  /** A submission carrying both ids is recorded with its score, correct count and answerable total. */
  lemma SubmissionRecorded(s: Submission, ts: string)
    requires s.participantId != [] && s.quizId != []
    ensures Server.EntryOf(ResultBodyOf(s), ts)
      == Some(Server.ResultEntry(s.participantId, s.quizId, Some(s.score), Some(s.correct), Some(s.total), ts))
  {
  }
}
