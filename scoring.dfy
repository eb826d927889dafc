/**
 * Scoring of a finished attempt (`calculateAndSubmitResult` in public/app.js):
 * one pass over the questions that skips `case` entries, adds each answerable
 * question's weight to the total, adds it to the earned points when the recorded
 * answer is correct, and counts the correct answers.
 *
 * The specification is given by the functions over a prefix of the question list
 * (positions are absolute, so a prefix keeps the keys of the answer map); the
 * method CalculateResult is the loop itself, proved against them.
 */
module Scoring {
  import opened Wrappers
  import opened Strings
  import opened QuizModel

  predicate IsDigits(s: string)
  {
    forall i :: 0 <= i < |s| ==> '0' <= s[i] <= '9'
  }

  /** The value of a string of decimal digits; the empty string is 0. */
  function DigitsValue(s: string): nat
    requires IsDigits(s)
  {
    if s == [] then 0 else DigitsValue(s[..|s| - 1]) * 10 + (s[|s| - 1] as int - '0' as int)
  }

  /**
   * `Number(v)` for a recorded answer, where it yields an integer: a number is
   * itself; a string whose trimmed form is made of decimal digits is their value
   * (a blank string is 0); any other string gives None, which equals no index.
   */
  function NumberOf(a: Answer): (r: Option<int>)
    ensures a.Choice? ==> r == Some(a.index)
    ensures a.Typed? && r.Some? ==> r.value >= 0
  {
    match a
    case Choice(k) => Some(k)
    case Typed(s) => if IsDigits(Trim(s)) then Some(DigitsValue(Trim(s))) else None
  }

  /** `currentQuizAnswers[i] || ''` for a free-text question; a number recorded there reads as no text. */
  function RecordedText(a: Option<Answer>): (r: string)
    ensures a.None? ==> r == []
    ensures a.Some? && a.value.Typed? ==> r == a.value.value
    ensures a.Some? && a.value.Choice? ==> r == []
  {
    match a
    case Some(Typed(s)) => s
    case _ => ""
  }

  /**
   * Whether an answerable question is answered correctly.
   * Multiple choice: an answer is recorded and `Number(v) === q.answer`.
   * Free text: the recorded answer, trimmed and lower-cased, is non-empty and equals
   * the expected answer trimmed and lower-cased.
   */
  predicate IsCorrect(q: Question, a: Option<Answer>)
    requires !q.Case?
    ensures IsCorrect(q, a) ==> a.Some?
    ensures q.Text? && IsCorrect(q, a) ==> a.value.Typed? && Trim(a.value.value) != []
  {
    match q
    case Mcq(_, _, k, _) => a.Some? && NumberOf(a.value) == Some(k)
    case Text(_, expected, _) =>
      var v := Normalize(RecordedText(a));
      v != [] && Normalize(expected) == v
  }

  /** Sum of the weights of the answerable questions: 0 when there is none. */
  function TotalPoints(qs: seq<Question>): (r: real)
    ensures CountAnswerable(qs) == 0 ==> r == 0.0
  {
    if qs == [] then 0.0
    else TotalPoints(qs[..|qs| - 1]) + (if qs[|qs| - 1].Case? then 0.0 else Weight(qs[|qs| - 1]))
  }

  /** Sum of the weights of the answerable questions answered correctly: 0 when none is correct. */
  function EarnedPoints(qs: seq<Question>, answers: map<int, Answer>): (r: real)
    ensures CorrectCount(qs, answers) == 0 ==> r == 0.0
  {
    if qs == [] then 0.0
    else
      var i := |qs| - 1;
      EarnedPoints(qs[..i], answers)
        + (if !qs[i].Case? && IsCorrect(qs[i], Lookup(answers, i)) then Weight(qs[i]) else 0.0)
  }

  /** Number of answerable questions answered correctly; never more than the answerable ones. */
  function CorrectCount(qs: seq<Question>, answers: map<int, Answer>): (r: nat)
    ensures r <= CountAnswerable(qs)
  {
    if qs == [] then 0
    else
      var i := |qs| - 1;
      CorrectCount(qs[..i], answers)
        + (if !qs[i].Case? && IsCorrect(qs[i], Lookup(answers, i)) then 1 else 0)
  }

  /** What the result page shows: `earned / total` points and `correct / answerable` questions. */
  datatype ScoreCard = ScoreCard(earned: real, total: real, correct: nat, answerable: nat)

  function Score(qs: seq<Question>, answers: map<int, Answer>): (r: ScoreCard)
    ensures r.correct <= r.answerable <= |qs|
    ensures r.answerable == 0 ==> r.earned == 0.0 && r.total == 0.0
  {
    ScoreCard(EarnedPoints(qs, answers), TotalPoints(qs), CorrectCount(qs, answers), CountAnswerable(qs))
  }

  /** One entry of `detailedResults`. */
  datatype Detail = Detail(index: nat, correct: bool)

  /** `detailedResults.filter(r => r.correct).length`. */
  function CountCorrect(ds: seq<Detail>): (r: nat)
    ensures r <= |ds|
  {
    if ds == [] then 0 else CountCorrect(ds[..|ds| - 1]) + (if ds[|ds| - 1].correct then 1 else 0)
  }

  /** Every detail counts as correct exactly when each of them is. */
  lemma {:induction false} CountCorrectAll(ds: seq<Detail>)
    ensures CountCorrect(ds) == |ds| <==> forall k :: 0 <= k < |ds| ==> ds[k].correct
  {
    if ds != [] {
      var n := |ds| - 1;
      CountCorrectAll(ds[..n]);
      assert forall k :: 0 <= k < n ==> ds[..n][k] == ds[k];
    }
  }

  /** The scoring loop of `calculateAndSubmitResult`. */
  method CalculateResult(qs: seq<Question>, answers: map<int, Answer>) returns (card: ScoreCard)
    ensures card == Score(qs, answers)
  {
    var earnedPoints, totalPoints := 0.0, 0.0;
    var detailed: seq<Detail> := [];
    for i := 0 to |qs|
      invariant earnedPoints == EarnedPoints(qs[..i], answers)
      invariant totalPoints == TotalPoints(qs[..i])
      invariant CountCorrect(detailed) == CorrectCount(qs[..i], answers)
    {
      assert qs[..i + 1][..i] == qs[..i];
      var q := qs[i];
      if q.Case? {
        continue;
      }
      var pts := Weight(q);
      totalPoints := totalPoints + pts;
      var isCorrect := false;
      if q.Mcq? {
        var v := Lookup(answers, i);
        isCorrect := v.Some? && NumberOf(v.value) == Some(q.answerIndex);
      } else {
        var v := Normalize(RecordedText(Lookup(answers, i)));
        isCorrect := v != [] && Normalize(q.expected) == v;
      }
      assert isCorrect == IsCorrect(q, Lookup(answers, i));
      if isCorrect {
        earnedPoints := earnedPoints + pts;
      }
      ghost var before := detailed;
      detailed := detailed + [Detail(i, isCorrect)];
      assert detailed[..|detailed| - 1] == before;
    }
    assert qs[..|qs|] == qs;
    card := ScoreCard(earnedPoints, totalPoints, CountCorrect(detailed), CountAnswerable(qs));
  }

  /** The answerable questions, in order: `questions.filter(q => q.type !== 'case')`. */
  function AnswerableQuestions(qs: seq<Question>): (r: seq<Question>)
    ensures forall k :: 0 <= k < |r| ==> !r[k].Case?
    ensures forall q :: q in r <==> q in qs && !q.Case?
    ensures |r| == CountAnswerable(qs)
  {
    if qs == [] then []
    else AnswerableQuestions(qs[..|qs| - 1]) + (if qs[|qs| - 1].Case? then [] else [qs[|qs| - 1]])
  }

  /** Sum of `q.points || 1` over a list of answerable questions. */
  function SumOfWeights(qs: seq<Question>): real
    requires forall k :: 0 <= k < |qs| ==> !qs[k].Case?
  {
    if qs == [] then 0.0 else SumOfWeights(qs[..|qs| - 1]) + Weight(qs[|qs| - 1])
  }

  /**
   * `case` entries contribute nothing: the total is the sum of the weights of the
   * non-`case` questions, and the answerable total is their number.
   */
  lemma {:induction false} CaseQuestionsContributeNothing(qs: seq<Question>)
    ensures TotalPoints(qs) == SumOfWeights(AnswerableQuestions(qs))
    ensures CountAnswerable(qs) == |AnswerableQuestions(qs)|
  {
    if qs != [] {
      var i := |qs| - 1;
      CaseQuestionsContributeNothing(qs[..i]);
      var a := AnswerableQuestions(qs[..i]);
      if !qs[i].Case? {
        SumOfWeightsAppend(a, qs[i]);
      } else {
        assert a + [] == a;
      }
    }
  }

  lemma SumOfWeightsAppend(a: seq<Question>, x: Question)
    requires (forall k :: 0 <= k < |a| ==> !a[k].Case?) && !x.Case?
    ensures SumOfWeights(a + [x]) == SumOfWeights(a) + Weight(x)
  {
    assert (a + [x])[..|a|] == a;
  }

  /** Every answerable question has a non-negative stored weight (the authoring page demands at least 1). */
  ghost predicate NonNegativePoints(qs: seq<Question>)
  {
    forall i :: 0 <= i < |qs| && !qs[i].Case? ==> qs[i].points >= 0.0
  }

  /** Every answerable question is answered correctly. */
  ghost predicate AllCorrect(qs: seq<Question>, answers: map<int, Answer>)
  {
    forall i :: 0 <= i < |qs| && !qs[i].Case? ==> IsCorrect(qs[i], Lookup(answers, i))
  }

  lemma AllCorrectSplit(qs: seq<Question>, answers: map<int, Answer>)
    requires qs != []
    ensures AllCorrect(qs, answers) <==>
      AllCorrect(qs[..|qs| - 1], answers)
      && (qs[|qs| - 1].Case? || IsCorrect(qs[|qs| - 1], Lookup(answers, |qs| - 1)))
  {
    var i := |qs| - 1;
    assert forall j :: 0 <= j < i ==> qs[..i][j] == qs[j];
  }

  /**
   * The correct count never exceeds the answerable total; with non-negative
   * weights the earned points lie between 0 and the total points, and the total
   * is positive once there is an answerable question.
   */
  lemma {:induction false} ScoreBounds(qs: seq<Question>, answers: map<int, Answer>)
    ensures CorrectCount(qs, answers) <= CountAnswerable(qs)
    ensures NonNegativePoints(qs) ==> 0.0 <= EarnedPoints(qs, answers) <= TotalPoints(qs)
    ensures NonNegativePoints(qs) && CountAnswerable(qs) > 0 ==> TotalPoints(qs) > 0.0
  {
    if qs != [] {
      var i := |qs| - 1;
      assert forall j :: 0 <= j < i ==> qs[..i][j] == qs[j];
      ScoreBounds(qs[..i], answers);
    }
  }

  /** With non-negative weights, full marks are earned exactly when every answerable question is correct. */
  lemma {:induction false} FullMarksIffAllCorrect(qs: seq<Question>, answers: map<int, Answer>)
    requires NonNegativePoints(qs)
    ensures EarnedPoints(qs, answers) == TotalPoints(qs) <==> AllCorrect(qs, answers)
  {
    if qs != [] {
      var i := |qs| - 1;
      assert forall j :: 0 <= j < i ==> qs[..i][j] == qs[j];
      FullMarksIffAllCorrect(qs[..i], answers);
      ScoreBounds(qs[..i], answers);
      AllCorrectSplit(qs, answers);
    }
  }

  /** Answering every answerable question correctly earns the total points, whatever their sign. */
  lemma {:induction false} AllCorrectEarnsTotal(qs: seq<Question>, answers: map<int, Answer>)
    ensures AllCorrect(qs, answers) ==> EarnedPoints(qs, answers) == TotalPoints(qs)
  {
    if qs != [] {
      var i := |qs| - 1;
      AllCorrectSplit(qs, answers);
      AllCorrectEarnsTotal(qs[..i], answers);
    }
  }

  /** The correct count reaches the answerable total exactly when every answerable question is correct. */
  lemma {:induction false} CorrectCountIffAllCorrect(qs: seq<Question>, answers: map<int, Answer>)
    ensures CorrectCount(qs, answers) == CountAnswerable(qs) <==> AllCorrect(qs, answers)
  {
    if qs != [] {
      var i := |qs| - 1;
      CorrectCountIffAllCorrect(qs[..i], answers);
      ScoreBounds(qs[..i], answers);
      AllCorrectSplit(qs, answers);
    }
  }

  /** The weights are not validated by the server: one negative weight puts the earned points above the total. */
  lemma NegativePointsBreakBound()
    ensures var card := Score([Text("Q", "a", -1.0)], map[]); card.earned > card.total
  {
    assert [Text("Q", "a", -1.0)][..0] == [];
  }

  /** An answerable question with no recorded answer, or with a blank one, is never correct. */
  lemma UnansweredNeverCorrect(q: Question, a: Option<Answer>)
    requires !q.Case?
    requires a.None? || (q.Text? && Trim(RecordedText(a)) == [])
    ensures !IsCorrect(q, a)
  {
  }

  /** Free-text correctness ignores case and surrounding white space in the recorded answer. */
  lemma TextAnswerNormalized(q: Question, s: string)
    requires q.Text?
    ensures IsCorrect(q, Some(Typed(s))) == IsCorrect(q, Some(Typed(Normalize(s))))
  {
    var n := Normalize(s);
    TextCorrectness(q, s);
    TextCorrectness(q, n);
    NormalizeIdempotent(s);
  }

  /** A recorded text is judged by its normalized form alone, against the normalized expected answer. */
  lemma TextCorrectness(q: Question, t: string)
    requires q.Text?
    ensures IsCorrect(q, Some(Typed(t))) == (Normalize(t) != [] && Normalize(q.expected) == Normalize(t))
  {
    assert RecordedText(Some(Typed(t))) == t;
  }

  /** The decimal digit of d. */
  function DigitChar(d: nat): (c: char)
    requires d < 10
    ensures '0' <= c <= '9' && c as int - '0' as int == d
  {
    ('0' as int + d) as char
  }

  /** `String(k)` for a non-negative integer: its decimal numeral, as a radio button's value. */
  function Numeral(k: nat): (s: string)
    ensures s != [] && IsDigits(s)
  {
    if k < 10 then [DigitChar(k)] else Numeral(k / 10) + [DigitChar(k % 10)]
  }

  /** The value of a numeral is the number it spells. */
  lemma {:induction false} NumeralValue(k: nat)
    ensures DigitsValue(Numeral(k)) == k
  {
    if k >= 10 {
      var s := Numeral(k);
      NumeralValue(k / 10);
      assert s[..|s| - 1] == Numeral(k / 10);
    }
  }

  lemma DigitNotSpace(c: char)
    requires '0' <= c <= '9'
    ensures !IsSpace(c)
  {
  }

  /** `Number(String(k))` is k: a numeral recorded as text reads back as the number it spells. */
  lemma NumeralRoundTrip(k: nat)
    ensures NumberOf(Typed(Numeral(k))) == Some(k)
  {
    var s := Numeral(k);
    DigitNotSpace(s[0]);
    DigitNotSpace(s[|s| - 1]);
    TrimOfTrimmed(s);
    NumeralValue(k);
  }

  /**
   * A multiple-choice answer is judged by its numeric value: an option index and
   * its numeral recorded as text are judged alike, and they are correct exactly
   * when they name the answer index.
   */
  lemma McqAnswerByValue(q: Question, k: nat)
    requires q.Mcq?
    ensures IsCorrect(q, Some(Typed(Numeral(k)))) == IsCorrect(q, Some(Choice(k)))
    ensures IsCorrect(q, Some(Choice(k))) <==> k == q.answerIndex
  {
    NumeralRoundTrip(k);
  }

  /**
   * A character that can occur in a string `Number` accepts once trimmed: digits,
   * signs, the decimal point, exponent and radix letters, hexadecimal digits and
   * the letters of `Infinity`.
   */
  predicate NumericLiteralChar(c: char)
  {
    || '0' <= c <= '9' || c == '+' || c == '-' || c == '.'
    || 'a' <= c <= 'f' || 'A' <= c <= 'F'
    || c in {'x', 'X', 'o', 'O', 'I', 'n', 'i', 't', 'y'}
  }

  /**
   * Text whose trimmed form holds a character no numeric literal contains is no
   * number, for `Number` as for the model, and matches no answer index.
   */
  lemma NonNumeralNeverMatches(q: Question, s: string)
    requires q.Mcq?
    requires exists i :: 0 <= i < |Trim(s)| && !NumericLiteralChar(Trim(s)[i])
    ensures NumberOf(Typed(s)) == None
    ensures !IsCorrect(q, Some(Typed(s)))
  {
  }
}
