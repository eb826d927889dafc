/**
 * The authoring page (public/admin.js): the question editor with its option
 * list, the draft question list, loading a stored quiz for editing, and
 * publishing the draft.
 *
 * The module-level variables `questions`, `editingIndex`, `editorOptions` and
 * `editingQuizId` are fields of Draft, together with four form inputs: the
 * answer-index input `eqAnswerIdx` and the quiz inputs `quizId`, `quizTitle` and
 * `quizDesc`. The other inputs of the question editor (`eqText`, `eqType`,
 * `eqPoints`, `eqTextAns`, `eqNewOption`) are parameters of the handlers that
 * read them, holding whatever the input shows when the button is clicked; what
 * `showQuestionModal` pre-fills into them is not kept. The storage outcome of a
 * publish is a boolean parameter.
 */
module Admin {
  import opened Wrappers
  import opened Strings
  import opened QuizModel

  // ---------------------------------------------------------------------------
  // escapeHtml

  /** `s.replace(/c/g, rep)` for a one-character pattern. */
  function ReplaceChar(s: string, c: char, rep: string): (r: string)
    ensures c !in s ==> r == s
    ensures c !in rep ==> c !in r
    ensures forall d :: d !in s && d !in rep ==> d !in r
  {
    if s == [] then [] else (if s[0] == c then rep else [s[0]]) + ReplaceChar(s[1..], c, rep)
  }

  /**
   * `escapeHtml`: `&`, `<` and `>` replaced, in that order, by their entities. The
   * result holds no `<` and no `>`, and a string without any of the three
   * characters comes back unchanged.
   */
  function EscapeHtml(s: string): (r: string)
    ensures '<' !in r && '>' !in r
    ensures '&' !in s && '<' !in s && '>' !in s ==> r == s
  {
    ReplaceChar(ReplaceChar(ReplaceChar(s, '&', "&amp;"), '<', "&lt;"), '>', "&gt;")
  }

  lemma {:induction false} ReplaceCharAppend(a: string, b: string, c: char, rep: string)
    ensures ReplaceChar(a + b, c, rep) == ReplaceChar(a, c, rep) + ReplaceChar(b, c, rep)
  {
    if a == [] {
      assert a + b == b;
    } else {
      assert (a + b)[0] == a[0];
      assert (a + b)[1..] == a[1..] + b;
      ReplaceCharAppend(a[1..], b, c, rep);
    }
  }

  /** The entity of one character. */
  function EscapeChar(x: char): string
  {
    if x == '&' then "&amp;" else if x == '<' then "&lt;" else if x == '>' then "&gt;" else [x]
  }

  /** Decodes the three entities `escapeHtml` produces; any other character stands for itself. */
  function Unescape(s: string): string
    decreases |s|
  {
    if s == [] then []
    else if |s| >= 5 && s[0] == '&' && s[1] == 'a' && s[2] == 'm' && s[3] == 'p' && s[4] == ';' then "&" + Unescape(s[5..])
    else if |s| >= 4 && s[0] == '&' && s[1] == 'l' && s[2] == 't' && s[3] == ';' then "<" + Unescape(s[4..])
    else if |s| >= 4 && s[0] == '&' && s[1] == 'g' && s[2] == 't' && s[3] == ';' then ">" + Unescape(s[4..])
    else [s[0]] + Unescape(s[1..])
  }

  lemma ReplaceSingle(x: char, c: char, rep: string)
    ensures ReplaceChar([x], c, rep) == if x == c then rep else [x]
  {
    assert [x][1..] == [];
  }

  /** On a single character the three chained passes give that character's entity. */
  lemma EscapeOne(x: char)
    ensures ReplaceChar(ReplaceChar(ReplaceChar([x], '&', "&amp;"), '<', "&lt;"), '>', "&gt;") == EscapeChar(x)
  {
    ReplaceSingle(x, '&', "&amp;");
    if x == '&' {
      assert '<' !in "&amp;" && '>' !in "&amp;";
    } else {
      ReplaceSingle(x, '<', "&lt;");
      if x == '<' {
        assert '>' !in "&lt;";
      } else {
        ReplaceSingle(x, '>', "&gt;");
      }
    }
  }

  /** The three chained passes escape each character on its own. */
  lemma {:induction false} EscapeHtmlByChar(s: string)
    requires s != []
    ensures EscapeHtml(s) == EscapeChar(s[0]) + EscapeHtml(s[1..])
  {
    var x := s[0];
    assert s == [x] + s[1..];
    ReplaceCharAppend([x], s[1..], '&', "&amp;");
    var a1, b1 := ReplaceChar([x], '&', "&amp;"), ReplaceChar(s[1..], '&', "&amp;");
    ReplaceCharAppend(a1, b1, '<', "&lt;");
    var a2, b2 := ReplaceChar(a1, '<', "&lt;"), ReplaceChar(b1, '<', "&lt;");
    ReplaceCharAppend(a2, b2, '>', "&gt;");
    EscapeOne(x);
  }

  lemma UnescapeStep(x: char, rest: string)
    ensures Unescape(EscapeChar(x) + rest) == [x] + Unescape(rest)
  {
    var e := EscapeChar(x) + rest;
    if x == '&' {
      assert e[..5] == "&amp;" && e[5..] == rest;
    } else if x == '<' {
      assert e[..4] == "&lt;" && e[4..] == rest;
    } else if x == '>' {
      assert e[..4] == "&gt;" && e[4..] == rest;
    } else {
      assert e[0] == x && e[1..] == rest;
    }
  }

  /** Escaping loses nothing: decoding the entities gives the original text back. */
  lemma {:induction false} UnescapeEscapeHtml(s: string)
    ensures Unescape(EscapeHtml(s)) == s
  {
    if s != [] {
      EscapeHtmlByChar(s);
      UnescapeStep(s[0], EscapeHtml(s[1..]));
      UnescapeEscapeHtml(s[1..]);
      assert [s[0]] + s[1..] == s;
    }
  }

  // ---------------------------------------------------------------------------
  // Question validation

  /** The editor's type selector: any value other than "mcq" is saved as a free-text question. */
  datatype Kind = McqKind | TextKind

  datatype Rejection =
    | EmptyText         // "Entrez le texte de la question"
    | PointsBelowOne    // "Les points doivent être ≥1"
    | TooFewOptions     // "≥2 options requises"
    | AnswerOutOfRange  // "Index invalide"
    | EmptyAnswer       // "Entrez la réponse"

  datatype Checked = Accepted(question: Question) | Rejected(reason: Rejection)

  /** A question the editor can produce: trimmed non-empty text, points at least 1, a valid answer. */
  predicate WellFormedQuestion(q: Question)
  {
    match q
    case Mcq(text, options, k, points) => Trim(text) != [] && |options| >= 2 && 0 <= k < |options| && points >= 1.0
    case Text(text, expected, points) => Trim(text) != [] && Trim(expected) != [] && points >= 1.0
    case Case(_, _) => false
  }

  /**
   * The checks of the save button, in order. `points` is `Number(input)`, None when
   * that is not finite (then 1 is used); `answerField` is the answer-index input.
   * A question is accepted exactly when every check passes, and it is then well formed.
   */
  function BuildQuestion(text: string, kind: Kind, points: Option<real>, options: seq<string>,
                         answerField: int, textAnswer: string): (r: Checked)
    ensures r.Accepted? <==>
      && Trim(text) != []
      && points.GetOr(1.0) >= 1.0
      && (kind == McqKind ==> |options| >= 2 && 0 <= answerField < |options|)
      && (kind == TextKind ==> Trim(textAnswer) != [])
    ensures Trim(text) == [] ==> r == Rejected(EmptyText)
    ensures r.Accepted? ==> WellFormedQuestion(r.question) && r.question.text == Trim(text)
    ensures r.Accepted? ==> r.question.points == points.GetOr(1.0)
    ensures r.Accepted? && kind == McqKind ==>
      r.question.Mcq? && r.question.options == options && r.question.answerIndex == answerField
    ensures r.Accepted? && kind == TextKind ==> r.question.Text? && r.question.expected == Trim(textAnswer)
  {
    var t := Trim(text);
    var pts := points.GetOr(1.0);
    TrimIdempotent(text);
    TrimIdempotent(textAnswer);
    if t == [] then Rejected(EmptyText)
    else if pts < 1.0 then Rejected(PointsBelowOne)
    else match kind
      case McqKind =>
        if |options| < 2 then Rejected(TooFewOptions)
        else if answerField < 0 || answerField >= |options| then Rejected(AnswerOutOfRange)
        else Accepted(Mcq(t, options, answerField, pts))
      case TextKind =>
        var ans := Trim(textAnswer);
        if ans == [] then Rejected(EmptyAnswer) else Accepted(Text(t, ans, pts))
  }

  /** No text occurs twice in the list. */
  predicate NoDuplicates(xs: seq<string>)
  {
    forall i, j :: 0 <= i < j < |xs| ==> xs[i] != xs[j]
  }

  /** `questions.splice(idx, 1)` for an index inside the list: that entry is removed, the others keep their order. */
  function RemoveAt<T>(xs: seq<T>, idx: nat): (r: seq<T>)
    requires idx < |xs|
    ensures |r| == |xs| - 1
    ensures forall j :: 0 <= j < idx ==> r[j] == xs[j]
    ensures forall j :: idx <= j < |r| ==> r[j] == xs[j + 1]
  {
    xs[..idx] + xs[idx + 1..]
  }

  /**
   * `questions.reduce((sum, q) => sum + (q.points || 1), 0)`: the total shown
   * above the question list, where every entry, `case` entries included, counts
   * its weight. With non-negative points a non-empty list shows a positive total.
   */
  function DraftTotalPoints(qs: seq<Question>): (r: real)
    ensures (forall k :: 0 <= k < |qs| ==> qs[k].points >= 0.0) ==> r >= 0.0
    ensures (forall k :: 0 <= k < |qs| ==> qs[k].points >= 0.0) && qs != [] ==> r > 0.0
  {
    if qs == [] then 0.0 else DraftTotalPoints(qs[..|qs| - 1]) + Weight(qs[|qs| - 1])
  }

  /** `editingQuizId` as a condition: null and the empty string are both false. */
  predicate IsEditing(editingQuizId: Option<string>)
    ensures IsEditing(editingQuizId) <==> editingQuizId != None && editingQuizId != Some([])
  {
    editingQuizId.Some? && editingQuizId.value != []
  }

  datatype OptionOutcome =
    | OptionAdded
    | BlankOption      // "Entrez le texte de l'option"
    | DuplicateOption  // "Cette option existe déjà"

  /** The request a publish sends: POST a new quiz, or PUT over the quiz being edited. */
  datatype Request = Create(quiz: Quiz) | Replace(id: string, quiz: Quiz)

  datatype PublishOutcome =
    | MissingIdOrTitle  // "Remplissez ID et titre"
    | NoQuestions       // "Ajoutez ≥1 question"
    | Sent(request: Request, ok: bool)

  /**
   * What the publish button does with the form and the draft. An empty trimmed id
   * or title, or an empty question list, is refused before anything is sent.
   * Otherwise the trimmed form fields and the draft questions are sent as a
   * replacement of the quiz being edited, or as a new quiz, and the request
   * reports the storage outcome.
   */
  function PublishRequest(formId: string, formTitle: string, formDesc: string, questions: seq<Question>,
                          editingQuizId: Option<string>, storageOk: bool): (r: PublishOutcome)
    ensures Trim(formId) == [] || Trim(formTitle) == [] ==> r == MissingIdOrTitle
    ensures Trim(formId) != [] && Trim(formTitle) != [] && questions == [] ==> r == NoQuestions
    ensures r.Sent? <==> Trim(formId) != [] && Trim(formTitle) != [] && questions != []
    ensures r.Sent? ==> r.ok == storageOk
    ensures r.Sent? ==> r.request.quiz == Quiz(Trim(formId), Trim(formTitle), Trim(formDesc), questions)
    ensures r.Sent? ==> r.request.quiz.id != [] && r.request.quiz.questions != []
    ensures r.Sent? ==> (r.request.Replace? <==> IsEditing(editingQuizId))
    ensures r.Sent? && r.request.Replace? ==> r.request.id == editingQuizId.value
  {
    var id, title, desc := Trim(formId), Trim(formTitle), Trim(formDesc);
    if id == [] || title == [] then MissingIdOrTitle
    else if questions == [] then NoQuestions
    else
      var payload := Quiz(id, title, desc, questions);
      Sent(if IsEditing(editingQuizId) then Replace(editingQuizId.value, payload) else Create(payload), storageOk)
  }

  class Draft {
    var questions: seq<Question>
    var editingIndex: int
    var editorOptions: seq<string>
    var answerField: int
    var editingQuizId: Option<string>
    var formId: string
    var formTitle: string
    var formDesc: string

    ghost predicate Valid()
      reads this
    {
      -1 <= editingIndex
    }

    constructor ()
      ensures Valid()
      ensures questions == [] && editingIndex == -1 && editorOptions == [] && editingQuizId == None
      ensures formId == [] && formTitle == [] && formDesc == []
    {
      questions, editingIndex, editorOptions, answerField := [], -1, [], 0;
      editingQuizId, formId, formTitle, formDesc := None, [], [], [];
    }

    /**
     * `showQuestionModal`: opens the editor on a new question (index -1, empty
     * option list, answer index 0) or on an existing one, whose options and answer
     * index are copied into the editor.
     */
    method OpenEditor(index: int)
      requires Valid()
      requires index == -1 || 0 <= index < |questions|
      modifies this`editingIndex, this`editorOptions, this`answerField
      ensures Valid() && editingIndex == index
      ensures index >= 0 && questions[index].Mcq? ==>
        editorOptions == questions[index].options && answerField == questions[index].answerIndex
      ensures index >= 0 && !questions[index].Mcq? ==> editorOptions == [] && answerField == old(answerField)
      ensures index == -1 ==> editorOptions == [] && answerField == 0
    {
      editingIndex := index;
      editorOptions := [];
      if index >= 0 {
        var q := questions[index];
        if q.Mcq? {
          editorOptions := q.options;
          answerField := q.answerIndex;
        }
      } else {
        answerField := 0;
      }
    }

    /** `hideQuestionModal` (also the cancel button). */
    method CloseEditor()
      requires Valid()
      modifies this`editingIndex
      ensures Valid() && editingIndex == -1
    {
      editingIndex := -1;
    }

    /** Typing in the answer-index input of the question editor. */
    method TypeAnswerIndex(k: int)
      requires Valid()
      modifies this`answerField
      ensures Valid() && answerField == k
    {
      answerField := k;
    }

    /** Typing in the quiz id, title and description inputs. */
    method TypeQuizFields(id: string, title: string, desc: string)
      requires Valid()
      modifies this`formId, this`formTitle, this`formDesc
      ensures Valid() && formId == id && formTitle == title && formDesc == desc
    {
      formId, formTitle, formDesc := id, title, desc;
    }

    /** The type selector's change handler: switching to multiple choice empties the option list. */
    method ChangeKind(kind: Kind)
      requires Valid()
      modifies this`editorOptions
      ensures Valid()
      ensures editorOptions == if kind == McqKind then [] else old(editorOptions)
    {
      if kind == McqKind {
        editorOptions := [];
      }
    }

    /**
     * The add-option button: blank text and text already in the list are refused;
     * otherwise the trimmed text is appended, so a duplicate-free list stays so.
     */
    method AddOption(input: string) returns (r: OptionOutcome)
      requires Valid()
      modifies this`editorOptions
      ensures Valid()
      ensures r == (if Trim(input) == [] then BlankOption
                    else if Trim(input) in old(editorOptions) then DuplicateOption
                    else OptionAdded)
      ensures editorOptions == if r == OptionAdded then old(editorOptions) + [Trim(input)] else old(editorOptions)
      ensures NoDuplicates(old(editorOptions)) ==> NoDuplicates(editorOptions)
    {
      var txt := Trim(input);
      if txt == [] {
        return BlankOption;
      }
      if txt in editorOptions {
        return DuplicateOption;
      }
      editorOptions := editorOptions + [txt];
      r := OptionAdded;
    }

    /**
     * `deleteEditorOption(idx)`: removes that option; if options remain and the
     * answer index now points past the end, it is moved to the last option.
     */
    method DeleteOption(idx: nat)
      requires Valid()
      modifies this`editorOptions, this`answerField
      ensures Valid()
      ensures editorOptions == if idx < |old(editorOptions)| then RemoveAt(old(editorOptions), idx) else old(editorOptions)
      ensures answerField == if old(answerField) >= |editorOptions| && |editorOptions| > 0
                             then |editorOptions| - 1 else old(answerField)
      ensures editorOptions != [] && old(answerField) >= 0 ==> 0 <= answerField < |editorOptions|
    {
      if idx < |editorOptions| {
        editorOptions := RemoveAt(editorOptions, idx);
      }
      if answerField >= |editorOptions| && |editorOptions| > 0 {
        answerField := |editorOptions| - 1;
      }
    }

    /**
     * The save button. A rejected question leaves the list as it was; an accepted
     * one replaces the entry being edited (length and every other entry unchanged)
     * or is appended when no entry is being edited, and the editor closes.
     */
    method SaveQuestion(text: string, kind: Kind, points: Option<real>, textAnswer: string) returns (r: Checked)
      requires Valid()
      requires editingIndex < |questions|
      modifies this`questions, this`editingIndex
      ensures Valid()
      ensures r == BuildQuestion(text, kind, points, editorOptions, answerField, textAnswer)
      ensures r.Rejected? ==> questions == old(questions) && editingIndex == old(editingIndex)
      ensures r.Accepted? && old(editingIndex) >= 0 ==>
        |questions| == |old(questions)| && questions[old(editingIndex)] == r.question
        && forall j :: 0 <= j < |questions| && j != old(editingIndex) ==> questions[j] == old(questions)[j]
      ensures r.Accepted? && old(editingIndex) == -1 ==> questions == old(questions) + [r.question]
      ensures r.Accepted? ==> editingIndex == -1
      ensures (forall j :: 0 <= j < |old(questions)| ==> WellFormedQuestion(old(questions)[j])) ==>
              (forall j :: 0 <= j < |questions| ==> WellFormedQuestion(questions[j]))
    {
      r := BuildQuestion(text, kind, points, editorOptions, answerField, textAnswer);
      if r.Accepted? {
        Place(r.question);
      }
    }

    /**
     * Puts an accepted question in the list: over the entry being edited, or at the
     * end when none is; then the editor closes.
     */
    method Place(q: Question)
      requires Valid() && editingIndex < |questions|
      modifies this`questions, this`editingIndex
      ensures Valid() && editingIndex == -1
      ensures old(editingIndex) >= 0 ==>
        |questions| == |old(questions)| && questions[old(editingIndex)] == q
        && forall j :: 0 <= j < |questions| && j != old(editingIndex) ==> questions[j] == old(questions)[j]
      ensures old(editingIndex) == -1 ==> questions == old(questions) + [q]
      ensures (forall j :: 0 <= j < |old(questions)| ==> WellFormedQuestion(old(questions)[j])) && WellFormedQuestion(q) ==>
              (forall j :: 0 <= j < |questions| ==> WellFormedQuestion(questions[j]))
    {
      ghost var before := questions;
      if editingIndex >= 0 {
        questions := questions[editingIndex := q];
        assert forall j :: 0 <= j < |questions| ==> questions[j] == q || questions[j] == before[j];
      } else {
        questions := questions + [q];
        assert forall j :: 0 <= j < |before| ==> questions[j] == before[j];
      }
      editingIndex := -1;
    }

    /** `deleteQuestion(idx)` after the confirmation dialog: removes exactly that entry. */
    method DeleteQuestion(idx: nat, confirmed: bool)
      requires Valid()
      modifies this`questions
      ensures Valid()
      ensures questions == if confirmed && idx < |old(questions)| then RemoveAt(old(questions), idx) else old(questions)
    {
      if confirmed && idx < |questions| {
        questions := RemoveAt(questions, idx);
      }
    }

    /**
     * `loadQuizToEdit(quizId)` once the quiz list has been fetched: an unknown id
     * changes nothing; otherwise the quiz becomes the one being edited, its fields
     * fill the form and the draft list becomes a copy of its questions.
     */
    method LoadQuizToEdit(stored: seq<Quiz>, quizId: string) returns (found: bool)
      requires Valid()
      modifies this`editingQuizId, this`formId, this`formTitle, this`formDesc, this`questions
      ensures Valid()
      ensures found <==> Find(stored, quizId).Some?
      ensures found ==> var quiz := Find(stored, quizId).value;
        editingQuizId == Some(quizId) && questions == quiz.questions
        && formId == quiz.id && formTitle == quiz.title && formDesc == quiz.description
      ensures !found ==> (editingQuizId == old(editingQuizId) && questions == old(questions)
        && formId == old(formId) && formTitle == old(formTitle) && formDesc == old(formDesc))
    {
      var quiz := Find(stored, quizId);
      if quiz.None? {
        return false;
      }
      found := true;
      editingQuizId := Some(quizId);
      formId, formTitle, formDesc := quiz.value.id, quiz.value.title, quiz.value.description;
      questions := quiz.value.questions;
    }

    /**
     * The publish button: sends what PublishRequest says. On success the draft and
     * the form are cleared; on a refusal or a failed request they stay for a retry.
     */
    method Publish(storageOk: bool) returns (r: PublishOutcome)
      requires Valid()
      modifies this`editingQuizId, this`formId, this`formTitle, this`formDesc, this`questions
      ensures Valid()
      ensures r == PublishRequest(old(formId), old(formTitle), old(formDesc), old(questions), old(editingQuizId), storageOk)
      ensures r.Sent? && storageOk ==>
        editingQuizId == None && questions == [] && formId == [] && formTitle == [] && formDesc == []
      ensures !(r.Sent? && storageOk) ==>
        (editingQuizId == old(editingQuizId) && questions == old(questions)
         && formId == old(formId) && formTitle == old(formTitle) && formDesc == old(formDesc))
    {
      r := PublishRequest(formId, formTitle, formDesc, questions, editingQuizId, storageOk);
      if r.Sent? && storageOk {
        Clear();
      }
    }

    /** The reset after a successful publish: no quiz is being edited, the draft and the form are empty. */
    method Clear()
      requires Valid()
      modifies this`editingQuizId, this`formId, this`formTitle, this`formDesc, this`questions
      ensures Valid()
      ensures editingQuizId == None && questions == [] && formId == [] && formTitle == [] && formDesc == []
    {
      editingQuizId := None;
      questions := [];
      formId, formTitle, formDesc := [], [], [];
    }
  }
}
