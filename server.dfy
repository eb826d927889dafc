/**
 * The API server (server.js): the admin token set behind `/api/login`,
 * `/api/logout` and `requireAdmin`, the quiz store behind the admin quiz
 * endpoints, and the append-only results store behind `/api/submit`.
 *
 * The two JSON files are fields of Store holding what a read would find:
 * nothing usable (a missing file or one that does not parse), or a parsed list.
 * Every handler reads the list with `readJSON(p) || []` and, when it writes,
 * replaces the file with a parsed list. The random token and the time stamp are
 * parameters.
 */
module Server {
  import opened Wrappers
  import opened QuizModel

  /** What `readJSON` finds in a store file. */
  datatype Stored<T> = Missing | Unreadable | Parsed(items: seq<T>)

  /** `readJSON(p) || []`: a missing or unparsable file reads as the empty list. */
  function ReadList<T>(f: Stored<T>): (r: seq<T>)
    ensures !f.Parsed? ==> r == []
    ensures f.Parsed? ==> r == f.items
  {
    if f.Parsed? then f.items else []
  }

  /** The HTTP status a handler answers with. */
  datatype Status = Ok | BadRequest | Unauthorized | NotFound

  /**
   * A quiz request body: each field is None when it is absent (`questions` also
   * when it is not an array).
   */
  datatype QuizBody = QuizBody(id: Option<string>, title: Option<string>, description: Option<string>,
                               questions: Option<seq<Question>>)

  /** A body field is falsy when it is absent or the empty string. */
  predicate Blank(s: Option<string>): (b: bool)
    ensures b <==> s.GetOr("") == []
  {
    s.None? || s.value == []
  }

  /** `!Array.isArray(b.questions) || b.questions.length === 0`. */
  predicate NoQuestionList(qs: Option<seq<Question>>): (b: bool)
    ensures b <==> |qs.GetOr([])| == 0
  {
    qs.None? || qs.value == []
  }

  /**
   * `{ ...qst, points: qst.points || 1 }`: every entry, `case` entries included,
   * keeps everything but its points, which become the stored points when truthy
   * and 1 otherwise.
   */
  function NormalizeOne(q: Question): (n: Question)
    ensures n.Case? == q.Case? && n.text == q.text
    ensures n.points == Weight(q) && n.points != 0.0
    ensures q.Mcq? ==> n.Mcq? && n.options == q.options && n.answerIndex == q.answerIndex
    ensures q.Text? ==> n.Text? && n.expected == q.expected
  {
    match q
    case Case(text, _) => Case(text, Weight(q))
    case Mcq(text, options, k, _) => Mcq(text, options, k, Weight(q))
    case Text(text, expected, _) => Text(text, expected, Weight(q))
  }

  /** Questions whose points are truthy are left as they are. */
  lemma NormalizeOneTruthy(q: Question)
    requires q.points != 0.0
    ensures NormalizeOne(q) == q
  {
  }

  /** `questions.map(qst => ({ ...qst, points: qst.points || 1 }))`. */
  function NormalizePoints(qs: seq<Question>): (r: seq<Question>)
    ensures |r| == |qs|
    ensures forall i :: 0 <= i < |qs| ==> r[i] == NormalizeOne(qs[i])
  {
    if qs == [] then []
    else NormalizePoints(qs[..|qs| - 1]) + [NormalizeOne(qs[|qs| - 1])]
  }

  /** Normalizing stored points a second time changes nothing: no stored question has zero points. */
  lemma NormalizePointsIdempotent(qs: seq<Question>)
    ensures NormalizePoints(NormalizePoints(qs)) == NormalizePoints(qs)
    ensures forall i :: 0 <= i < |qs| ==> NormalizePoints(qs)[i].points != 0.0
  {
    var r := NormalizePoints(qs);
    forall i | 0 <= i < |r|
      ensures NormalizePoints(r)[i] == r[i]
    {
      NormalizeOneTruthy(r[i]);
    }
  }

  /**
   * The quiz `/api/admin/quizzes` appends: the body with its points normalized.
   * An absent title or description is stored as the empty string.
   */
  function NewQuiz(body: QuizBody): (quiz: Quiz)
    requires !Blank(body.id) && !NoQuestionList(body.questions)
    ensures quiz.id == body.id.value && quiz.id != []
    ensures quiz.title == body.title.GetOr("") && quiz.description == body.description.GetOr("")
    ensures quiz.questions == NormalizePoints(body.questions.value) && |quiz.questions| > 0
  {
    Quiz(body.id.value, body.title.GetOr(""), body.description.GetOr(""), NormalizePoints(body.questions.value))
  }

  /**
   * `Object.assign(stored, upd)` after the update's points normalization: every
   * field present in the body overwrites the stored one (the id included), every
   * absent field keeps its stored value.
   */
  function Merge(stored: Quiz, body: QuizBody): (quiz: Quiz)
    requires body.questions.Some?
    ensures body.id.None? ==> quiz.id == stored.id
    ensures body.id.Some? ==> quiz.id == body.id.value
    ensures body.title.None? ==> quiz.title == stored.title
    ensures body.title.Some? ==> quiz.title == body.title.value
    ensures body.description.None? ==> quiz.description == stored.description
    ensures body.description.Some? ==> quiz.description == body.description.value
    ensures quiz.questions == NormalizePoints(body.questions.value)
  {
    Quiz(body.id.GetOr(stored.id), body.title.GetOr(stored.title), body.description.GetOr(stored.description),
         NormalizePoints(body.questions.value))
  }

  /** `q.filter(x => x.id !== id)`. */
  function RemoveId(quizzes: seq<Quiz>, id: string): (r: seq<Quiz>)
    ensures |r| <= |quizzes|
    ensures forall q :: q in r <==> q in quizzes && q.id != id
  {
    if quizzes == [] then []
    else (if quizzes[0].id == id then [] else [quizzes[0]]) + RemoveId(quizzes[1..], id)
  }

  /** Filtering distributes over concatenation, so the kept quizzes stay in their order. */
  lemma {:induction false} RemoveIdAppend(a: seq<Quiz>, b: seq<Quiz>, id: string)
    ensures RemoveId(a + b, id) == RemoveId(a, id) + RemoveId(b, id)
  {
    if a == [] {
      assert a + b == b;
    } else {
      assert (a + b)[0] == a[0];
      assert (a + b)[1..] == a[1..] + b;
      RemoveIdAppend(a[1..], b, id);
    }
  }

  /** Deleting an id no quiz carries leaves the list as it is. */
  lemma {:induction false} RemoveAbsentId(quizzes: seq<Quiz>, id: string)
    requires forall k :: 0 <= k < |quizzes| ==> quizzes[k].id != id
    ensures RemoveId(quizzes, id) == quizzes
  {
    if quizzes != [] {
      RemoveAbsentId(quizzes[1..], id);
    }
  }

  /** Deleting the same id twice is deleting it once. */
  lemma RemoveIdIdempotent(quizzes: seq<Quiz>, id: string)
    ensures RemoveId(RemoveId(quizzes, id), id) == RemoveId(quizzes, id)
  {
    var r := RemoveId(quizzes, id);
    forall k | 0 <= k < |r|
      ensures r[k].id != id
    {
      assert r[k] in r;
    }
    RemoveAbsentId(r, id);
  }

  /** A results request body: each field is None when absent. */
  datatype ResultBody = ResultBody(participantId: Option<string>, quizId: Option<string>,
                                   score: Option<real>, correct: Option<int>, total: Option<int>)

  /** One stored result: the body's five fields and the time stamp. */
  datatype ResultEntry = ResultEntry(participantId: string, quizId: string,
                                     score: Option<real>, correct: Option<int>, total: Option<int>, ts: string)

  /** The entry `/api/submit` appends, or None when the participant or quiz id is falsy. */
  function EntryOf(body: ResultBody, ts: string): (r: Option<ResultEntry>)
    ensures r.None? <==> Blank(body.participantId) || Blank(body.quizId)
    ensures r.Some? ==> r.value.participantId == body.participantId.value && r.value.quizId == body.quizId.value
    ensures r.Some? ==> r.value.score == body.score && r.value.correct == body.correct && r.value.total == body.total
    ensures r.Some? ==> r.value.ts == ts
  {
    if Blank(body.participantId) || Blank(body.quizId) then None
    else Some(ResultEntry(body.participantId.value, body.quizId.value, body.score, body.correct, body.total, ts))
  }

  /** The running server: its credentials, the admin token set and the two store files. */
  class Store {
    const adminEmail: string
    const adminPass: string
    var tokens: set<string>
    var quizFile: Stored<Quiz>
    var resultsFile: Stored<ResultEntry>

    /** Credentials are set, and the results file exists once the server has started. */
    ghost predicate Valid()
      reads this
    {
      adminEmail != [] && adminPass != [] && !resultsFile.Missing?
    }

    /**
     * Start-up: the process refuses to run without both credentials, and creates
     * an empty results file when there is none.
     */
    constructor (email: string, pass: string, quizzes: Stored<Quiz>, results: Stored<ResultEntry>)
      requires email != [] && pass != []
      ensures Valid()
      ensures adminEmail == email && adminPass == pass && tokens == {}
      ensures quizFile == quizzes
      ensures resultsFile == (if results.Missing? then Parsed([]) else results)
    {
      adminEmail, adminPass := email, pass;
      tokens := {};
      quizFile := quizzes;
      resultsFile := if results.Missing? then Parsed([]) else results;
    }

    /** `requireAdmin`: a falsy token never passes; a truthy one passes exactly while it is in the set. */
    predicate Authorized(token: Option<string>)
      reads this
      ensures Blank(token) ==> !Authorized(token)
      ensures !Blank(token) ==> (Authorized(token) <==> token.value in tokens)
    {
      token.Some? && token.value != [] && token.value in tokens
    }

    /** `/api/login`: with matching credentials the new token joins the set and is returned. */
    method Login(email: Option<string>, password: Option<string>, newToken: string) returns (r: Option<string>)
      requires Valid()
      modifies this`tokens
      ensures Valid()
      ensures r.Some? <==> email == Some(adminEmail) && password == Some(adminPass)
      ensures r.Some? ==> r.value == newToken && tokens == old(tokens) + {newToken}
      ensures r.Some? && newToken != [] ==> Authorized(r)
      ensures r.None? ==> tokens == old(tokens)
    {
      if email == Some(adminEmail) && password == Some(adminPass) {
        tokens := tokens + {newToken};
        r := Some(newToken);
      } else {
        r := None;
      }
    }

    /** `/api/logout`: a truthy presented token leaves the set; the answer is always ok. */
    method Logout(token: Option<string>)
      requires Valid()
      modifies this`tokens
      ensures Valid()
      ensures !Blank(token) ==> tokens == old(tokens) - {token.value}
      ensures Blank(token) ==> tokens == old(tokens)
      ensures !Authorized(token)
    {
      if token.Some? && token.value != [] && token.value in tokens {
        tokens := tokens - {token.value};
      }
    }

    /** `GET /api/admin/quizzes`. */
    method ListQuizzes(token: Option<string>) returns (status: Status, list: seq<Quiz>)
      requires Valid()
      ensures status == Ok <==> Authorized(token)
      ensures status != Ok ==> status == Unauthorized && list == []
      ensures status == Ok ==> list == ReadList(quizFile)
    {
      if !Authorized(token) {
        return Unauthorized, [];
      }
      status, list := Ok, ReadList(quizFile);
    }

    /**
     * `POST /api/admin/quizzes`: a body without an id, or without a non-empty
     * question list, is refused; otherwise exactly one quiz is appended. Ids are
     * not checked for duplicates.
     */
    method CreateQuiz(token: Option<string>, body: QuizBody) returns (status: Status)
      requires Valid()
      modifies this`quizFile
      ensures Valid()
      ensures !Authorized(token) ==> status == Unauthorized
      ensures Authorized(token) && Blank(body.id) ==> status == BadRequest
      ensures Authorized(token) && !Blank(body.id) && NoQuestionList(body.questions) ==> status == BadRequest
      ensures status == Ok <==> Authorized(token) && !Blank(body.id) && !NoQuestionList(body.questions)
      ensures status == Ok ==> quizFile == Parsed(ReadList(old(quizFile)) + [NewQuiz(body)])
      ensures status != Ok ==> quizFile == old(quizFile)
    {
      if !Authorized(token) {
        return Unauthorized;
      }
      if Blank(body.id) {
        return BadRequest;
      }
      if NoQuestionList(body.questions) {
        return BadRequest;
      }
      var q := ReadList(quizFile);
      quizFile := Parsed(q + [NewQuiz(body)]);
      status := Ok;
    }

    /**
     * `PUT /api/admin/quizzes/:id`: an id no stored quiz carries is not found (the
     * question list is checked only after that); otherwise the first quiz with the
     * id gets the body merged over it and no other entry changes.
     */
    method UpdateQuiz(token: Option<string>, id: string, body: QuizBody) returns (status: Status)
      requires Valid()
      modifies this`quizFile
      ensures Valid()
      ensures !Authorized(token) ==> status == Unauthorized
      ensures Authorized(token) && FindIndex(ReadList(old(quizFile)), id).None? ==> status == NotFound
      ensures Authorized(token) && FindIndex(ReadList(old(quizFile)), id).Some? && NoQuestionList(body.questions)
        ==> status == BadRequest
      ensures status == Ok <==>
        Authorized(token) && FindIndex(ReadList(old(quizFile)), id).Some? && !NoQuestionList(body.questions)
      ensures status == Ok ==>
        var q := ReadList(old(quizFile));
        var k := FindIndex(q, id).value;
        quizFile == Parsed(q[k := Merge(q[k], body)])
      ensures status != Ok ==> quizFile == old(quizFile)
    {
      if !Authorized(token) {
        return Unauthorized;
      }
      var q := ReadList(quizFile);
      var idx := FindIndex(q, id);
      if idx.None? {
        return NotFound;
      }
      if NoQuestionList(body.questions) {
        return BadRequest;
      }
      var k := idx.value;
      quizFile := Parsed(q[k := Merge(q[k], body)]);
      status := Ok;
    }

    /** `DELETE /api/admin/quizzes/:id`: every quiz with the id goes; a missing id is not an error. */
    method DeleteQuiz(token: Option<string>, id: string) returns (status: Status)
      requires Valid()
      modifies this`quizFile
      ensures Valid()
      ensures status == Ok <==> Authorized(token)
      ensures status != Ok ==> status == Unauthorized && quizFile == old(quizFile)
      ensures status == Ok ==> quizFile == Parsed(RemoveId(ReadList(old(quizFile)), id))
    {
      if !Authorized(token) {
        return Unauthorized;
      }
      quizFile := Parsed(RemoveId(ReadList(quizFile), id));
      status := Ok;
    }

    /**
     * `/api/submit`, open to anyone: a falsy participant or quiz id is refused;
     * otherwise exactly one entry is appended after the earlier results.
     */
    method Submit(body: ResultBody, ts: string) returns (status: Status)
      requires Valid()
      modifies this`resultsFile
      ensures Valid()
      ensures status == Ok <==> !Blank(body.participantId) && !Blank(body.quizId)
      ensures status != Ok ==> status == BadRequest && resultsFile == old(resultsFile)
      ensures status == Ok ==> resultsFile == Parsed(ReadList(old(resultsFile)) + [EntryOf(body, ts).value])
    {
      var entry := EntryOf(body, ts);
      if entry.None? {
        return BadRequest;
      }
      resultsFile := Parsed(ReadList(resultsFile) + [entry.value]);
      status := Ok;
    }

    /** `GET /api/admin/results`. */
    method ListResults(token: Option<string>) returns (status: Status, list: seq<ResultEntry>)
      requires Valid()
      ensures status == Ok <==> Authorized(token)
      ensures status != Ok ==> status == Unauthorized && list == []
      ensures status == Ok ==> list == ReadList(resultsFile)
    {
      if !Authorized(token) {
        return Unauthorized, [];
      }
      status, list := Ok, ReadList(resultsFile);
    }
  }
}
