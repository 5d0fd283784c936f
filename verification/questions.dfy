/**
 * The question controller over an in-memory `questions` collection kept
 * in natural order. Questions are either ordinary questions or vents (the
 * `type` field); deletion removes the document. The user, course,
 * university and department collections are reduced to the sets of ids
 * they hold; the search pattern comes in as a predicate on text.
 */
module Questions {
  import opened Wrappers
  import opened Store
  import opened Sorting
  import opened Reactions

  datatype Question = Question(
    id: ObjectId,
    userId: ObjectId,
    courseId: ObjectId,
    universityId: Option<ObjectId>,
    departmentId: Option<ObjectId>,
    title: string,
    content: string,
    kind: string,
    createdAt: int,
    updatedAt: Option<int>,
    opinions: Opinions,
    savedBy: IdArray)

  const DefaultKind := "question"
  const InvalidId := "Invalid ID"
  const InvalidInput := "Invalid input"
  const QuestionNotFound := "Question not found"
  const ErrorFetchingUser := "Error fetching user information"
  const ErrorFetchingCourse := "Error fetching course information"
  const CouldNotCreate := "Could not create question"
  const NoPermission := "No permission or question not found"
  const QuestionUpdated := "Question updated"
  const QuestionDeleted := "Question deleted"
  const Liked := "Question liked successfully"
  const Disliked := "Question disliked successfully"
  const Saved := "Question saved successfully"
  const Unsaved := "Question unsaved successfully"

  function Find(questions: seq<Question>, id: ObjectId): Option<nat>
  {
    FirstWhere(questions, (q: Question) => q.id == id)
  }

  /** The type a question is stored or listed under: "question" when none
      is given. */
  function KindOr(kind: string): (k: string)
    ensures k != ""
    ensures kind != "" ==> k == kind
  {
    if kind == "" then DefaultKind else kind
  }

  // ---------------------------------------------------------------------
  // Listing
  // ---------------------------------------------------------------------

  /** The filter `GetQuestions` builds: the type, whether to search, and
      the values the id fields are compared with when given. */
  datatype QuestionFilter = QuestionFilter(
    kind: string,
    search: bool,
    course: Option<Bson>,
    university: Option<Bson>,
    department: Option<Bson>)

  /** How a query parameter is compared with an id field: as written, the
      parameter string itself. */
  function ParamAsWritten(s: string): Bson
  {
    BString(s)
  }

  /** As evidently intended: the id the parameter spells, when it spells
      one. */
  function ParamCorrected(s: string): Bson
  {
    match ParseObjectId(s)
    case Some(id) => BObjectId(id)
    case None => BString(s)
  }

  /** The filter for the query parameters; each id condition is added only
      for a non-empty parameter. */
  function BuildFilter(search: string, course: string, university: string, department: string, kind: string,
                       param: string -> Bson): QuestionFilter
  {
    QuestionFilter(
      KindOr(kind),
      search != "",
      if course != "" then Some(param(course)) else None,
      if university != "" then Some(param(university)) else None,
      if department != "" then Some(param(department)) else None)
  }

  /** An optional id field against an optional condition: a missing field
      equals no value. */
  predicate OptionalMatches(field: Option<ObjectId>, cond: Option<Bson>)
  {
    cond.None? || (field.Some? && FieldMatches(BObjectId(field.value), cond.value))
  }

  /** Whether the filter selects the question; `matches` is the search
      pattern, applied case-insensitively to content and title. */
  predicate Selects(f: QuestionFilter, matches: string -> bool, q: Question)
  {
    && q.kind == f.kind
    && (!f.search || matches(q.content) || matches(q.title))
    && OptionalMatches(Some(q.courseId), f.course)
    && OptionalMatches(q.universityId, f.university)
    && OptionalMatches(q.departmentId, f.department)
  }

  function CreatedOf(q: Question): int { q.createdAt }

  /** The query's answer: the selected questions, newest first, or 500 when
      one of their authors is not a known user. */
  function RunQuery(questions: seq<Question>, users: set<ObjectId>, f: QuestionFilter, matches: string -> bool)
    : Response<seq<Question>>
  {
    var r := SortDesc(Filter(questions, q => Selects(f, matches, q)), CreatedOf);
    if exists k :: 0 <= k < |r| && r[k].userId !in users then Error(StatusServerError, ErrorFetchingUser)
    else Ok(StatusOK, r)
  }

  /** The listing as Gin writes it: the handler appends to a slice declared
      nil, so an empty selection goes out as `null`, not `[]`. */
  datatype ListingBody = Null | Array(items: seq<Question>)

  function ListingBodyOf(items: seq<Question>): (b: ListingBody)
    ensures b.Null? <==> items == []
    ensures b.Array? ==> b.items == items
  {
    if items == [] then Null else Array(items)
  }

  /** `GetQuestions` as written. */
  function GetQuestionsAsWritten(questions: seq<Question>, users: set<ObjectId>, search: string, course: string,
                                 university: string, department: string, kind: string, matches: string -> bool)
    : Response<seq<Question>>
  {
    RunQuery(questions, users, BuildFilter(search, course, university, department, kind, ParamAsWritten), matches)
  }

  /** `GetQuestions` with the id parameters compared as ids. */
  function GetQuestions(questions: seq<Question>, users: set<ObjectId>, search: string, course: string,
                        university: string, department: string, kind: string, matches: string -> bool)
    : Response<seq<Question>>
  {
    RunQuery(questions, users, BuildFilter(search, course, university, department, kind, ParamCorrected), matches)
  }

  /** The type defaults to "question", and every other condition is there
      exactly when its parameter is non-empty. */
  lemma FilterDefaults(search: string, course: string, university: string, department: string, kind: string,
                       param: string -> Bson)
    ensures var f := BuildFilter(search, course, university, department, kind, param);
            && f.kind == (if kind == "" then "question" else kind)
            && (f.search <==> search != "")
            && (f.course.Some? <==> course != "")
            && (f.university.Some? <==> university != "")
            && (f.department.Some? <==> department != "")
  {
  }

  /** A listing holds exactly the selected questions, newest first, unless
      an author is missing. */
  lemma ListingRules(questions: seq<Question>, users: set<ObjectId>, f: QuestionFilter, matches: string -> bool)
    ensures var r := RunQuery(questions, users, f, matches);
            && (r.Error? ==> r == Error(StatusServerError, ErrorFetchingUser)
                             && exists q :: q in questions && Selects(f, matches, q) && q.userId !in users)
            && (r.Ok? ==> Descending(r.value, CreatedOf)
                          && forall q :: q in r.value <==> q in questions && Selects(f, matches, q))
  {
    var s := SortDesc(Filter(questions, q => Selects(f, matches, q)), CreatedOf);
    forall q ensures q in s <==> q in questions && Selects(f, matches, q) {
      ChosenAreKept(questions, q => Selects(f, matches, q), CreatedOf, q);
    }
    if exists k :: 0 <= k < |s| && s[k].userId !in users {
      var k :| 0 <= k < |s| && s[k].userId !in users;
      assert s[k] in s;
    }
  }

  /** As written, a course, university or department parameter selects no
      question at all, so the listing is empty whatever the collection
      holds, and the body is `null`. */
  lemma AsWrittenIdFiltersSelectNothing(questions: seq<Question>, users: set<ObjectId>, search: string, course: string,
                                        university: string, department: string, kind: string, matches: string -> bool)
    requires course != "" || university != "" || department != ""
    ensures GetQuestionsAsWritten(questions, users, search, course, university, department, kind, matches) == Ok(StatusOK, [])
    ensures ListingBodyOf(GetQuestionsAsWritten(questions, users, search, course, university, department, kind, matches).value) == Null
  {
    var f := BuildFilter(search, course, university, department, kind, ParamAsWritten);
    forall q: Question ensures !Selects(f, matches, q) {
      StringNeverMatchesId(q.courseId, course);
    }
    FilterNothing(questions, q => Selects(f, matches, q));
  }

  /** With ids compared, a course parameter spelling an id selects exactly
      the questions of that course (among those the other conditions
      select). */
  lemma CorrectedCourseFilter(search: string, course: string, kind: string, matches: string -> bool, q: Question)
    requires ParseObjectId(course).Some?
    ensures Selects(BuildFilter(search, course, "", "", kind, ParamCorrected), matches, q) <==>
              Selects(BuildFilter(search, "", "", "", kind, ParamCorrected), matches, q)
              && q.courseId == ParseObjectId(course).value
  {
  }

  // ---------------------------------------------------------------------
  // Reading one question
  // ---------------------------------------------------------------------

  /** What `GetQuestionByID` answers: the question with its reactions
      reported as counts. */
  datatype QuestionView = QuestionView(question: Question, likes: nat, dislikes: nat, savedBy: nat)

  /** `GetQuestionByID`: the question, its author and its course must be
      found. */
  function GetQuestionById(questions: seq<Question>, users: set<ObjectId>, courses: set<ObjectId>, idParam: string)
    : (r: Response<QuestionView>)
    ensures r.Ok? <==> ParseObjectId(idParam).Some? && Find(questions, ParseObjectId(idParam).value).Some?
                       && var q := questions[Find(questions, ParseObjectId(idParam).value).value];
                          q.userId in users && q.courseId in courses
    ensures ParseObjectId(idParam).None? ==> r == Error(StatusBadRequest, InvalidId)
    ensures ParseObjectId(idParam).Some? && Find(questions, ParseObjectId(idParam).value).None? ==>
              r == Error(StatusNotFound, QuestionNotFound)
    ensures r.Ok? ==> var q := questions[Find(questions, ParseObjectId(idParam).value).value];
                      && r.value.question == q
                      && r.value.likes == |Elements(q.opinions.likes)|
                      && r.value.dislikes == |Elements(q.opinions.dislikes)|
                      && r.value.savedBy == |Elements(q.savedBy)|
  {
    match ParseObjectId(idParam)
    case None => Error(StatusBadRequest, InvalidId)
    case Some(oid) =>
      match Find(questions, oid)
      case None => Error(StatusNotFound, QuestionNotFound)
      case Some(i) =>
        var q := questions[i];
        if q.userId !in users then Error(StatusServerError, ErrorFetchingUser)
        else if q.courseId !in courses then Error(StatusServerError, ErrorFetchingCourse)
        else Ok(StatusOK, QuestionView(q, Size(q.opinions.likes), Size(q.opinions.dislikes), Size(q.savedBy)))
  }

  // ---------------------------------------------------------------------
  // Creating, editing, deleting
  // ---------------------------------------------------------------------

  /** `CreateQuestion`, answering with the record it stored: the author
      and creation time are replaced and an empty type becomes "question";
      everything else the body sends is kept. */
  function CreateQuestion(questions: seq<Question>, user: Option<string>, body: Body<Question>, freshId: ObjectId, now: int)
    : (seq<Question>, Response<Question>)
  {
    match RequesterId(user)
    case Error(status, error) => (questions, Error(status, error))
    case Ok(_, uid) =>
      if body.Malformed? then (questions, Error(StatusBadRequest, InvalidInput))
      else
        var id := if body.value.id == NilObjectId then freshId else body.value.id;
        var q := body.value.(id := id, userId := uid, createdAt := now, kind := KindOr(body.value.kind));
        if Find(questions, id).Some? then (questions, Error(StatusServerError, CouldNotCreate))
        else (questions + [q], Ok(StatusCreated, q))
  }

  /** A question is created exactly when the requester's id parses, the
      body binds and the id is free; it belongs to the requester, has a
      type, and keeps the body's other fields. The checks run in the order
      401, 500, 400. */
  lemma CreateRules(questions: seq<Question>, user: Option<string>, body: Body<Question>, freshId: ObjectId, now: int)
    ensures var (questions', r) := CreateQuestion(questions, user, body, freshId, now);
            && (r.Ok? <==> RequesterId(user).Ok? && body.Bound?
                           && Find(questions, if body.value.id == NilObjectId then freshId else body.value.id).None?)
            && (r.Error? ==> questions' == questions)
            && (RequesterId(user).Error? ==> r == Error(RequesterId(user).status, RequesterId(user).error))
            && (RequesterId(user).Ok? && body.Malformed? ==> r == Error(StatusBadRequest, InvalidInput))
            && (r.Ok? ==> var q := r.value;
                  && questions' == questions + [q]
                  && q.userId == ParseObjectId(user.value).value && q.createdAt == now
                  && q.kind == (if body.value.kind == "" then "question" else body.value.kind)
                  && q.content == body.value.content && q.title == body.value.title && q.courseId == body.value.courseId
                  && q.opinions == body.value.opinions && q.savedBy == body.value.savedBy)
  {
  }

  /** The corrected response names the stored question: looking its id up
      in the new collection finds the record just added. */
  lemma CreatedIdFindsRecord(questions: seq<Question>, user: Option<string>, body: Body<Question>, freshId: ObjectId, now: int)
    ensures var (questions', r) := CreateQuestion(questions, user, body, freshId, now);
            r.Ok? ==> && r.value.id == (if body.value.id == NilObjectId then freshId else body.value.id)
                      && Find(questions', r.value.id) == Some(|questions|)
  {
    var (questions', r) := CreateQuestion(questions, user, body, freshId, now);
    if r.Ok? {
      var k := Find(questions', r.value.id);
      assert questions'[|questions|] == r.value;
      assert forall j :: 0 <= j < |questions| ==> questions'[j] == questions[j];
      assert k.Some?;
    }
  }

  /** `CreateQuestion` as written: the handler discards what `InsertOne`
      returns and answers with the bound body, whose id is the body's own —
      the zero id when the body sent none — while the stored question gets
      a fresh one. */
  function CreateQuestionAsWritten(questions: seq<Question>, user: Option<string>, body: Body<Question>, freshId: ObjectId, now: int)
    : (seq<Question>, Response<Question>)
  {
    var (questions', r) := CreateQuestion(questions, user, body, freshId, now);
    match r
    case Ok(status, q) => (questions', if body.Bound? then Ok(status, q.(id := body.value.id)) else r)
    case Error(_, _) => (questions', r)
  }

  /** As written, a question created without an id is answered with the
      zero id, which names no stored question, while the record stored
      under the fresh id is otherwise the one answered. */
  lemma AsWrittenCreateAnswersZeroId(questions: seq<Question>, user: Option<string>, body: Body<Question>, freshId: ObjectId, now: int)
    requires RequesterId(user).Ok? && body.Bound? && body.value.id == NilObjectId
    requires freshId != NilObjectId && Find(questions, freshId).None?
    ensures var (questions', r) := CreateQuestionAsWritten(questions, user, body, freshId, now);
            && r.Ok? && r.value.id == NilObjectId
            && questions'[|questions|].id == freshId != r.value.id
            && r.value == questions'[|questions|].(id := NilObjectId)
  {
  }

  predicate OwnedBy(q: Question, id: ObjectId, uid: ObjectId)
  {
    q.id == id && q.userId == uid
  }

  /** `UpdateQuestion`: the id, the body, then the requester; the update
      filter names the question and its author, and a zero match is 401. */
  function UpdateQuestion(questions: seq<Question>, user: Option<string>, idParam: string, body: Body<Question>, now: int)
    : (seq<Question>, Response<string>)
  {
    match ParseObjectId(idParam)
    case None => (questions, Error(StatusBadRequest, InvalidId))
    case Some(oid) =>
      if body.Malformed? then (questions, Error(StatusBadRequest, InvalidInput))
      else match RequesterId(user)
        case Error(status, error) => (questions, Error(status, error))
        case Ok(_, uid) =>
          match FirstWhere(questions, (q: Question) => OwnedBy(q, oid, uid))
          case None => (questions, Error(StatusUnauthorized, NoPermission))
          case Some(i) =>
            (questions[i := questions[i].(content := body.value.content, updatedAt := Some(now))], Ok(StatusOK, QuestionUpdated))
  }

  /** `DeleteQuestion`: the id, then the requester; the question is removed
      only when it is the requester's, and a zero delete is 401. */
  function DeleteQuestion(questions: seq<Question>, user: Option<string>, idParam: string): (seq<Question>, Response<string>)
  {
    match ParseObjectId(idParam)
    case None => (questions, Error(StatusBadRequest, InvalidId))
    case Some(oid) =>
      match RequesterId(user)
      case Error(status, error) => (questions, Error(status, error))
      case Ok(_, uid) =>
        match FirstWhere(questions, (q: Question) => OwnedBy(q, oid, uid))
        case None => (questions, Error(StatusUnauthorized, NoPermission))
        case Some(i) => (questions[..i] + questions[i + 1..], Ok(StatusOK, QuestionDeleted))
  }

  /** An edit succeeds exactly when the requester wrote a question with the
      id; then only that question's content and update time change. A
      question of someone else, or none, is 401 and nothing changes. */
  lemma UpdateNeedsOwner(questions: seq<Question>, user: Option<string>, idParam: string, body: Body<Question>, now: int)
    ensures var (questions', r) := UpdateQuestion(questions, user, idParam, body, now);
            && (r.Ok? <==> ParseObjectId(idParam).Some? && body.Bound? && RequesterId(user).Ok?
                           && exists q :: q in questions && OwnedBy(q, ParseObjectId(idParam).value, RequesterId(user).value))
            && (r.Error? ==> questions' == questions)
            && (r.Ok? ==> exists i :: 0 <= i < |questions| && OwnedBy(questions[i], ParseObjectId(idParam).value, RequesterId(user).value)
                            && questions' == questions[i := questions[i].(content := body.value.content, updatedAt := Some(now))])
            && (ParseObjectId(idParam).Some? && body.Bound? && RequesterId(user).Ok? && r.Error? ==>
                  r == Error(StatusUnauthorized, NoPermission))
  {
    OwnedFound(questions, idParam, user);
  }

  /** A deletion succeeds exactly when the requester wrote a question with
      the id; it removes that one question and keeps the others in order. */
  lemma DeleteNeedsOwner(questions: seq<Question>, user: Option<string>, idParam: string)
    ensures var (questions', r) := DeleteQuestion(questions, user, idParam);
            && (r.Ok? <==> ParseObjectId(idParam).Some? && RequesterId(user).Ok?
                           && exists q :: q in questions && OwnedBy(q, ParseObjectId(idParam).value, RequesterId(user).value))
            && (r.Error? ==> questions' == questions)
            && (r.Ok? ==> |questions'| == |questions| - 1
                          && exists i :: 0 <= i < |questions| && OwnedBy(questions[i], ParseObjectId(idParam).value, RequesterId(user).value)
                                         && questions' == questions[..i] + questions[i + 1..])
  {
    OwnedFound(questions, idParam, user);
  }

  lemma OwnedFound(questions: seq<Question>, idParam: string, user: Option<string>)
    ensures ParseObjectId(idParam).Some? && RequesterId(user).Ok? ==>
              var oid := ParseObjectId(idParam).value;
              var uid := RequesterId(user).value;
              FirstWhere(questions, (q: Question) => OwnedBy(q, oid, uid)).Some? <==>
                exists q :: q in questions && OwnedBy(q, oid, uid)
  {
    if ParseObjectId(idParam).Some? && RequesterId(user).Ok? {
      var oid := ParseObjectId(idParam).value;
      var uid := RequesterId(user).value;
      if exists q :: q in questions && OwnedBy(q, oid, uid) {
        var q :| q in questions && OwnedBy(q, oid, uid);
        var i :| 0 <= i < |questions| && questions[i] == q;
        assert OwnedBy(questions[i], oid, uid);
      }
    }
  }

  // ---------------------------------------------------------------------
  // Reactions
  // ---------------------------------------------------------------------

  datatype Reaction = LikeIt | DislikeIt | SaveIt | UnsaveIt

  function Apply(q: Question, reaction: Reaction, uid: ObjectId): Question
  {
    match reaction
    case LikeIt => q.(opinions := Like(q.opinions, uid))
    case DislikeIt => q.(opinions := Dislike(q.opinions, uid))
    case SaveIt => q.(savedBy := Save(q.savedBy, uid))
    case UnsaveIt => q.(savedBy := Unsave(q.savedBy, uid))
  }

  function Acknowledgement(reaction: Reaction): string
  {
    match reaction
    case LikeIt => Liked
    case DislikeIt => Disliked
    case SaveIt => Saved
    case UnsaveIt => Unsaved
  }

  /** `LikeQuestion`, `DislikeQuestion`, `SaveQuestion`, `UnsaveQuestion`:
      the id, then the requester; the update goes to the question with the
      id, and the reaction is acknowledged whether or not there is one. */
  function React(questions: seq<Question>, user: Option<string>, idParam: string, reaction: Reaction)
    : (seq<Question>, Response<string>)
  {
    match ParseObjectId(idParam)
    case None => (questions, Error(StatusBadRequest, InvalidId))
    case Some(oid) =>
      match RequesterId(user)
      case Error(status, error) => (questions, Error(status, error))
      case Ok(_, uid) =>
        match Find(questions, oid)
        case None => (questions, Ok(StatusOK, Acknowledgement(reaction)))
        case Some(i) => (questions[i := Apply(questions[i], reaction, uid)], Ok(StatusOK, Acknowledgement(reaction)))
  }

  /** A reaction with a well-formed id from a known requester is always
      acknowledged, even when no question has the id; then nothing
      changes. Otherwise it changes the first question with the id and no
      other, and only the array the reaction is about: a like leaves the
      user among the likes and not among the dislikes, a dislike the
      reverse, a save among the savers, an unsave not. */
  lemma ReactionRules(questions: seq<Question>, user: Option<string>, idParam: string, reaction: Reaction)
    ensures var (questions', r) := React(questions, user, idParam, reaction);
            && (r.Ok? <==> ParseObjectId(idParam).Some? && RequesterId(user).Ok?)
            && (ParseObjectId(idParam).None? ==> r == Error(StatusBadRequest, InvalidId))
            && (ParseObjectId(idParam).Some? && RequesterId(user).Error? ==> r == Error(RequesterId(user).status, RequesterId(user).error))
            && (r.Error? ==> questions' == questions)
            && (r.Ok? ==>
                  var oid := ParseObjectId(idParam).value;
                  var uid := RequesterId(user).value;
                  && r.value == Acknowledgement(reaction)
                  && (Find(questions, oid).None? ==> questions' == questions)
                  && (Find(questions, oid).Some? ==>
                        var i := Find(questions, oid).value;
                        var q := questions'[i];
                        && |questions'| == |questions|
                        && (forall j :: 0 <= j < |questions| && j != i ==> questions'[j] == questions[j])
                        && q.(opinions := questions[i].opinions, savedBy := questions[i].savedBy) == questions[i]
                        && (reaction == LikeIt ==> uid in Elements(q.opinions.likes) && uid !in Elements(q.opinions.dislikes)
                                                   && q.savedBy == questions[i].savedBy)
                        && (reaction == DislikeIt ==> uid in Elements(q.opinions.dislikes) && uid !in Elements(q.opinions.likes)
                                                      && q.savedBy == questions[i].savedBy)
                        && (reaction == SaveIt ==> uid in Elements(q.savedBy) && q.opinions == questions[i].opinions)
                        && (reaction == UnsaveIt ==> uid !in Elements(q.savedBy) && q.opinions == questions[i].opinions)))
  {
  }

  /** Every question's opinions stay well formed under reactions. */
  predicate AllWellFormed(questions: seq<Question>)
  {
    forall i :: 0 <= i < |questions| ==> WellFormed(questions[i].opinions)
  }

  lemma ReactKeepsWellFormed(questions: seq<Question>, user: Option<string>, idParam: string, reaction: Reaction)
    requires AllWellFormed(questions)
    ensures AllWellFormed(React(questions, user, idParam, reaction).0)
  {
    var (questions', r) := React(questions, user, idParam, reaction);
    if r.Ok? && Find(questions, ParseObjectId(idParam).value).Some? {
      var i := Find(questions, ParseObjectId(idParam).value).value;
      ReactionsKeepWellFormed(questions[i].opinions, RequesterId(user).value);
      assert questions' == questions[i := Apply(questions[i], reaction, RequesterId(user).value)];
    }
  }

  /** Reacting twice the same way is reacting once. */
  lemma ReactIdempotent(questions: seq<Question>, user: Option<string>, idParam: string, reaction: Reaction)
    ensures var once := React(questions, user, idParam, reaction);
            React(once.0, user, idParam, reaction) == once
  {
    var (questions', r) := React(questions, user, idParam, reaction);
    if r.Ok? && Find(questions, ParseObjectId(idParam).value).Some? {
      var oid := ParseObjectId(idParam).value;
      var uid := RequesterId(user).value;
      var i := Find(questions, oid).value;
      ApplyIdempotent(questions[i], reaction, uid);
      assert questions' == questions[i := Apply(questions[i], reaction, uid)];
      assert questions'[i := Apply(questions'[i], reaction, uid)] == questions';
      assert Find(questions', oid) == Some(i) by {
        assert questions'[i].id == oid;
        assert forall j :: 0 <= j < i ==> questions'[j] == questions[j];
      }
    }
  }

  lemma ApplyIdempotent(q: Question, reaction: Reaction, uid: ObjectId)
    ensures Apply(Apply(q, reaction, uid), reaction, uid) == Apply(q, reaction, uid)
  {
    ReactionsIdempotent(q.opinions, q.savedBy, uid);
  }
}
