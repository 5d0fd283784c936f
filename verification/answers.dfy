/**
 * The answer controller over an in-memory `answers` collection kept in
 * natural order. Unlike the question handlers, the answer edit and delete
 * handlers report success whether or not their owner filter matched.
 */
module Answers {
  import opened Wrappers
  import opened Store
  import opened Reactions
  import Sorting

  datatype Answer = Answer(
    id: ObjectId,
    questionId: ObjectId,
    content: string,
    userId: ObjectId,
    createdAt: int,
    updatedAt: Option<int>,
    opinions: Opinions)

  const InvalidQuestionId := "Invalid question ID"
  const InvalidId := "Invalid ID"
  const InvalidInput := "Invalid input"
  const AnswerNotFound := "Answer not found"
  const CouldNotCreate := "Could not create answer"
  const AnswerUpdated := "Answer updated"
  const AnswerDeleted := "Answer deleted"
  const Liked := "Answer liked successfully"
  const Disliked := "Answer disliked successfully"

  function Find(answers: seq<Answer>, id: ObjectId): Option<nat>
  {
    FirstWhere(answers, (a: Answer) => a.id == id)
  }

  // ---------------------------------------------------------------------
  // Listing
  // ---------------------------------------------------------------------

  /** The question id the listing route names: the `id` parameter, or the
      older `question_id` one when `id` is empty. */
  function QuestionIdParam(id: string, questionId: string): (r: string)
    ensures id != "" ==> r == id
    ensures id == "" ==> r == questionId
  {
    if id == "" then questionId else id
  }

  /** An answer as the listing projects it: its reactions as counts. */
  datatype AnswerView = AnswerView(id: ObjectId, questionId: ObjectId, content: string, createdAt: int,
                                   likes: nat, dislikes: nat)

  function View(a: Answer): AnswerView
  {
    AnswerView(a.id, a.questionId, a.content, a.createdAt, Size(a.opinions.likes), Size(a.opinions.dislikes))
  }

  /** The answers to one question, in natural order. `AnswersToRules`
      states which answers are listed and with what counts, and
      `AnswersToInOrder` that the collection's order is kept. */
  function AnswersTo(answers: seq<Answer>, qid: ObjectId): (r: seq<AnswerView>)
    ensures |r| <= |answers|
    ensures forall i :: 0 <= i < |r| ==> r[i].questionId == qid
  {
    if |answers| == 0 then []
    else (if answers[0].questionId == qid then [View(answers[0])] else []) + AnswersTo(answers[1..], qid)
  }

  /** `GetAnswers`. */
  function GetAnswers(answers: seq<Answer>, id: string, questionId: string): Response<seq<AnswerView>>
  {
    match ParseObjectId(QuestionIdParam(id, questionId))
    case None => Error(StatusBadRequest, InvalidQuestionId)
    case Some(qid) => Ok(StatusOK, AnswersTo(answers, qid))
  }

  /** Each answer to the question appears, with its likes and dislikes
      counted as array sizes, a missing array as 0; answers to other
      questions do not appear. */
  lemma {:induction false} AnswersToRules(answers: seq<Answer>, qid: ObjectId)
    ensures forall v :: v in AnswersTo(answers, qid) <==> exists a :: a in answers && a.questionId == qid && v == View(a)
    ensures forall v :: v in AnswersTo(answers, qid) ==>
              v.questionId == qid
              && exists a :: a in answers && a.id == v.id && v.likes == |Elements(a.opinions.likes)|
                                          && v.dislikes == |Elements(a.opinions.dislikes)|
    decreases |answers|
  {
    if |answers| > 0 {
      AnswersToRules(answers[1..], qid);
      var head := if answers[0].questionId == qid then [View(answers[0])] else [];
      assert AnswersTo(answers, qid) == head + AnswersTo(answers[1..], qid);
      forall a | a in answers ensures a == answers[0] || a in answers[1..] {
        var k :| 0 <= k < |answers| && answers[k] == a;
        if k > 0 { assert answers[1..][k - 1] == a; }
      }
    }
  }

  function OnQuestion(qid: ObjectId): Answer -> bool
  {
    (a: Answer) => a.questionId == qid
  }

  /** The views of a sequence of answers, one for one. */
  function Views(s: seq<Answer>): (r: seq<AnswerView>)
    ensures |r| == |s| && forall k :: 0 <= k < |s| ==> r[k] == View(s[k])
  {
    seq(|s|, k requires 0 <= k < |s| => View(s[k]))
  }

  /** The listing is the collection filtered to the question, in collection
      order, each answer viewed once: `Find` with no sort option returns
      documents in natural order. */
  lemma {:induction false} AnswersToInOrder(answers: seq<Answer>, qid: ObjectId)
    ensures AnswersTo(answers, qid) == Views(Sorting.Filter(answers, OnQuestion(qid)))
    decreases |answers|
  {
    if |answers| > 0 {
      AnswersToInOrder(answers[1..], qid);
      var rest := Sorting.Filter(answers[1..], OnQuestion(qid));
      var head := if answers[0].questionId == qid then [answers[0]] else [];
      FilterStep(answers, OnQuestion(qid));
      ViewsAppend(head, rest);
    }
  }

  lemma FilterStep(s: seq<Answer>, p: Answer -> bool)
    requires |s| > 0
    ensures Sorting.Filter(s, p) == (if p(s[0]) then [s[0]] else []) + Sorting.Filter(s[1..], p)
  {
  }

  lemma ViewsAppend(a: seq<Answer>, b: seq<Answer>)
    ensures Views(a + b) == Views(a) + Views(b)
  {
  }

  /** The question id comes from `id`, and from `question_id` only when
      `id` is empty; a malformed one is 400. */
  lemma ListingParamRule(answers: seq<Answer>, id: string, questionId: string)
    ensures var r := GetAnswers(answers, id, questionId);
            var p := if id != "" then id else questionId;
            && (r.Ok? <==> ParseObjectId(p).Some?)
            && (r.Error? ==> r == Error(StatusBadRequest, InvalidQuestionId))
            && (r.Ok? ==> r.value == AnswersTo(answers, ParseObjectId(p).value))
  {
  }

  // ---------------------------------------------------------------------
  // Creating and reading
  // ---------------------------------------------------------------------

  /** `CreateAnswer`, answering with the record it stored: the author and
      the creation time are the requester's and now, whatever the body
      says. */
  function CreateAnswer(answers: seq<Answer>, user: Option<string>, body: Body<Answer>, freshId: ObjectId, now: int)
    : (seq<Answer>, Response<Answer>)
  {
    match RequesterId(user)
    case Error(status, error) => (answers, Error(status, error))
    case Ok(_, uid) =>
      if body.Malformed? then (answers, Error(StatusBadRequest, InvalidInput))
      else
        var id := if body.value.id == NilObjectId then freshId else body.value.id;
        var a := body.value.(id := id, userId := uid, createdAt := now);
        if Find(answers, id).Some? then (answers, Error(StatusServerError, CouldNotCreate))
        else (answers + [a], Ok(StatusCreated, a))
  }

  /** A created answer belongs to the requester even when the body names
      another author; the question and content are the body's. The checks
      run in the order 401, 500, 400. */
  lemma CreateSetsOwner(answers: seq<Answer>, user: Option<string>, body: Body<Answer>, freshId: ObjectId, now: int)
    ensures var (answers', r) := CreateAnswer(answers, user, body, freshId, now);
            && (r.Ok? <==> RequesterId(user).Ok? && body.Bound?
                           && Find(answers, if body.value.id == NilObjectId then freshId else body.value.id).None?)
            && (r.Error? ==> answers' == answers)
            && (RequesterId(user).Error? ==> r == Error(RequesterId(user).status, RequesterId(user).error))
            && (RequesterId(user).Ok? && body.Malformed? ==> r == Error(StatusBadRequest, InvalidInput))
            && (r.Ok? ==> && answers' == answers + [r.value]
                          && r.value.userId == ParseObjectId(user.value).value
                          && r.value.createdAt == now
                          && r.value.questionId == body.value.questionId && r.value.content == body.value.content)
  {
  }

  /** The corrected response names the stored answer: looking its id up in
      the new collection finds the record just added. */
  lemma CreatedIdFindsRecord(answers: seq<Answer>, user: Option<string>, body: Body<Answer>, freshId: ObjectId, now: int)
    ensures var (answers', r) := CreateAnswer(answers, user, body, freshId, now);
            r.Ok? ==> && r.value.id == (if body.value.id == NilObjectId then freshId else body.value.id)
                      && Find(answers', r.value.id) == Some(|answers|)
  {
    var (answers', r) := CreateAnswer(answers, user, body, freshId, now);
    if r.Ok? {
      var k := Find(answers', r.value.id);
      assert answers'[|answers|] == r.value;
      assert forall j :: 0 <= j < |answers| ==> answers'[j] == answers[j];
      assert k.Some?;
    }
  }

  /** `CreateAnswer` as written: the handler discards what `InsertOne`
      returns and answers with the bound body, whose id is the body's own —
      the zero id when the body sent none — while the stored answer gets a
      fresh one. */
  function CreateAnswerAsWritten(answers: seq<Answer>, user: Option<string>, body: Body<Answer>, freshId: ObjectId, now: int)
    : (seq<Answer>, Response<Answer>)
  {
    var (answers', r) := CreateAnswer(answers, user, body, freshId, now);
    match r
    case Ok(status, a) => (answers', if body.Bound? then Ok(status, a.(id := body.value.id)) else r)
    case Error(_, _) => (answers', r)
  }

  /** As written, an answer created without an id is answered with the
      zero id, while the record stored under the fresh id is otherwise the
      one answered. */
  lemma AsWrittenCreateAnswersZeroId(answers: seq<Answer>, user: Option<string>, body: Body<Answer>, freshId: ObjectId, now: int)
    requires RequesterId(user).Ok? && body.Bound? && body.value.id == NilObjectId
    requires freshId != NilObjectId && Find(answers, freshId).None?
    ensures var (answers', r) := CreateAnswerAsWritten(answers, user, body, freshId, now);
            && r.Ok? && r.value.id == NilObjectId
            && answers'[|answers|].id == freshId != r.value.id
            && r.value == answers'[|answers|].(id := NilObjectId)
  {
  }

  /** `GetAnswerByID`. */
  function GetAnswerById(answers: seq<Answer>, idParam: string): (r: Response<Answer>)
    ensures r.Ok? <==> ParseObjectId(idParam).Some? && Find(answers, ParseObjectId(idParam).value).Some?
    ensures ParseObjectId(idParam).None? ==> r == Error(StatusBadRequest, InvalidId)
    ensures r.Error? && ParseObjectId(idParam).Some? ==> r == Error(StatusNotFound, AnswerNotFound)
    ensures r.Ok? ==> r.value in answers && r.value.id == ParseObjectId(idParam).value
  {
    match ParseObjectId(idParam)
    case None => Error(StatusBadRequest, InvalidId)
    case Some(oid) =>
      match Find(answers, oid)
      case None => Error(StatusNotFound, AnswerNotFound)
      case Some(i) => Ok(StatusOK, answers[i])
  }

  // ---------------------------------------------------------------------
  // Editing and deleting
  // ---------------------------------------------------------------------

  predicate OwnedBy(a: Answer, id: ObjectId, uid: ObjectId)
  {
    a.id == id && a.userId == uid
  }

  /** `UpdateAnswer`: the id, the body, then the requester; the update
      reaches only the requester's answer, and the reply is the same
      either way. */
  function UpdateAnswer(answers: seq<Answer>, user: Option<string>, idParam: string, body: Body<Answer>, now: int)
    : (seq<Answer>, Response<string>)
  {
    match ParseObjectId(idParam)
    case None => (answers, Error(StatusBadRequest, InvalidId))
    case Some(oid) =>
      if body.Malformed? then (answers, Error(StatusBadRequest, InvalidInput))
      else match RequesterId(user)
        case Error(status, error) => (answers, Error(status, error))
        case Ok(_, uid) =>
          match FirstWhere(answers, (a: Answer) => OwnedBy(a, oid, uid))
          case None => (answers, Ok(StatusOK, AnswerUpdated))
          case Some(i) =>
            (answers[i := answers[i].(content := body.value.content, updatedAt := Some(now))], Ok(StatusOK, AnswerUpdated))
  }

  /** `DeleteAnswer`: the id, then the requester; the deletion reaches only
      the requester's answer, and the reply is the same either way. */
  function DeleteAnswer(answers: seq<Answer>, user: Option<string>, idParam: string): (seq<Answer>, Response<string>)
  {
    match ParseObjectId(idParam)
    case None => (answers, Error(StatusBadRequest, InvalidId))
    case Some(oid) =>
      match RequesterId(user)
      case Error(status, error) => (answers, Error(status, error))
      case Ok(_, uid) =>
        match FirstWhere(answers, (a: Answer) => OwnedBy(a, oid, uid))
        case None => (answers, Ok(StatusOK, AnswerDeleted))
        case Some(i) => (answers[..i] + answers[i + 1..], Ok(StatusOK, AnswerDeleted))
  }

  /** Once the id, body and requester pass, an edit is reported done
      whether or not the requester wrote an answer with the id; the
      collection changes only when they did, and then only that answer's
      content and update time. */
  lemma UpdateAlwaysReportsSuccess(answers: seq<Answer>, user: Option<string>, idParam: string, body: Body<Answer>, now: int)
    ensures var (answers', r) := UpdateAnswer(answers, user, idParam, body, now);
            && (r.Ok? <==> ParseObjectId(idParam).Some? && body.Bound? && RequesterId(user).Ok?)
            && (r.Ok? ==> r.value == AnswerUpdated)
            && (r.Error? ==> answers' == answers)
            && (r.Ok? ==>
                  var oid := ParseObjectId(idParam).value;
                  var uid := RequesterId(user).value;
                  && ((forall a :: a in answers ==> !OwnedBy(a, oid, uid)) ==> answers' == answers)
                  && (answers' != answers ==>
                        exists i :: 0 <= i < |answers| && OwnedBy(answers[i], oid, uid)
                                    && answers' == answers[i := answers[i].(content := body.value.content, updatedAt := Some(now))]))
  {
  }

  /** Once the id and requester pass, a deletion is reported done whether
      or not anything was deleted; only an answer of the requester's is
      ever removed, one at most. */
  lemma DeleteAlwaysReportsSuccess(answers: seq<Answer>, user: Option<string>, idParam: string)
    ensures var (answers', r) := DeleteAnswer(answers, user, idParam);
            && (r.Ok? <==> ParseObjectId(idParam).Some? && RequesterId(user).Ok?)
            && (r.Ok? ==> r.value == AnswerDeleted)
            && (r.Error? ==> answers' == answers)
            && (r.Ok? ==>
                  var oid := ParseObjectId(idParam).value;
                  var uid := RequesterId(user).value;
                  && ((forall a :: a in answers ==> !OwnedBy(a, oid, uid)) ==> answers' == answers)
                  && (answers' != answers ==>
                        |answers'| == |answers| - 1
                        && exists i :: 0 <= i < |answers| && OwnedBy(answers[i], oid, uid)
                                       && answers' == answers[..i] + answers[i + 1..]))
  {
  }

  // ---------------------------------------------------------------------
  // Reactions
  // ---------------------------------------------------------------------

  /** `LikeAnswer` (`like`) and `DislikeAnswer`: the id, then the
      requester; the first answer with the id gets the reaction, and the
      reply is the same whether or not there is one. */
  function React(answers: seq<Answer>, user: Option<string>, idParam: string, like: bool): (seq<Answer>, Response<string>)
  {
    match ParseObjectId(idParam)
    case None => (answers, Error(StatusBadRequest, InvalidId))
    case Some(oid) =>
      match RequesterId(user)
      case Error(status, error) => (answers, Error(status, error))
      case Ok(_, uid) =>
        var message := if like then Liked else Disliked;
        match Find(answers, oid)
        case None => (answers, Ok(StatusOK, message))
        case Some(i) =>
          var o := answers[i].opinions;
          (answers[i := answers[i].(opinions := if like then Like(o, uid) else Dislike(o, uid))], Ok(StatusOK, message))
  }

  /** Answer reactions follow the same rules as question reactions: a like
      leaves the requester among the likes and not the dislikes, a dislike
      the reverse, only the first answer with the id changes, and only its
      opinions. */
  lemma ReactionRules(answers: seq<Answer>, user: Option<string>, idParam: string, like: bool)
    ensures var (answers', r) := React(answers, user, idParam, like);
            && (r.Ok? <==> ParseObjectId(idParam).Some? && RequesterId(user).Ok?)
            && (r.Error? ==> answers' == answers)
            && (r.Ok? ==>
                  var oid := ParseObjectId(idParam).value;
                  var uid := RequesterId(user).value;
                  && r.value == (if like then Liked else Disliked)
                  && (Find(answers, oid).None? ==> answers' == answers)
                  && (Find(answers, oid).Some? ==>
                        var i := Find(answers, oid).value;
                        var o := answers'[i].opinions;
                        && |answers'| == |answers|
                        && (forall j :: 0 <= j < |answers| && j != i ==> answers'[j] == answers[j])
                        && answers'[i].(opinions := answers[i].opinions) == answers[i]
                        && (like ==> uid in Elements(o.likes) && uid !in Elements(o.dislikes))
                        && (!like ==> uid in Elements(o.dislikes) && uid !in Elements(o.likes))))
  {
  }

  predicate AllWellFormed(answers: seq<Answer>)
  {
    forall i :: 0 <= i < |answers| ==> WellFormed(answers[i].opinions)
  }

  /** Reactions keep every answer's opinions free of repeats and keep its
      likes and dislikes apart, so the reported counts are numbers of
      distinct users. */
  lemma ReactKeepsWellFormed(answers: seq<Answer>, user: Option<string>, idParam: string, like: bool)
    requires AllWellFormed(answers)
    ensures AllWellFormed(React(answers, user, idParam, like).0)
  {
    var (answers', r) := React(answers, user, idParam, like);
    if r.Ok? && Find(answers, ParseObjectId(idParam).value).Some? {
      var i := Find(answers, ParseObjectId(idParam).value).value;
      ReactionsKeepWellFormed(answers[i].opinions, RequesterId(user).value);
    }
  }
}
