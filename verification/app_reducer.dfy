/**
 * The application store's reducer (`appReducer`): questions, answers per
 * question with their replies, filters and the search text. Records are
 * JavaScript objects of scalar fields; an object spread `{...a, ...b}` is
 * the right-biased map union `a + b`, and a missing `id` is `undefined`,
 * which `===` equates only with `undefined`.
 */
module AppReducer {
  import opened Wrappers

  datatype Value = VStr(s: string) | VNum(n: int) | VBool(b: bool) | VNull

  /** A plain object of scalar fields. */
  type Record = map<string, Value>

  /** An answer: its scalar fields and its `replies` array, if any. */
  datatype Answer = Answer(fields: Record, replies: Option<seq<Record>>)

  /** `x.id`, `undefined` when absent. */
  function Id(r: Record): Option<Value>
  {
    if "id" in r then Some(r["id"]) else None
  }

  datatype State = State(
    loading: bool,
    error: Option<string>,
    questions: seq<Record>,
    answers: map<string, seq<Answer>>,
    filters: map<string, string>,
    searchQuery: string)

  /** The store on mount: empty filters except the type `question`. */
  function Initial(): State
  {
    State(false, None, [], map[],
          map["course" := "", "university" := "", "department" := "", "type" := "question"], "")
  }

  datatype Action =
    | SetLoading(on: bool)
    | SetError(message: Option<string>)
    | ClearError
    | SetQuestions(questions: seq<Record>)
    | SetAnswers(questionId: string, list: seq<Answer>)
    | UpdateQuestion(id: Option<Value>, updates: Record)
    | UpdateAnswer(questionId: string, answerId: Option<Value>, updates: Record)
    | UpdateReply(questionId: string, answerId: Option<Value>, replyId: Option<Value>, updates: Record)
    | AddQuestion(question: Record)
    | AddAnswer(questionId: string, answer: Answer)
    | AddReply(questionId: string, answerId: Option<Value>, reply: Record)
    | SetFilters(changes: map<string, string>)
    | SetSearch(query: string)
    | Unknown(kind: string)

  /** `list.map(x => x.id === id ? {...x, ...updates} : x)`. */
  function MergeWhere(list: seq<Record>, id: Option<Value>, updates: Record): (r: seq<Record>)
    ensures |r| == |list|
    ensures forall i :: 0 <= i < |list| && Id(list[i]) != id ==> r[i] == list[i]
    ensures forall i :: 0 <= i < |list| && Id(list[i]) == id ==>
              r[i].Keys == list[i].Keys + updates.Keys &&
              (forall k :: k in updates ==> r[i][k] == updates[k]) &&
              (forall k :: k in list[i] && k !in updates ==> r[i][k] == list[i][k])
  {
    seq(|list|, i requires 0 <= i < |list| => if Id(list[i]) == id then list[i] + updates else list[i])
  }

  /** What the three answer actions do to a matching answer. */
  datatype AnswerEdit = MergeFields(u: Record) | MergeReply(rid: Option<Value>, ru: Record) | AppendReply(reply: Record)

  function Apply(a: Answer, e: AnswerEdit): Answer
  {
    match e
    case MergeFields(u) => a.(fields := a.fields + u)
    case MergeReply(rid, u) => a.(replies := Some(if a.replies.Some? then MergeWhere(a.replies.value, rid, u) else []))
    case AppendReply(r) => a.(replies := Some((if a.replies.Some? then a.replies.value else []) + [r]))
  }

  /** The answers of one question with the edit applied to those whose id
      matches: the others are untouched, a field merge leaves the replies
      alone and changes the id only when the updates carry one, and a reply
      edit leaves the answer's fields alone. */
  function MapAnswers(list: seq<Answer>, id: Option<Value>, e: AnswerEdit): (r: seq<Answer>)
    ensures |r| == |list|
    ensures forall i :: 0 <= i < |list| && Id(list[i].fields) != id ==> r[i] == list[i]
    ensures forall i :: 0 <= i < |list| && Id(list[i].fields) == id && e.MergeFields? ==>
              && r[i].replies == list[i].replies
              && r[i].fields.Keys == list[i].fields.Keys + e.u.Keys
              && (forall k :: k in e.u ==> r[i].fields[k] == e.u[k])
              && (forall k :: k in list[i].fields && k !in e.u ==> r[i].fields[k] == list[i].fields[k])
              && Id(r[i].fields) == (if "id" in e.u then Some(e.u["id"]) else id)
    ensures forall i :: 0 <= i < |list| && Id(list[i].fields) == id && !e.MergeFields? ==>
              && r[i].fields == list[i].fields
              && r[i].replies.Some?
              && (e.AppendReply? ==> r[i].replies.value == (if list[i].replies.Some? then list[i].replies.value else []) + [e.reply])
              && (e.MergeReply? && list[i].replies.None? ==> r[i].replies.value == [])
  {
    seq(|list|, i requires 0 <= i < |list| => if Id(list[i].fields) == id then Apply(list[i], e) else list[i])
  }

  /** Repeating an `UPDATE_ANSWER` changes nothing: the answers it merged
      into either still match and take the same fields again, or no longer
      match because the updates changed their id. */
  lemma {:induction false} MergeAnswersIdempotent(list: seq<Answer>, id: Option<Value>, u: Record)
    ensures var once := MapAnswers(list, id, MergeFields(u));
            MapAnswers(once, id, MergeFields(u)) == once
  {
    var once := MapAnswers(list, id, MergeFields(u));
    var twice := MapAnswers(once, id, MergeFields(u));
    forall i | 0 <= i < |list|
      ensures twice[i] == once[i]
    {
      if Id(list[i].fields) == id && Id(once[i].fields) == id {
        assert once[i].fields == list[i].fields + u;
        assert once[i].fields + u == once[i].fields;
      }
    }
  }

  /** `answers[qid]?.map(g) || []`: a missing list becomes empty. */
  function OnAnswers(answers: map<string, seq<Answer>>, qid: string, id: Option<Value>, e: AnswerEdit): (r: map<string, seq<Answer>>)
    ensures r.Keys == answers.Keys + {qid}
    ensures forall k :: k in answers && k != qid ==> r[k] == answers[k]
    ensures qid !in answers ==> r[qid] == []
  {
    answers[qid := if qid in answers then MapAnswers(answers[qid], id, e) else []]
  }

  /** `appReducer`. */
  function Reduce(s: State, a: Action): State
  {
    match a
    case SetLoading(on) => s.(loading := on)
    case SetError(m) => s.(error := m, loading := false)
    case ClearError => s.(error := None)
    case SetQuestions(qs) => s.(questions := qs, loading := false)
    case SetAnswers(qid, list) => s.(answers := s.answers[qid := list], loading := false)
    case UpdateQuestion(id, u) => s.(questions := MergeWhere(s.questions, id, u))
    case UpdateAnswer(qid, aid, u) =>
      s.(answers := OnAnswers(s.answers, qid, aid, MergeFields(u)))
    case UpdateReply(qid, aid, rid, u) =>
      s.(answers := OnAnswers(s.answers, qid, aid, MergeReply(rid, u)))
    case AddQuestion(q) => s.(questions := [q] + s.questions)
    case AddAnswer(qid, ans) =>
      s.(answers := s.answers[qid := (if qid in s.answers then s.answers[qid] else []) + [ans]])
    case AddReply(qid, aid, r) =>
      s.(answers := OnAnswers(s.answers, qid, aid, AppendReply(r)))
    case SetFilters(changes) => s.(filters := s.filters + changes)
    case SetSearch(q) => s.(searchQuery := q)
    case Unknown(_) => s
  }

  /** The action types the reducer acts on. */
  predicate Known(a: Action)
  {
    !a.Unknown?
  }

  // ---------------------------------------------------------------------
  // Properties
  // ---------------------------------------------------------------------

  /** An error and a question list both end loading; clearing an error
      touches nothing else. */
  lemma LoadingAndErrors(s: State, m: Option<string>, qs: seq<Record>)
    ensures !Reduce(s, SetError(m)).loading && Reduce(s, SetError(m)).error == m
    ensures !Reduce(s, SetQuestions(qs)).loading
    ensures Reduce(s, ClearError) == s.(error := None)
  {
  }

  /** `UPDATE_QUESTION` merges into exactly the questions with that id,
      keeping the list's length and order; merging the same updates again
      changes nothing. */
  lemma UpdateQuestionMerges(s: State, id: Option<Value>, u: Record)
    ensures var r := Reduce(s, UpdateQuestion(id, u));
            && |r.questions| == |s.questions|
            && (forall i :: 0 <= i < |s.questions| && Id(s.questions[i]) != id ==> r.questions[i] == s.questions[i])
            && (forall i :: 0 <= i < |s.questions| && Id(s.questions[i]) == id ==> r.questions[i] == s.questions[i] + u)
    ensures !("id" in u) ==> Reduce(Reduce(s, UpdateQuestion(id, u)), UpdateQuestion(id, u)) == Reduce(s, UpdateQuestion(id, u))
  {
    var r := Reduce(s, UpdateQuestion(id, u));
    if !("id" in u) {
      var r2 := Reduce(r, UpdateQuestion(id, u));
      assert r2.questions == r.questions by {
        forall i | 0 <= i < |r.questions| ensures r2.questions[i] == r.questions[i] {
          if Id(s.questions[i]) == id {
            assert Id(r.questions[i]) == id;
            assert r.questions[i] + u == r.questions[i];
          }
        }
      }
    }
  }

  /** `ADD_QUESTION` puts the question first; a later update of its id
      reaches it. */
  lemma AddQuestionPrepends(s: State, q: Record, u: Record)
    ensures Reduce(s, AddQuestion(q)).questions == [q] + s.questions
    ensures Reduce(Reduce(s, AddQuestion(q)), UpdateQuestion(Id(q), u)).questions[0] == q + u
  {
  }

  /** `ADD_ANSWER` appends to that question's list, creating it if absent;
      other lists are untouched. */
  lemma AddAnswerAppends(s: State, qid: string, ans: Answer, other: string)
    requires other != qid
    ensures var r := Reduce(s, AddAnswer(qid, ans));
            && qid in r.answers
            && r.answers[qid] == (if qid in s.answers then s.answers[qid] else []) + [ans]
            && (other in r.answers <==> other in s.answers)
            && (other in s.answers ==> r.answers[other] == s.answers[other])
  {
  }

  /** `ADD_REPLY` appends the reply to the matching answers only; with no
      list for the question the result is an empty list. */
  lemma AddReplyAppends(s: State, qid: string, aid: Option<Value>, reply: Record)
    ensures var r := Reduce(s, AddReply(qid, aid, reply));
            && (qid !in s.answers ==> r.answers[qid] == [])
            && (qid in s.answers ==>
                  && |r.answers[qid]| == |s.answers[qid]|
                  && forall i :: 0 <= i < |s.answers[qid]| ==>
                       var a := s.answers[qid][i];
                       r.answers[qid][i] ==
                         if Id(a.fields) == aid then a.(replies := Some((if a.replies.Some? then a.replies.value else []) + [reply]))
                         else a)
  {
  }

  /** `UPDATE_ANSWER` and `UPDATE_REPLY` change only the matching record and
      leave an empty list for a question without answers. */
  lemma UpdateAnswerAndReply(s: State, qid: string, aid: Option<Value>, rid: Option<Value>, u: Record)
    ensures var r := Reduce(s, UpdateAnswer(qid, aid, u));
            && (qid !in s.answers ==> r.answers[qid] == [])
            && (qid in s.answers ==> forall i :: 0 <= i < |s.answers[qid]| ==>
                  var a := s.answers[qid][i];
                  r.answers[qid][i] == if Id(a.fields) == aid then a.(fields := a.fields + u) else a)
    ensures var r := Reduce(s, UpdateReply(qid, aid, rid, u));
            && (qid !in s.answers ==> r.answers[qid] == [])
            && (qid in s.answers ==> forall i :: 0 <= i < |s.answers[qid]| ==>
                  var a := s.answers[qid][i];
                  && r.answers[qid][i].fields == a.fields
                  && (Id(a.fields) != aid ==> r.answers[qid][i] == a)
                  && (Id(a.fields) == aid && a.replies.None? ==> r.answers[qid][i].replies == Some([]))
                  && (Id(a.fields) == aid && a.replies.Some? ==>
                        r.answers[qid][i].replies == Some(MergeWhere(a.replies.value, rid, u))))
  {
  }

  /** `SET_FILTERS` merges shallowly: keys absent from the payload keep
      their values, and two merges are one merge of the combined payload. */
  lemma SetFiltersMerges(s: State, c1: map<string, string>, c2: map<string, string>, k: string)
    ensures k !in c1 && k in s.filters ==> Reduce(s, SetFilters(c1)).filters[k] == s.filters[k]
    ensures k in c1 ==> Reduce(s, SetFilters(c1)).filters[k] == c1[k]
    ensures Reduce(Reduce(s, SetFilters(c1)), SetFilters(c2)) == Reduce(s, SetFilters(c1 + c2))
  {
  }

  /** Any other action type returns the state unchanged. */
  lemma UnknownActionIsIdentity(s: State, a: Action)
    requires !Known(a)
    ensures Reduce(s, a) == s
  {
  }

  /** The initial filters select questions of every course, university and
      department. */
  lemma InitialFilters()
    ensures Initial().filters["type"] == "question"
    ensures forall k :: k in Initial().filters && k != "type" ==> Initial().filters[k] == ""
  {
  }
}
