/**
 * One comment with its reply form (`RealTimeComment`). Editing the reply
 * signals typing and re-arms a single 3-second timer that signals that
 * typing stopped; submitting appends the created reply; cancelling clears
 * the form. Timers are explicit: each has an id and the time it is due, and
 * a cleared timer never fires.
 */
module RealTimeComment {
  import opened Wrappers
  import opened Text
  import Store
  import Comments
  import Posts

  const StopTypingDelay := 3000

  /** A reply object, opaque to the component. */
  type ReplyValue = string

  datatype Signal = Typing(postId: string) | StopTyping(postId: string)

  datatype Timer = Timer(id: nat, due: int)

  datatype Box = Box(
    postId: string,
    replying: bool,
    content: string,
    submitting: bool,
    showReplies: bool,
    replies: seq<ReplyValue>,
    timerRef: Option<Timer>,   // the last timer armed; never reset after it fires
    pending: set<nat>,         // the timers armed and not yet fired or cleared
    nextTimer: nat,
    signals: seq<Signal>)

  /** Mounting: the comment's replies, `[]` when it has none. */
  function Mount(postId: string, replies: Option<seq<ReplyValue>>): Box
  {
    Box(postId, false, "", false, false, replies.GetOr([]), None, {}, 0, [])
  }

  /** Clears the timer in the ref, if any. */
  function ClearRef(b: Box): (r: Box)
    ensures r.pending <= b.pending
  {
    match b.timerRef
    case None => b
    case Some(t) => b.(pending := b.pending - {t.id})
  }

  /** `handleTyping` on an edit at time `now`: signal typing, clear the
      previous timer and arm a new one. */
  function Edit(b: Box, text: string, now: int): Box
  {
    var b1 := ClearRef(b.(content := text, signals := b.signals + [Typing(b.postId)]));
    b1.(timerRef := Some(Timer(b.nextTimer, now + StopTypingDelay)),
        pending := b1.pending + {b.nextTimer},
        nextTimer := b.nextTimer + 1)
  }

  /** A timer firing: if it is still pending it signals that typing
      stopped; a cleared one does nothing. */
  function Fire(b: Box, t: nat): Box
  {
    if t in b.pending then b.(pending := b.pending - {t}, signals := b.signals + [StopTyping(b.postId)])
    else b
  }

  /** Leaving the field. */
  function Blur(b: Box): Box
  {
    b.(signals := b.signals + [StopTyping(b.postId)])
  }

  /** `handleReplySubmit`: a blank reply does nothing; a created one is
      appended, the form closes and typing stops; a failure is only logged.
      The stop-typing timer is left as it is. */
  function Submit(b: Box, reply: Option<ReplyValue>): Box
  {
    if Trim(b.content) == "" then b
    else match reply
      case None => b.(submitting := false)
      case Some(r) =>
        b.(replies := b.replies + [r], content := "", replying := false, submitting := false,
           signals := b.signals + [StopTyping(b.postId)])
  }

  /** The cancel button. */
  function Cancel(b: Box): Box
  {
    b.(replying := false, content := "", signals := b.signals + [StopTyping(b.postId)])
  }

  function ToggleReplying(b: Box): Box
  {
    b.(replying := !b.replying)
  }

  /** Unmounting clears the timer in the ref. */
  function Unmount(b: Box): Box
  {
    ClearRef(b)
  }

  /** The reply button is enabled. */
  predicate CanSubmit(b: Box)
  {
    !b.submitting && Trim(b.content) != ""
  }

  /** At most the timer in the ref is pending, and every id was issued. */
  predicate Inv(b: Box)
  {
    && (b.timerRef.None? ==> b.pending == {})
    && (b.timerRef.Some? ==> b.pending <= {b.timerRef.value.id} && b.timerRef.value.id < b.nextTimer)
  }

  // ---------------------------------------------------------------------
  // Properties
  // ---------------------------------------------------------------------

  lemma MountInv(postId: string, replies: Option<seq<ReplyValue>>)
    ensures Inv(Mount(postId, replies))
    ensures Mount(postId, replies).replies == (if replies.Some? then replies.value else [])
  {
  }

  /** Every event keeps at most one stop-typing timer pending. */
  lemma EventsPreserveInv(b: Box, text: string, now: int, t: nat, reply: Option<ReplyValue>)
    requires Inv(b)
    ensures Inv(Edit(b, text, now)) && Inv(Fire(b, t)) && Inv(Blur(b))
    ensures Inv(Submit(b, reply)) && Inv(Cancel(b)) && Inv(Unmount(b))
  {
  }

  /** Debounce: after an edit exactly one timer is pending, due 3000 ms
      after that edit, and every earlier one is cleared. */
  lemma EditRearms(b: Box, text: string, now: int)
    requires Inv(b)
    ensures var r := Edit(b, text, now);
            && r.pending == {b.nextTimer}
            && r.timerRef == Some(Timer(b.nextTimer, now + StopTypingDelay))
            && r.signals == b.signals + [Typing(b.postId)]
            && r.content == text && r.postId == b.postId && r.replies == b.replies
            && (forall t :: t in b.pending ==> t !in r.pending)
  {
  }

  /** A run of edits leaves one timer, for the last one: a stop signal can
      come only 3000 ms after the last keystroke. */
  lemma {:induction false} EditsLeaveOneTimer(b: Box, texts: seq<string>, times: seq<int>)
    requires Inv(b) && |texts| == |times| && |texts| > 0
    ensures var r := Edits(b, texts, times);
            && r.timerRef.Some? && r.pending == {r.timerRef.value.id}
            && r.timerRef.value.due == times[|times| - 1] + StopTypingDelay
            && |r.signals| == |b.signals| + |texts|
    decreases |texts|
  {
    var b1 := Edit(b, texts[0], times[0]);
    EditRearms(b, texts[0], times[0]);
    if |texts| > 1 {
      EditsLeaveOneTimer(b1, texts[1..], times[1..]);
    }
  }

  function Edits(b: Box, texts: seq<string>, times: seq<int>): Box
    requires |texts| == |times|
    decreases |texts|
  {
    if |texts| == 0 then b else Edits(Edit(b, texts[0], times[0]), texts[1..], times[1..])
  }

  /** Only a pending timer signals; firing it twice signals once. */
  lemma FireOnce(b: Box, t: nat)
    ensures t !in b.pending ==> Fire(b, t) == b
    ensures t in b.pending ==> Fire(b, t).signals == b.signals + [StopTyping(b.postId)]
    ensures Fire(Fire(b, t), t) == Fire(b, t)
  {
  }

  /** Unmounting leaves no timer that could fire. */
  lemma UnmountClearsTimers(b: Box, t: nat)
    requires Inv(b)
    ensures Unmount(b).pending == {}
    ensures Fire(Unmount(b), t) == Unmount(b)
  {
  }

  /** A blank reply is never submitted; a created reply is appended last
      and closes the form; a failure keeps the draft. */
  lemma SubmitOutcome(b: Box, reply: Option<ReplyValue>)
    ensures Trim(b.content) == "" ==> Submit(b, reply) == b
    ensures Trim(b.content) != "" && reply.Some? ==>
              && Submit(b, reply).replies == b.replies + [reply.value]
              && Submit(b, reply).content == "" && !Submit(b, reply).replying
              && Submit(b, reply).signals == b.signals + [StopTyping(b.postId)]
    ensures Trim(b.content) != "" && reply.None? ==>
              Submit(b, reply) == b.(submitting := false)
    ensures Submit(b, reply).pending == b.pending && Submit(b, reply).postId == b.postId
  {
  }

  /** Submitting does not clear the timer: the stop signal is sent again
      when it fires. */
  lemma SubmitThenTimerSignalsAgain(b: Box, text: string, now: int, r: ReplyValue)
    requires Inv(b) && Trim(text) != ""
    ensures var e := Edit(b, text, now);
            var s := Submit(e, Some(r));
            Fire(s, b.nextTimer).signals ==
              b.signals + [Typing(b.postId), StopTyping(b.postId), StopTyping(b.postId)]
  {
    var e := Edit(b, text, now);
    EditRearms(b, text, now);
    SubmitThenFire(e, r, b.nextTimer);
    AppendPair(b.signals, Typing(b.postId), StopTyping(b.postId), StopTyping(b.postId));
  }

  lemma AppendPair<T>(a: seq<T>, x: T, y: T, z: T)
    ensures (a + [x]) + [y, z] == a + [x, y, z]
  {
  }

  /** A pending timer survives a submission and then signals. */
  lemma SubmitThenFire(e: Box, r: ReplyValue, t: nat)
    requires Trim(e.content) != "" && t in e.pending
    ensures Fire(Submit(e, Some(r)), t).signals == e.signals + [StopTyping(e.postId), StopTyping(e.postId)]
  {
    SubmitOutcome(e, Some(r));
    var s := Submit(e, Some(r));
    FireOnce(s, t);
  }

  /** Cancelling empties and closes the form and signals that typing
      stopped. */
  lemma CancelClears(b: Box)
    ensures !Cancel(b).replying && Cancel(b).content == "" && !CanSubmit(Cancel(b))
    ensures Cancel(b).signals == b.signals + [StopTyping(b.postId)]
    ensures Cancel(b).replies == b.replies
  {
    assert Trim("") == "";
  }

  // ---------------------------------------------------------------------
  // The comment's id
  // ---------------------------------------------------------------------

  /** A comment as the component receives it: the fields of the server's
      JSON by name. `models.Comment` writes its id under `id`. */
  type CommentJson = map<string, string>

  /** The comment the server sends for a stored id and content. */
  function Served(id: string, content: string): CommentJson
  {
    map["id" := id, "content" := content]
  }

  /** `comment[key]`: `undefined` when the object has no such field. */
  function Field(c: CommentJson, key: string): Option<string>
  {
    if key in c then Some(c[key]) else None
  }

  /** The reply body `createComment` posts; `JSON.stringify` drops an
      undefined `parent_id`. */
  datatype ReplyBody = ReplyBody(content: string, parentId: Option<string>)

  /** The reply body as written: the parent is `comment._id`. */
  function ReplyBodyAsWritten(c: CommentJson, content: string): ReplyBody
  {
    ReplyBody(content, Field(c, "_id"))
  }

  /** The reply body naming the parent by the field the server writes. */
  function ReplyBodyFor(c: CommentJson, content: string): ReplyBody
  {
    ReplyBody(content, Field(c, "id"))
  }

  /** How `ShouldBindJSON` reads a reply body into a comment: an absent
      `parent_id` leaves the pointer nil, one that is not an id fails. */
  function Bind(rb: ReplyBody): Store.Body<Comments.Comment>
  {
    var base := Comments.Comment(Store.NilObjectId, rb.content, Store.NilObjectId, Store.NilObjectId, None,
                                 Store.ZeroTally, false, 0, 0);
    match rb.parentId
    case None => Store.Bound(base)
    case Some(p) =>
      match Store.ParseObjectId(p)
      case None => Store.Malformed("invalid parent_id")
      case Some(oid) => Store.Bound(base.(parentId := Some(oid)))
  }

  /** The id segment of `/comments/${id}/${voteType}`: an undefined id is
      interpolated as the text "undefined". */
  function IdSegment(id: Option<string>): string
  {
    if id.Some? then id.value else "undefined"
  }

  /** As written, a reply to any comment the server sent carries no parent:
      the server stores it as a new top-level comment of the post. The vote
      buttons post to the id "undefined", which the server refuses with
      400. */
  lemma AsWrittenReplyIsTopLevel(posts: seq<Posts.Post>, comments: seq<Comments.Comment>, users: set<Store.ObjectId>,
                                 user: Option<string>, postIdParam: string, id: string, text: string, reply: string,
                                 freshId: Store.ObjectId, now: int, voteType: string)
    ensures ReplyBodyAsWritten(Served(id, text), reply).parentId.None?
    ensures var (_, _, r, _) := Comments.CreateComment(posts, comments, users, user, postIdParam,
                                                       Bind(ReplyBodyAsWritten(Served(id, text), reply)), freshId, now);
            r.Ok? ==> Comments.TopLevelOn(r.value.postId)(r.value)
    ensures user.Some? ==>
              Comments.VoteComment(comments, user, IdSegment(Field(Served(id, text), "_id")), voteType).1
                == Store.Error(Store.StatusBadRequest, Comments.InvalidCommentId)
  {
    Comments.CreateRules(posts, comments, users, user, postIdParam,
                         Bind(ReplyBodyAsWritten(Served(id, text), reply)), freshId, now);
  }

  /** Reading the field the server writes, a reply to a comment with a
      well-formed id is stored as a reply to that comment, and a vote
      reaches that comment. */
  lemma CorrectedReplyNamesParent(posts: seq<Posts.Post>, comments: seq<Comments.Comment>, users: set<Store.ObjectId>,
                                  user: Option<string>, postIdParam: string, id: string, text: string, reply: string,
                                  freshId: Store.ObjectId, now: int, voteType: string)
    requires Store.ParseObjectId(id).Some?
    ensures var oid := Store.ParseObjectId(id).value;
            var (_, _, r, _) := Comments.CreateComment(posts, comments, users, user, postIdParam,
                                                       Bind(ReplyBodyFor(Served(id, text), reply)), freshId, now);
            r.Ok? ==> Comments.ReplyOn(r.value.postId, oid)(r.value) && !Comments.TopLevelOn(r.value.postId)(r.value)
    ensures IdSegment(Field(Served(id, text), "id")) == id
  {
    Comments.CreateRules(posts, comments, users, user, postIdParam,
                         Bind(ReplyBodyFor(Served(id, text), reply)), freshId, now);
  }
}
