/**
 * The comment controller over in-memory `posts` and `comments`
 * collections kept in natural order. A comment is a reply when it names a
 * parent; the listing shows top-level comments with one level of replies.
 * Each post carries a `comments` counter that creation adds one to and
 * deletion takes one from; the invariant those updates are meant to keep
 * is that the counter equals the number of live comments on the post.
 */
module Comments {
  import opened Wrappers
  import opened Store
  import opened Sorting
  import Posts

  datatype Comment = Comment(
    id: ObjectId,
    content: string,
    postId: ObjectId,
    authorId: ObjectId,
    parentId: Option<ObjectId>,
    tally: Tally,
    isDeleted: bool,
    createdAt: int,
    updatedAt: int)

  /** The body of an edit. */
  datatype CommentEdit = CommentEdit(content: string)

  /** The message broadcast when a comment is created, with the post id as
      the request spelled it. */
  datatype CommentEvent = CommentCreated(postId: string, comment: Comment, userId: string)

  const InvalidCommentId := "Invalid comment ID"
  const ParentNotFound := "Parent comment not found"
  const ErrorCreatingComment := "Error creating comment"
  const CommentNotFound := "Comment not found"
  const EditOwnOnly := "You can only edit your own comments"
  const DeleteOwnOnly := "You can only delete your own comments"
  const CommentUpdated := "Comment updated successfully"
  const CommentDeleted := "Comment deleted successfully"

  function FindComment(comments: seq<Comment>, id: ObjectId): Option<nat>
  {
    FirstWhere(comments, (c: Comment) => c.id == id)
  }

  function FindLiveComment(comments: seq<Comment>, id: ObjectId): Option<nat>
  {
    FirstWhere(comments, (c: Comment) => c.id == id && !c.isDeleted)
  }

  /** The `$inc` of a post's `comments` counter by `delta`: it acts on the
      first post with the id and on nothing when there is none. */
  function BumpCount(posts: seq<Posts.Post>, id: ObjectId, delta: int): (r: seq<Posts.Post>)
    ensures |r| == |posts|
    ensures forall j :: 0 <= j < |posts| ==>
              r[j] == (if Posts.Find(posts, id) == Some(j) then posts[j].(comments := posts[j].comments + delta) else posts[j])
  {
    match Posts.Find(posts, id)
    case None => posts
    case Some(i) => posts[i := posts[i].(comments := posts[i].comments + delta)]
  }

  // ---------------------------------------------------------------------
  // The counter invariant
  // ---------------------------------------------------------------------

  /** Whether a comment is a live comment on the post. */
  function LiveOn(postId: ObjectId): Comment -> bool
  {
    (c: Comment) => c.postId == postId && !c.isDeleted
  }

  /** The number of live comments on the post, replies included. */
  function LiveCount(comments: seq<Comment>, postId: ObjectId): nat
  {
    |Filter(comments, LiveOn(postId))|
  }

  /** Every post's counter equals its number of live comments. */
  predicate CountsAgree(posts: seq<Posts.Post>, comments: seq<Comment>)
  {
    forall i :: 0 <= i < |posts| ==> posts[i].comments == LiveCount(comments, posts[i].id)
  }

  predicate UniquePostIds(posts: seq<Posts.Post>)
  {
    forall i, j :: 0 <= i < j < |posts| ==> posts[i].id != posts[j].id
  }

  predicate UniqueCommentIds(comments: seq<Comment>)
  {
    forall i, j :: 0 <= i < j < |comments| ==> comments[i].id != comments[j].id
  }

  /** With unique ids the first post with an id is the only one. */
  lemma FoundIsOnly(posts: seq<Posts.Post>, id: ObjectId, j: int)
    requires UniquePostIds(posts) && 0 <= j < |posts|
    ensures Posts.Find(posts, id) == Some(j) <==> posts[j].id == id
  {
    if posts[j].id == id {
      var f := Posts.Find(posts, id);
      assert f.Some? && f.value <= j && posts[f.value].id == id;
    }
  }

  /** A counter change on the post a comment change is about, matching
      that change, keeps the invariant. */
  lemma CountStep(posts: seq<Posts.Post>, comments: seq<Comment>, comments': seq<Comment>, postId: ObjectId, delta: int)
    requires UniquePostIds(posts) && CountsAgree(posts, comments)
    requires LiveCount(comments', postId) == LiveCount(comments, postId) + delta
    requires forall q :: q != postId ==> LiveCount(comments', q) == LiveCount(comments, q)
    ensures CountsAgree(BumpCount(posts, postId, delta), comments')
  {
    var r := BumpCount(posts, postId, delta);
    forall i | 0 <= i < |r| ensures r[i].comments == LiveCount(comments', r[i].id) {
      FoundIsOnly(posts, postId, i);
    }
  }

  /** A comment replaced by one of the same liveness on the same post
      keeps the invariant. */
  lemma ReplaceKeepsAgreement(posts: seq<Posts.Post>, comments: seq<Comment>, i: int, c: Comment)
    requires CountsAgree(posts, comments)
    requires 0 <= i < |comments| && c.postId == comments[i].postId && c.isDeleted == comments[i].isDeleted
    ensures CountsAgree(posts, comments[i := c])
  {
    forall j | 0 <= j < |posts| ensures posts[j].comments == LiveCount(comments[i := c], posts[j].id) {
      ReplaceKeepsCounts(comments, i, c, posts[j].id);
    }
  }

  /** A comment replaced by one of the same liveness on the same post
      leaves every post's live count where it was. */
  lemma ReplaceKeepsCounts(comments: seq<Comment>, i: int, c: Comment, q: ObjectId)
    requires 0 <= i < |comments| && c.postId == comments[i].postId && c.isDeleted == comments[i].isDeleted
    ensures LiveCount(comments[i := c], q) == LiveCount(comments, q)
  {
    FilterCountReplace(comments, i, c, LiveOn(q));
  }

  // ---------------------------------------------------------------------
  // Creating
  // ---------------------------------------------------------------------

  /** `CreateComment`: the post id is taken from the path and not checked
      against the posts; the author, times, counters and deletion flag are
      replaced; a reply needs a live parent, on whatever post; the post's
      counter is bumped after the insert. */
  function CreateComment(posts: seq<Posts.Post>, comments: seq<Comment>, users: set<ObjectId>, user: Option<string>,
                         postIdParam: string, body: Body<Comment>, freshId: ObjectId, now: int)
    : (seq<Posts.Post>, seq<Comment>, Response<Comment>, Option<CommentEvent>)
  {
    if user.None? then (posts, comments, Error(StatusUnauthorized, NotAuthenticated), None)
    else match ParseObjectId(postIdParam)
      case None => (posts, comments, Error(StatusBadRequest, Posts.InvalidPostId), None)
      case Some(pid) =>
        if body.Malformed? then (posts, comments, Error(StatusBadRequest, body.error), None)
        else
          var authorId := AuthorIdOf(user.value);
          var id := if body.value.id == NilObjectId then freshId else body.value.id;
          var c := body.value.(id := id, postId := pid, authorId := authorId, createdAt := now, updatedAt := now,
                               tally := ZeroTally, isDeleted := false);
          if c.parentId.Some? && FindLiveComment(comments, c.parentId.value).None? then
            (posts, comments, Error(StatusBadRequest, ParentNotFound), None)
          else if authorId !in users then (posts, comments, Error(StatusServerError, Posts.ErrorFetchingUser), None)
          else if FindComment(comments, id).Some? then
            (posts, comments, Error(StatusServerError, ErrorCreatingComment), None)
          else
            (BumpCount(posts, pid, 1), comments + [c], Ok(StatusCreated, c), Some(CommentCreated(postIdParam, c, user.value)))
  }

  /** A comment is created exactly when the user, the post id and the body
      are there, a named parent is live, the author is a known user and the
      id is free; it is live, on the path's post, by the requesting user,
      with zero counters and the content and parent sent; it is appended
      and broadcast. A refused request changes nothing. */
  lemma CreateRules(posts: seq<Posts.Post>, comments: seq<Comment>, users: set<ObjectId>, user: Option<string>,
                    postIdParam: string, body: Body<Comment>, freshId: ObjectId, now: int)
    ensures var (posts', comments', r, ev) := CreateComment(posts, comments, users, user, postIdParam, body, freshId, now);
            && (r.Ok? <==>
                  && user.Some? && ParseObjectId(postIdParam).Some? && body.Bound?
                  && (body.value.parentId.Some? ==> FindLiveComment(comments, body.value.parentId.value).Some?)
                  && AuthorIdOf(user.value) in users
                  && FindComment(comments, if body.value.id == NilObjectId then freshId else body.value.id).None?)
            && (r.Error? ==> posts' == posts && comments' == comments && ev.None?)
            && (r.Ok? ==>
                  var c := r.value;
                  && c.postId == ParseObjectId(postIdParam).value && c.authorId == AuthorIdOf(user.value)
                  && !c.isDeleted && c.tally == ZeroTally && c.createdAt == now
                  && c.content == body.value.content && c.parentId == body.value.parentId
                  && comments' == comments + [c] && posts' == BumpCount(posts, c.postId, 1)
                  && ev == Some(CommentCreated(postIdParam, c, user.value)))
            && (user.None? ==> r == Error(StatusUnauthorized, NotAuthenticated))
            && (user.Some? && ParseObjectId(postIdParam).None? ==> r == Error(StatusBadRequest, Posts.InvalidPostId))
  {
  }

  /** Creation keeps every post's counter equal to its live comments, and
      keeps comment ids unique. */
  lemma CreateKeepsCounts(posts: seq<Posts.Post>, comments: seq<Comment>, users: set<ObjectId>, user: Option<string>,
                          postIdParam: string, body: Body<Comment>, freshId: ObjectId, now: int)
    requires UniquePostIds(posts) && CountsAgree(posts, comments)
    ensures var (posts', comments', _, _) := CreateComment(posts, comments, users, user, postIdParam, body, freshId, now);
            CountsAgree(posts', comments')
  {
    var (posts', comments', r, _) := CreateComment(posts, comments, users, user, postIdParam, body, freshId, now);
    CreateRules(posts, comments, users, user, postIdParam, body, freshId, now);
    if r.Ok? {
      AppendKeepsCounts(posts, comments, r.value);
    }
  }

  /** Appending a live comment and counting it on its post keeps the
      invariant. */
  lemma AppendKeepsCounts(posts: seq<Posts.Post>, comments: seq<Comment>, c: Comment)
    requires UniquePostIds(posts) && CountsAgree(posts, comments) && !c.isDeleted
    ensures CountsAgree(BumpCount(posts, c.postId, 1), comments + [c])
  {
    forall q ensures LiveCount(comments + [c], q) == LiveCount(comments, q) + (if q == c.postId then 1 else 0) {
      FilterAppend(comments, c, LiveOn(q));
    }
    CountStep(posts, comments, comments + [c], c.postId, 1);
  }

  /** Creation keeps comment ids unique. */
  lemma CreateKeepsIdsUnique(posts: seq<Posts.Post>, comments: seq<Comment>, users: set<ObjectId>, user: Option<string>,
                             postIdParam: string, body: Body<Comment>, freshId: ObjectId, now: int)
    requires UniqueCommentIds(comments)
    ensures UniqueCommentIds(CreateComment(posts, comments, users, user, postIdParam, body, freshId, now).1)
  {
    var (_, comments', r, _) := CreateComment(posts, comments, users, user, postIdParam, body, freshId, now);
    if r.Ok? {
      forall i, j | 0 <= i < j < |comments'| ensures comments'[i].id != comments'[j].id {
        if j == |comments| {
          assert comments'[i] == comments[i];
        }
      }
    }
  }

  // ---------------------------------------------------------------------
  // Editing and deleting
  // ---------------------------------------------------------------------

  predicate OwnedComment(c: Comment, id: ObjectId, query: Bson)
  {
    c.id == id && FieldMatches(BObjectId(c.authorId), query)
  }

  /** `UpdateComment` (`edit` is `Some`) and `DeleteComment` (`None`) once
      the owner filter value is chosen; `liveOnly` adds a liveness
      condition to the ownership lookup. The decrement goes to the post of
      the comment the lookup found. */
  function ChangeOwned(posts: seq<Posts.Post>, comments: seq<Comment>, user: Option<string>, idParam: string,
                       edit: Option<Body<CommentEdit>>, now: int, query: string -> Bson, liveOnly: bool)
    : (seq<Posts.Post>, seq<Comment>, Response<string>)
  {
    if user.None? then (posts, comments, Error(StatusUnauthorized, NotAuthenticated))
    else match ParseObjectId(idParam)
      case None => (posts, comments, Error(StatusBadRequest, InvalidCommentId))
      case Some(oid) =>
        if edit.Some? && edit.value.Malformed? then (posts, comments, Error(StatusBadRequest, edit.value.error))
        else match FirstWhere(comments, (c: Comment) => OwnedComment(c, oid, query(user.value)) && (!liveOnly || !c.isDeleted))
          case None => (posts, comments, Error(StatusForbidden, if edit.Some? then EditOwnOnly else DeleteOwnOnly))
          case Some(k) =>
            var i := FindComment(comments, oid).value;
            match edit
            case Some(b) =>
              (posts, comments[i := comments[i].(content := b.value.content, updatedAt := now)], Ok(StatusOK, CommentUpdated))
            case None =>
              (BumpCount(posts, comments[k].postId, -1), comments[i := comments[i].(isDeleted := true)], Ok(StatusOK, CommentDeleted))
  }

  /** `UpdateComment` as written. */
  function UpdateCommentAsWritten(posts: seq<Posts.Post>, comments: seq<Comment>, user: Option<string>, idParam: string,
                                  body: Body<CommentEdit>, now: int): (seq<Posts.Post>, seq<Comment>, Response<string>)
  {
    ChangeOwned(posts, comments, user, idParam, Some(body), now, OwnerQuery, false)
  }

  /** `DeleteComment` as written. */
  function DeleteCommentAsWritten(posts: seq<Posts.Post>, comments: seq<Comment>, user: Option<string>, idParam: string)
    : (seq<Posts.Post>, seq<Comment>, Response<string>)
  {
    ChangeOwned(posts, comments, user, idParam, None, 0, OwnerQuery, false)
  }

  /** `UpdateComment` with the owner filter comparing ids. */
  function UpdateComment(posts: seq<Posts.Post>, comments: seq<Comment>, user: Option<string>, idParam: string,
                         body: Body<CommentEdit>, now: int): (seq<Posts.Post>, seq<Comment>, Response<string>)
  {
    ChangeOwned(posts, comments, user, idParam, Some(body), now, OwnerQueryCorrected, false)
  }

  /** `DeleteComment` with the owner filter comparing ids and nothing
      else changed: a deleted comment still passes the ownership lookup. */
  function DeleteCommentOwnerFixed(posts: seq<Posts.Post>, comments: seq<Comment>, user: Option<string>, idParam: string)
    : (seq<Posts.Post>, seq<Comment>, Response<string>)
  {
    ChangeOwned(posts, comments, user, idParam, None, 0, OwnerQueryCorrected, false)
  }

  /** `DeleteComment` as evidently intended: only the author's live
      comment can be deleted. */
  function DeleteComment(posts: seq<Posts.Post>, comments: seq<Comment>, user: Option<string>, idParam: string)
    : (seq<Posts.Post>, seq<Comment>, Response<string>)
  {
    ChangeOwned(posts, comments, user, idParam, None, 0, OwnerQueryCorrected, true)
  }

  /** As written, an authenticated request with a well-formed id is refused
      with 403 by both handlers, whoever wrote the comment. */
  lemma AsWrittenOwnerNeverMatches(posts: seq<Posts.Post>, comments: seq<Comment>, user: string, idParam: string,
                                   body: CommentEdit, now: int)
    requires ParseObjectId(idParam).Some?
    ensures DeleteCommentAsWritten(posts, comments, Some(user), idParam) == (posts, comments, Error(StatusForbidden, DeleteOwnOnly))
    ensures UpdateCommentAsWritten(posts, comments, Some(user), idParam, Bound(body), now)
              == (posts, comments, Error(StatusForbidden, EditOwnOnly))
  {
    var oid := ParseObjectId(idParam).value;
    forall j | 0 <= j < |comments| ensures !OwnedComment(comments[j], oid, OwnerQuery(user)) {
      StringNeverMatchesId(comments[j].authorId, user);
    }
  }

  /** With ids compared, the author of a comment can edit it: only its
      content and update time change. */
  lemma AuthorCanEdit(posts: seq<Posts.Post>, comments: seq<Comment>, user: string, i: int, body: CommentEdit, now: int)
    requires UniqueCommentIds(comments) && 0 <= i < |comments| && comments[i].authorId == AuthorIdOf(user)
    requires ParseObjectId(comments[i].id.hex) == Some(comments[i].id)
    ensures UpdateComment(posts, comments, Some(user), comments[i].id.hex, Bound(body), now)
              == (posts, comments[i := comments[i].(content := body.content, updatedAt := now)], Ok(StatusOK, CommentUpdated))
  {
    var oid := comments[i].id;
    assert OwnedComment(comments[i], oid, OwnerQueryCorrected(user));
    OwnedIsFound(comments, oid, i);
  }

  /** The owner lookup's comment is the first with its id, so with unique
      ids the comment marked deleted is the one whose post loses a count. */
  lemma OwnedIsFound(comments: seq<Comment>, oid: ObjectId, k: int)
    requires UniqueCommentIds(comments) && 0 <= k < |comments| && comments[k].id == oid
    ensures FindComment(comments, oid) == Some(k)
  {
    var f := FindComment(comments, oid);
    assert f.Some? && f.value <= k && comments[f.value].id == oid;
  }

  /** The corrected delete marks one live comment deleted and takes one
      from the counter of that comment's post; a refused delete changes
      nothing. */
  lemma DeleteOutcome(posts: seq<Posts.Post>, comments: seq<Comment>, user: Option<string>, idParam: string)
    requires UniqueCommentIds(comments)
    ensures var (posts', comments', r) := DeleteComment(posts, comments, user, idParam);
            && (r.Error? ==> posts' == posts && comments' == comments)
            && (r.Ok? ==> exists k :: 0 <= k < |comments| && !comments[k].isDeleted
                            && comments[k].id == ParseObjectId(idParam).value
                            && comments[k].authorId == AuthorIdOf(user.value)
                            && comments' == comments[k := comments[k].(isDeleted := true)]
                            && posts' == BumpCount(posts, comments[k].postId, -1))
  {
    var (posts', comments', r) := DeleteComment(posts, comments, user, idParam);
    if r.Ok? {
      var oid := ParseObjectId(idParam).value;
      var k := FirstWhere(comments, (c: Comment) => OwnedComment(c, oid, OwnerQueryCorrected(user.value)) && !c.isDeleted).value;
      OwnedIsFound(comments, oid, k);
    }
  }

  /** Marking a live comment deleted and taking one from its post's
      counter keeps the invariant. */
  lemma RetireKeepsCounts(posts: seq<Posts.Post>, comments: seq<Comment>, k: int)
    requires UniquePostIds(posts) && CountsAgree(posts, comments) && 0 <= k < |comments| && !comments[k].isDeleted
    ensures CountsAgree(BumpCount(posts, comments[k].postId, -1), comments[k := comments[k].(isDeleted := true)])
  {
    var c := comments[k].(isDeleted := true);
    forall q ensures LiveCount(comments[k := c], q) == LiveCount(comments, q) - (if q == c.postId then 1 else 0) {
      FilterCountReplace(comments, k, c, LiveOn(q));
    }
    CountStep(posts, comments, comments[k := c], c.postId, -1);
  }

  /** The corrected delete keeps every post's counter equal to its live
      comments: it takes a live comment away from exactly the post that
      loses one. */
  lemma DeleteKeepsCounts(posts: seq<Posts.Post>, comments: seq<Comment>, user: Option<string>, idParam: string)
    requires UniquePostIds(posts) && UniqueCommentIds(comments) && CountsAgree(posts, comments)
    ensures var (posts', comments', _) := DeleteComment(posts, comments, user, idParam);
            CountsAgree(posts', comments')
  {
    DeleteOutcome(posts, comments, user, idParam);
    var (posts', comments', r) := DeleteComment(posts, comments, user, idParam);
    if r.Ok? {
      var k :| 0 <= k < |comments| && !comments[k].isDeleted
               && comments' == comments[k := comments[k].(isDeleted := true)]
               && posts' == BumpCount(posts, comments[k].postId, -1);
      RetireKeepsCounts(posts, comments, k);
    }
  }

  /** Once the owner filter compares ids, deleting an already deleted
      comment is accepted again and takes one more from its post's
      counter, which then no longer equals the post's live comments. */
  lemma RepeatedDeleteBreaksCounts(posts: seq<Posts.Post>, comments: seq<Comment>, user: string, i: int, j: int)
    requires UniquePostIds(posts) && UniqueCommentIds(comments) && CountsAgree(posts, comments)
    requires 0 <= i < |comments| && comments[i].isDeleted && comments[i].authorId == AuthorIdOf(user)
    requires ParseObjectId(comments[i].id.hex) == Some(comments[i].id)
    requires 0 <= j < |posts| && posts[j].id == comments[i].postId
    ensures var (posts', comments', r) := DeleteCommentOwnerFixed(posts, comments, Some(user), comments[i].id.hex);
            && r == Ok(StatusOK, CommentDeleted)
            && posts'[j].comments == posts[j].comments - 1
            && comments' == comments
            && !CountsAgree(posts', comments')
  {
    RepeatedDeleteOutcome(posts, comments, user, i);
    BumpBreaksAgreement(posts, comments, j, -1);
  }

  /** The owner-fixed delete of a deleted comment of the user's leaves the
      comments as they are and still decrements the post's counter. */
  lemma RepeatedDeleteOutcome(posts: seq<Posts.Post>, comments: seq<Comment>, user: string, i: int)
    requires UniqueCommentIds(comments)
    requires 0 <= i < |comments| && comments[i].isDeleted && comments[i].authorId == AuthorIdOf(user)
    requires ParseObjectId(comments[i].id.hex) == Some(comments[i].id)
    ensures DeleteCommentOwnerFixed(posts, comments, Some(user), comments[i].id.hex)
              == (BumpCount(posts, comments[i].postId, -1), comments, Ok(StatusOK, CommentDeleted))
  {
    var oid := comments[i].id;
    assert OwnedComment(comments[i], oid, OwnerQueryCorrected(user));
    var k := FirstWhere(comments, (c: Comment) => OwnedComment(c, oid, OwnerQueryCorrected(user)) && (!false || !c.isDeleted)).value;
    OwnedIsFound(comments, oid, k);
    OwnedIsFound(comments, oid, i);
    assert comments[i := comments[i].(isDeleted := true)] == comments;
  }

  /** Changing a post's counter while its comments stay put breaks the
      invariant. */
  lemma BumpBreaksAgreement(posts: seq<Posts.Post>, comments: seq<Comment>, j: int, delta: int)
    requires UniquePostIds(posts) && CountsAgree(posts, comments) && 0 <= j < |posts| && delta != 0
    ensures BumpCount(posts, posts[j].id, delta)[j].comments == posts[j].comments + delta
    ensures !CountsAgree(BumpCount(posts, posts[j].id, delta), comments)
  {
    FoundIsOnly(posts, posts[j].id, j);
  }

  /** The corrected delete refuses a comment that is already deleted and
      changes nothing. */
  lemma DeleteRefusesDeleted(posts: seq<Posts.Post>, comments: seq<Comment>, user: string, i: int)
    requires UniqueCommentIds(comments) && 0 <= i < |comments| && comments[i].isDeleted
    ensures DeleteComment(posts, comments, Some(user), comments[i].id.hex) == (posts, comments, Error(StatusForbidden, DeleteOwnOnly))
              || ParseObjectId(comments[i].id.hex) != Some(comments[i].id)
  {
    var oid := comments[i].id;
    if ParseObjectId(oid.hex) == Some(oid) {
      forall k | 0 <= k < |comments| ensures !(OwnedComment(comments[k], oid, OwnerQueryCorrected(user)) && !comments[k].isDeleted) {
        assert comments[k].id == oid ==> k == i;
      }
    }
  }

  /** Edits keep every post's counter equal to its live comments. */
  lemma UpdateKeepsCounts(posts: seq<Posts.Post>, comments: seq<Comment>, user: Option<string>, idParam: string,
                          body: Body<CommentEdit>, now: int)
    requires CountsAgree(posts, comments)
    ensures var (posts', comments', _) := UpdateComment(posts, comments, user, idParam, body, now);
            CountsAgree(posts', comments')
  {
    var (posts', comments', r) := UpdateComment(posts, comments, user, idParam, body, now);
    if r.Ok? {
      var i := FindComment(comments, ParseObjectId(idParam).value).value;
      var c := comments[i].(content := body.value.content, updatedAt := now);
      assert posts' == posts && comments' == comments[i := c];
      ReplaceKeepsAgreement(posts, comments, i, c);
    }
  }

  // ---------------------------------------------------------------------
  // Voting
  // ---------------------------------------------------------------------

  /** `VoteComment`: authentication, the id, a live comment, then the vote
      type; the answer and the broadcast carry the new counters. */
  function VoteComment(comments: seq<Comment>, user: Option<string>, idParam: string, voteType: string)
    : (seq<Comment>, Response<Comment>, Option<VoteEvent>)
  {
    if user.None? then (comments, Error(StatusUnauthorized, NotAuthenticated), None)
    else match ParseObjectId(idParam)
      case None => (comments, Error(StatusBadRequest, InvalidCommentId), None)
      case Some(oid) =>
        if FindLiveComment(comments, oid).None? then (comments, Error(StatusNotFound, CommentNotFound), None)
        else if !IsVoteType(voteType) then (comments, Error(StatusBadRequest, Posts.InvalidVoteType), None)
        else
          var i := FindComment(comments, oid).value;
          var c := comments[i].(tally := ApplyVote(comments[i].tally, voteType));
          (comments[i := c], Ok(StatusOK, c), Some(VoteEvent(CommentTarget(idParam), voteType, c.tally, user.value)))
  }

  /** A vote is accepted exactly when the user, a well-formed id of a live
      comment and a known vote type are given; it changes that comment's
      counters by the vote's deltas and nothing else, and is broadcast
      with the new counters. */
  lemma VoteCommentDeltas(comments: seq<Comment>, user: Option<string>, idParam: string, voteType: string)
    ensures var (comments', r, ev) := VoteComment(comments, user, idParam, voteType);
            && (r.Ok? <==> user.Some? && ParseObjectId(idParam).Some?
                           && FindLiveComment(comments, ParseObjectId(idParam).value).Some? && IsVoteType(voteType))
            && (r.Error? ==> comments' == comments && ev.None?)
            && (r.Ok? ==>
                  var i := FindComment(comments, ParseObjectId(idParam).value).value;
                  var t := comments[i].tally;
                  && comments' == comments[i := r.value]
                  && r.value == comments[i].(tally := r.value.tally)
                  && (voteType == "upvote" ==> r.value.tally == Tally(t.upvotes + 1, t.downvotes, t.score + 1))
                  && (voteType == "downvote" ==> r.value.tally == Tally(t.upvotes, t.downvotes + 1, t.score - 1))
                  && ev == Some(VoteEvent(CommentTarget(idParam), voteType, r.value.tally, user.value)))
  {
  }

  /** Votes leave every post's live comment count alone. */
  lemma VoteKeepsCounts(posts: seq<Posts.Post>, comments: seq<Comment>, user: Option<string>, idParam: string, voteType: string)
    requires CountsAgree(posts, comments)
    ensures CountsAgree(posts, VoteComment(comments, user, idParam, voteType).0)
  {
    VoteCommentDeltas(comments, user, idParam, voteType);
    var (comments', r, _) := VoteComment(comments, user, idParam, voteType);
    if r.Ok? {
      var i := FindComment(comments, ParseObjectId(idParam).value).value;
      ReplaceKeepsAgreement(posts, comments, i, r.value);
    }
  }

  // ---------------------------------------------------------------------
  // Listing
  // ---------------------------------------------------------------------

  /** A top-level comment with its replies. */
  datatype Thread = Thread(comment: Comment, replies: seq<Comment>)

  function TopLevelOn(postId: ObjectId): Comment -> bool
  {
    (c: Comment) => c.postId == postId && !c.isDeleted && c.parentId.None?
  }

  function ReplyOn(postId: ObjectId, parent: ObjectId): Comment -> bool
  {
    (c: Comment) => c.postId == postId && c.parentId == Some(parent) && !c.isDeleted
  }

  function ScoreOf(c: Comment): int { c.tally.score }

  function CreatedOf(c: Comment): int { c.createdAt }

  /** The replies listed under a top-level comment: live replies to it on
      the same post, oldest first. */
  function RepliesTo(comments: seq<Comment>, postId: ObjectId, parent: ObjectId): seq<Comment>
  {
    SortAsc(Filter(comments, ReplyOn(postId, parent)), CreatedOf)
  }

  /** Live top-level comments on the post, highest score first, each
      with its replies. */
  function Threads(comments: seq<Comment>, pid: ObjectId): seq<Thread>
  {
    ThreadsUnder(comments, pid, SortDesc(Filter(comments, TopLevelOn(pid)), ScoreOf))
  }

  /** One thread per given top-level comment, in the given order. */
  function ThreadsUnder(comments: seq<Comment>, pid: ObjectId, tops: seq<Comment>): seq<Thread>
  {
    seq(|tops|, k requires 0 <= k < |tops| => Thread(tops[k], RepliesTo(comments, pid, tops[k].id)))
  }

  /** `GetComments`. */
  function GetComments(comments: seq<Comment>, postIdParam: string): Response<seq<Thread>>
  {
    match ParseObjectId(postIdParam)
    case None => Error(StatusBadRequest, Posts.InvalidPostId)
    case Some(pid) => Ok(StatusOK, Threads(comments, pid))
  }

  /** The comments heading the threads, in order. */
  function Heads(ts: seq<Thread>): (r: seq<Comment>)
    ensures |r| == |ts| && forall k :: 0 <= k < |ts| ==> r[k] == ts[k].comment
  {
    seq(|ts|, k requires 0 <= k < |ts| => ts[k].comment)
  }

  /** The threads follow the ordered top-level comments one for one. */
  lemma ThreadsShape(comments: seq<Comment>, pid: ObjectId)
    ensures var tops := SortDesc(Filter(comments, TopLevelOn(pid)), ScoreOf);
            var ts := Threads(comments, pid);
            && |ts| == |tops| && Heads(ts) == tops
            && forall k :: 0 <= k < |ts| ==> ts[k].replies == RepliesTo(comments, pid, tops[k].id)
  {
    ThreadsUnderShape(comments, pid, SortDesc(Filter(comments, TopLevelOn(pid)), ScoreOf));
  }

  lemma ThreadsUnderShape(comments: seq<Comment>, pid: ObjectId, tops: seq<Comment>)
    ensures var ts := ThreadsUnder(comments, pid, tops);
            && |ts| == |tops| && Heads(ts) == tops
            && forall k :: 0 <= k < |ts| ==> ts[k].replies == RepliesTo(comments, pid, tops[k].id)
  {
    var ts := ThreadsUnder(comments, pid, tops);
    assert forall k :: 0 <= k < |tops| ==> Heads(ts)[k] == tops[k];
  }

  /** The threads are headed by every live top-level comment on the post
      and nothing else, best score first. */
  lemma ThreadHeads(comments: seq<Comment>, pid: ObjectId)
    ensures Descending(Heads(Threads(comments, pid)), ScoreOf)
    ensures forall c :: c in Heads(Threads(comments, pid)) <==>
                          c in comments && c.postId == pid && !c.isDeleted && c.parentId.None?
  {
    ThreadsShape(comments, pid);
    forall c ensures c in Heads(Threads(comments, pid)) <==>
                       c in comments && c.postId == pid && !c.isDeleted && c.parentId.None? {
      ChosenAreKept(comments, TopLevelOn(pid), ScoreOf, c);
    }
  }

  /** The replies under a comment are every live reply to it on the post
      and nothing else, oldest first. */
  lemma ReplyRules(comments: seq<Comment>, pid: ObjectId, parent: ObjectId)
    ensures Ascending(RepliesTo(comments, pid, parent), CreatedOf)
    ensures forall c :: c in RepliesTo(comments, pid, parent) <==>
                          c in comments && c.postId == pid && c.parentId == Some(parent) && !c.isDeleted
  {
    var g := Filter(comments, ReplyOn(pid, parent));
    forall c ensures c in RepliesTo(comments, pid, parent) <==>
                       c in comments && c.postId == pid && c.parentId == Some(parent) && !c.isDeleted {
      PermutationMembers(SortAsc(g, CreatedOf), g, c);
      FilterMembers(comments, ReplyOn(pid, parent), c);
    }
  }

  /** A listing holds every live top-level comment on the post and nothing
      else, best score first; under each, every live reply to it on the
      post and nothing else, oldest first. A malformed post id is 400. */
  lemma ListingRules(comments: seq<Comment>, postIdParam: string)
    ensures GetComments(comments, postIdParam).Ok? <==> ParseObjectId(postIdParam).Some?
    ensures GetComments(comments, postIdParam).Error? ==> GetComments(comments, postIdParam) == Error(StatusBadRequest, Posts.InvalidPostId)
    ensures GetComments(comments, postIdParam).Ok? ==>
              var pid := ParseObjectId(postIdParam).value;
              var ts := GetComments(comments, postIdParam).value;
              && Descending(Heads(ts), ScoreOf)
              && (forall c :: c in Heads(ts) <==> c in comments && c.postId == pid && !c.isDeleted && c.parentId.None?)
              && (forall k :: 0 <= k < |ts| ==>
                    && Ascending(ts[k].replies, CreatedOf)
                    && (forall c :: c in ts[k].replies <==>
                                      c in comments && c.postId == pid && c.parentId == Some(ts[k].comment.id) && !c.isDeleted))
  {
    if ParseObjectId(postIdParam).Some? {
      var pid := ParseObjectId(postIdParam).value;
      var ts := Threads(comments, pid);
      ThreadHeads(comments, pid);
      ThreadsShape(comments, pid);
      forall k | 0 <= k < |ts|
        ensures Ascending(ts[k].replies, CreatedOf)
        ensures forall c :: c in ts[k].replies <==>
                              c in comments && c.postId == pid && c.parentId == Some(ts[k].comment.id) && !c.isDeleted
      {
        ReplyRules(comments, pid, ts[k].comment.id);
      }
    }
  }

  /** A reply to a reply is stored and counted but never listed: every
      comment a listing shows is top-level or answers a top-level
      comment. */
  lemma NestedRepliesHidden(comments: seq<Comment>, postIdParam: string, c: Comment, parent: Comment)
    requires UniqueCommentIds(comments) && c in comments && parent in comments
    requires c.parentId == Some(parent.id) && parent.parentId.Some?
    requires GetComments(comments, postIdParam).Ok?
    ensures forall k :: 0 <= k < |GetComments(comments, postIdParam).value| ==>
              var t := GetComments(comments, postIdParam).value[k];
              t.comment != c && c !in t.replies
  {
    ListingRules(comments, postIdParam);
    var ts := GetComments(comments, postIdParam).value;
    forall k | 0 <= k < |ts| ensures ts[k].comment != c && c !in ts[k].replies {
      var top := ts[k].comment;
      assert top in comments && top.parentId.None? by {
        assert Heads(ts)[k] == top;
      }
      SameIdSameComment(comments, top, parent);
      assert top.id != parent.id;
    }
  }

  /** With unique ids, two stored comments with the same id are the same. */
  lemma SameIdSameComment(comments: seq<Comment>, a: Comment, b: Comment)
    requires UniqueCommentIds(comments) && a in comments && b in comments
    ensures a.id == b.id ==> a == b
  {
    var i :| 0 <= i < |comments| && comments[i] == a;
    var j :| 0 <= j < |comments| && comments[j] == b;
    assert i != j ==> comments[i].id != comments[j].id;
  }
}
