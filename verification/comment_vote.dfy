/**
 * A comment vote from end to end: the client store's `voteComment` calls
 * the API helper, the helper posts to `/comments/${commentId}/${voteType}`,
 * the route `/comments/:commentId/:type` hands the two path segments to the
 * server's `VoteComment`, and the helper turns the answer into a resolved
 * call or a thrown error. The store passes the post id where the helper
 * expects the comment id, so the request names the wrong comment and the
 * wrong vote type.
 */
module CommentVote {
  import opened Wrappers
  import Store
  import Comments
  import Chat

  /** The two path segments of a vote request. */
  datatype VoteRequest = VoteRequest(idSegment: string, typeSegment: string)

  /** The helper `voteComment(commentId, voteType)`: the first argument
      becomes the id segment, the second the type segment. */
  function RequestOf(commentId: string, voteType: string): VoteRequest
  {
    VoteRequest(commentId, voteType)
  }

  /** As written, the store calls the helper with `(postId, commentId,
      voteType, token)`: the helper takes only the first two. */
  function RequestAsWritten(postId: string, commentId: string, voteType: string): VoteRequest
  {
    RequestOf(postId, commentId)
  }

  /** The call the helper's signature expects. */
  function Request(postId: string, commentId: string, voteType: string): VoteRequest
  {
    RequestOf(commentId, voteType)
  }

  /** The server's answer: the route binds `:commentId` and `:type` to the
      two segments. */
  function Serve(comments: seq<Comments.Comment>, user: Option<string>, rq: VoteRequest)
    : (seq<Comments.Comment>, Store.Response<Comments.Comment>, Option<Store.VoteEvent>)
  {
    Comments.VoteComment(comments, user, rq.idSegment, rq.typeSegment)
  }

  /** The helper's reading of the answer: a success resolves, a failure
      throws the server's `error` text, or a default when it is empty. */
  function ReplyOf(r: Store.Response<Comments.Comment>): (rep: Reply<()>)
    ensures rep.Answered? <==> r.Ok?
    ensures r.Error? && r.error != "" ==> rep == Failed(r.error)
  {
    match r
    case Ok(_, _) => Answered(())
    case Error(_, e) => Failed(if e == "" then "Failed to vote on comment" else e)
  }

  /** The store's `voteComment` as written, given the server's collection
      and the user it finds in the request. */
  function VoteCommentAsWritten(s: Chat.State, token: Option<string>, comments: seq<Comments.Comment>,
                                user: Option<string>, postId: string, commentId: string, voteType: string): Chat.Outcome
  {
    Chat.VoteComment(s, token, postId, commentId, voteType,
                     ReplyOf(Serve(comments, user, RequestAsWritten(postId, commentId, voteType)).1))
  }

  /** The store's `voteComment` with the helper called as declared. */
  function VoteCommentCorrected(s: Chat.State, token: Option<string>, comments: seq<Comments.Comment>,
                                user: Option<string>, postId: string, commentId: string, voteType: string): Chat.Outcome
  {
    Chat.VoteComment(s, token, postId, commentId, voteType,
                     ReplyOf(Serve(comments, user, Request(postId, commentId, voteType)).1))
  }

  /** As written, the server accepts a vote only when the comment id is
      literally a vote type, which no id it hands out is: for a comment id of
      24 hex digits the request always fails, nothing stored changes, and
      the store throws and keeps its comment lists. With a user and a post id
      that names no live comment, the failure is 404. */
  lemma AsWrittenCommentVoteNeverSucceeds(s: Chat.State, token: Option<string>, comments: seq<Comments.Comment>,
                                          user: Option<string>, postId: string, commentId: string, voteType: string)
    ensures Serve(comments, user, RequestAsWritten(postId, commentId, voteType)).1.Ok? ==>
              commentId == "upvote" || commentId == "downvote"
    ensures Store.ParseObjectId(commentId).Some? ==>
              var (comments', r, ev) := Serve(comments, user, RequestAsWritten(postId, commentId, voteType));
              r.Error? && comments' == comments && ev.None?
    ensures Store.ParseObjectId(commentId).Some? ==>
              var o := VoteCommentAsWritten(s, token, comments, user, postId, commentId, voteType);
              o.state.comments == s.comments && o.state.posts == s.posts && (Truthy(token) ==> o.thrown.Some?)
    ensures user.Some? && Store.ParseObjectId(postId).Some?
            && Comments.FindLiveComment(comments, Store.ParseObjectId(postId).value).None? ==>
              Serve(comments, user, RequestAsWritten(postId, commentId, voteType)).1
                == Store.Error(Store.StatusNotFound, Comments.CommentNotFound)
  {
    Comments.VoteCommentDeltas(comments, user, postId, commentId);
    if Store.ParseObjectId(commentId).Some? {
      assert |commentId| == 24;
      assert !Store.IsVoteType(commentId);
    }
  }

  /** Called as declared, the request reaches the comment: the server
      accepts it exactly for a user, a well-formed id of a live comment and
      a known vote type, applies the vote to that comment, and the store
      then applies the same vote to the post's loaded list without
      throwing. */
  lemma CorrectedCommentVoteApplies(s: Chat.State, token: Option<string>, comments: seq<Comments.Comment>,
                                    user: Option<string>, postId: string, commentId: string, voteType: string)
    ensures var (comments', r, _) := Serve(comments, user, Request(postId, commentId, voteType));
            && (r.Ok? <==> user.Some? && Store.ParseObjectId(commentId).Some?
                           && Comments.FindLiveComment(comments, Store.ParseObjectId(commentId).value).Some?
                           && Store.IsVoteType(voteType))
            && (r.Ok? ==>
                  var i := Comments.FindComment(comments, Store.ParseObjectId(commentId).value).value;
                  comments' == comments[i := r.value] && r.value.tally == Store.ApplyVote(comments[i].tally, voteType))
    ensures var r := Serve(comments, user, Request(postId, commentId, voteType)).1;
            var o := VoteCommentCorrected(s, token, comments, user, postId, commentId, voteType);
            Truthy(token) && r.Ok? ==>
              && o.thrown.None? && o.state.posts == s.posts
              && o.state.comments[postId]
                   == (if postId in s.comments then Chat.VoteComments(s.comments[postId], commentId, voteType) else [])
  {
    Comments.VoteCommentDeltas(comments, user, commentId, voteType);
  }
}
