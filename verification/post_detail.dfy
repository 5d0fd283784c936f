/**
 * The post page (`PostDetail`): it loads a post with its comments, takes
 * new comments from the socket and from its own form, votes and saves
 * through the server, and signals typing while the form is edited.
 * Requests are parameters that answer or fail.
 */
module PostDetail {
  import opened Wrappers
  import opened Text
  import opened Messages
  import opened Chat
  import TimeFormat

  /** A comment object as the page holds it; opaque to the page. */
  type CommentValue = Option<string>

  /** The post fields the page's logic reads: `created_at` and `CreatedAt`. */
  datatype PostRec = PostRec(createdAt: Option<string>, altCreatedAt: Option<string>)

  /** What the page sends on the socket. */
  datatype Signal = Typing(postId: string) | StopTyping(postId: string)

  datatype Page = Page(
    id: string,                 // the route's post id
    loggedIn: bool,
    post: Option<PostRec>,
    comments: seq<CommentValue>,
    loading: bool,
    error: string,
    draft: string,
    submitting: bool,
    signals: seq<Signal>,
    requests: nat)

  function Mount(id: string, loggedIn: bool): Page
  {
    Page(id, loggedIn, None, [], true, "", "", false, [], 0)
  }

  const LoadFailed := "Failed to load post"
  const LoginToVote := "Please log in to vote"
  const VoteFailed := "Failed to vote. Please try again."
  const LoginToSave := "Please log in to save posts"
  const SaveFailed := "Failed to save post. Please try again."
  const LoginToComment := "Please log in to comment"
  const CommentFailed := "Failed to post comment. Please try again."

  /** The load: the post and its comments are fetched together, and either
      failure fails both. A `null` comment list becomes empty; an empty
      error message becomes the default one. */
  function Loaded(p: Page, reply: Reply<(PostRec, Option<seq<CommentValue>>)>): (r: Page)
    ensures !r.loading
  {
    var p1 := p.(requests := p.requests + 2, loading := false);
    match reply
    case Answered((post, list)) => p1.(post := Some(post), comments := list.GetOr([]))
    case Failed(m) => p1.(error := if m != "" then m else LoadFailed)
  }

  /** The `newComment` listener: a comment for this post goes first. */
  function OnNewComment(p: Page, d: Detail): Page
  {
    if d.postId == Some(p.id) then p.(comments := [d.comment] + p.comments) else p
  }

  /** `handleVote`: the vote, then a fresh copy of the post. */
  function HandleVote(p: Page, voteType: string, vote: Reply<()>, refetch: Reply<PostRec>): Page
  {
    if !p.loggedIn then p.(error := LoginToVote)
    else match vote
      case Failed(_) => p.(requests := p.requests + 1, error := VoteFailed)
      case Answered(_) =>
        var p1 := p.(requests := p.requests + 2);
        match refetch
        case Failed(_) => p1.(error := VoteFailed)
        case Answered(post) => p1.(post := Some(post))
  }

  /** `handleSave`: only a failure shows. */
  function HandleSave(p: Page, reply: Reply<()>): Page
  {
    if !p.loggedIn then p.(error := LoginToSave)
    else
      var p1 := p.(requests := p.requests + 1);
      if reply.Failed? then p1.(error := SaveFailed) else p1
  }

  /** `handleCommentSubmit`: a blank draft does nothing; then the login
      check; a created comment goes first, the draft is cleared and typing
      stops; a failure keeps the draft. */
  function Submit(p: Page, reply: Reply<CommentValue>): Page
  {
    if Trim(p.draft) == "" then p
    else if !p.loggedIn then p.(error := LoginToComment)
    else
      var p1 := p.(requests := p.requests + 1, submitting := false);
      match reply
      case Answered(c) => p1.(comments := [c] + p.comments, draft := "", signals := p.signals + [StopTyping(p.id)])
      case Failed(_) => p1.(error := CommentFailed)
  }

  /** Every edit of the draft signals typing. */
  function Edit(p: Page, text: string): Page
  {
    p.(draft := text, signals := p.signals + [Typing(p.id)])
  }

  /** Leaving the field signals that typing stopped. */
  function Blur(p: Page): Page
  {
    p.(signals := p.signals + [StopTyping(p.id)])
  }

  /** The submit button is enabled. */
  predicate CanSubmit(p: Page)
  {
    !p.submitting && Trim(p.draft) != ""
  }

  /** What the page renders. */
  datatype Screen = Spinner | ErrorScreen(message: string) | NotFound | Shown

  function Render(p: Page): (r: Screen)
  {
    if p.loading then Spinner
    else if p.error != "" && p.post.None? then ErrorScreen(p.error)
    else if p.post.None? then NotFound
    else Shown
  }

  /** The post's timestamp: `created_at || CreatedAt`, `Unknown time` when
      both are falsy. */
  function ShownTime(post: PostRec, now: int, parse: string -> Option<int>): TimeFormat.Label
  {
    TimeFormat.FormatTimeOrUnknown(if Truthy(post.createdAt) then post.createdAt else post.altCreatedAt, now, parse)
  }

  // ---------------------------------------------------------------------
  // Properties
  // ---------------------------------------------------------------------

  /** A blank draft is ignored whether or not anyone is logged in; any
      other draft either asks for a login or sends one request. */
  lemma BlankSubmitIgnored(p: Page, reply: Reply<CommentValue>)
    ensures Trim(p.draft) == "" ==> Submit(p, reply) == p
    ensures Trim(p.draft) != "" && !p.loggedIn ==> Submit(p, reply).error == LoginToComment
    ensures Trim(p.draft) != "" && p.loggedIn ==> Submit(p, reply).requests == p.requests + 1
  {
  }

  /** Logged out, voting, saving and commenting only show their message and
      send nothing. */
  lemma LoggedOutSendsNothing(p: Page, voteType: string, v: Reply<()>, f: Reply<PostRec>, s: Reply<()>, c: Reply<CommentValue>)
    requires !p.loggedIn
    ensures HandleVote(p, voteType, v, f) == p.(error := LoginToVote)
    ensures HandleSave(p, s) == p.(error := LoginToSave)
    ensures Trim(p.draft) != "" ==> Submit(p, c) == p.(error := LoginToComment)
  {
  }

  /** A created comment goes first, the draft is cleared and typing stops;
      a failed one keeps the draft and the comments. */
  lemma SubmitOutcome(p: Page, reply: Reply<CommentValue>)
    requires p.loggedIn && Trim(p.draft) != ""
    ensures var r := Submit(p, reply);
            && !r.submitting && r.requests == p.requests + 1
            && (reply.Answered? ==> r.comments == [reply.value] + p.comments && r.draft == ""
                                    && r.signals == p.signals + [StopTyping(p.id)] && r.error == p.error)
            && (reply.Failed? ==> r.comments == p.comments && r.draft == p.draft && r.error == CommentFailed)
  {
  }

  /** The socket's new comments reach the page exactly for its own post. */
  lemma NewCommentOnlyForThisPost(p: Page, d: Detail)
    ensures OnNewComment(p, d) != p <==> d.postId == Some(p.id)
    ensures d.postId == Some(p.id) ==> OnNewComment(p, d).comments == [d.comment] + p.comments
  {
    if d.postId == Some(p.id) {
      assert |OnNewComment(p, d).comments| == |p.comments| + 1;
    }
  }

  /** The page's own comment is shown twice once the server's broadcast of
      it arrives: the form prepends it and so does the listener. */
  lemma OwnCommentShownTwice(p: Page, c: CommentValue, d: Detail)
    requires p.loggedIn && Trim(p.draft) != ""
    requires d.postId == Some(p.id) && d.comment == c
    ensures OnNewComment(Submit(p, Answered(c)), d).comments[..2] == [c, c]
  {
  }

  /** Exactly one screen, and the error screen only while there is no
      post. */
  lemma RenderCases(p: Page)
    ensures Render(p) == Spinner <==> p.loading
    ensures Render(p).ErrorScreen? <==> !p.loading && p.error != "" && p.post.None?
    ensures Render(p) == NotFound <==> !p.loading && p.error == "" && p.post.None?
    ensures Render(p) == Shown <==> !p.loading && p.post.Some?
  {
  }

  /** Once loaded the page shows the post, the error, or `Post not found`,
      never the spinner; a failed load with an empty message shows the
      default one. */
  lemma LoadedScreens(p: Page, reply: Reply<(PostRec, Option<seq<CommentValue>>)>)
    requires p.post.None? && p.error == ""
    ensures Render(Loaded(p, reply)) != Spinner
    ensures reply.Answered? ==> Render(Loaded(p, reply)) == Shown
    ensures reply.Failed? ==>
              Render(Loaded(p, reply)) == ErrorScreen(if reply.message != "" then reply.message else LoadFailed)
    ensures reply.Answered? && reply.value.1.None? ==> Loaded(p, reply).comments == []
  {
  }

  /** Typing signals follow the form: one `typing` per edit, one
      `stop_typing` per blur, each for this post. */
  lemma TypingSignals(p: Page, text: string)
    ensures Edit(p, text).signals == p.signals + [Typing(p.id)]
    ensures Blur(p).signals == p.signals + [StopTyping(p.id)]
    ensures CanSubmit(Edit(p, text)) <==> !p.submitting && Trim(text) != ""
  {
  }

  /** A vote that goes through shows the refreshed post; one that does not
      keeps the old post and says so. */
  lemma VoteOutcome(p: Page, voteType: string, v: Reply<()>, f: Reply<PostRec>)
    requires p.loggedIn
    ensures v.Answered? && f.Answered? ==> HandleVote(p, voteType, v, f).post == Some(f.value)
    ensures v.Failed? || f.Failed? ==>
              HandleVote(p, voteType, v, f).post == p.post && HandleVote(p, voteType, v, f).error == VoteFailed
  {
  }

  /** The timestamp falls back to `CreatedAt` only when `created_at` is
      falsy, and reads `Unknown time` only when both are. */
  lemma ShownTimeFallback(post: PostRec, now: int, parse: string -> Option<int>)
    ensures ShownTime(post, now, parse) == TimeFormat.UnknownTime <==> !Truthy(post.createdAt) && !Truthy(post.altCreatedAt)
    ensures Truthy(post.createdAt) ==> ShownTime(post, now, parse) == TimeFormat.FormatTime(post.createdAt, now, parse)
  {
  }
}
