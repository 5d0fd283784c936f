/**
 * The chat store (`ChatProvider`): the post list, the comments of each
 * post, and the calls that load, create and vote. Every call that writes
 * refuses to start without a token. A request is a parameter that either
 * answers or fails; a failure is rethrown with its message and leaves the
 * lists as they were.
 */
module Chat {
  import opened Wrappers

  /** Vote counters as the client keeps them. */
  datatype Tally = Tally(upvotes: int, downvotes: int, score: int)

  /** A post as the list shows it; `id` is `undefined` when absent. */
  datatype Post = Post(id: Option<string>, tally: Tally, comments: int)

  datatype Comment = Comment(id: Option<string>, tally: Tally)

  datatype State = State(
    posts: seq<Post>,
    comments: map<string, seq<Comment>>,
    loading: bool,
    error: Option<string>,
    requests: nat)   // requests sent so far

  /** The result of a call: the new state, and the message of the error the
      call threw, if it threw. */
  datatype Outcome = Outcome(state: State, thrown: Option<string>)

  const AuthRequired := "Authentication required"

  function Initial(): State
  {
    State([], map[], false, None, 0)
  }

  /** The counters after a vote of that type as the client applies it: an
      upvote adds to the upvotes, a downvote to the downvotes, and the score
      goes up for an upvote and down for anything else. */
  function Vote(t: Tally, voteType: string): Tally
  {
    Tally(if voteType == "upvote" then t.upvotes + 1 else t.upvotes,
          if voteType == "downvote" then t.downvotes + 1 else t.downvotes,
          if voteType == "upvote" then t.score + 1 else t.score - 1)
  }

  /** The score is the difference of the counters. */
  predicate Balanced(t: Tally)
  {
    t.score == t.upvotes - t.downvotes
  }

  /** `posts.map(p => p.id === postId ? vote(p) : p)`. */
  function VotePosts(posts: seq<Post>, postId: string, voteType: string): (r: seq<Post>)
    ensures |r| == |posts|
    ensures forall i :: 0 <= i < |posts| ==> r[i].id == posts[i].id && r[i].comments == posts[i].comments
    ensures forall i :: 0 <= i < |posts| && posts[i].id != Some(postId) ==> r[i] == posts[i]
    ensures forall i :: 0 <= i < |posts| && posts[i].id == Some(postId) ==> r[i].tally == Vote(posts[i].tally, voteType)
  {
    seq(|posts|, i requires 0 <= i < |posts| =>
      if posts[i].id == Some(postId) then posts[i].(tally := Vote(posts[i].tally, voteType)) else posts[i])
  }

  /** `posts.map(p => p.id === postId ? {...p, comments: p.comments + 1} : p)`. */
  function CountComment(posts: seq<Post>, postId: string): (r: seq<Post>)
    ensures |r| == |posts|
    ensures forall i :: 0 <= i < |posts| ==> r[i].id == posts[i].id && r[i].tally == posts[i].tally
    ensures forall i :: 0 <= i < |posts| && posts[i].id != Some(postId) ==> r[i] == posts[i]
    ensures forall i :: 0 <= i < |posts| && posts[i].id == Some(postId) ==> r[i].comments == posts[i].comments + 1
  {
    seq(|posts|, i requires 0 <= i < |posts| =>
      if posts[i].id == Some(postId) then posts[i].(comments := posts[i].comments + 1) else posts[i])
  }

  /** The same vote over a post's comments. */
  function VoteComments(list: seq<Comment>, commentId: string, voteType: string): (r: seq<Comment>)
    ensures |r| == |list|
    ensures forall i :: 0 <= i < |list| ==> r[i].id == list[i].id
    ensures forall i :: 0 <= i < |list| && list[i].id != Some(commentId) ==> r[i] == list[i]
    ensures forall i :: 0 <= i < |list| && list[i].id == Some(commentId) ==> r[i].tally == Vote(list[i].tally, voteType)
  {
    seq(|list|, i requires 0 <= i < |list| =>
      if list[i].id == Some(commentId) then list[i].(tally := Vote(list[i].tally, voteType)) else list[i])
  }

  /** `fetchPosts` up to the request: loading, error cleared. */
  function FetchStart(s: State): State
  {
    s.(loading := true, error := None, requests := s.requests + 1)
  }

  /** `fetchPosts` after the request: the list is replaced, or the error
      recorded; loading ends either way. */
  function FetchDone(s: State, reply: Reply<seq<Post>>): State
  {
    match reply
    case Answered(data) => s.(posts := data, loading := false)
    case Failed(m) => s.(error := Some(m), loading := false)
  }

  /** `fetchComments`: the post's list is replaced; a failure is only
      logged. */
  function FetchComments(s: State, postId: string, reply: Reply<seq<Comment>>): State
  {
    var s1 := s.(requests := s.requests + 1);
    match reply
    case Answered(data) => s1.(comments := s.comments[postId := data])
    case Failed(_) => s1
  }

  /** `createPost`: the new post goes first. */
  function CreatePost(s: State, token: Option<string>, reply: Reply<Post>): Outcome
  {
    if !Truthy(token) then Outcome(s, Some(AuthRequired))
    else
      var s1 := s.(requests := s.requests + 1);
      match reply
      case Failed(m) => Outcome(s1, Some(m))
      case Answered(p) => Outcome(s1.(posts := [p] + s.posts), None)
  }

  /** `votePost`: once the server accepts, the matching posts are voted. */
  function VotePost(s: State, token: Option<string>, postId: string, voteType: string, reply: Reply<()>): Outcome
  {
    if !Truthy(token) then Outcome(s, Some(AuthRequired))
    else
      var s1 := s.(requests := s.requests + 1);
      match reply
      case Failed(m) => Outcome(s1, Some(m))
      case Answered(_) => Outcome(s1.(posts := VotePosts(s.posts, postId, voteType)), None)
  }

  /** `createComment`: the comment is appended to the post's list (created
      if absent) and the matching posts count one more comment. */
  function CreateComment(s: State, token: Option<string>, postId: string, reply: Reply<Comment>): Outcome
  {
    if !Truthy(token) then Outcome(s, Some(AuthRequired))
    else
      var s1 := s.(requests := s.requests + 1);
      match reply
      case Failed(m) => Outcome(s1, Some(m))
      case Answered(c) =>
        var list := if postId in s.comments then s.comments[postId] else [];
        Outcome(s1.(comments := s.comments[postId := list + [c]], posts := CountComment(s.posts, postId)), None)
  }

  /** `voteComment`: `prev[postId]?.map(vote) || []`, so a post without a
      loaded list ends with an empty one. */
  function VoteComment(s: State, token: Option<string>, postId: string, commentId: string,
                       voteType: string, reply: Reply<()>): Outcome
  {
    if !Truthy(token) then Outcome(s, Some(AuthRequired))
    else
      var s1 := s.(requests := s.requests + 1);
      match reply
      case Failed(m) => Outcome(s1, Some(m))
      case Answered(_) =>
        var list := if postId in s.comments then VoteComments(s.comments[postId], commentId, voteType) else [];
        Outcome(s1.(comments := s.comments[postId := list]), None)
  }

  /** Every loaded comment list has as many entries as the posts with that
      id say they have. */
  predicate CountsAgree(s: State)
  {
    forall i :: 0 <= i < |s.posts| && s.posts[i].id.Some? && s.posts[i].id.value in s.comments ==>
      s.posts[i].comments == |s.comments[s.posts[i].id.value]|
  }

  // ---------------------------------------------------------------------
  // Properties
  // ---------------------------------------------------------------------

  /** Without a truthy token every writing call throws before any request
      and changes nothing. */
  lemma NoTokenNoRequest(s: State, token: Option<string>, postId: string, commentId: string, voteType: string,
                         rp: Reply<Post>, rc: Reply<Comment>, ru: Reply<()>)
    requires !Truthy(token)
    ensures CreatePost(s, token, rp) == Outcome(s, Some(AuthRequired))
    ensures VotePost(s, token, postId, voteType, ru) == Outcome(s, Some(AuthRequired))
    ensures CreateComment(s, token, postId, rc) == Outcome(s, Some(AuthRequired))
    ensures VoteComment(s, token, postId, commentId, voteType, ru) == Outcome(s, Some(AuthRequired))
  {
  }

  /** With a token each call sends exactly one request; when it fails the
      call rethrows the request's message and the lists stay as they were. */
  lemma FailedRequestRethrows(s: State, token: Option<string>, postId: string, commentId: string, voteType: string, m: string)
    requires Truthy(token)
    ensures var r := CreatePost(s, token, Failed(m));
            r.thrown == Some(m) && r.state == s.(requests := s.requests + 1)
    ensures var r := VotePost(s, token, postId, voteType, Failed(m));
            r.thrown == Some(m) && r.state == s.(requests := s.requests + 1)
    ensures var r := CreateComment(s, token, postId, Failed(m));
            r.thrown == Some(m) && r.state == s.(requests := s.requests + 1)
    ensures var r := VoteComment(s, token, postId, commentId, voteType, Failed(m));
            r.thrown == Some(m) && r.state == s.(requests := s.requests + 1)
  {
  }

  /** An upvote and a downvote keep the score equal to the difference of
      the counters; any other vote type breaks it, since the score drops
      with no downvote counted. */
  lemma VoteKeepsBalanceIffKnownType(t: Tally, voteType: string)
    requires Balanced(t)
    ensures Balanced(Vote(t, voteType)) <==> voteType == "upvote" || voteType == "downvote"
  {
  }

  /** An upvote moves the score up by one, anything else down by one. */
  lemma VoteMovesScore(t: Tally, voteType: string)
    ensures Vote(t, voteType).score - t.score == (if voteType == "upvote" then 1 else -1)
    ensures Vote(t, voteType).upvotes + Vote(t, voteType).downvotes <= t.upvotes + t.downvotes + 1
  {
  }

  /** A successful `createPost` puts the post first and keeps the rest in
      order. */
  lemma CreatePostPrepends(s: State, token: Option<string>, p: Post)
    requires Truthy(token)
    ensures var r := CreatePost(s, token, Answered(p));
            && r.thrown.None?
            && r.state.posts[0] == p && r.state.posts[1..] == s.posts
            && r.state.comments == s.comments
  {
    var r := CreatePost(s, token, Answered(p));
    assert r.state.posts == [p] + s.posts;
  }

  /** A successful `votePost` votes exactly the posts with that id and keeps
      every comment count. */
  lemma VotePostOnlyMatching(s: State, token: Option<string>, postId: string, voteType: string, i: nat)
    requires Truthy(token) && i < |s.posts|
    ensures var r := VotePost(s, token, postId, voteType, Answered(()));
            && r.thrown.None? && |r.state.posts| == |s.posts|
            && r.state.posts[i].comments == s.posts[i].comments
            && (s.posts[i].id == Some(postId) ==> r.state.posts[i].tally == Vote(s.posts[i].tally, voteType))
            && (s.posts[i].id != Some(postId) ==> r.state.posts[i] == s.posts[i])
            && r.state.comments == s.comments
  {
  }

  /** A successful `createComment` appends to that post's list, adds one to
      the matching posts' counts, and leaves every other list alone. */
  lemma CreateCommentAppends(s: State, token: Option<string>, postId: string, c: Comment, other: string)
    requires Truthy(token) && other != postId
    ensures var r := CreateComment(s, token, postId, Answered(c));
            && r.state.comments[postId] == (if postId in s.comments then s.comments[postId] else []) + [c]
            && (other in r.state.comments <==> other in s.comments)
            && (other in s.comments ==> r.state.comments[other] == s.comments[other])
            && forall i :: 0 <= i < |s.posts| ==>
                 r.state.posts[i].comments == s.posts[i].comments + (if s.posts[i].id == Some(postId) then 1 else 0)
  {
  }

  /** Creating a comment on a post whose list is loaded keeps the counts in
      agreement with the lists. */
  lemma CreateCommentKeepsCounts(s: State, token: Option<string>, postId: string, c: Comment)
    requires Truthy(token) && CountsAgree(s) && postId in s.comments
    ensures CountsAgree(CreateComment(s, token, postId, Answered(c)).state)
  {
    var r := CreateComment(s, token, postId, Answered(c)).state;
    forall i | 0 <= i < |r.posts| && r.posts[i].id.Some? && r.posts[i].id.value in r.comments
      ensures r.posts[i].comments == |r.comments[r.posts[i].id.value]|
    {
      assert r.posts[i].id == s.posts[i].id;
    }
  }

  /** Voting on a post or a comment changes no list's length, so it keeps
      the counts in agreement, as long as the post's list was loaded. */
  lemma VotesKeepCounts(s: State, token: Option<string>, postId: string, commentId: string, voteType: string)
    requires Truthy(token) && CountsAgree(s)
    ensures CountsAgree(VotePost(s, token, postId, voteType, Answered(())).state)
    ensures postId in s.comments ==> CountsAgree(VoteComment(s, token, postId, commentId, voteType, Answered(())).state)
  {
    var r := VotePost(s, token, postId, voteType, Answered(())).state;
    forall i | 0 <= i < |r.posts| && r.posts[i].id.Some? && r.posts[i].id.value in r.comments
      ensures r.posts[i].comments == |r.comments[r.posts[i].id.value]|
    {
      assert r.posts[i].id == s.posts[i].id;
    }
  }

  /** A comment vote on a post whose list was never loaded leaves an empty
      list behind. */
  lemma VoteCommentWithoutList(s: State, token: Option<string>, postId: string, commentId: string, voteType: string)
    requires Truthy(token) && postId !in s.comments
    ensures var r := VoteComment(s, token, postId, commentId, voteType, Answered(()));
            r.thrown.None? && r.state.comments[postId] == [] && r.state.posts == s.posts
  {
  }

  /** A load always ends with loading off; the error is set exactly when the
      request failed, and the list replaced exactly when it answered. */
  lemma FetchCycle(s: State, reply: Reply<seq<Post>>)
    ensures var r := FetchDone(FetchStart(s), reply);
            && !r.loading
            && (r.error.Some? <==> reply.Failed?)
            && (reply.Failed? ==> r.error == Some(reply.message) && r.posts == s.posts)
            && (reply.Answered? ==> r.posts == reply.value)
            && r.comments == s.comments
  {
  }

  /** A loaded comment list replaces only that post's entry, and loading it
      again gives the same state apart from the request count; a failed load
      changes no list and raises nothing. */
  lemma FetchCommentsReplaces(s: State, postId: string, data: seq<Comment>, m: string, other: string)
    requires other != postId
    ensures var r := FetchComments(s, postId, Answered(data));
            && r.comments[postId] == data && r.posts == s.posts
            && (other in r.comments <==> other in s.comments)
            && (other in s.comments ==> r.comments[other] == s.comments[other])
            && FetchComments(r, postId, Answered(data)) == r.(requests := r.requests + 1)
    ensures FetchComments(s, postId, Failed(m)) == s.(requests := s.requests + 1)
  {
  }
}
