/**
 * The post controller over an in-memory `posts` collection kept in
 * natural order. The user is the id a handler finds in the request
 * context (`None` when it finds none); the user collection is reduced to
 * the set of ids it holds; clocks come in as `now`; the id the database
 * would generate for an insert comes in as `freshId`.
 */
module Posts {
  import opened Wrappers
  import opened Store
  import opened Sorting

  datatype Post = Post(
    id: ObjectId,
    title: string,
    content: string,
    authorId: ObjectId,
    tags: seq<string>,
    tally: Tally,
    comments: int,
    isDeleted: bool,
    createdAt: int,
    updatedAt: int)

  /** The fields an edit sends. */
  datatype PostEdit = PostEdit(title: string, content: string, tags: seq<string>)

  const InvalidPostId := "Invalid post ID"
  const PostNotFound := "Post not found"
  const InvalidVoteType := "Invalid vote type"
  const ErrorFetchingUser := "Error fetching user"
  const ErrorCreatingPost := "Error creating post"
  const EditOwnOnly := "You can only edit your own posts"
  const DeleteOwnOnly := "You can only delete your own posts"
  const PostUpdated := "Post updated successfully"
  const PostDeleted := "Post deleted successfully"
  const PostSaved := "Post saved successfully"
  const PostUnsaved := "Post unsaved successfully"
  const InvalidFilterData := "Invalid filter data"

  const ListLimit := 50

  predicate AllBalanced(posts: seq<Post>)
  {
    forall i :: 0 <= i < |posts| ==> Balanced(posts[i].tally)
  }

  function Find(posts: seq<Post>, id: ObjectId): Option<nat>
  {
    FirstWhere(posts, (p: Post) => p.id == id)
  }

  function FindLive(posts: seq<Post>, id: ObjectId): Option<nat>
  {
    FirstWhere(posts, (p: Post) => p.id == id && !p.isDeleted)
  }

  // ---------------------------------------------------------------------
  // Creating
  // ---------------------------------------------------------------------

  /** `CreatePost`: whatever the body says about the author, the counters,
      the deletion flag and the times is replaced; a body without an id gets
      the generated one; an id already taken fails the insert. */
  function CreatePost(posts: seq<Post>, users: set<ObjectId>, user: Option<string>, body: Body<Post>,
                      freshId: ObjectId, now: int): (seq<Post>, Response<Post>)
  {
    if user.None? then (posts, Error(StatusUnauthorized, NotAuthenticated))
    else if body.Malformed? then (posts, Error(StatusBadRequest, body.error))
    else
      var authorId := AuthorIdOf(user.value);
      if authorId !in users then (posts, Error(StatusServerError, ErrorFetchingUser))
      else
        var id := if body.value.id == NilObjectId then freshId else body.value.id;
        var p := body.value.(id := id, authorId := authorId, createdAt := now, updatedAt := now,
                             tally := ZeroTally, comments := 0, isDeleted := false);
        if Find(posts, id).Some? then (posts, Error(StatusServerError, ErrorCreatingPost))
        else (posts + [p], Ok(StatusCreated, p))
  }

  /** A created post starts with every counter at zero, is live, belongs to
      the requesting user, keeps the title, content and tags sent, and is
      appended to the collection. */
  lemma CreateZeroesCounters(posts: seq<Post>, users: set<ObjectId>, user: Option<string>, body: Body<Post>,
                             freshId: ObjectId, now: int)
    ensures var (posts', r) := CreatePost(posts, users, user, body, freshId, now);
            && (r.Ok? <==> user.Some? && body.Bound? && AuthorIdOf(user.value) in users
                           && Find(posts, if body.value.id == NilObjectId then freshId else body.value.id).None?)
            && (r.Ok? ==> var p := r.value;
                  && p.tally == Tally(0, 0, 0) && p.comments == 0 && !p.isDeleted
                  && p.authorId == AuthorIdOf(user.value) && p.createdAt == now
                  && p.title == body.value.title && p.content == body.value.content && p.tags == body.value.tags
                  && Balanced(p.tally) && posts' == posts + [p])
            && (r.Error? ==> posts' == posts)
            && (user.None? ==> r == Error(StatusUnauthorized, NotAuthenticated))
  {
    if user.Some? && body.Bound? && AuthorIdOf(user.value) in users {
      var id := if body.value.id == NilObjectId then freshId else body.value.id;
      var p := body.value.(id := id, authorId := AuthorIdOf(user.value), createdAt := now, updatedAt := now,
                           tally := ZeroTally, comments := 0, isDeleted := false);
      assert CreatePost(posts, users, user, body, freshId, now)
          == if Find(posts, id).Some? then (posts, Error(StatusServerError, ErrorCreatingPost))
             else (posts + [p], Ok(StatusCreated, p));
    }
  }

  // ---------------------------------------------------------------------
  // Voting
  // ---------------------------------------------------------------------

  /** `VotePost`: authentication, then the id, then a live post, then the
      vote type; the update and the broadcast use the post's new counters. */
  function VotePost(posts: seq<Post>, user: Option<string>, idParam: string, voteType: string)
    : (seq<Post>, Response<Post>, Option<VoteEvent>)
  {
    if user.None? then (posts, Error(StatusUnauthorized, NotAuthenticated), None)
    else match ParseObjectId(idParam)
      case None => (posts, Error(StatusBadRequest, InvalidPostId), None)
      case Some(oid) =>
        if FindLive(posts, oid).None? then (posts, Error(StatusNotFound, PostNotFound), None)
        else if !IsVoteType(voteType) then (posts, Error(StatusBadRequest, InvalidVoteType), None)
        else
          var i := Find(posts, oid).value;
          var p := posts[i].(tally := ApplyVote(posts[i].tally, voteType));
          (posts[i := p], Ok(StatusOK, p), Some(VoteEvent(PostTarget(idParam), voteType, p.tally, user.value)))
  }

  /** An accepted upvote adds one to upvotes and score, a downvote one to
      downvotes and minus one to score; nothing else in the post or the
      collection changes, and the broadcast carries the new counters. */
  lemma VoteDeltas(posts: seq<Post>, user: Option<string>, idParam: string, voteType: string)
    ensures var (posts', r, ev) := VotePost(posts, user, idParam, voteType);
            && (r.Ok? <==> user.Some? && ParseObjectId(idParam).Some?
                           && FindLive(posts, ParseObjectId(idParam).value).Some?
                           && (voteType == "upvote" || voteType == "downvote"))
            && (r.Error? ==> posts' == posts && ev.None?)
            && (r.Ok? ==>
                  var i := Find(posts, ParseObjectId(idParam).value).value;
                  && |posts'| == |posts| && posts'[i] == r.value
                  && (forall j :: 0 <= j < |posts| && j != i ==> posts'[j] == posts[j])
                  && r.value == posts[i].(tally := r.value.tally)
                  && var t := posts[i].tally;
                  && (voteType == "upvote" ==> r.value.tally == Tally(t.upvotes + 1, t.downvotes, t.score + 1))
                  && (voteType == "downvote" ==> r.value.tally == Tally(t.upvotes, t.downvotes + 1, t.score - 1))
                  && ev == Some(VoteEvent(PostTarget(idParam), voteType, r.value.tally, user.value)))
  {
  }

  /** The checks run in order: no user is 401, a bad id 400, a missing or
      deleted post 404 whatever the vote type, and only then a bad type
      400. */
  lemma VoteChecksInOrder(posts: seq<Post>, user: Option<string>, idParam: string, voteType: string)
    ensures var r := VotePost(posts, user, idParam, voteType).1;
            && (user.None? ==> r == Error(StatusUnauthorized, NotAuthenticated))
            && (user.Some? && ParseObjectId(idParam).None? ==> r == Error(StatusBadRequest, InvalidPostId))
            && (user.Some? && ParseObjectId(idParam).Some? && FindLive(posts, ParseObjectId(idParam).value).None? ==>
                  r == Error(StatusNotFound, PostNotFound))
            && ((user.Some? && ParseObjectId(idParam).Some? && FindLive(posts, ParseObjectId(idParam).value).Some?
                 && voteType != "upvote" && voteType != "downvote") ==> r == Error(StatusBadRequest, InvalidVoteType))
  {
  }

  /** A live post found by id is the first post with that id. */
  lemma LiveIsFirst(posts: seq<Post>, id: ObjectId)
    requires FindLive(posts, id).Some?
    ensures Find(posts, id).Some? && Find(posts, id).value <= FindLive(posts, id).value
  {
  }

  /** Votes keep every post's score equal to its upvotes minus its
      downvotes. */
  lemma VoteKeepsBalance(posts: seq<Post>, user: Option<string>, idParam: string, voteType: string)
    requires AllBalanced(posts)
    ensures AllBalanced(VotePost(posts, user, idParam, voteType).0)
  {
    var changed, i := VoteOutcome(posts, user, idParam, voteType);
    if changed {
      VotesKeepBalance(posts[i].tally, voteType);
      ReplaceKeepsBalance(posts, i, posts[i].(tally := ApplyVote(posts[i].tally, voteType)));
    }
  }

  /** A vote either leaves the collection as it was or replaces one post by
      itself with the vote applied. */
  lemma VoteOutcome(posts: seq<Post>, user: Option<string>, idParam: string, voteType: string)
    returns (changed: bool, i: int)
    ensures !changed ==> VotePost(posts, user, idParam, voteType).0 == posts
    ensures changed ==> && 0 <= i < |posts| && IsVoteType(voteType)
                        && VotePost(posts, user, idParam, voteType).0
                           == posts[i := posts[i].(tally := ApplyVote(posts[i].tally, voteType))]
  {
    changed := user.Some? && ParseObjectId(idParam).Some? && FindLive(posts, ParseObjectId(idParam).value).Some?
               && IsVoteType(voteType);
    i := if changed then Find(posts, ParseObjectId(idParam).value).value else 0;
  }

  lemma ReplaceKeepsBalance(posts: seq<Post>, i: int, p: Post)
    requires AllBalanced(posts) && 0 <= i < |posts| && Balanced(p.tally)
    ensures AllBalanced(posts[i := p])
  {
  }

  /** Creation keeps every post balanced too, so every post that only
      creation and votes have touched is balanced. */
  lemma CreateKeepsBalance(posts: seq<Post>, users: set<ObjectId>, user: Option<string>, body: Body<Post>,
                           freshId: ObjectId, now: int)
    requires AllBalanced(posts)
    ensures AllBalanced(CreatePost(posts, users, user, body, freshId, now).0)
  {
    var (posts', r) := CreatePost(posts, users, user, body, freshId, now);
    if r.Ok? {
      assert posts' == posts + [r.value] && r.value.tally == ZeroTally;
    }
  }

  // ---------------------------------------------------------------------
  // Saving (acknowledged only)
  // ---------------------------------------------------------------------

  /** `SavePost` and `UnsavePost`: they check the user, the id and a live
      post and answer with the `saved` flag; nothing is stored. */
  function SavePost(posts: seq<Post>, user: Option<string>, idParam: string, save: bool): (r: Response<bool>)
    ensures r.Ok? <==> user.Some? && ParseObjectId(idParam).Some? && FindLive(posts, ParseObjectId(idParam).value).Some?
    ensures r.Ok? ==> r.value == save
  {
    if user.None? then Error(StatusUnauthorized, NotAuthenticated)
    else match ParseObjectId(idParam)
      case None => Error(StatusBadRequest, InvalidPostId)
      case Some(oid) =>
        if FindLive(posts, oid).None? then Error(StatusNotFound, PostNotFound)
        else Ok(StatusOK, save)
  }

  // ---------------------------------------------------------------------
  // Ownership: editing and deleting
  // ---------------------------------------------------------------------

  predicate Owned(p: Post, id: ObjectId, query: Bson)
  {
    p.id == id && FieldMatches(BObjectId(p.authorId), query)
  }

  /** `UpdatePost` and `DeletePost` once the owner filter value is chosen:
      `edit` is `Some` for an update, `None` for a delete. The ownership
      lookup ignores the deletion flag. */
  function ChangeOwned(posts: seq<Post>, user: Option<string>, idParam: string, edit: Option<Body<PostEdit>>,
                       now: int, query: string -> Bson): (seq<Post>, Response<string>)
  {
    if user.None? then (posts, Error(StatusUnauthorized, NotAuthenticated))
    else match ParseObjectId(idParam)
      case None => (posts, Error(StatusBadRequest, InvalidPostId))
      case Some(oid) =>
        if edit.Some? && edit.value.Malformed? then (posts, Error(StatusBadRequest, edit.value.error))
        else if FirstWhere(posts, (p: Post) => Owned(p, oid, query(user.value))).None? then
          (posts, Error(StatusForbidden, if edit.Some? then EditOwnOnly else DeleteOwnOnly))
        else
          var i := Find(posts, oid).value;
          match edit
          case Some(b) =>
            var e := b.value;
            (posts[i := posts[i].(title := e.title, content := e.content, tags := e.tags, updatedAt := now)],
             Ok(StatusOK, PostUpdated))
          case None =>
            (posts[i := posts[i].(isDeleted := true)], Ok(StatusOK, PostDeleted))
  }

  /** `UpdatePost` as written. */
  function UpdatePostAsWritten(posts: seq<Post>, user: Option<string>, idParam: string, body: Body<PostEdit>, now: int)
    : (seq<Post>, Response<string>)
  {
    ChangeOwned(posts, user, idParam, Some(body), now, OwnerQuery)
  }

  /** `DeletePost` as written. */
  function DeletePostAsWritten(posts: seq<Post>, user: Option<string>, idParam: string): (seq<Post>, Response<string>)
  {
    ChangeOwned(posts, user, idParam, None, 0, OwnerQuery)
  }

  /** `UpdatePost` with the owner filter comparing ids. */
  function UpdatePost(posts: seq<Post>, user: Option<string>, idParam: string, body: Body<PostEdit>, now: int)
    : (seq<Post>, Response<string>)
  {
    ChangeOwned(posts, user, idParam, Some(body), now, OwnerQueryCorrected)
  }

  /** `DeletePost` with the owner filter comparing ids. */
  function DeletePost(posts: seq<Post>, user: Option<string>, idParam: string): (seq<Post>, Response<string>)
  {
    ChangeOwned(posts, user, idParam, None, 0, OwnerQueryCorrected)
  }

  /** As written, an authenticated request with a well-formed id is refused
      with 403 by both handlers, whoever wrote the post, and nothing
      changes. */
  lemma AsWrittenOwnerNeverMatches(posts: seq<Post>, user: string, idParam: string, body: PostEdit, now: int)
    requires ParseObjectId(idParam).Some?
    ensures DeletePostAsWritten(posts, Some(user), idParam) == (posts, Error(StatusForbidden, DeleteOwnOnly))
    ensures UpdatePostAsWritten(posts, Some(user), idParam, Bound(body), now) == (posts, Error(StatusForbidden, EditOwnOnly))
  {
    var oid := ParseObjectId(idParam).value;
    forall j | 0 <= j < |posts| ensures !Owned(posts[j], oid, OwnerQuery(user)) {
      StringNeverMatchesId(posts[j].authorId, user);
    }
  }

  /** With ids compared, the author of a post can delete it: the post stays
      in the collection, marked deleted, and nothing else changes. */
  lemma AuthorCanDelete(posts: seq<Post>, user: string, i: int)
    requires 0 <= i < |posts| && posts[i].authorId == AuthorIdOf(user)
    requires forall j :: 0 <= j < |posts| && j != i ==> posts[j].id != posts[i].id
    ensures var (posts', r) := DeletePost(posts, Some(user), posts[i].id.hex);
            ParseObjectId(posts[i].id.hex) == Some(posts[i].id) ==>
              && r == Ok(StatusOK, PostDeleted)
              && posts' == posts[i := posts[i].(isDeleted := true)]
  {
    var oid := posts[i].id;
    if ParseObjectId(oid.hex) == Some(oid) {
      assert Owned(posts[i], oid, OwnerQueryCorrected(user));
      assert FirstWhere(posts, (p: Post) => Owned(p, oid, OwnerQueryCorrected(user))).Some?;
      assert Find(posts, oid) == Some(i);
    }
  }

  /** With ids compared, the author of a post can edit it: title, content,
      tags and the update time are replaced, and nothing else changes. */
  lemma AuthorCanEdit(posts: seq<Post>, user: string, i: int, e: PostEdit, now: int)
    requires 0 <= i < |posts| && posts[i].authorId == AuthorIdOf(user)
    requires forall j :: 0 <= j < |posts| && j != i ==> posts[j].id != posts[i].id
    ensures var (posts', r) := UpdatePost(posts, Some(user), posts[i].id.hex, Bound(e), now);
            ParseObjectId(posts[i].id.hex) == Some(posts[i].id) ==>
              && r == Ok(StatusOK, PostUpdated)
              && posts' == posts[i := posts[i].(title := e.title, content := e.content, tags := e.tags, updatedAt := now)]
  {
    var oid := posts[i].id;
    if ParseObjectId(oid.hex) == Some(oid) {
      assert Owned(posts[i], oid, OwnerQueryCorrected(user));
      assert FirstWhere(posts, (p: Post) => Owned(p, oid, OwnerQueryCorrected(user))).Some?;
      assert Find(posts, oid) == Some(i);
    }
  }

  /** A user who wrote no post with that id is refused with 403 by both
      handlers, and nothing changes. */
  lemma OthersRefused(posts: seq<Post>, user: string, idParam: string, e: PostEdit, now: int)
    requires ParseObjectId(idParam).Some?
    requires forall j :: 0 <= j < |posts| && posts[j].id == ParseObjectId(idParam).value ==>
               posts[j].authorId != AuthorIdOf(user)
    ensures UpdatePost(posts, Some(user), idParam, Bound(e), now) == (posts, Error(StatusForbidden, EditOwnOnly))
    ensures DeletePost(posts, Some(user), idParam) == (posts, Error(StatusForbidden, DeleteOwnOnly))
  {
    var oid := ParseObjectId(idParam).value;
    assert forall j :: 0 <= j < |posts| ==> !Owned(posts[j], oid, OwnerQueryCorrected(user));
  }

  /** Deletion is soft: the collection keeps its length and the post its
      fields, only the flag is set; a refused delete changes nothing. */
  lemma DeleteIsSoft(posts: seq<Post>, user: Option<string>, idParam: string)
    ensures var (posts', r) := DeletePost(posts, user, idParam);
            && |posts'| == |posts|
            && (r.Error? ==> posts' == posts)
            && (r.Ok? ==> exists i :: 0 <= i < |posts| && posts' == posts[i := posts[i].(isDeleted := true)])
  {
    var (posts', r) := DeletePost(posts, user, idParam);
    if r.Ok? {
      var i := Find(posts, ParseObjectId(idParam).value).value;
      assert posts' == posts[i := posts[i].(isDeleted := true)];
    }
  }

  /** Edits and deletes keep every post balanced. */
  lemma ChangeKeepsBalance(posts: seq<Post>, user: Option<string>, idParam: string, edit: Option<Body<PostEdit>>, now: int)
    requires AllBalanced(posts)
    ensures AllBalanced(ChangeOwned(posts, user, idParam, edit, now, OwnerQueryCorrected).0)
  {
  }

  // ---------------------------------------------------------------------
  // Reading
  // ---------------------------------------------------------------------

  /** `GetPost`: a live post by id. */
  function GetPost(posts: seq<Post>, idParam: string): (r: Response<Post>)
    ensures r.Ok? <==> ParseObjectId(idParam).Some? && FindLive(posts, ParseObjectId(idParam).value).Some?
    ensures r.Ok? ==> r.value.id == ParseObjectId(idParam).value && !r.value.isDeleted
  {
    match ParseObjectId(idParam)
    case None => Error(StatusBadRequest, InvalidPostId)
    case Some(oid) =>
      match FindLive(posts, oid)
      case None => Error(StatusNotFound, PostNotFound)
      case Some(i) => Ok(StatusOK, posts[i])
  }

  datatype SortKey = ByScore | ByUpvotes | ByCreatedAt

  /** A listing query: the sort field and the search text. */
  datatype PostQuery = PostQuery(key: SortKey, search: string)

  /** The query for the `sort` and `search` parameters: an empty sort means
      "new"; "hot" sorts by score, "top" by upvotes, anything else by
      creation time. */
  function ListQuery(sort: string, search: string): PostQuery
  {
    var s := if sort == "" then "new" else sort;
    PostQuery(if s == "hot" then ByScore else if s == "top" then ByUpvotes else ByCreatedAt, search)
  }

  function KeyOf(k: SortKey): Post -> int
  {
    match k
    case ByScore => (p: Post) => p.tally.score
    case ByUpvotes => (p: Post) => p.tally.upvotes
    case ByCreatedAt => (p: Post) => p.createdAt
  }

  /** The query's filter: live posts, and with a search text, those whose
      title or content matches it as a case-insensitive pattern
      (`matches`) or whose tags hold it exactly. */
  predicate Admits(q: PostQuery, matches: string -> bool, p: Post)
  {
    !p.isDeleted && (q.search == "" || matches(p.title) || matches(p.content) || q.search in p.tags)
  }

  /** What the database answers: the admitted posts, largest key first, at
      most fifty. */
  function Run(posts: seq<Post>, q: PostQuery, matches: string -> bool): seq<Post>
  {
    Limit(SortDesc(Filter(posts, p => Admits(q, matches, p)), KeyOf(q.key)), ListLimit)
  }

  /** `GetPosts`. */
  function GetPosts(posts: seq<Post>, sort: string, search: string, matches: string -> bool): Response<seq<Post>>
  {
    Ok(StatusOK, Run(posts, ListQuery(sort, search), matches))
  }

  /** The body of `FilterPosts`; its `type` is read and ignored. */
  datatype PostFilter = PostFilter(sort: string, search: string, kind: string)

  /** `FilterPosts`. */
  function FilterPosts(posts: seq<Post>, body: Body<PostFilter>, matches: string -> bool): Response<seq<Post>>
  {
    if body.Malformed? then Error(StatusBadRequest, InvalidFilterData)
    else Ok(StatusOK, Run(posts, ListQuery(body.value.sort, body.value.search), matches))
  }

  /** The sort parameter picks the key: hot is score, top is upvotes, and
      new, empty or anything else is creation time. */
  lemma SortKeyRule(sort: string, search: string)
    ensures ListQuery(sort, search).key == ByScore <==> sort == "hot"
    ensures ListQuery(sort, search).key == ByUpvotes <==> sort == "top"
    ensures ListQuery(sort, search).key == ByCreatedAt <==> sort != "hot" && sort != "top"
    ensures ListQuery(sort, search).search == search
  {
  }

  /** The cut at fifty keeps the admitted posts with the largest keys. */
  lemma ListingCut(posts: seq<Post>, q: PostQuery, matches: string -> bool)
    ensures var f := Filter(posts, p => Admits(q, matches, p));
            var r := Run(posts, q, matches);
            && (|f| > ListLimit ==> |r| == ListLimit)
            && (forall p, i :: p in multiset(f) - multiset(r) && 0 <= i < |r| ==> KeyOf(q.key)(p) <= KeyOf(q.key)(r[i]))
  {
    var f := Filter(posts, p => Admits(q, matches, p));
    var sorted := SortDesc(f, KeyOf(q.key));
    LimitKeepsTop(sorted, ListLimit, KeyOf(q.key));
  }

  /** Every listed post is a stored post the query admits, and with at
      most fifty admitted every one is listed. */
  lemma ListingMembers(posts: seq<Post>, q: PostQuery, matches: string -> bool)
    ensures var r := Run(posts, q, matches);
            && Descending(r, KeyOf(q.key))
            && (forall i :: 0 <= i < |r| ==> Admits(q, matches, r[i]) && r[i] in posts)
            && (|Filter(posts, p => Admits(q, matches, p))| <= ListLimit ==>
                  forall p :: p in posts && Admits(q, matches, p) ==> p in r)
  {
    var f := Filter(posts, p => Admits(q, matches, p));
    var sorted := SortDesc(f, KeyOf(q.key));
    var r := Limit(sorted, ListLimit);
    LimitKeepsOrder(sorted, ListLimit, KeyOf(q.key));
    forall i | 0 <= i < |r| ensures Admits(q, matches, r[i]) && r[i] in posts {
      assert r[i] == sorted[i] && sorted[i] in multiset(sorted);
      ChosenAreKept(posts, p => Admits(q, matches, p), KeyOf(q.key), r[i]);
    }
    forall p | p in posts && Admits(q, matches, p) && |f| <= ListLimit ensures p in r {
      ChosenAreKept(posts, p => Admits(q, matches, p), KeyOf(q.key), p);
    }
  }

  /** A listing holds at most fifty live posts that the search admits, in
      descending order of the key; when at most fifty are admitted it holds
      every one of them, and otherwise exactly fifty, none of them with a
      smaller key than an admitted post left out. */
  lemma ListingRules(posts: seq<Post>, sort: string, search: string, matches: string -> bool)
    ensures var r := GetPosts(posts, sort, search, matches).value;
            var q := ListQuery(sort, search);
            var f := Filter(posts, p => Admits(q, matches, p));
            && |r| <= ListLimit
            && Descending(r, KeyOf(q.key))
            && (forall i :: 0 <= i < |r| ==> !r[i].isDeleted && Admits(q, matches, r[i]) && r[i] in posts)
            && (|f| <= ListLimit ==> forall p :: p in posts && Admits(q, matches, p) ==> p in r)
            && (|f| > ListLimit ==> |r| == ListLimit)
            && (forall p, i :: p in multiset(f) - multiset(r) && 0 <= i < |r| ==> KeyOf(q.key)(p) <= KeyOf(q.key)(r[i]))
  {
    var q := ListQuery(sort, search);
    assert GetPosts(posts, sort, search, matches).value == Run(posts, q, matches);
    ListingMembers(posts, q, matches);
    ListingCut(posts, q, matches);
  }

  /** `FilterPosts` answers a well-formed body exactly as `GetPosts`
      answers the same sort and search. */
  lemma FilterMatchesList(posts: seq<Post>, sort: string, search: string, kind: string, matches: string -> bool)
    ensures FilterPosts(posts, Bound(PostFilter(sort, search, kind)), matches) == GetPosts(posts, sort, search, matches)
  {
  }
}
