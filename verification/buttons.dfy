/**
 * The like/dislike buttons (`LikeDislikeButtons`) and the bar that hosts
 * them (`InteractionBar`). The buttons keep local counts and flags, seeded
 * from and reset to their props, updated optimistically on a click and
 * overwritten by a real-time vote update for their own id.
 */
module Buttons {
  import opened Wrappers
  import opened Messages

  /** The callback a click invokes. */
  datatype Callback = OnLike | OnDislike

  /** The buttons' props; `id` is the post or comment they follow. */
  datatype Props = Props(id: Option<string>, likesCount: int, dislikesCount: int, isLiked: bool, isDisliked: bool)

  /** The local state, and every callback invoked so far. */
  datatype Local = Local(likes: int, dislikes: int, liked: bool, disliked: bool, calls: seq<Callback>)

  /** The state on mount. */
  function Mount(p: Props): Local
  {
    Local(p.likesCount, p.dislikesCount, p.isLiked, p.isDisliked, [])
  }

  /** The props effect: whenever a count or flag prop changes, the local
      counts and flags are reset to the props. */
  function Resync(s: Local, p: Props): (r: Local)
    ensures r.likes == p.likesCount && r.dislikes == p.dislikesCount
    ensures r.liked == p.isLiked && r.disliked == p.isDisliked
    ensures r.calls == s.calls
  {
    s.(likes := p.likesCount, dislikes := p.dislikesCount, liked := p.isLiked, disliked := p.isDisliked)
  }

  /** `post_id || comment_id`. */
  function UpdateId(d: Detail): Option<string>
  {
    if Truthy(d.postId) then d.postId else d.commentId
  }

  /** The vote listener, registered only when `id` is truthy: an update for
      this id takes its counts from the payload and sets the flags for an
      upvote or a downvote; other vote types keep the flags. */
  function OnVoteUpdate(s: Local, id: Option<string>, d: Detail): Local
  {
    if !Truthy(id) || UpdateId(d) != id then s
    else
      var s1 := s.(likes := d.upvotes, dislikes := d.downvotes);
      if d.voteType == "upvote" then s1.(liked := true, disliked := false)
      else if d.voteType == "downvote" then s1.(liked := false, disliked := true)
      else s1
  }

  /** `handleLike`: every update reads the values of the render that
      handled the click. */
  function HandleLike(s: Local): Local
  {
    var likes := if !s.liked then s.likes + 1 else s.likes - 1;
    if s.disliked then Local(likes, s.dislikes - 1, !s.liked, false, s.calls + [OnLike])
    else Local(likes, s.dislikes, !s.liked, s.disliked, s.calls + [OnLike])
  }

  /** `handleDislike`. */
  function HandleDislike(s: Local): Local
  {
    var dislikes := if !s.disliked then s.dislikes + 1 else s.dislikes - 1;
    if s.liked then Local(s.likes - 1, dislikes, false, !s.disliked, s.calls + [OnDislike])
    else Local(s.likes, dislikes, s.liked, !s.disliked, s.calls + [OnDislike])
  }

  /** The props `InteractionBar` passes to its buttons: no `id`. */
  datatype BarProps = BarProps(likesCount: int, dislikesCount: int, isLiked: bool, isDisliked: bool)

  function BarButtons(b: BarProps): (p: Props)
    ensures p.id == None
    ensures p.likesCount == b.likesCount && p.dislikesCount == b.dislikesCount
    ensures p.isLiked == b.isLiked && p.isDisliked == b.isDisliked
  {
    Props(None, b.likesCount, b.dislikesCount, b.isLiked, b.isDisliked)
  }

  // ---------------------------------------------------------------------
  // Properties
  // ---------------------------------------------------------------------

  /** Like flips the like flag, clears a dislike taking one from its count,
      moves the like count by one in the direction of the new flag, and
      calls `onLike` once. */
  lemma LikeEffect(s: Local)
    ensures var r := HandleLike(s);
            && r.liked == !s.liked && !r.disliked
            && r.dislikes == (if s.disliked then s.dislikes - 1 else s.dislikes)
            && r.likes == (if r.liked then s.likes + 1 else s.likes - 1)
            && r.calls == s.calls + [OnLike]
  {
  }

  /** Exchanging the roles of like and dislike. */
  function Swap(s: Local): Local
  {
    Local(s.dislikes, s.likes, s.disliked, s.liked, SwapCalls(s.calls))
  }

  function SwapCalls(cs: seq<Callback>): (r: seq<Callback>)
    ensures |r| == |cs|
    ensures forall i :: 0 <= i < |cs| ==> r[i] == (if cs[i] == OnLike then OnDislike else OnLike)
  {
    seq(|cs|, i requires 0 <= i < |cs| => if cs[i] == OnLike then OnDislike else OnLike)
  }

  lemma SwapCallsInvolutive(cs: seq<Callback>)
    ensures SwapCalls(SwapCalls(cs)) == cs
  {
  }

  /** Dislike is the mirror image of like. */
  lemma DislikeMirrorsLike(s: Local)
    ensures HandleDislike(s) == Swap(HandleLike(Swap(s)))
  {
    SwapCallsInvolutive(s.calls);
    assert SwapCalls(SwapCalls(s.calls) + [OnLike]) == s.calls + [OnDislike];
  }

  /** After any click the two flags are never both set. */
  lemma NeverBoth(s: Local)
    ensures !(HandleLike(s).liked && HandleLike(s).disliked)
    ensures !(HandleDislike(s).liked && HandleDislike(s).disliked)
  {
  }

  /** Two likes from a state without a dislike restore the counts and the
      flags, and call `onLike` twice. */
  lemma LikeTwiceRestores(s: Local)
    requires !s.disliked
    ensures var r := HandleLike(HandleLike(s));
            r.likes == s.likes && r.dislikes == s.dislikes && r.liked == s.liked && r.disliked == s.disliked
            && r.calls == s.calls + [OnLike, OnLike]
  {
  }

  /** A vote update for this id sets the counts from the payload: an upvote
      leaves the buttons liked, a downvote disliked, and any other type
      keeps the flags. */
  lemma VoteUpdateForThisId(s: Local, id: Option<string>, d: Detail)
    requires Truthy(id) && UpdateId(d) == id
    ensures var r := OnVoteUpdate(s, id, d);
            && r.likes == d.upvotes && r.dislikes == d.downvotes && r.calls == s.calls
            && (d.voteType == "upvote" ==> r.liked && !r.disliked)
            && (d.voteType == "downvote" ==> !r.liked && r.disliked)
            && (d.voteType != "upvote" && d.voteType != "downvote" ==> r.liked == s.liked && r.disliked == s.disliked)
  {
  }

  /** A comment's buttons match on `comment_id` only when the update has no
      truthy `post_id`. */
  lemma CommentIdMatchesOnlyWithoutPostId(s: Local, id: Option<string>, d: Detail)
    requires Truthy(id) && Truthy(d.postId) && d.postId != id
    ensures OnVoteUpdate(s, id, d) == s
  {
  }

  /** Without an id no listener exists: vote updates never change state. */
  lemma NoIdNoUpdates(s: Local, id: Option<string>, d: Detail)
    requires !Truthy(id)
    ensures OnVoteUpdate(s, id, d) == s
  {
  }

  /** Buttons hosted by `InteractionBar` never react to vote updates. */
  lemma BarButtonsIgnoreVoteUpdates(b: BarProps, s: Local, d: Detail)
    ensures OnVoteUpdate(s, BarButtons(b).id, d) == s
  {
  }

  /** A props change discards every local change: resync after any clicks
      equals the state on mount apart from the callbacks made. */
  lemma ResyncDiscardsLocalChanges(p: Props, s: Local)
    ensures Resync(s, p) == Mount(p).(calls := s.calls)
  {
  }
}
