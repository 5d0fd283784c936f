/**
 * The chat page's post list (`PostList`): a local copy of the posts it is
 * given, overwritten by its props and patched by real-time vote updates,
 * and the interaction bar it renders under each post.
 */
module PostList {
  import opened Wrappers
  import opened Messages
  import opened Chat
  import Buttons

  /** The component's props and local copy. */
  datatype View = View(props: seq<Post>, local: seq<Post>)

  function Mount(posts: seq<Post>): View
  {
    View(posts, posts)
  }

  /** The props effect: a new post array replaces the local copy. */
  function PropsChanged(v: View, posts: seq<Post>): View
  {
    View(posts, posts)
  }

  /** The vote listener: `post.id === post_id` takes the three counters from
      the payload. */
  function OnVoteUpdate(list: seq<Post>, d: Detail): (r: seq<Post>)
    ensures |r| == |list|
    ensures forall i :: 0 <= i < |list| ==> r[i].id == list[i].id && r[i].comments == list[i].comments
  {
    seq(|list|, i requires 0 <= i < |list| =>
      if list[i].id == d.postId then list[i].(tally := Tally(d.upvotes, d.downvotes, d.score)) else list[i])
  }

  function OnVote(v: View, d: Detail): View
  {
    v.(local := OnVoteUpdate(v.local, d))
  }

  /** The props the list gives the bar under a post: its counts (`|| 0`),
      no flags. The post's id is passed too, but the bar does not forward
      it to its buttons. */
  function BarOf(p: Post): Buttons.BarProps
  {
    Buttons.BarProps(p.tally.upvotes, p.tally.downvotes, false, false)
  }

  // ---------------------------------------------------------------------
  // Properties
  // ---------------------------------------------------------------------

  /** A vote update for a post sets exactly its counters to the payload's
      and leaves every other post as it was. */
  lemma VoteUpdateSetsCounters(list: seq<Post>, d: Detail, i: nat)
    requires i < |list|
    ensures list[i].id == d.postId ==> OnVoteUpdate(list, d)[i] == list[i].(tally := Tally(d.upvotes, d.downvotes, d.score))
    ensures list[i].id != d.postId ==> OnVoteUpdate(list, d)[i] == list[i]
  {
  }

  /** The counters come from the payload alone: of two updates for the same
      post the later wins, and replaying an update changes nothing. */
  lemma LaterUpdateWins(list: seq<Post>, d1: Detail, d2: Detail)
    requires d1.postId == d2.postId
    ensures OnVoteUpdate(OnVoteUpdate(list, d1), d2) == OnVoteUpdate(list, d2)
    ensures OnVoteUpdate(OnVoteUpdate(list, d2), d2) == OnVoteUpdate(list, d2)
  {
    var a := OnVoteUpdate(OnVoteUpdate(list, d1), d2);
    var b := OnVoteUpdate(list, d2);
    assert forall i :: 0 <= i < |list| ==> a[i] == b[i];
  }

  /** A comment's vote update has no `post_id`, so it reaches no post that
      has an id. */
  lemma CommentVoteLeavesPosts(list: seq<Post>, d: Detail)
    requires d.postId.None?
    requires forall i :: 0 <= i < |list| ==> list[i].id.Some?
    ensures OnVoteUpdate(list, d) == list
  {
  }

  /** New props discard a vote update applied to the local copy: the view
      is as on mount with the new posts. */
  lemma PropsDiscardUpdates(v: View, d: Detail, posts: seq<Post>)
    ensures PropsChanged(OnVote(v, d), posts) == Mount(posts)
  {
  }

  /** The bar under an updated post shows the payload's counts once its
      buttons resync to their props, but the buttons never match a vote
      update themselves: the bar drops the id. */
  lemma BarFollowsList(list: seq<Post>, d: Detail, i: nat, s: Buttons.Local)
    requires i < |list| && list[i].id == d.postId
    ensures var p := Buttons.BarButtons(BarOf(OnVoteUpdate(list, d)[i]));
            && Buttons.Resync(s, p).likes == d.upvotes
            && Buttons.Resync(s, p).dislikes == d.downvotes
            && Buttons.OnVoteUpdate(s, p.id, d) == s
  {
  }
}
