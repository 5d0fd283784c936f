/**
 * The real-time context (`RealTimeInteraction`): it collects the window
 * events the socket provider publishes, vote updates keyed by post or
 * comment id and new comments and replies in arrival order, and empties
 * them 5 seconds after the last change. Emptying is itself a change, so
 * the timer is armed again each time it fires.
 */
module RealTimeInteraction {
  import opened Wrappers
  import opened Messages

  const ClearDelay := 5000

  /** `{vote_type, upvotes, downvotes, score}`. */
  datatype VoteInfo = VoteInfo(voteType: string, upvotes: int, downvotes: int, score: int)

  /** `{comment, post_id}` and `{reply, comment_id}`. */
  datatype Item = Item(value: Option<string>, key: Option<string>)

  datatype Timer = Timer(id: nat, due: int)

  datatype Context = Context(
    votes: map<string, VoteInfo>,
    comments: seq<Item>,
    replies: seq<Item>,
    timer: Option<Timer>,    // the timer of the latest effect run
    pending: set<nat>,
    nextTimer: nat)

  /** What `useRealTime` hands out. */
  datatype Value = Value(votes: map<string, VoteInfo>, comments: seq<Item>, replies: seq<Item>, isConnected: bool)

  /** The value outside any provider. */
  function Default(): Value
  {
    Value(map[], [], [], false)
  }

  function Provide(c: Context, isConnected: bool): Value
  {
    Value(c.votes, c.comments, c.replies, isConnected)
  }

  /** The status label in the corner. */
  function Label(isConnected: bool): string
  {
    if isConnected then "Live" else "Offline"
  }

  /** The provider on mount: empty collections, and the clearing effect's
      first run at time `now`. */
  function Mount(now: int): Context
  {
    Changed(Context(map[], [], [], None, {}, 0), now)
  }

  /** The clearing effect after a change at time `now`: the previous timer
      is cleared and a new one armed. */
  function Changed(c: Context, now: int): (r: Context)
    ensures r.pending == (if c.timer.Some? then c.pending - {c.timer.value.id} else c.pending) + {c.nextTimer}
    ensures r.timer == Some(Timer(c.nextTimer, now + ClearDelay)) && r.nextTimer == c.nextTimer + 1
    ensures r.votes == c.votes && r.comments == c.comments && r.replies == c.replies
  {
    var p := if c.timer.Some? then c.pending - {c.timer.value.id} else c.pending;
    c.(timer := Some(Timer(c.nextTimer, now + ClearDelay)), pending := p + {c.nextTimer}, nextTimer := c.nextTimer + 1)
  }

  function InfoOf(d: Detail): VoteInfo
  {
    VoteInfo(d.voteType, d.upvotes, d.downvotes, d.score)
  }

  /** The `voteUpdate` listener: the payload is stored under a truthy
      `post_id`, and under a truthy `comment_id`. */
  function OnVote(c: Context, d: Detail, now: int): Context
  {
    var v1 := if Truthy(d.postId) then c.votes[d.postId.value := InfoOf(d)] else c.votes;
    var v2 := if Truthy(d.commentId) then v1[d.commentId.value := InfoOf(d)] else v1;
    if Truthy(d.postId) || Truthy(d.commentId) then Changed(c.(votes := v2), now) else c
  }

  /** The `newComment` listener. */
  function OnComment(c: Context, d: Detail, now: int): Context
  {
    Changed(c.(comments := c.comments + [Item(d.comment, d.postId)]), now)
  }

  /** The `newReply` listener. */
  function OnReply(c: Context, d: Detail, now: int): Context
  {
    Changed(c.(replies := c.replies + [Item(d.reply, d.commentId)]), now)
  }

  /** Timer `t` firing at time `now`: a pending timer empties everything,
      which is a change. */
  function Fire(c: Context, t: nat, now: int): Context
  {
    if t in c.pending then Changed(c.(votes := map[], comments := [], replies := [], pending := c.pending - {t}), now)
    else c
  }

  /** Only the latest timer is pending, and its id was issued. */
  predicate Inv(c: Context)
  {
    && (c.timer.None? ==> c.pending == {})
    && (c.timer.Some? ==> c.pending <= {c.timer.value.id} && c.timer.value.id < c.nextTimer)
  }

  // ---------------------------------------------------------------------
  // Properties
  // ---------------------------------------------------------------------

  /** Outside a provider every collection is empty and the status is
      offline; a provider hands out its collections as they are. */
  lemma DefaultAndProvided(c: Context, isConnected: bool)
    ensures Default().votes == map[] && Default().comments == [] && Default().replies == [] && !Default().isConnected
    ensures Label(Default().isConnected) == "Offline"
    ensures Provide(c, isConnected).votes == c.votes && Provide(c, isConnected).comments == c.comments
    ensures Label(isConnected) == "Live" <==> isConnected
  {
  }

  /** A vote update is stored under exactly its truthy ids and nothing else
      changes; with neither id nothing happens at all. */
  lemma VoteKeys(c: Context, d: Detail, now: int, k: string)
    ensures var r := OnVote(c, d, now);
            && (k in r.votes <==> k in c.votes || (Truthy(d.postId) && k == d.postId.value)
                                               || (Truthy(d.commentId) && k == d.commentId.value))
            && ((Truthy(d.postId) && k == d.postId.value) || (Truthy(d.commentId) && k == d.commentId.value) ==>
                  r.votes[k] == VoteInfo(d.voteType, d.upvotes, d.downvotes, d.score))
            && (k in c.votes && !(Truthy(d.postId) && k == d.postId.value) && !(Truthy(d.commentId) && k == d.commentId.value) ==>
                  r.votes[k] == c.votes[k])
            && r.comments == c.comments && r.replies == c.replies
    ensures !Truthy(d.postId) && !Truthy(d.commentId) ==> OnVote(c, d, now) == c
  {
  }

  /** Comments and replies accumulate in arrival order. */
  lemma ItemsAccumulate(c: Context, d: Detail, now: int)
    ensures OnComment(c, d, now).comments == c.comments + [Item(d.comment, d.postId)]
    ensures OnComment(c, d, now).replies == c.replies && OnComment(c, d, now).votes == c.votes
    ensures OnReply(c, d, now).replies == c.replies + [Item(d.reply, d.commentId)]
    ensures OnReply(c, d, now).comments == c.comments && OnReply(c, d, now).votes == c.votes
  {
  }

  /** Every event keeps a single pending timer. */
  lemma EventsPreserveInv(c: Context, d: Detail, t: nat, now: int)
    requires Inv(c)
    ensures Inv(OnVote(c, d, now)) && Inv(OnComment(c, d, now)) && Inv(OnReply(c, d, now)) && Inv(Fire(c, t, now))
  {
  }

  lemma MountInv(now: int)
    ensures Inv(Mount(now)) && Mount(now).pending == {0}
  {
  }

  /** A change postpones the clearing: the only pending timer is due 5000 ms
      after the latest change. */
  lemma ChangePostponesClear(c: Context, d: Detail, now: int)
    requires Inv(c)
    ensures var r := OnComment(c, d, now);
            r.pending == {c.nextTimer} && r.timer == Some(Timer(c.nextTimer, now + ClearDelay))
  {
  }

  /** The pending timer empties every collection and arms the next one: the
      clearing repeats every 5 seconds even when nothing arrives. */
  lemma ClearRearms(c: Context, now: int)
    requires Inv(c) && c.timer.Some? && c.timer.value.id in c.pending
    ensures var r := Fire(c, c.timer.value.id, now);
            && r.votes == map[] && r.comments == [] && r.replies == []
            && r.pending == {c.nextTimer} && r.timer == Some(Timer(c.nextTimer, now + ClearDelay))
  {
  }

  /** A cleared or fired timer does nothing. */
  lemma StaleTimerIgnored(c: Context, t: nat, now: int)
    requires t !in c.pending
    ensures Fire(c, t, now) == c
  {
  }
}
