/**
 * The JSON messages exchanged over the forum's WebSocket, on both sides of
 * the socket, reduced to the fields that some component reads.
 */
module Messages {
  import opened Wrappers

  /** One presence entry, `{id, username}`. */
  datatype OnlineUser = OnlineUser(id: string, username: string)

  /** Some entry of the list has that id. */
  predicate HasUser(users: seq<OnlineUser>, id: string)
  {
    exists i :: 0 <= i < |users| && users[i].id == id
  }

  /** No two entries of the list share an id. */
  predicate UniqueIds(users: seq<OnlineUser>)
  {
    forall i, j :: 0 <= i < j < |users| ==> users[i].id != users[j].id
  }

  /** The `data` object of a vote, comment or reply event: the fields the
      client's listeners destructure from `event.detail`. */
  datatype Detail = Detail(
    postId: Option<string>,
    commentId: Option<string>,
    voteType: string,
    upvotes: int,
    downvotes: int,
    score: int,
    comment: Option<string>,
    reply: Option<string>)

  /** The `data` field: absent, a presence list, or an event object. */
  datatype Data = NoData | Users(users: seq<OnlineUser>) | Event(detail: Detail)

  /** A socket message `{type, data, user_id, username, timestamp}`. Absent
      string fields are "" (Go's zero value, and `omitempty` on the wire). */
  datatype Message = Message(kind: string, data: Data, userId: string, username: string, timestamp: int)

  /** What `JSON.parse` yields for one segment, as far as the client's
      dispatcher can tell values apart. */
  datatype Json = JNull | JScalar | JArray(items: seq<Json>) | JObject(msg: Message)

  /** A message the client sends: `{type, data: {post_id}}`. */
  datatype Outgoing = Outgoing(kind: string, postId: string)

  const KindVote := "vote"
  const KindComment := "comment"
  const KindReply := "reply"
  const KindUserJoined := "user_joined"
  const KindUserLeft := "user_left"
  const KindOnlineUsers := "online_users"
  const KindTyping := "typing"
  const KindStopTyping := "stop_typing"
}
