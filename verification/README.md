# GoGin forum core in Dafny

A university forum with a Go (Gin) server and a React client. This project models the core of that
system and proves properties about it. The core covers:

- **Real-time synchronisation, both sides of the socket.**
  - Server: the WebSocket hub (`Hub.Run`: register, unregister, broadcast, the presence queries) and the
    connection handler (the token gate, the inbound relay whitelist, newline-joined outbound frames).
  - Client: the connection manager (connect guard, reconnect back-off, one reconnect timer) and the event
    decoder and router (presence list, typing map).
- **Client state.**
  - The application reducer, the chat store's optimistic updates and the post list.
  - The like/dislike buttons, the post page and the real-time helpers (`useRealTime` and the reply box).
  - The connection indicator.
- **Validators.**
  - The `.edu.et` institutional address checker, the institution extraction and the password-strength rule.
  - The static university and course tables with their lookups.
  - The profile page's form validator.
  - The two Bearer-token middlewares.
- **Controllers.** The post, comment, question and answer handlers over an in-memory store. Each
  collection is a sequence in natural order, the referenced collections are sets of ids, and votes and
  reactions are the `$inc`, `$addToSet` and `$pull` updates they send.

Everything is an immutable datatype with pure transition functions. Sockets, timers, the clock, the id
the database would generate, `JSON.parse`, JSON (un)marshalling and JWT verification are parameters or
explicit state fields. Each module follows one source file or component:

| module | models |
|---|---|
| `Hub`, `HubProofs` | `server/websocket/hub.go` |
| `WsHandler`, `Framing` | `server/websocket/handler.go`, and the client decoder's framing |
| `Connection`, `ConnectionProofs`, `Messages` | `client/src/context/WebSocketContext.jsx` |
| `AppReducer` | `client/src/context/AppContext.jsx` |
| `Chat` | `client/src/context/ChatContext.jsx` |
| `CommentVote` | a comment vote from `ChatContext.jsx` through `client/src/api/comments.js` and `server/routes/commentRoutes.go` to the comment controller |
| `PostList`, `PostDetail`, `TimeFormat` | `client/src/components/Chat/PostList.jsx`, `client/src/pages/PostDetail.jsx` |
| `Buttons` | `client/src/components/InteractionButtons.jsx` |
| `RealTimeInteraction`, `RealTimeComment` | `client/src/components/RealTimeInteraction.jsx`, `client/src/components/RealTimeComment.jsx` |
| `ConnectionStatus` | `client/src/components/Layout/ConnectionStatus.jsx` |
| `Validation`, `SampleData`, `Profile` | `server/utils/validation.go`, `server/utils/sampleData.go`, `client/src/pages/ProfilePage.jsx` |
| `Auth` | `server/middleware/authMiddleware.go`, `server/ventapp/middleware/auth_middleware.go` |
| `Store`, `Reactions`, `Posts`, `Comments`, `Questions`, `Answers` | `server/controllers/*.go` |
| `Wrappers`, `Text`, `Sorting` | shared: results and options, JavaScript and Go string functions, database sort and limit |

## Model

| member | source | states |
|---|---|---|
| Hub.Find | server/websocket/hub.go:115 | the registry lookup finds a client exactly when its id is registered, and returns that client |
| Hub.CountUser | server/websocket/hub.go:71-76 | the per-user connection count (`prevCount`, `remaining`) is zero exactly when the user has no registered client, and never exceeds the number of clients |
| Hub.Remove | server/websocket/hub.go:116 | deleting a client removes exactly its id, keeps ids unique and leaves every other lookup unchanged |
| Hub.Fanout | server/websocket/hub.go:154-162 | the non-blocking send loop never adds a client, keeps ids unique and never lets a buffer exceed its capacity |
| Hub.Dropped | server/websocket/hub.go:153-161 | every client collected in `toRemove` is a registered one |
| Hub.Dedupe | server/websocket/hub.go:246-257 | the `seen`-set loop lists each user at most once, lists exactly the users not yet seen, and is no longer than the client list |
| Hub.UniqueOnlineUsers | server/websocket/hub.go:242-259 | the deduplicated presence list names each registered user exactly once and nobody else |
| Hub.GetUniqueOnlineUsers | server/websocket/hub.go:242-259 | the loop with its `seen` map returns one entry per registered user and no other entry |
| Hub.GetOnlineUsers | server/websocket/hub.go:220-232 | one entry per connection, duplicates included, carrying each client's user id and name; its length is `GetOnlineCount` |
| HubProofs.AppendClient | server/websocket/hub.go:79 | registering a client adds its id and user, makes it findable, leaves other lookups alone and raises its user's count by one |
| HubProofs.FanoutFind | server/websocket/hub.go:154-174 | after the send loop each client either holds the frame at the end of its buffer or, when the buffer was full, is gone and listed for closing |
| HubProofs.DroppedDistinct | server/websocket/hub.go:165-173 | no client is collected for removal twice, so no `Send` channel is closed twice |
| HubProofs.BroadcastDelivery | server/websocket/hub.go:149-174 | a broadcast delivers the frame to every client with buffer room and removes and closes exactly the clients whose buffer is full |
| HubProofs.BroadcastToUserTargetsOnlyUser | server/websocket/hub.go:185-217 | `BroadcastToUser` leaves every client of another user untouched and never closes it |
| HubProofs.InitInv | server/websocket/hub.go:55-62 | the new hub satisfies the registry invariant (unique ids, closed channels never registered, bounded buffers) |
| HubProofs.DeliverPreservesInv | server/websocket/hub.go:149-174 | the send-and-evict step keeps the registry invariant |
| HubProofs.AdmitPreservesInv | server/websocket/hub.go:68-93 | adding a client and sending it the presence list keeps the registry invariant |
| HubProofs.BroadcastPreservesInv | server/websocket/hub.go:262-270 | a marshalled broadcast keeps the registry invariant |
| HubProofs.EvictPreservesInv | server/websocket/hub.go:114-118 | deleting and closing a client keeps the registry invariant |
| HubProofs.RegisterPreservesInv | server/websocket/hub.go:68-110 | the whole `register` case keeps the registry invariant |
| HubProofs.UnregisterPreservesInv | server/websocket/hub.go:112-147 | the whole `unregister` case keeps the registry invariant |
| HubProofs.UnregisterTwiceClosesOnce | server/websocket/hub.go:114-118 | the first unregister closes the client's channel and deletes it; a repeated unregister closes nothing twice |
| HubProofs.BroadcastToUserKeepsLog | server/websocket/hub.go:185-217 | a per-user send is not a broadcast: the log of broadcast messages is unchanged |
| HubProofs.RegisterBroadcastsIffFirst | server/websocket/hub.go:95-110 | `user_joined` and the new list are broadcast exactly when the user had no connection before (`prevCount == 0`) |
| HubProofs.UnregisterBroadcastsIffLast | server/websocket/hub.go:112-147 | when no connection of the user remains, exactly two messages are logged: `user_left` for that user, then the presence list taken after it, which names only users still connected and never the one who left; otherwise nothing is broadcast |
| HubProofs.FanoutUsers | server/websocket/hub.go:149-170 | a delivery never adds a user to the registry: it can only drop clients whose buffer is full |
| HubProofs.AdmitQueuesSnapshot | server/websocket/hub.go:84-93 | the new client's buffer holds exactly the marshalled presence list |
| HubProofs.BroadcastAppends | server/websocket/hub.go:154-157 | a client with buffer room receives the frame at the end of its queue and nothing else changes for it |
| HubProofs.NewClientReceivesSnapshot | server/websocket/hub.go:84-93 | a new connection's first frame is the deduplicated presence list, and that list already includes its own user |
| HubProofs.UniqueListNoLonger | server/websocket/hub.go:220-259 | the deduplicated list is never longer than the full list, whose length is the connection count |
| HubProofs.FirstConnectionBlocksHub | server/websocket/hub.go:96-102 | as written, a user's first connection makes `Run` send on its own unbuffered `broadcast` channel; from then on no event is logged, delivered, registered or unregistered |
| HubProofs.EmptyHubBlocksOnFirstRegister | server/websocket/hub.go:55-102 | as written, on a fresh hub the very first registration blocks, so the hub never holds more than that one connection and never logs a message |
| HubProofs.LastDisconnectionBlocksHub | server/websocket/hub.go:132-138 | as written, a user's last disconnection blocks the hub the same way, with the client already evicted, and nothing afterwards changes it |
| HubProofs.BlockedStaysBlocked | server/websocket/hub.go:65-160 | once `Run` is stuck on its own channel no later registration, unregistration or broadcast changes the hub |
| HubProofs.AsWrittenAgreesWhenNotBlocked | server/websocket/hub.go:68-110 | when the as-written `register` case does not block, it leaves the same registry as the corrected one |
| WsHandler.Authorize | server/websocket/handler.go:27-43 | the upgrade is accepted exactly when a token is present and validates; a missing token is 401 "Token required", a bad one 401 "Invalid token"; both the user id and the user name are the token's user id |
| WsHandler.Open | server/websocket/handler.go:24-68 | a request that passes the token gate registers a client under the token's identity; a rejected one leaves the hub unchanged |
| WsHandler.Stamp | server/websocket/handler.go:101-104 | the connection's user id, user name and the read time replace whatever the message claimed; its type and data are kept |
| WsHandler.ReadLoop | server/websocket/handler.go:72-109 | the read loop only ever appends to the broadcast log, and everything it appends is of a relayed type and carries the connection's identity |
| WsHandler.ClearQueue | server/websocket/handler.go:135-139 | draining the queued frames empties that client's buffer and leaves every other client as it was |
| WsHandler.WritePump | server/websocket/handler.go:112-143 | a registered client with an empty buffer sends nothing, otherwise every queued frame goes out in one newline-joined text message and the buffer is emptied; a closed channel first sends what it still buffers the same way, and the close frame only once it is empty |
| WsHandler.UnregisteredClientDrains | server/websocket/handler.go:119-141 | after the hub unregisters a client, its write pump still sends every message that was waiting for it, in order in one frame, and then the close frame |
| WsHandler.UnregisterKeepsDrain | server/websocket/hub.go:112-147 | the broadcasts that follow an eviction neither re-register the evicted client nor touch the buffer its closed channel still holds |
| WsHandler.RelayWhitelist | server/websocket/handler.go:154-174 | exactly `typing`, `stop_typing`, `vote`, `comment` and `reply` are rebroadcast; any other type changes nothing |
| WsHandler.OversizedFrameEndsLoop | server/websocket/handler.go:78-92 | a frame over the 512-byte read limit is a read error: the loop ends and nothing after it is read |
| WsHandler.AsciiFrameWithinLimit | server/websocket/handler.go:78 | an ASCII frame of at most 512 characters is within the byte limit |
| WsHandler.UnparsableFrameSkipped | server/websocket/handler.go:95-99 | a frame that does not unmarshal is skipped and the loop continues with the next one |
| WsHandler.RelayedFrameStamped | server/websocket/handler.go:95-107 | a relayed frame is broadcast with its type and data under the connection's identity and the time it was read |
| WsHandler.WriteThenDecode | server/websocket/handler.go:132-139 | the client's decoder splits what the write pump sends back into the queued messages, in order, when they are trimmed, non-empty and free of line breaks |
| WsHandler.WritePumpPreservesInv | server/websocket/handler.go:112-143 | the write pump keeps the hub's registry invariant |
| Connection.Delay | client/src/context/WebSocketContext.jsx:107 | the reconnect delay for a counter of at least one lies between one second and the 30-second cap |
| Connection.Url | client/src/context/WebSocketContext.jsx:47-49 | the URL is the base, then `&` when the base already has a `?` and `?` otherwise, then `token=` and the token percent-encoded (only unreserved characters and escapes) |
| Connection.CloseSocket | client/src/context/WebSocketContext.jsx:52-55 | `close()` moves that socket, and no other, towards closed, keeping its URL and credentials |
| Connection.Connect | client/src/context/WebSocketContext.jsx:39-58 | without a user and a token nothing happens; otherwise the previous socket is asked to close and a new connecting socket with the encoded URL and the current credentials becomes current |
| Connection.Disconnect | client/src/context/WebSocketContext.jsx:126-136 | the current socket is closed and dropped, the reconnect timer is cleared and dropped, the connection reads as down, and the counter is kept |
| Connection.OnOpen | client/src/context/WebSocketContext.jsx:60-70 | an open marks the connection up, resets the counter to zero and clears and drops the reconnect timer |
| Connection.OnClose | client/src/context/WebSocketContext.jsx:96-111 | a close records its code and reason, marks the connection down, clears the previous timer, raises the counter capped at 10 and arms one timer with that counter's delay and the credentials the closed socket was created with |
| Connection.OnError | client/src/context/WebSocketContext.jsx:113-119 | an error is recorded, the socket that reported it (not necessarily the current one) is asked to close, and the connection reads as down |
| Connection.OnTimer | client/src/context/WebSocketContext.jsx:108-110 | a cleared timer does nothing; a pending one fires once, leaves the ref as it is, and with credentials present opens a new current socket |
| Connection.Send | client/src/context/WebSocketContext.jsx:138-149 | a message is transmitted only while the current socket is open; otherwise it is dropped with a warning and never queued |
| Connection.UserJoined | client/src/context/WebSocketContext.jsx:206-217 | a joining user is appended with their name unless an entry already has that id, in which case the list is unchanged |
| Connection.UserLeft | client/src/context/WebSocketContext.jsx:219-226 | the list after a user leaves holds no entry with that id and every other entry it held |
| ConnectionProofs.InitInv | client/src/context/WebSocketContext.jsx:16-24 | the initial state satisfies the invariant: no live socket but the current one, at most the referenced timer pending, counter capped |
| ConnectionProofs.AtMostOneTimer | client/src/context/WebSocketContext.jsx:102-110 | under the invariant at most one reconnect timer is pending, and it is the one in the ref |
| ConnectionProofs.AtMostOneLiveSocket | client/src/context/WebSocketContext.jsx:51-58 | under the invariant at most one socket is connecting or open, and it is the current one |
| ConnectionProofs.HandleValuesKeepsConnection | client/src/context/WebSocketContext.jsx:85-89 | handling decoded values never touches the sockets, timers, counter or connection flags |
| ConnectionProofs.HandleValueKeepsConnection | client/src/context/WebSocketContext.jsx:151-189 | routing one message changes only what subscribers see: the sockets, timers, counter and flags stay as they were |
| ConnectionProofs.HandleSegmentsKeepsConnection | client/src/context/WebSocketContext.jsx:72-94 | processing a whole payload never touches the connection state |
| ConnectionProofs.ConnectPreservesInv | client/src/context/WebSocketContext.jsx:39-124 | `connect` keeps the invariant |
| ConnectionProofs.DisconnectPreservesInv | client/src/context/WebSocketContext.jsx:126-136 | `disconnect` keeps the invariant |
| ConnectionProofs.OpenPreservesInv | client/src/context/WebSocketContext.jsx:60-70 | an open keeps the invariant |
| ConnectionProofs.ClosePreservesInv | client/src/context/WebSocketContext.jsx:96-111 | a close keeps the invariant |
| ConnectionProofs.TimerPreservesInv | client/src/context/WebSocketContext.jsx:108-110 | a timer firing keeps the invariant |
| ConnectionProofs.StepPreservesInv | client/src/context/WebSocketContext.jsx:39-273 | every event (connect, disconnect, a change of credentials, socket open, close, error and message, timer, send) keeps the invariant |
| ConnectionProofs.DelaySchedule | client/src/context/WebSocketContext.jsx:105-107 | the reconnect delays are 1, 2, 4, 8 and 16 seconds, then 30 seconds from the sixth attempt on |
| ConnectionProofs.DelayDoubles | client/src/context/WebSocketContext.jsx:107 | each further attempt doubles the reconnect delay until it reaches the 30-second cap, and the delay never shrinks |
| ConnectionProofs.CloseAtCap | client/src/context/WebSocketContext.jsx:105-110 | once the counter is at its cap of 10, every further close keeps it there and schedules a 30-second reconnect |
| ConnectionProofs.OpenClearsTimer | client/src/context/WebSocketContext.jsx:60-70 | after an open the counter is zero, the connection is up and no reconnect timer is pending |
| ConnectionProofs.DisconnectDoesNotSuppressReconnect | client/src/context/WebSocketContext.jsx:96-136 | a manual disconnect does not stop reconnection: the close it causes arms a timer with the old credentials, and that timer opens a new socket |
| ConnectionProofs.UntilNull | client/src/context/WebSocketContext.jsx:85-89 | the values handled before a `null` form a null-free prefix, and the whole list when it holds no `null` |
| ConnectionProofs.HandleValuesSpec | client/src/context/WebSocketContext.jsx:85-89 | handling a list of values is handling its prefix before the first `null` in order, and reports whether a `null` stopped it |
| ConnectionProofs.HandleSegmentsSpec | client/src/context/WebSocketContext.jsx:72-94 | a payload is handled as the values of its parsed segments in order, unparsable segments skipped, up to the first `null` |
| ConnectionProofs.SkipUnparsable | client/src/context/WebSocketContext.jsx:78-83 | a segment that fails to parse is skipped and the later ones are still handled |
| ConnectionProofs.NullAbandonsRest | client/src/context/WebSocketContext.jsx:91-93 | a segment that parses to `null` makes `handleMessage` throw, and the rest of the payload is abandoned |
| ConnectionProofs.ArrayDispatchedElementwise | client/src/context/WebSocketContext.jsx:85-86 | an array segment is handled element by element |
| ConnectionProofs.RouteUnknown | client/src/context/WebSocketContext.jsx:186-188 | a message of any type outside the eight handled ones leaves the state unchanged |
| ConnectionProofs.RouteKnown | client/src/context/WebSocketContext.jsx:154-165 | a vote, a comment or a reply is published once, as the window event of its own kind carrying the message's data, and nothing else in the provider's state changes |
| ConnectionProofs.JoinKeepsUnique | client/src/context/WebSocketContext.jsx:206-217 | `user_joined` keeps an id-unique presence list id-unique and leaves the joining id in it |
| ConnectionProofs.LeaveRemovesExactly | client/src/context/WebSocketContext.jsx:219-226 | an entry survives `user_left` exactly when it was in the list and has another id |
| ConnectionProofs.SnapshotReplaces | client/src/context/WebSocketContext.jsx:228-231 | `online_users` replaces the presence list wholesale |
| ConnectionProofs.TypingUpdatesOneKey | client/src/context/WebSocketContext.jsx:233-246 | `typing` sets the sender's entry and `stop_typing` deletes it; every other key keeps its presence and value |
| ConnectionProofs.TypingOnlyChangedByMessages | client/src/context/WebSocketContext.jsx:18 | no event but a received message changes the typing map: entries never expire |
| Framing.TrimNonEmpty | client/src/context/WebSocketContext.jsx:75 | trimming the parts and dropping the empty ones keeps only non-empty trimmed parts, and adds no line break |
| Framing.Segments | client/src/context/WebSocketContext.jsx:74-75 | every segment the client decodes from a payload is non-empty, trimmed and free of line breaks |
| Framing.TrimNonEmptyOfFramable | client/src/context/WebSocketContext.jsx:75 | parts that are already non-empty, trimmed and free of line breaks pass through unchanged |
| Framing.SegmentsOfFrame | server/websocket/handler.go:132-139 | splitting a newline-joined frame on the client gives back the queued messages in order, when each is non-empty, trimmed and free of line breaks |
| Framing.BlankPayload | client/src/context/WebSocketContext.jsx:75 | a payload that is all whitespace yields no segment |
| AppReducer.MergeWhere | client/src/context/AppContext.jsx:64-70 | `UPDATE_QUESTION`'s map keeps the list's length, leaves records with another id as they were, and gives a matching record the union of its keys and the update's, with the update winning |
| AppReducer.MapAnswers | client/src/context/AppContext.jsx:72-82 | answers with another id are kept; a field merge overwrites exactly the updated fields, keeps the others and the replies, and changes the id only when the updates carry one; a reply edit leaves the fields alone |
| AppReducer.MergeAnswersIdempotent | client/src/context/AppContext.jsx:72-82 | dispatching the same `UPDATE_ANSWER` twice leaves the answers as the first dispatch did |
| AppReducer.OnAnswers | client/src/context/AppContext.jsx:72-81 | the answers map gains exactly the question's key, other questions' lists are untouched, and a question with no list ends with an empty one (`?.map(...) \|\| []`) |
| AppReducer.LoadingAndErrors | client/src/context/AppContext.jsx:47-55 | `SET_ERROR` records the message and clears loading, `SET_QUESTIONS` clears loading, `CLEAR_ERROR` changes nothing but the error |
| AppReducer.UpdateQuestionMerges | client/src/context/AppContext.jsx:64-70 | `UPDATE_QUESTION` merges the update into exactly the questions with that id, and repeating it is idempotent when the update does not rename the id |
| AppReducer.AddQuestionPrepends | client/src/context/AppContext.jsx:102-106 | `ADD_QUESTION` puts the new question first, and a following update of its id reaches it |
| AppReducer.AddAnswerAppends | client/src/context/AppContext.jsx:108-118 | `ADD_ANSWER` appends to the question's list, creating it when absent, and leaves every other question's list as it was |
| AppReducer.AddReplyAppends | client/src/context/AppContext.jsx:120-135 | `ADD_REPLY` appends the reply to the matching answers only (a missing `replies` counts as empty), and a question with no list ends with an empty one |
| AppReducer.UpdateAnswerAndReply | client/src/context/AppContext.jsx:72-100 | `UPDATE_ANSWER` merges into the matching answers only; `UPDATE_REPLY` keeps answer fields, merges into the matching replies of the matching answers, and turns a missing `replies` into an empty array |
| AppReducer.SetFiltersMerges | client/src/context/AppContext.jsx:137-138 | `SET_FILTERS` merges shallowly: keys the payload lacks keep their value, payload keys take the new one, and two merges equal one merge of the combined payload |
| AppReducer.UnknownActionIsIdentity | client/src/context/AppContext.jsx:143-144 | an action of any other type returns the state unchanged |
| AppReducer.InitialFilters | client/src/context/AppContext.jsx:29-34 | the initial filters select type `question` with every other filter empty |
| Buttons.Resync | client/src/components/InteractionButtons.jsx:24-29 | the props effect resets both counts and both flags to the props and makes no callback |
| Buttons.BarButtons | client/src/components/InteractionButtons.jsx:192-218 | `InteractionBar` passes its counts and flags through to the like/dislike buttons but no `id` |
| Buttons.LikeEffect | client/src/components/InteractionButtons.jsx:58-70 | a like click toggles the like flag, withdraws a dislike (one fewer dislike), adds one like when turning on and removes one when turning off, and calls `onLike` once |
| Buttons.DislikeMirrorsLike | client/src/components/InteractionButtons.jsx:72-84 | a dislike click is the like click with the roles of like and dislike exchanged |
| Buttons.NeverBoth | client/src/components/InteractionButtons.jsx:58-84 | after any click the liked and disliked flags are never both set |
| Buttons.LikeTwiceRestores | client/src/components/InteractionButtons.jsx:58-70 | two like clicks from a state without a dislike restore counts and flags and call `onLike` twice |
| Buttons.VoteUpdateForThisId | client/src/components/InteractionButtons.jsx:32-52 | a `voteUpdate` event for this id sets both counts from the event, sets the flags for `upvote` or `downvote`, and keeps them for any other vote type |
| Buttons.CommentIdMatchesOnlyWithoutPostId | client/src/components/InteractionButtons.jsx:36-39 | `post_id \|\| comment_id`: an event with a truthy `post_id` other than this id is ignored even when its `comment_id` matches |
| Buttons.NoIdNoUpdates | client/src/components/InteractionButtons.jsx:33 | without a truthy id no listener is installed and vote updates change nothing |
| Buttons.BarButtonsIgnoreVoteUpdates | client/src/components/InteractionButtons.jsx:210-218 | buttons inside `InteractionBar` never react to vote updates, because the bar passes no id |
| Buttons.ResyncDiscardsLocalChanges | client/src/components/InteractionButtons.jsx:18-29 | a props change discards every local change: the state equals the state on mount apart from the callbacks already made |
| Chat.VotePosts | client/src/context/ChatContext.jsx:69-79 | the optimistic post vote keeps the list's length, ids and comment counts, changes the tally of exactly the posts with that id, and leaves every other post as it was |
| Chat.CountComment | client/src/context/ChatContext.jsx:97-102 | the comment-count update adds one to exactly the posts with that id and changes nothing else |
| Chat.VoteComments | client/src/context/ChatContext.jsx:118-128 | the optimistic comment vote changes the tally of exactly the comments with that id and keeps ids and length |
| Chat.NoTokenNoRequest | client/src/context/ChatContext.jsx:51-112 | without a truthy token each writing call throws `Authentication required` before any request and changes nothing |
| Chat.FailedRequestRethrows | client/src/context/ChatContext.jsx:53-132 | with a token each writing call sends one request; a failed request is rethrown with its message and leaves posts and comments as they were |
| Chat.VoteKeepsBalanceIffKnownType | client/src/context/ChatContext.jsx:73-75 | the optimistic tally keeps `score == upvotes - downvotes` exactly when the vote type is `upvote` or `downvote`; any other type lowers the score with no downvote counted |
| Chat.VoteMovesScore | client/src/context/ChatContext.jsx:73-75 | an upvote raises the score by one and every other vote type lowers it by one, while at most one vote is added to the counts |
| Chat.CreatePostPrepends | client/src/context/ChatContext.jsx:54-56 | a created post goes first, the rest keep their order, and no comment list changes |
| Chat.VotePostOnlyMatching | client/src/context/ChatContext.jsx:67-79 | a successful post vote applies the vote to exactly the posts with that id and keeps comment counts and comment lists |
| Chat.CreateCommentAppends | client/src/context/ChatContext.jsx:90-102 | a created comment is appended to its post's list (created when absent), every other list is kept, and exactly the matching posts gain one comment |
| Chat.CreateCommentKeepsCounts | client/src/context/ChatContext.jsx:90-102 | when the post's list is loaded and counts agree with list lengths, they still agree after a new comment |
| Chat.VotesKeepCounts | client/src/context/ChatContext.jsx:67-129 | post and comment votes keep the counts in agreement with the lists, the comment vote when the post's list was loaded; the comment vote's success branch is reached only with the request sent as `CommentVote.Request` builds it |
| Chat.VoteCommentWithoutList | client/src/context/ChatContext.jsx:118-128 | a comment vote for a post whose list was never loaded leaves an empty list behind (`?.map(...) \|\| []`) and no post changes; as written the request never succeeds, so this needs the corrected request |
| CommentVote.ReplyOf | client/src/api/comments.js:78-83 | the helper resolves exactly when the server answers with success, and otherwise throws the server's `error` text |
| CommentVote.AsWrittenCommentVoteNeverSucceeds | client/src/context/ChatContext.jsx:111-132 | with the post id passed as the helper's comment id, the server accepts a vote only if the comment id is literally `upvote` or `downvote`; for any 24-hex-digit comment id it always fails, changes nothing stored, and the store throws and keeps its lists; with a post id naming no live comment the failure is 404 |
| CommentVote.CorrectedCommentVoteApplies | client/src/api/comments.js:71-84 | called as declared, the server accepts exactly for a user, a live comment's well-formed id and a known vote type, applies that vote to that comment only, and the store applies the same vote to the loaded list without throwing |
| Chat.FetchCycle | client/src/context/ChatContext.jsx:25-37 | a post load always ends with loading off; the error is set exactly when the request failed, and the list replaced exactly when it answered |
| Chat.FetchCommentsReplaces | client/src/context/ChatContext.jsx:40-47 | a loaded comment list replaces only that post's entry and reloading it is idempotent; a failed load changes no list |
| PostList.OnVoteUpdate | client/src/components/Chat/PostList.jsx:17-31 | the list's vote listener keeps the list's length, every id and every comment count |
| PostList.VoteUpdateSetsCounters | client/src/components/Chat/PostList.jsx:20-30 | a vote update sets exactly the matching post's upvotes, downvotes and score to the payload's, and leaves every other post as it was |
| PostList.LaterUpdateWins | client/src/components/Chat/PostList.jsx:20-30 | counters come from the payload alone: of two updates for one post the later wins, and replaying an update changes nothing |
| PostList.CommentVoteLeavesPosts | client/src/components/Chat/PostList.jsx:18-21 | a comment's vote update carries no `post_id`, so it changes no post that has an id |
| PostList.PropsDiscardUpdates | client/src/components/Chat/PostList.jsx:8-13 | new props discard every vote update applied to the local copy: the view is as on mount with the new posts |
| PostList.BarFollowsList | client/src/components/Chat/PostList.jsx:113-125 | each post's bar shows the list's updated counters through the props, while its own buttons never update themselves because `InteractionBar` drops the id |
| PostDetail.Loaded | client/src/pages/PostDetail.jsx:24-38 | the page's load always ends with loading off |
| PostDetail.BlankSubmitIgnored | client/src/pages/PostDetail.jsx:103-111 | a blank draft is ignored whether or not anyone is logged in; any other draft asks a logged-out reader to log in, or sends one request |
| PostDetail.LoggedOutSendsNothing | client/src/pages/PostDetail.jsx:72-109 | logged out, voting, saving and commenting only show their own message and send nothing |
| PostDetail.SubmitOutcome | client/src/pages/PostDetail.jsx:111-122 | a created comment goes first, the draft is cleared and a stop-typing signal is sent; a failed one keeps the draft and the comments and shows the failure; submitting ends either way |
| PostDetail.NewCommentOnlyForThisPost | client/src/pages/PostDetail.jsx:44-54 | a `newComment` event changes the page exactly when its `post_id` is this page's id, and then prepends its comment |
| PostDetail.OwnCommentShownTwice | client/src/pages/PostDetail.jsx:48-114 | the page's own comment appears twice at the top once the server's broadcast of it arrives, since both the form and the listener prepend it |
| PostDetail.RenderCases | client/src/pages/PostDetail.jsx:129-177 | exactly one screen is shown: the spinner while loading, the error screen only with an error and no post, "Post not found" with neither, otherwise the post |
| PostDetail.LoadedScreens | client/src/pages/PostDetail.jsx:24-38 | after a load the spinner is gone; a successful load shows the post (a null comment list becomes empty) and a failed one shows its message, or `Failed to load post` when the message is empty (see also lines 129-172) |
| PostDetail.TypingSignals | client/src/pages/PostDetail.jsx:125-127 | each edit sends one typing signal and each blur one stop-typing signal for this post; the submit button is enabled exactly when not submitting and the draft is not blank (see also lines 279-283, 296) |
| PostDetail.VoteOutcome | client/src/pages/PostDetail.jsx:78-86 | logged in, a vote whose request and refresh both succeed shows the refreshed post; otherwise the old post stays and the vote failure is shown |
| PostDetail.ShownTimeFallback | client/src/pages/PostDetail.jsx:56-58 | the timestamp uses `CreatedAt` only when `created_at` is falsy and reads `Unknown time` exactly when both are (see also line 225) |
| TimeFormat.BucketBounds | client/src/components/Chat/PostList.jsx:37-49 | the age label is `Just now` under an hour, whole hours 1 to 23 under a day, whole days 1 to 6 under a week, and the locale date from a week on |
| TimeFormat.PagesAgree | client/src/pages/PostDetail.jsx:56-70 | the post page differs from the list's formatter only by answering `Unknown time` for a falsy date, which the list never answers |
| TimeFormat.InvalidDateIsLocaleDate | client/src/components/Chat/PostList.jsx:38-48 | the list renders a missing or unparsable date through the locale-date branch, since every comparison with `NaN` is false |
| RealTimeInteraction.Changed | client/src/components/RealTimeInteraction.jsx:56-63 | a change of any collection clears the previous timer and arms one new timer due 5000 ms later, leaving the collections alone |
| RealTimeInteraction.DefaultAndProvided | client/src/components/RealTimeInteraction.jsx:6-74 | outside a provider every collection is empty and the status is offline; a provider hands out its collections as they are and labels itself `Live` exactly when connected |
| RealTimeInteraction.VoteKeys | client/src/components/RealTimeInteraction.jsx:28-36 | a vote update is stored under exactly its truthy `post_id` and `comment_id`, every other key keeps its entry, and with neither id nothing changes |
| RealTimeInteraction.ItemsAccumulate | client/src/components/RealTimeInteraction.jsx:37-44 | new comments and new replies are appended in arrival order and touch no other collection |
| RealTimeInteraction.EventsPreserveInv | client/src/components/RealTimeInteraction.jsx:26-63 | every event and every timer firing keeps exactly one pending timer, the current one |
| RealTimeInteraction.MountInv | client/src/components/RealTimeInteraction.jsx:56-63 | on mount exactly one clearing timer is pending |
| RealTimeInteraction.ChangePostponesClear | client/src/components/RealTimeInteraction.jsx:56-63 | after a change the only pending timer is the one due 5000 ms after that change |
| RealTimeInteraction.ClearRearms | client/src/components/RealTimeInteraction.jsx:57-62 | the pending timer empties every collection and, since the emptied collections are new values, arms the next timer: clearing repeats every 5 seconds |
| RealTimeInteraction.StaleTimerIgnored | client/src/components/RealTimeInteraction.jsx:62 | a cleared timer never fires |
| RealTimeComment.MountInv | client/src/components/RealTimeComment.jsx:8-13 | a mounted comment has no timer pending and starts from its own replies, or none when it has no `replies` |
| RealTimeComment.EventsPreserveInv | client/src/components/RealTimeComment.jsx:16-71 | edits, firings, blur, submission, cancel and unmount keep at most the timer in the ref pending (see also lines 132-161) |
| RealTimeComment.EditRearms | client/src/components/RealTimeComment.jsx:16-26 | an edit sends one typing signal, clears every earlier timer and leaves exactly one pending, due 3000 ms after the edit |
| RealTimeComment.EditsLeaveOneTimer | client/src/components/RealTimeComment.jsx:16-26 | after a run of edits one timer is pending, due 3000 ms after the last keystroke, and one typing signal was sent per edit (see also lines 132-135) |
| RealTimeComment.FireOnce | client/src/components/RealTimeComment.jsx:23-25 | only a pending timer sends the stop-typing signal, and it sends it once |
| RealTimeComment.UnmountClearsTimers | client/src/components/RealTimeComment.jsx:65-71 | unmounting leaves no timer that could fire |
| RealTimeComment.SubmitOutcome | client/src/components/RealTimeComment.jsx:29-53 | a blank reply is never sent; a created reply is appended last, the form closes and empties and typing stops; a failure keeps the draft; the timer is never touched |
| RealTimeComment.AsWrittenReplyIsTopLevel | client/src/components/RealTimeComment.jsx:35-38 | as written, a reply to a comment the server sent carries no parent, so the server stores it as a top-level comment; a vote goes to the id "undefined" and is refused with 400 |
| RealTimeComment.CorrectedReplyNamesParent | server/models/comment.go:9 | reading the `id` field the server writes, a reply is stored as a reply to that comment and not as a top-level one, and a vote names that comment |
| RealTimeComment.SubmitThenFire | client/src/components/RealTimeComment.jsx:23-43 | a timer pending at submission survives it and fires afterwards |
| RealTimeComment.SubmitThenTimerSignalsAgain | client/src/components/RealTimeComment.jsx:16-53 | an edit followed by a submission sends stop-typing twice: once on submitting and once more when the edit's timer fires |
| RealTimeComment.CancelClears | client/src/components/RealTimeComment.jsx:150-161 | cancel closes and empties the form, disables the reply button and signals that typing stopped, keeping the replies |
| ConnectionStatus.StatusCases | client/src/components/Layout/ConnectionStatus.jsx:7-15 | the indicator reads connected (green) exactly when connected, reconnecting with the count (yellow) exactly when disconnected with attempts made, and disconnected (red) otherwise |
| ConnectionStatus.ReconnectingCountBounded | client/src/components/Layout/ConnectionStatus.jsx:12-13 | in every reachable connection state a shown reconnect count is between 1 and 10 |
| ConnectionStatus.OnlineCountOf | client/src/components/Layout/ConnectionStatus.jsx:24 | the online count is the length of the user list, zero when there is none |
| ConnectionStatus.ForceReconnectEffect | client/src/components/Layout/ConnectionStatus.jsx:28 | the button (disconnect, then connect after 300 ms) keeps the connection invariant and opens one new socket when credentials are present; when the old socket's close event arrives in between, or after the new socket is already connecting or open, it raises the attempt count and arms a retry timer with the old socket's credentials, and otherwise no timer is left and the count is kept |
| ConnectionStatus.ForceReconnectShowsCount | client/src/components/Layout/ConnectionStatus.jsx:12-28 | without a pending close the indicator shows the old count, not connected; once the old socket's close event arrives it reads reconnecting with the raised count, even when the new socket is already open |
| ConnectionStatus.StrayTimerReplacesNewSocket | client/src/context/WebSocketContext.jsx:96-111 | the retry timer armed by the old socket's late close, if it fires before the new socket opens, closes the new socket and connects again with the old credentials |
| ConnectionStatus.OpenDisarmsStrayTimer | client/src/context/WebSocketContext.jsx:60-70 | if the new socket opens first, it clears that timer, resets the count and shows connected |
| Validation.InstitutionalIff | server/utils/validation.go:9-50 | an address is accepted exactly when its lower-cased form is a non-empty local part of `[a-z0-9._%+-]`, one '@', and a domain of `[a-z0-9.-]` ending in `.edu.et` whose label before `edu` has at least two characters: the five checks together reduce to this shape |
| Validation.AcceptedHasShape | server/utils/validation.go:14-47 | every accepted lower-cased address has that shape at its '@' |
| Validation.ShapeAccepted | server/utils/validation.go:14-49 | every lower-cased address of that shape passes the suffix check, the regular expression, both splits and the label checks |
| Validation.MatchesWithSuffix | server/utils/validation.go:19-20 | with the `.edu.et` suffix present, the regular expression's domain part `[a-zA-Z0-9.-]+\.[a-zA-Z]{2,}` accepts any domain of domain characters |
| Validation.InstitutionalIgnoresCase | server/utils/validation.go:11 | two addresses with the same lower-case form are both accepted or both rejected |
| Validation.InstitutionIsDomainStem | server/utils/validation.go:53-73 | the institution is empty exactly for a rejected address; otherwise it is the domain as written with `.edu.et` removed, all of its labels rejoined |
| Validation.InstitutionAt | server/utils/validation.go:53-70 | for an address with the shape at `k`, the original-case domain text between '@' and the suffix is the institution |
| Validation.PasswordRules | server/utils/validation.go:76-97 | a password is accepted exactly when it has at least 8 bytes, an upper-case letter, a lower-case letter and a digit; a rejection names the first failing rule, in that order |
| Validation.PasswordLengthInBytes | server/utils/validation.go:77 | the length rule counts UTF-8 bytes, so six characters of which three are outside ASCII already pass it |
| SampleData.FindByDomain | server/utils/sampleData.go:176-183 | the lookup finds nothing exactly when no university has that `email_domain`, and otherwise returns the first that has it |
| SampleData.CoursesIn | server/utils/sampleData.go:187-196 | the department's course list holds every course of that department and only those |
| SampleData.CoursesInAppend | server/utils/sampleData.go:189-194 | the list is built in table order: one more course appends it exactly when it belongs to the department |
| SampleData.UnknownDepartmentEmpty | server/utils/sampleData.go:187-196 | a department without courses gives an empty list |
| SampleData.DomainsFollowAbbreviations | server/utils/sampleData.go:4-109 | every university's `email_domain` is its lower-cased abbreviation followed by `.edu.et` |
| SampleData.CourseCodesDistinct | server/utils/sampleData.go:113-171 | no two sample courses share a code |
| SampleData.NonInstitutionalHasNoUniversity | server/utils/sampleData.go:174-184 | an address that is not institutional has no university under either lookup, since no university has an empty domain |
| SampleData.AsWrittenNeedsDoubledSuffix | server/utils/sampleData.go:175-178 | as written, a university is found only when the extracted institution itself ends in `.edu.et`, i.e. the address carries the suffix twice |
| SampleData.AsWrittenMissesPlainAddress | server/utils/sampleData.go:174-184 | as written, the ordinary address `student@aau.edu.et` is institutional yet finds no university, while `x@aau.edu.et.edu.et` finds Addis Ababa University |
| SampleData.CorrectedMatchesDomain | server/utils/sampleData.go:174-184 | the corrected lookup compares the address's whole lower-cased domain with the table |
| SampleData.CorrectedFindsPlainAddress | server/utils/sampleData.go:174-184 | the corrected lookup finds Addis Ababa University for its ordinary address |
| Profile.Fetched | client/src/pages/ProfilePage.jsx:22-39 | loading the user sends one request and always ends loading, a failure being only logged |
| Profile.NameRule | client/src/pages/ProfilePage.jsx:44-49 | the name gets an error exactly when it is blank after trimming or its trimmed length in UTF-16 units is below 2, and blank is reported first |
| Profile.EmailRule | client/src/pages/ProfilePage.jsx:51-58 | the address gets an error exactly when it is blank, lacks the `.edu.et` ending ignoring case, or fails the pattern, and only the first failing check is reported, in that order |
| Profile.PassesIffNoErrors | client/src/pages/ProfilePage.jsx:41-62 | only name and email are checked, the form passes exactly when neither has an error, and the shown errors are replaced by the new ones |
| Profile.ChangeClearsOnlyItsError | client/src/pages/ProfilePage.jsx:82-97 | editing a field turns that field's existing error into an empty one, adds none where there was none, and leaves every other error as it was |
| Profile.SubmitSendsValidatedForm | client/src/pages/ProfilePage.jsx:99-131 | a form is sent exactly when it validates, with the trimmed non-empty name and the lower-cased `.edu.et` address; a failed update shows the server's message or the default, a successful one closes editing and clears the errors |
| Profile.CancelRestores | client/src/pages/ProfilePage.jsx:68-80 | cancelling closes editing, clears every error, and restores the form from the loaded user when there is one |
| Profile.ClientInstitutionIs | client/src/pages/ProfilePage.jsx:133-140 | for an address with one '@' and a domain ending in `.edu.et`, the page's institution is the domain with the first `.edu.et` removed |
| Profile.ClientInstitutionOfDomain | client/src/pages/ProfilePage.jsx:133-140 | when the domain carries `.edu.et` only at its end, the page's institution is the domain without it |
| Profile.ClientRemovesFirstOccurrence | client/src/pages/ProfilePage.jsx:137 | `replace` removes the first occurrence only: a domain ending in the suffix twice keeps the second one |
| Profile.ClientAgreesWithServer | client/src/pages/ProfilePage.jsx:133-140 | for a lower-cased institutional address whose stem does not contain `.edu.et`, the page and the server extract the same institution |
| Auth.TrimPrefix | server/middleware/authMiddleware.go:23 | `strings.TrimPrefix` removes the prefix when the string starts with it and otherwise returns the string unchanged |
| Auth.AuthRequiresBearer | server/middleware/authMiddleware.go:15-20 | a header without the `Bearer ` prefix, the empty one included, is refused with 401 and `Authorization header missing or invalid`, and such headers only |
| Auth.AuthVerifiesRest | server/middleware/authMiddleware.go:22-36 | after the prefix the token is verified: an invalid one is refused with 401 and `Invalid or expired access token`, a valid one continues with its user id under `userID` and nothing else |
| Auth.AuthContinuesOnlyVerified | server/middleware/authMiddleware.go:12-38 | a request goes on exactly when it carries a bearer token that verifies, and then the context holds that user id under `userID` alone |
| Auth.PostHandlersSeeNoUser | server/middleware/authMiddleware.go:35 | as written, handlers that read `user_id` find no user on any request the middleware lets through |
| Auth.CorrectedHandlersSeeVerifiedUser | server/middleware/authMiddleware.go:35 | read under the key the middleware sets, the handlers see exactly the verified user |
| Auth.BearerToken | server/ventapp/middleware/auth_middleware.go:22-25 | the token is non-empty exactly when the header is longer than seven bytes and starts with `Bearer ` |
| Auth.VentPassesAnonymous | server/ventapp/middleware/auth_middleware.go:15-19 | a request without the header goes on with nothing in the context |
| Auth.VentHeaderRule | server/ventapp/middleware/auth_middleware.go:21-29 | a present header is refused with `invalid auth header` exactly when it is not `Bearer ` followed by at least one byte; `Bearer ` alone is refused |
| Auth.VentParsesRest | server/ventapp/middleware/auth_middleware.go:31-40 | a non-empty token is refused with `invalid token` exactly when it does not parse; a parsed token goes on, with `user_id` set exactly when its `sub` claim is a string, to that string |
| Store.ParseObjectId | server/controllers/postController.go:81-85 | an id parameter parses exactly when it is 24 hex digits, and the parsed id is in canonical form; anything else takes the handler's invalid-id path |
| Store.ParseRoundTrip | server/controllers/postController.go:81 | an id's hex form parses back to the same id, and parsing ignores the case of the hex digits |
| Store.RequesterId | server/controllers/questionController.go:210-221 | the handler acts for the context's user id parsed: no user id is 401 `User not authenticated`, one that does not parse is 500 `Invalid user ID` |
| Store.OwnerQueries | server/controllers/postController.go:122-177 | the author id stored at creation always passes the owner filter written with the parsed id, and never the filter written with the context's string |
| Store.VotesKeepBalance | server/controllers/postController.go:259-275 | the vote `$inc` keeps `score == upvotes - downvotes` from the zero tally on, and an upvote followed by a downvote leaves the score unchanged |
| Store.AddToSet | server/controllers/questionController.go:424-426 | `$addToSet` leaves the id in the array, adds no other id, creates a missing array, and changes nothing when the id is already present |
| Store.Pull | server/controllers/questionController.go:461-463 | `$pull` removes every occurrence of the id, keeps every other one, never lengthens the array and leaves a missing array missing |
| Store.Size | server/controllers/answerController.go:66-67 | `$size` of `$ifNull` counts a missing array as zero and otherwise counts its elements |
| Store.ArrayOperatorsKeepDistinct | server/controllers/questionController.go:349-388 | arrays changed only by `$addToSet` and `$pull` hold each user id at most once, so their sizes count distinct users |
| Store.RemoveDistinctSize | server/controllers/questionController.go:350-388 | in such an array `$pull` shortens it by one exactly when the id is there |
| Posts.CreateZeroesCounters | server/controllers/postController.go:108-148 | creation succeeds exactly for an authenticated request with a well-formed body whose author exists; the stored and returned post has zeroed counters, the author and creation time set and the body's title, content and tags; a refused creation stores nothing, and no user is 401 |
| Posts.VoteDeltas | server/controllers/postController.go:234-316 | a vote succeeds exactly for a user, a well-formed id, a live post and `upvote` or `downvote`; it adds one to upvotes and score, or one to downvotes and minus one to score, changes nothing else, and broadcasts the new counters with the raw id |
| Posts.VoteChecksInOrder | server/controllers/postController.go:235-277 | the checks run in order: no user 401, a bad id 400, a missing or deleted post 404 whatever the vote type, and only then an unknown vote type 400 |
| Posts.VoteOutcome | server/controllers/postController.go:258-279 | a vote leaves the collection as it was or replaces exactly one post by itself with the vote's `$inc` applied |
| Posts.VoteKeepsBalance | server/controllers/postController.go:258-279 | votes keep every post's score equal to its upvotes minus its downvotes |
| Posts.CreateKeepsBalance | server/controllers/postController.go:125-127 | creation keeps every post balanced, so every post touched only by creation and votes is balanced |
| Posts.SavePost | server/controllers/postController.go:318-368 | save and unsave succeed exactly for a user, a well-formed id and a live post, answer with the `saved` flag they were asked for, and store nothing |
| Posts.AsWrittenOwnerNeverMatches | server/controllers/postController.go:177-222 | as written, every authenticated update or delete with a well-formed id is refused with 403, whoever wrote the post, and nothing changes |
| Posts.AuthorCanDelete | server/controllers/postController.go:202-232 | with ids compared, the author can delete the post: it stays in the collection marked deleted and nothing else changes |
| Posts.AuthorCanEdit | server/controllers/postController.go:150-200 | with ids compared, the author can edit the post: title, content, tags and update time are replaced and nothing else changes |
| Posts.OthersRefused | server/controllers/postController.go:176-222 | a user who wrote no post with that id is refused with 403 by update and delete, and nothing changes |
| Posts.DeleteIsSoft | server/controllers/postController.go:224-225 | deletion is soft: the collection keeps its length and the post its fields with only the flag set, and a refused delete changes nothing |
| Posts.ChangeKeepsBalance | server/controllers/postController.go:184-225 | edits and deletes keep every post balanced |
| Posts.GetPost | server/controllers/postController.go:79-106 | a post is returned exactly when the id is well-formed and a live post has it, and the returned post has that id and is not deleted |
| Posts.SortKeyRule | server/controllers/postController.go:19-48 | `hot` sorts by score, `top` by upvotes, and `new`, empty or anything else by creation time |
| Posts.ListingRules | server/controllers/postController.go:17-77 | the listing holds at most 50 posts, in descending order of the sort key, each a live stored post matching the search; when at most 50 match, every match is listed, and otherwise exactly 50, none with a smaller key than any matching post left out |
| Posts.ListingMembers | server/controllers/postController.go:17-51 | the listing is in descending key order, every listed post is a stored post the query admits, and with at most 50 admitted every admitted post is listed |
| Posts.ListingCut | server/controllers/postController.go:37-51 | the cut at 50 after the descending sort keeps the matching posts with the largest keys: 50 of them when more match, and no post left out outranks one kept |
| Posts.FilterMatchesList | server/controllers/postController.go:370-441 | `FilterPosts` answers a well-formed body exactly as `GetPosts` answers the same sort and search, ignoring `type` |
| Comments.BumpCount | server/controllers/commentController.go:138-142 | the `$inc` of a post's `comments` counter acts on the first post with that id only, and on nothing when there is none (see also lines 242-246) |
| Comments.CreateRules | server/controllers/commentController.go:72-162 | creation succeeds exactly for a user, a well-formed post id, a well-formed body whose parent, if any, is a live comment, an existing author and an unused id; the stored comment has the post, author, time, zeroed counters and the body's content and parent, the post's counter gains one and the comment is broadcast; a refused request changes nothing |
| Comments.CreateKeepsCounts | server/controllers/commentController.go:131-142 | creation keeps every post's counter equal to the number of its live comments |
| Comments.CreateKeepsIdsUnique | server/controllers/commentController.go:131-135 | creation keeps comment ids unique |
| Comments.AsWrittenOwnerNeverMatches | server/controllers/commentController.go:189-232 | as written, every authenticated update or delete with a well-formed id is refused with 403, whoever wrote the comment |
| Comments.AuthorCanEdit | server/controllers/commentController.go:164-210 | with ids compared, the author can edit the comment: only its content and update time change |
| Comments.UpdateKeepsCounts | server/controllers/commentController.go:195-203 | edits keep every post's counter equal to its live comments |
| Comments.DeleteOutcome | server/controllers/commentController.go:212-249 | a delete either changes nothing, or marks one live comment of the user's with that id deleted and takes one from its post's counter |
| Comments.DeleteKeepsCounts | server/controllers/commentController.go:234-246 | the corrected delete keeps every post's counter equal to its live comments |
| Comments.DeleteRefusesDeleted | server/controllers/commentController.go:228-232 | the corrected delete refuses a comment that is already deleted and changes nothing |
| Comments.RepeatedDeleteOutcome | server/controllers/commentController.go:226-248 | with the owner filter fixed but the deletion flag still ignored, deleting an already deleted comment of the user's succeeds, leaves the comments as they are and decrements the post's counter again |
| Comments.RepeatedDeleteBreaksCounts | server/controllers/commentController.go:226-248 | that repeated delete leaves the post's counter one below its live comments |
| Comments.VoteCommentDeltas | server/controllers/commentController.go:251-333 | a comment vote succeeds exactly for a user, a well-formed id, a live comment and `upvote` or `downvote`; it applies the vote's `$inc` to that comment only and broadcasts the new counters under `comment_id` |
| Comments.VoteKeepsCounts | server/controllers/commentController.go:296 | comment votes leave every post's live comment count alone |
| Comments.ThreadsShape | server/controllers/commentController.go:43-67 | the listing has one thread per top-level comment in the sorted order, each carrying that comment's replies |
| Comments.ThreadHeads | server/controllers/commentController.go:25-29 | the threads are headed by every live top-level comment on the post and nothing else, best score first |
| Comments.ReplyRules | server/controllers/commentController.go:50-52 | the replies under a comment are every live reply to it on the post and nothing else, oldest first |
| Comments.ListingRules | server/controllers/commentController.go:17-70 | a malformed post id is 400; otherwise the listing combines the thread and reply rules |
| Comments.NestedRepliesHidden | server/controllers/commentController.go:26-51 | a reply to a reply appears neither as a thread nor under any thread |
| Reactions.Like | server/controllers/questionController.go:348-351 | a like leaves the user among the likers and not among the dislikers, and changes no other user's reaction |
| Reactions.Dislike | server/controllers/questionController.go:386-389 | a dislike leaves the user among the dislikers and not among the likers, and changes no other user's reaction |
| Reactions.Save | server/controllers/questionController.go:424-426 | saving adds the user to `saved_by` and nobody else |
| Reactions.Unsave | server/controllers/questionController.go:461-463 | unsaving removes the user from `saved_by` and keeps everybody else |
| Reactions.DislikeMirrorsLike | server/controllers/answerController.go:276-317 | a dislike is a like with the two arrays exchanged |
| Reactions.ReactionsIdempotent | server/controllers/questionController.go:348-351 | liking, disliking, saving and unsaving twice is doing it once (see also lines 386-389, 424-426, 461-463) |
| Reactions.ReactionsKeepWellFormed | server/controllers/answerController.go:276-317 | likes and dislikes keep both arrays free of repeats and keep the likers and dislikers apart |
| Reactions.LikeCounts | server/controllers/answerController.go:66-67 | on such arrays a like adds one like unless the user already liked, and removes one dislike exactly when the user had disliked (see also lines 276-279) |
| Reactions.DislikeCounts | server/controllers/answerController.go:66-67 | a dislike counts as the mirror image of a like (see also lines 314-317) |
| Questions.KindOr | server/controllers/questionController.go:44-49 | the listing and the stored type is the given one, or "question" when none is given; never empty |
| Questions.FilterDefaults | server/controllers/questionController.go:41-72 | the type condition defaults to "question"; the search, course, university and department conditions are present exactly when their parameter is non-empty |
| Questions.ListingRules | server/controllers/questionController.go:74-113 | a listing holds exactly the questions the filter selects, newest first; it fails with 500 "Error fetching user information" only when a selected question's author is missing |
| Questions.AsWrittenIdFiltersSelectNothing | server/controllers/questionController.go:59-72 | as written, any course, university or department parameter is compared as a string with an ObjectID field, so the listing is empty whatever is stored, and its body is `null` |
| Questions.ListingBodyOf | server/controllers/questionController.go:91-113 | the listing is written as `null` exactly when nothing is selected, and as the array of selected questions otherwise |
| Questions.CorrectedCourseFilter | server/controllers/questionController.go:59-62 | with the parameter parsed as an ObjectID, the course filter keeps exactly the questions of that course that the other conditions keep |
| Questions.GetQuestionById | server/controllers/questionController.go:117-205 | an unparsable id is 400, a missing question 404; the answer is a view of the stored question with its like, dislike and save counts as the sizes of the distinct-element arrays, given only when author and course exist |
| Questions.CreateRules | server/controllers/questionController.go:208-244 | an unauthenticated request or bad user id fails with the requester's error, a malformed body is 400; otherwise the stored question is the body with the requester as author, the current time and the type defaulted, appended and returned (the corrected response names the stored record) |
| Questions.CreatedIdFindsRecord | server/controllers/questionController.go:237-243 | the corrected response's id is the stored question's id, and looking it up finds the record just added |
| Questions.AsWrittenCreateAnswersZeroId | server/controllers/questionController.go:237-243 | as written, a question created without an id is answered with the zero id, not the fresh id it is stored under; the rest of the response is the stored record |
| Questions.UpdateNeedsOwner | server/controllers/questionController.go:247-289 | an update succeeds exactly when the requester wrote a question with the id, changes only its content and update time, and otherwise is 401 "No permission or question not found" with nothing changed |
| Questions.DeleteNeedsOwner | server/controllers/questionController.go:292-322 | a deletion succeeds exactly when the requester wrote a question with the id, removes that one question keeping the others in order, and otherwise changes nothing |
| Questions.ReactionRules | server/controllers/questionController.go:325-472 | a reaction succeeds exactly when the id parses and the requester is known; a like puts the requester among the likers and out of the dislikers, a dislike the reverse, a save among the savers, an unsave out of them; nothing else in the store changes, and a missing question is still 200 |
| Questions.ReactKeepsWellFormed | server/controllers/questionController.go:347-350 | reactions keep every question's like and dislike arrays free of duplicates, with no user both liking and disliking |
| Questions.ReactIdempotent | server/controllers/questionController.go:347-350 | reacting twice the same way is reacting once, as $addToSet and $pull promise |
| Answers.QuestionIdParam | server/controllers/answerController.go:19-23 | the listing's question id is the `id` route parameter, and the older `question_id` one only when `id` is empty |
| Answers.AnswersToRules | server/controllers/answerController.go:29-70 | the listing shows exactly the answers to the named question, each with its like and dislike counts as the sizes of its arrays; answers to other questions do not appear |
| Answers.AnswersToInOrder | server/controllers/answerController.go:29-70 | the listing is the collection filtered to the question, in collection order, each answer viewed once |
| Answers.ListingParamRule | server/controllers/answerController.go:17-107 | a listing succeeds exactly when the chosen question id parses, and is then the answers to that question; otherwise it is 400 "Invalid question ID" |
| Answers.CreateSetsOwner | server/controllers/answerController.go:111-147 | an unauthenticated request or bad user id fails with the requester's error and a malformed body is 400; otherwise the answer is appended with the requester as author and the current time, keeping the body's question and content (the corrected response names the stored record) |
| Answers.CreatedIdFindsRecord | server/controllers/answerController.go:140-146 | the corrected response's id is the stored answer's id, and looking it up finds the record just added |
| Answers.AsWrittenCreateAnswersZeroId | server/controllers/answerController.go:140-146 | as written, an answer created without an id is answered with the zero id, not the fresh id it is stored under |
| Answers.GetAnswerById | server/controllers/answerController.go:150-167 | an unparsable id is 400, an unknown one 404, and otherwise the answer returned is the stored one with that id |
| Answers.UpdateAlwaysReportsSuccess | server/controllers/answerController.go:171-215 | once the id, body and requester are valid the reply is "Answer updated" whether or not the requester wrote an answer with the id; only such an answer's content and update time can change |
| Answers.DeleteAlwaysReportsSuccess | server/controllers/answerController.go:218-250 | once the id and requester are valid the reply is "Answer deleted" whether or not anything matched; at most one answer, one the requester wrote, is removed |
| Answers.ReactionRules | server/controllers/answerController.go:253-326 | a like puts the requester among the answer's likers and out of its dislikers, a dislike the reverse; nothing else changes, and a missing answer is still 200 |
| Answers.ReactKeepsWellFormed | server/controllers/answerController.go:276-317 | likes and dislikes keep every answer's arrays free of repeats, with no user both liking and disliking |
| Text.EncodeUriComponent | client/src/context/WebSocketContext.jsx:49 | the token in the socket URL is escaped: every character of the result is unreserved or `%`, and a token of unreserved characters is sent as it is |
| Text.EncodeUriComponentRoundTrip | client/src/context/WebSocketContext.jsx:49 | decoding the escaped token gives back exactly its UTF-8 bytes |
| Text.PercentBytesDecode | client/src/context/WebSocketContext.jsx:49 | `%XX` escapes followed by any text decode to the escaped bytes followed by the text's bytes |
| Text.EncodeUriComponentInjective | client/src/context/WebSocketContext.jsx:49 | two tokens with the same escaping have the same UTF-8 bytes |
| Sorting.SortDesc | server/controllers/postController.go:39-48 | a `-1` sort returns the same documents, as a permutation, ordered largest key first |
| Sorting.Limit | server/controllers/postController.go:51 | a limit of 50 keeps the first documents of the sorted result, at most 50 of them |
| Sorting.LimitKeepsTop | server/controllers/postController.go:37-51 | a limit applied after a descending sort leaves behind only documents whose key is no larger than any document kept |

## Left out

- Database I/O: cursors, driver errors and every 500 path that only a failing database reaches, the `$lookup`/`$unwind` joins and the response projections beyond the counts they report. The collections are in-memory sequences, and "found" means present in them.
- Concurrency: goroutines, channels, mutexes, deadlines, the ping ticker and the upgrader. `Hub.Run`'s three cases are sequential transitions, and a blocked send is a state the hub does not leave.
- Go map iteration order is unspecified; the hub keeps its clients in registration order, which is one of the orders Go may pick.
- Browser APIs: `WebSocket`, `setTimeout`/`clearTimeout`, `window` events, `localStorage` and HTTP requests are explicit state fields or parameters that answer or fail.
- `JSON.parse`, `json.Marshal`/`json.Unmarshal` and JWT verification are parameters: abstract partial functions whose results the model takes as given.
- The clock and the locale: elapsed time is an integer number of milliseconds, and `toLocaleDateString` is an abstract function of the timestamp.
- Case conversion is ASCII only. Go's `strings.ToLower` and JavaScript's `toLowerCase` also map non-ASCII letters; the `.edu.et` rules compare only ASCII text.
- Server-side typing expiry, per-post typing keys, suppressing a reconnect after a manual `disconnect()`, and queuing of outbound messages. The code implements none of these, so the model has none of them: after `disconnect()` the close event still schedules a reconnect.
- The `validate:"required,min=1"` tags on post and comment fields: Gin's `ShouldBindJSON` checks `binding` tags, not `validate` ones, so the model accepts an empty title or content as the handlers do.
- `CreateQuestion` stores the likes, dislikes and savers sent in the body as they are; the model keeps them too and does not re-establish their well-formedness.
- A reply's parent comment is looked up by id alone, so it may belong to another post. Replies to replies are stored but never listed.
- Questions are deleted outright, while posts and comments are deleted softly.
- Answer update and delete report success when nothing matched, and a reaction on a missing question or answer returns 200. The model states both as they are.
- `PostList`'s `handleVote`/`handleSave`/`handleComment` only issue a request or navigate; they hold no state and are not modelled. Of `RealTimeComment`'s `handleVote` only the id it sends is modelled.
- Rendering, class names and routing of every component.
- `InteractionBar` receives an `id` prop on the post page but never passes it to the buttons; `Buttons.BarButtons` models exactly that.
- Posts.ListingRules: the search pattern is a total predicate `matches`, so a `$regex` the database rejects (an unbalanced bracket, say) is not modelled; the handler answers such a search with 500.
- Questions.ListingRules: the question listing's `$regex` search is a total predicate in the same way, so an invalid pattern's 500 is not modelled.
- Comments.CreateRules: the `comment` broadcast also carries the author's email as its username; the event models the user id only.
- AppReducer.Reduce: a `null` listing body (what `GetQuestions` writes for an empty selection) reaching `SET_QUESTIONS` is not modelled; the reducer's question list is always a sequence.
- Text.EncodeUriComponentInjective: stated up to the UTF-8 bytes; that distinct strings have distinct UTF-8 encodings is not proved.
- The vent app's controllers and the repository's seeding scripts are not part of this model.

## Findings

| source | as written | input that shows it | evidently intended | confidence | as-written member | corrected member |
|---|---|---|---|---|---|---|
| server/websocket/hub.go:96-102 | the register and unregister cases send their broadcasts on the hub's own unbuffered `broadcast` channel from inside `Run`, the channel's only receiver | the first connection of any user, or the last disconnection of a user | deliver `user_joined`/`user_left` and the presence snapshot directly to the clients | not executed | HubProofs.FirstConnectionBlocksHub | HubProofs.RegisterBroadcastsIffFirst |
| server/utils/sampleData.go:174-184 | the institution extracted from the address ("aau") is compared with the table's full `email_domain` ("aau.edu.et") | `x@aau.edu.et` finds no university; `x@aau.edu.et.edu.et` finds AAU | match the address's domain against `email_domain` | not executed | SampleData.AsWrittenMissesPlainAddress | SampleData.CorrectedFindsPlainAddress |
| server/controllers/postController.go:177 | the owner filter compares the ObjectID field `author_id` with the context's string id | any update or delete of a post by its own author with a well-formed id answers 403 | compare with the author's ObjectID | not executed | Posts.AsWrittenOwnerNeverMatches | Posts.AuthorCanEdit |
| server/controllers/commentController.go:189 | the same string-against-ObjectID owner filter for comments | any update or delete of a comment by its own author answers 403 | compare with the author's ObjectID | not executed | Comments.AsWrittenOwnerNeverMatches | Comments.AuthorCanEdit |
| server/middleware/authMiddleware.go:35 | the middleware stores the id under `"userID"`; the post and comment handlers read `"user_id"` | any authenticated request to create a post answers 401 | one key on both sides | not executed | Auth.PostHandlersSeeNoUser | Auth.CorrectedHandlersSeeVerifiedUser |
| server/controllers/commentController.go:212-249 | `DeleteComment` does not check `is_deleted`, so deleting a deleted comment takes one from the post's counter again | deleting the same comment twice | refuse a comment already deleted, keeping the counter equal to the live comments | not executed | Comments.RepeatedDeleteBreaksCounts | Comments.DeleteKeepsCounts |
| server/controllers/questionController.go:59-72 | the course, university and department parameters are compared as strings with ObjectID fields | any listing with `course=<a stored course id>` is empty | parse each parameter as an ObjectID | not executed | Questions.AsWrittenIdFiltersSelectNothing | Questions.CorrectedCourseFilter |
| server/controllers/questionController.go:237-243 | the handler discards `InsertOne`'s result and answers with the bound body | a question posted without an id is answered with id `000000000000000000000000` while it is stored under a fresh one | answer with the stored record and its id | not executed | Questions.AsWrittenCreateAnswersZeroId | Questions.CreatedIdFindsRecord |
| server/controllers/answerController.go:140-146 | the same for answers | an answer posted without an id is answered with the zero id | answer with the stored record and its id | not executed | Answers.AsWrittenCreateAnswersZeroId | Answers.CreatedIdFindsRecord |
| client/src/components/RealTimeComment.jsx:35-38 | the reply form sends `parent_id: comment._id`, while the server writes a comment's id under `id` | replying to any listed comment | read `comment.id` | not executed | RealTimeComment.AsWrittenReplyIsTopLevel | RealTimeComment.CorrectedReplyNamesParent |
| client/src/context/ChatContext.jsx:115 | the store calls `commentsAPI.voteComment(postId, commentId, voteType, token)`, but the helper takes `(commentId, voteType)`, so the request goes to `/comments/<postId>/<commentId>` | voting on any comment | call `voteComment(commentId, voteType)` | not executed | CommentVote.AsWrittenCommentVoteNeverSucceeds | CommentVote.CorrectedCommentVoteApplies |
