# whatsfake server core in Dafny

This project models the in-memory chat server of whatsfake (`server/index.js`). The server keeps two
global tables, `users` and `chats`. Each Express handler reads them, checks its conditions, and only then
mutates them. Node's event loop runs a handler to completion, so each handler is one atomic transition.
The model is therefore a pure state machine:

- `Store.State` holds the user table, the chat table (each chat owns its message log), an outbox of
  socket.io emissions (`(audience, event)` pairs), the live sockets with their room subscriptions, and
  `clock`. The clock stands for `Date.now()`.
- Every handler is a function from a state and the request fields to `Step(state, reply)`. The reply is
  either the JSON body or an error code (400, 401, 404, 409, or 500 where the source throws) with the
  source's error text.
- Read-only handlers (login, search, friends page, chat list, history) return only the reply.
- `Server.Apply` dispatches one request. `Server.Run` applies a sequence of them to the seeded tables
  (`Store.Init`).

Ids the server creates are stamped with the clock, and the clock advances after each use. Freshness of
ids is therefore an invariant the proofs establish rather than an assumption. The seeded chat `c1` has no
name.

The seeded users `u1`-`u3` are modelled with no password and with empty `friends`/`friendRequests`
lists. In the source (`server/index.js:44-48`) those records have no such arrays at all, so every friend
operation that reads a seed's list throws and Express answers 500:
- a friend request from a seed (line 116) or to a seed (line 118);
- the friends page of a seed (line 155);
- an accept by a seed (line 140).

An accept by a registered user of a request "from" a seed is worse. It first stores the seed among the
user's friends (line 143) and then throws on the seed's list (line 144), leaving a one-sided edge.
`Friends.AcceptAsWritten` models these records as written; see "## Findings". Everywhere else the model
gives the seeds empty lists, which is evidently what was intended, and the invariants below hold for
that model.

`Invariants.Valid` collects what every reachable state satisfies:

- user ids are unique, and user names are unique up to case;
- friendship is mutual, friend lists have no duplicates, and every friend id resolves to a user;
- a stored request is addressed to its holder, never to its own sender, and comes from an existing user;
- no user holds two requests from the same sender;
- chat ids are unique, and there is at most one two-member direct chat per set of members;
- every message is filed under its own chat, and message stamps strictly increase along each log;
- every stamp lies before the clock, every subscription belongs to a live socket, and no live socket
  carries a retired id.

`Server.ReachableValid` proves that every sequence of requests keeps all of this.

Where the design notes for this system and the code disagree, the model follows the code:

- The code overwrites `avatar` and `status` only with truthy values, so an empty status cannot clear
  the field. The design asks for presence-based updates.
- The code checks neither that a message's sender is a participant nor its type. It also lets any socket
  join any chat room. The design asks for 403 in both cases.
- In the model, message ids are clock stamps, strictly increasing per log. The source builds them from
  `Date.now()` (line 277), which can repeat or go backwards (see "## Left out"). The design asks for gap-free sequence
  numbers starting at 1.
- A direct-chat request is answered with the first existing two-slot direct chat all of whose members
  are among the requested participants. The design asks for exact set equality with two distinct
  members. So once a user has a direct chat with itself, that chat answers every direct request that
  names this user (`Chats.SelfChatAnswersPairRequest`).
- The friend-request checks run in the order 404, then self-add, then already friends, then duplicate.
  The design lists the self-reference check first.
- The code has no reject operation. Friends are always reported online.

## Model

| member | source | states |
|---|---|---|
| Basics.FirstIndex | server/index.js:60 | The lookup every handler uses returns the first matching position, or nothing when no element matches. |
| Basics.Lower | server/index.js:110 | Lower-casing keeps the length of the name; the lookups compare names through it. |
| Basics.LowerChars | server/index.js:180 | Each capital letter becomes its small letter, every other character stays, no capital remains, and lower-casing twice is lower-casing once. |
| Store.UserIndex | server/index.js:109 | The lookup by id returns the first user with that id, and nothing exactly when no user has it. |
| Store.NameIndex | server/index.js:110 | The lookup by name returns the first user whose name equals the given one up to case, and nothing exactly when no name matches. |
| Store.ChatIndex | server/index.js:60 | The chat lookup returns the first chat with that id, and nothing exactly when no chat has it. |
| Store.Init | server/index.js:44-57 | The server starts with three seeded users that have no password (so none can log in), their default avatars and empty lists, one message-less direct chat between the first two, no emissions, no sockets and the clock at zero. |
| Invariants.InitValid | server/index.js:44-57 | The seeded tables (three users, one direct chat) satisfy every invariant. |
| Accounts.Register | server/index.js:65-87 | 400 exactly when a field is falsy. 409 exactly when the name is taken up to case. Success exactly otherwise. Errors change nothing. Success appends one record with a fresh id, the given name and password, the name's default avatar, no status or game activity, and empty friend and request lists. The clock advances, chats, outbox and sockets are untouched, and the reply is the new record minus its password. |
| Accounts.Login | server/index.js:90-101 | 400 exactly when a field is falsy. 401 exactly when no user matches the name up to case with that password. Success exactly when some user does, and the reply is then the profile of the first such user. |
| Accounts.Search | server/index.js:176-187 | 400 exactly when the name is falsy. 404 exactly when no name matches up to case. Success exactly when one does, and the reply is then the profile of the first user whose name matches. |
| Accounts.UpdateProfile | server/index.js:190-208 | 404 with no change exactly for an unknown id. Success exactly for a known id. Then only the first record with that id changes: avatar and status only to truthy values, game activity whenever given. Id, name, password, friends and requests are kept, one `user_update` carrying the new profile is broadcast, and chats, sockets and clock are untouched. |
| Accounts.LoginAfterRegister | server/index.js:74-97 | Logging in with the credentials just registered succeeds and returns the profile the registration returned. |
| Accounts.SearchAfterRegister | server/index.js:69-83 | After a registration, a search for any spelling equal up to case finds the new user. |
| Accounts.UpdateProfileIdempotent | server/index.js:197-199 | Repeating the same profile update leaves the user table as the first update left it. |
| Accounts.RegisterPreservesValid | server/index.js:69-83 | Registration keeps all invariants: the new id is fresh, the name is unique up to case, and the new user has no edges. |
| Accounts.UpdateProfilePreservesValid | server/index.js:194-199 | A profile update keeps all invariants, because it touches neither ids, names, friends nor requests. |
| Friends.WithoutRequestsFrom | server/index.js:140 | Filtering keeps exactly the requests from other senders and keeps the one-request-per-sender property. Its order is stated by Friends.WithoutRequestsFromAppend. |
| Friends.AddFriend | server/index.js:143-144 | An id already present leaves the record as it was. Otherwise the id is appended at the end of the friend list. The list stays duplicate-free and nothing else changes. |
| Friends.SendRequest | server/index.js:106-128 | The error checks run in the source's order: 404 for a missing user, then 400 for self-add, 400 for already friends, 400 for a request already sent. Each holds exactly under its condition, success exactly when none applies, and errors change neither state nor outbox. Success appends one pending request at the end of the recipient's list and emits one `friend_request` to the recipient's room. Chats, sockets and clock are untouched. |
| Friends.Accept | server/index.js:131-147 | 404 with no change exactly when either user is missing, success exactly when both exist, so an absent request is no error. On success the accepter's request list is the old list without the sender's requests, in order. Each friend list gains the other user at its end unless it is already there. Only the `friends` and `friendRequests` fields of these two records change, friend lists stay duplicate-free, and chats, outbox, sockets and clock are untouched. |
| Friends.AcceptedUsers | server/index.js:140-144 | The accepted table differs from the old one only in the two records' `friends` and `friendRequests`. The accepter's requests lose the sender's in order, and each friend list gains the other id at its end unless it is already there. |
| Friends.FriendEntries | server/index.js:155-165 | The friend entries exist exactly when every id resolves. Then there is one entry per id, in order, built from the resolved user and marked online. |
| Friends.RequestEntries | server/index.js:167-170 | The request entries exist exactly when every sender resolves. Then there is one entry per request, in order, built from the sender's record. |
| Friends.FriendsView | server/index.js:150-173 | 404 exactly for an unknown user. Otherwise success exactly when every friend id and every request sender resolves, and the only other error is 500. A successful page lists, in list order, each friend's id, name, avatar and status marked online, and each request sender's id, name and avatar. |
| Friends.WithoutAbsentSender | server/index.js:140 | Filtering out a sender who has no request leaves the list as it was. |
| Friends.WithoutRequestsFromAppend | server/index.js:140 | The filter keeps list order: a request at the end stays at the end unless it comes from the filtered sender. |
| Friends.RepeatedRequestRejected | server/index.js:118-122 | Sending the same friend request again while the first is pending gives 400 "Request already sent". |
| Friends.AcceptIdempotent | server/index.js:139-144 | A second accept of the same pair gives the same state and reply as the first. |
| Friends.FriendsViewResolves | server/index.js:155-170 | In a consistent user table, the friends page of an existing user never fails. |
| Friends.RequestShowsOnRecipientPage | server/index.js:122-172 | After a successful request, the recipient's page ends with the sender. |
| Friends.AcceptShowsOnBothPages | server/index.js:137-172 | After accept, each user's page lists the other as a friend, and the accepter's page shows no request from the sender. |
| Friends.SendRequestPreservesValid | server/index.js:112-122 | A successful request keeps one request per sender per recipient, never addressed to its own sender. |
| Friends.AddEdgeKeepsSymmetry | server/index.js:143-144 | Adding the edge in both directions keeps friendship mutual. This includes the case where both ids name the same user. |
| Friends.AcceptPreservesValid | server/index.js:134-146 | Accept keeps every user-table invariant: mutual, duplicate-free and resolvable friend lists, and one request per sender. |
| Friends.AcceptAsWritten | server/index.js:131-147 | Over records lacking the friend arrays, as the seeds do: 404 as in Accept. 500 exactly when either known user is such a record. A bare accepter changes nothing. A bare sender leaves the accepter's side of the edge stored. With no bare record it is Accept. |
| Friends.AcceptFromSeedOneSided | server/index.js:140-144 | As written, a registered user's accept of a request from seed `u1` answers 500 and leaves `u1` in the user's friends but not the user in `u1`'s, so friendship is no longer mutual. |
| Friends.AcceptFromSeedMutual | server/index.js:143-144 | With the seeds given empty lists, the same accept succeeds and each user is the other's friend. |
| Chats.Peer | server/index.js:218-219 | A direct chat is named, for a viewer, after the first record whose id is the first participant other than the viewer. There is none exactly when every participant is the viewer or that participant has no record. |
| Chats.Enrich | server/index.js:216-222 | A listing entry keeps the chat's id, type, members and messages. A direct chat shows the peer's name and avatar, or "Unknown" and "" exactly when there is no peer. Any other chat keeps its name and gets the generated name avatar. |
| Chats.ChatsOf | server/index.js:215-223 | The listing holds an entry for every chat the user is in, and only for such chats. |
| Chats.ListChats | server/index.js:211-226 | 400 exactly when no user id is given, and success exactly otherwise. The listing then holds the enriched entry of exactly the chats whose participants include the user. |
| Chats.Covers | server/index.js:234-238 | A chat covers a request when it is a two-slot direct chat and each of its members is among the requested participants. |
| Chats.ChatNewEmissions | server/index.js:253-256 | There is one `chat_new` per listed participant, to that participant's personal room, in list order. |
| Chats.CreateChat | server/index.js:229-259 | The state is unchanged exactly when a direct request is covered by an existing two-member direct chat. Then the first such chat in table order is returned. Otherwise one chat with a fresh id, the requested type and members, no messages and name defaulting to "" is appended, the clock advances, and one `chat_new` goes to each participant. |
| Chats.GetMessages | server/index.js:262-266 | 404 exactly for an unknown chat, and success exactly for a known one. The reply is then the log of the first chat with that id. |
| Chats.SendMessage | server/index.js:269-291 | 404 with no change exactly for an unknown chat, and success exactly for a known one. Then exactly one message goes at the end of that chat's log: fresh id and timestamp, the given sender, type and content. Other chats are untouched, the clock advances, and one `message_new` goes to the chat's room. |
| Chats.ChatsOfAppend | server/index.js:215-223 | Listing follows table order: a chat appended to the table appears at the end of the list of each of its participants. |
| Chats.CreatedChatListed | server/index.js:215-250 | A newly created chat shows up last in each participant's chat list. |
| Chats.DirectChatNamedAfterPeer | server/index.js:217-220 | In a two-member direct chat between distinct users, each side sees the chat under the other's user name. |
| Chats.SameCoverFirst | server/index.js:234-238 | The existing-chat lookup depends only on the set of requested participants, not on their order. |
| Chats.DirectChatDeduplicated | server/index.js:232-250 | Requesting a two-member direct chat again with the same members, in either order, returns the same chat. It appends no chat and emits no `chat_new`. |
| Chats.SelfChatAnswersPairRequest | server/index.js:234-239 | A direct chat of `u3` with itself covers a later request for `u3` and `u1`, which is answered with the self chat and creates nothing. |
| Chats.HistoryAfterSend | server/index.js:262-285 | The history after a send is the history before it followed by the new message. |
| Chats.OtherHistoryUnchanged | server/index.js:273-285 | Sending to one chat leaves every other chat's history unchanged. |
| Chats.CreateChatPreservesValid | server/index.js:232-250 | Creation keeps chat ids unique and keeps at most one two-member direct chat per set of members. |
| Chats.SendMessagePreservesValid | server/index.js:273-285 | A send keeps every message filed under its chat and every log in strictly increasing stamp order. |
| Rooms.Connect | server/index.js:303 | A connection adds the socket to the live sockets and changes no table. An id that has disconnected never connects again, since every connection gets a new id. |
| Rooms.JoinUser | server/index.js:306-309 | A live socket is subscribed to the named user's room, with no ownership check. Only connected sockets send events, so an event naming another socket changes nothing. |
| Rooms.JoinChat | server/index.js:311-314 | A live socket is subscribed to the named chat's room, with no participant check. An event naming another socket changes nothing. |
| Rooms.Disconnect | server/index.js:316-318 | The socket leaves every room it was in, no other subscription changes, and its id is retired. |
| Rooms.Recipients | server/index.js:288 | A room emission reaches exactly the sockets subscribed to that room. A global emit reaches every live socket. |
| Rooms.DisconnectedReceivesNothing | server/index.js:316-318 | Right after its disconnect a socket is retired, holds no subscription, and is no recipient of any emission. |
| Rooms.GoneStaysGone | server/index.js:303-318 | A retired socket receives nothing, and no connection, join or disconnect event brings it back. |
| Rooms.JoinedReceives | server/index.js:311-314 | After a join, the socket receives the chat room's emissions exactly when it is live or was already subscribed. |
| Rooms.RoomsPreserveValid | server/index.js:303-318 | Socket events keep all invariants. |
| Server.SendRequestKeepsValid | server/index.js:106-128 | A friend request keeps the whole state consistent. |
| Server.AcceptKeepsValid | server/index.js:131-147 | An accept keeps the whole state consistent. |
| Server.CreateChatKeepsValid | server/index.js:229-259 | Chat creation keeps the whole state consistent. |
| Server.SendMessageKeepsValid | server/index.js:269-291 | Sending a message keeps the whole state consistent. |
| Server.Apply | server/index.js:62-318 | Read-only handlers leave the state as it was. HTTP handlers leave sockets, subscriptions and retired ids alone, and only a disconnect retires an id. Socket events leave users, chats and emissions alone. |
| Server.Run | server/index.js:62-318 | Requests are handled one at a time, each to completion, and a run of read-only requests changes nothing. |
| Server.ApplyPreservesValid | server/index.js:62-291 | Every handler and socket event keeps the whole state consistent. |
| Server.RunPreservesValid | server/index.js:42-57 | Any sequence of requests keeps the whole state consistent. |
| Server.ReachableValid | server/index.js:44-57 | From the seeded tables, every reachable state keeps all invariants, whatever the requests. In particular there is at most one two-member direct chat per pair, at most one pending request per sender and recipient, and mutual friendship. |
| Server.ReachableFriendsPageRenders | server/index.js:155-170 | In every reachable state, the friends page of an existing user renders without the source's undefined dereference. |
| Server.ApplyExtends | server/index.js:250-285 | One request only appends. Users, chats and their members keep their slots, logs and the outbox only grow at the end, and the clock never goes back. |
| Server.RunExtends | server/index.js:285 | Over any run, message logs are append-only: no message is removed, reordered or altered. |
| Server.MessageReachesOnlyJoinedSockets | server/index.js:285-288 | A `message_new` reaches a socket exactly when that socket joined the chat's room, so a socket that joined only other chats never sees it. |
| Server.ApplyKeepsGone | server/index.js:62-318 | No request of any kind brings back a retired socket. |
| Server.RunKeepsGone | server/index.js:62-318 | No sequence of requests brings back a retired socket. |
| Server.DisconnectedStaysSilent | server/index.js:316-318 | Once a socket disconnects, it is no recipient of any emission after any later sequence of requests, joins naming it included. |
| Server.ChatNewOnlyOnCreation | server/index.js:239-256 | `chat_new` is emitted once per listed participant, and only when a chat was actually created. |

## Left out

- Express, HTTP and CORS wiring, JSON body parsing and `server.listen` (lines 1-19 and 321-324). They are transport plumbing.
- The upload endpoint, multer storage, the uploads directory and static serving (lines 21-40 and 293-299). They are file-system I/O.
- The socket.io transport and `console.log`. Only room membership and the emission log are kept.
- `Date.now()`, `Math.random()` and ISO timestamps. One abstract clock stamps ids and timestamps and advances on each use. The source can give two ids the same value within one millisecond, and a wall clock set back gives smaller ids (lines 75, 243, 277); the model does not reproduce either.
- Unicode case folding. `Basics.Lower` lower-cases ASCII letters only, and apart from the seeded names the proofs use it only as some function.
- Request fields of the wrong JSON type, and fields whose absence makes the source throw (500). This covers a missing `toUsername`, a missing `participants`, and a non-string user name. A non-direct create without `participants` appends the chat before it throws; that path is not modelled either.
- Room names as strings. Rooms are a tagged datatype, so the source's possible `join_chat("user_<id>")` into a personal room is not represented.
- `gameActivity` is modelled as an optional string. The source accepts any JSON value.
- The client files (`client/src/**`, `whatsfake/client/src/**`). They hold rendering and `fetch` calls only.
- Chats.ListChats: its contract states which chats are listed, in both directions. The order is stated separately by Chats.ChatsOfAppend.
- Chats.ListChats: an empty `?userId=` is answered 400 by the source's truthiness test (line 213). The model's user ids are a datatype rather than query strings, so only the missing id is modelled, and any given id gets a listing.
- Chats.SendMessage: an absent `senderId`, `type` or `content` is stored as undefined by the source (lines 279-281). The model takes all three as given values.
- Store.Init: the seeded records are given empty friend and request lists. The 500s the source answers for friend operations that read a seed's missing lists are modelled only for accept, by Friends.AcceptAsWritten.
- Rooms.Recipients: the outbox records audiences, not recipient sets. Delivery is computed from the subscriptions in the state at emission time.

## Findings

| source | as written | input that shows it | evidently intended | confidence | as-written member | corrected member |
|---|---|---|---|---|---|---|
| server/index.js:44-48 | The seeded records have no `friends` or `friendRequests` arrays. Accepting a request from a seed first pushes the seed into the accepter's friends (line 143), then throws on the seed's missing list (line 144): a 500 that leaves a one-sided friend edge. | Register "ann"/"pw", then accept with `userId` = ann's id and `fromUserId` = `u1`. | Seeds start with empty lists like registered users, so the accept succeeds and both users become friends. | high, not executed | Friends.AcceptAsWritten, Friends.AcceptFromSeedOneSided | Friends.Accept, Friends.AcceptFromSeedMutual |
