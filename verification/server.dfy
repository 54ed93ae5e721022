/** The server as a whole: every HTTP handler and socket event is one
    request, handled atomically (Node runs each handler to completion), and
    a run is a sequence of requests applied to the seeded tables. */
module Server {
  import opened Basics
  import opened Store
  import opened Invariants
  import opened Accounts
  import opened Friends
  import opened Chats
  import opened Rooms

  datatype Request =
    | RegisterReq(username: Option<string>, password: Option<string>)
    | LoginReq(username: Option<string>, password: Option<string>)
    | SearchReq(username: Option<string>)
    | UpdateProfileReq(userId: UserId, avatar: Option<string>, status: Option<string>, gameActivity: Option<string>)
    | FriendRequestReq(fromUserId: UserId, toUsername: string)
    | AcceptReq(userId: UserId, fromUserId: UserId)
    | FriendsReq(userId: UserId)
    | ChatsReq(forUser: Option<UserId>)
    | CreateChatReq(kind: string, participants: seq<UserId>, name: Option<string>)
    | MessagesReq(chatId: ChatId)
    | PostMessageReq(chatId: ChatId, senderId: UserId, kind: string, content: string)
    | ConnectReq(socket: SocketId)
    | JoinUserReq(socket: SocketId, userId: UserId)
    | JoinChatReq(socket: SocketId, chatId: ChatId)
    | DisconnectReq(socket: SocketId)

  /** The handlers that only read the tables. */
  predicate ReadOnly(req: Request) {
    req.LoginReq? || req.SearchReq? || req.FriendsReq? || req.ChatsReq? || req.MessagesReq?
  }

  /** The state after one request; read-only handlers leave it as it was,
      and no request touches another part of the state than its handler's. */
  function Apply(st: State, req: Request): (r: State)
    ensures ReadOnly(req) ==> r == st
    ensures !req.ConnectReq? && !req.JoinUserReq? && !req.JoinChatReq? && !req.DisconnectReq? ==>
      r.sockets == st.sockets && r.subs == st.subs && r.closed == st.closed
    ensures req.DisconnectReq? || r.closed == st.closed
    ensures req.ConnectReq? || req.JoinUserReq? || req.JoinChatReq? || req.DisconnectReq? ==>
      r.users == st.users && r.chats == st.chats && r.outbox == st.outbox
  {
    match req
    case RegisterReq(n, p) => Register(st, n, p).state
    case LoginReq(_, _) => st
    case SearchReq(_) => st
    case UpdateProfileReq(u, a, s, g) => UpdateProfile(st, u, a, s, g).state
    case FriendRequestReq(f, t) => SendRequest(st, f, t).state
    case AcceptReq(u, f) => Accept(st, u, f).state
    case FriendsReq(_) => st
    case ChatsReq(_) => st
    case CreateChatReq(k, ps, n) => CreateChat(st, k, ps, n).state
    case MessagesReq(_) => st
    case PostMessageReq(c, s, k, m) => SendMessage(st, c, s, k, m).state
    case ConnectReq(s) => Connect(st, s)
    case JoinUserReq(s, u) => JoinUser(st, s, u)
    case JoinChatReq(s, c) => JoinChat(st, s, c)
    case DisconnectReq(s) => Disconnect(st, s)
  }

  /** The state after handling `reqs` one at a time, each to completion. A
      run of read-only requests leaves the state as it was. */
  function Run(st: State, reqs: seq<Request>): (r: State)
    ensures (forall k :: 0 <= k < |reqs| ==> ReadOnly(reqs[k])) ==> r == st
    decreases |reqs|
  {
    if |reqs| == 0 then st else Run(Apply(st, reqs[0]), reqs[1..])
  }

  /** `st'` grew out of `st` by appending only: users keep their slot, id
      and name; chats keep their slot, id and members, and each log only
      grows at its end; the outbox only grows at its end. */
  ghost predicate Extends(st: State, st': State) {
    && |st.users| <= |st'.users|
    && (forall k :: 0 <= k < |st.users| ==> st'.users[k].id == st.users[k].id && st'.users[k].username == st.users[k].username)
    && |st.chats| <= |st'.chats|
    && (forall k :: 0 <= k < |st.chats| ==>
          && st'.chats[k].id == st.chats[k].id
          && st'.chats[k].participants == st.chats[k].participants
          && st.chats[k].messages <= st'.chats[k].messages)
    && st.outbox <= st'.outbox
    && st.clock <= st'.clock
  }

  // ----- Every request keeps the state consistent -----

  lemma SendRequestKeepsValid(st: State, fromUserId: UserId, toUsername: string)
    requires Valid(st)
    ensures Valid(SendRequest(st, fromUserId, toUsername).state)
  {
    SendRequestPreservesValid(st, fromUserId, toUsername);
    var st' := SendRequest(st, fromUserId, toUsername).state;
    assert forall k :: 0 <= k < |st.users| ==> st'.users[k].id == st.users[k].id;
  }

  lemma AcceptKeepsValid(st: State, userId: UserId, fromUserId: UserId)
    requires Valid(st)
    ensures Valid(Accept(st, userId, fromUserId).state)
  {
    AcceptPreservesValid(st, userId, fromUserId);
    var st' := Accept(st, userId, fromUserId).state;
    assert forall k :: 0 <= k < |st.users| ==> st'.users[k].id == st.users[k].id;
  }

  lemma CreateChatKeepsValid(st: State, kind: string, participants: seq<UserId>, name: Option<string>)
    requires Valid(st)
    ensures Valid(CreateChat(st, kind, participants, name).state)
  {
    CreateChatPreservesValid(st, kind, participants, name);
  }

  lemma SendMessageKeepsValid(st: State, chatId: ChatId, senderId: UserId, kind: string, content: string)
    requires Valid(st)
    ensures Valid(SendMessage(st, chatId, senderId, kind, content).state)
  {
    SendMessagePreservesValid(st, chatId, senderId, kind, content);
  }

  lemma ApplyPreservesValid(st: State, req: Request)
    requires Valid(st)
    ensures Valid(Apply(st, req))
  {
    match req
    case RegisterReq(n, p) => RegisterPreservesValid(st, n, p);
    case UpdateProfileReq(u, a, s, g) => UpdateProfilePreservesValid(st, u, a, s, g);
    case FriendRequestReq(f, t) => SendRequestKeepsValid(st, f, t);
    case AcceptReq(u, f) => AcceptKeepsValid(st, u, f);
    case CreateChatReq(k, ps, n) => CreateChatKeepsValid(st, k, ps, n);
    case PostMessageReq(c, s, k, m) => SendMessageKeepsValid(st, c, s, k, m);
    case ConnectReq(s) => RoomsPreserveValid(st, s, SeedUser(""), SeedChat(""));
    case JoinUserReq(s, u) => RoomsPreserveValid(st, s, u, SeedChat(""));
    case JoinChatReq(s, c) => RoomsPreserveValid(st, s, SeedUser(""), c);
    case DisconnectReq(s) => RoomsPreserveValid(st, s, SeedUser(""), SeedChat(""));
    case _ =>
  }

  lemma {:induction false} RunPreservesValid(st: State, reqs: seq<Request>)
    requires Valid(st)
    ensures Valid(Run(st, reqs))
    decreases |reqs|
  {
    if |reqs| > 0 {
      ApplyPreservesValid(st, reqs[0]);
      RunPreservesValid(Apply(st, reqs[0]), reqs[1..]);
    }
  }

  /** Whatever requests arrive, in whatever order: user ids and names
      (up to case) stay unique, friendship stays mutual and duplicate-free,
      no user holds two requests from one sender, there is at most one
      two-member direct chat per pair, and every log is ordered. */
  lemma ReachableValid(reqs: seq<Request>)
    ensures Valid(Run(Init(), reqs))
  {
    InitValid();
    RunPreservesValid(Init(), reqs);
  }

  /** In every reachable state the friends page of an existing user
      renders: the source's dereference of a looked-up friend never meets
      an undefined user. */
  lemma ReachableFriendsPageRenders(reqs: seq<Request>, userId: UserId)
    requires Known(Run(Init(), reqs).users, userId)
    ensures FriendsView(Run(Init(), reqs), userId).Ok?
  {
    ReachableValid(reqs);
    FriendsViewResolves(Run(Init(), reqs), userId);
  }

  // ----- Histories only grow -----

  lemma RegisterExtends(st: State, username: Option<string>, password: Option<string>)
    ensures Extends(st, Register(st, username, password).state)
  {
  }

  lemma UpdateProfileExtends(st: State, userId: UserId, avatar: Option<string>, status: Option<string>, gameActivity: Option<string>)
    ensures Extends(st, UpdateProfile(st, userId, avatar, status, gameActivity).state)
  {
  }

  lemma SendRequestExtends(st: State, fromUserId: UserId, toUsername: string)
    ensures Extends(st, SendRequest(st, fromUserId, toUsername).state)
  {
  }

  lemma AcceptExtends(st: State, userId: UserId, fromUserId: UserId)
    ensures Extends(st, Accept(st, userId, fromUserId).state)
  {
  }

  lemma CreateChatExtends(st: State, kind: string, participants: seq<UserId>, name: Option<string>)
    ensures Extends(st, CreateChat(st, kind, participants, name).state)
  {
  }

  lemma SendMessageExtends(st: State, chatId: ChatId, senderId: UserId, kind: string, content: string)
    ensures Extends(st, SendMessage(st, chatId, senderId, kind, content).state)
  {
    var r := SendMessage(st, chatId, senderId, kind, content);
    if r.reply.Ok? {
      var i := ChatIndex(st.chats, chatId).value;
      assert st.chats[i].messages <= r.state.chats[i].messages;
    }
  }

  /** One request only appends: users and chats keep their slots, logs and
      the outbox only grow at their ends, and the clock never goes back. */
  lemma ApplyExtends(st: State, req: Request)
    ensures Extends(st, Apply(st, req))
  {
    match req
    case RegisterReq(n, p) => RegisterExtends(st, n, p);
    case UpdateProfileReq(u, a, s, g) => UpdateProfileExtends(st, u, a, s, g);
    case FriendRequestReq(f, t) => SendRequestExtends(st, f, t);
    case AcceptReq(u, f) => AcceptExtends(st, u, f);
    case CreateChatReq(k, ps, n) => CreateChatExtends(st, k, ps, n);
    case PostMessageReq(c, s, k, m) => SendMessageExtends(st, c, s, k, m);
    case _ =>
  }

  lemma ExtendsTransitive(a: State, b: State, c: State)
    requires Extends(a, b) && Extends(b, c)
    ensures Extends(a, c)
  {
    forall k | 0 <= k < |a.chats| ensures a.chats[k].messages <= c.chats[k].messages {
      assert a.chats[k].messages <= b.chats[k].messages;
      assert b.chats[k].messages <= c.chats[k].messages;
    }
  }

  /** Message logs are append-only over any run: no message is ever
      removed, reordered or changed, and no chat or user disappears. */
  lemma {:induction false} RunExtends(st: State, reqs: seq<Request>)
    ensures Extends(st, Run(st, reqs))
    decreases |reqs|
  {
    if |reqs| == 0 {
      assert Run(st, reqs) == st;
    } else {
      var next := Apply(st, reqs[0]);
      ApplyExtends(st, reqs[0]);
      RunExtends(next, reqs[1..]);
      ExtendsTransitive(st, next, Run(next, reqs[1..]));
    }
  }

  // ----- Delivery -----

  /** A `message_new` reaches exactly the sockets that joined the chat's
      room: a socket that joined only other chats' rooms never sees it. */
  lemma MessageReachesOnlyJoinedSockets(st: State, chatId: ChatId, senderId: UserId, kind: string, content: string, s: SocketId)
    requires SendMessage(st, chatId, senderId, kind, content).reply.Ok?
    ensures var r := SendMessage(st, chatId, senderId, kind, content);
            var e := r.state.outbox[|r.state.outbox| - 1];
            e.event == MessageNew(r.reply.value)
            && (s in Recipients(r.state, e.audience) <==> Subscription(s, ChatRoom(chatId)) in st.subs)
  {
  }

  /** No request brings back a socket that has disconnected. */
  lemma ApplyKeepsGone(st: State, req: Request, s: SocketId)
    requires Gone(st, s)
    ensures Gone(Apply(st, req), s)
  {
    match req
    case ConnectReq(t) => GoneStaysGone(st, s, t, SeedUser(""), SeedChat(""), Everyone);
    case JoinUserReq(t, u) => GoneStaysGone(st, s, t, u, SeedChat(""), Everyone);
    case JoinChatReq(t, c) => GoneStaysGone(st, s, t, SeedUser(""), c, Everyone);
    case DisconnectReq(t) => GoneStaysGone(st, s, t, SeedUser(""), SeedChat(""), Everyone);
    case _ =>
  }

  lemma {:induction false} RunKeepsGone(st: State, reqs: seq<Request>, s: SocketId)
    requires Gone(st, s)
    ensures Gone(Run(st, reqs), s)
    decreases |reqs|
  {
    if |reqs| > 0 {
      ApplyKeepsGone(st, reqs[0], s);
      RunKeepsGone(Apply(st, reqs[0]), reqs[1..], s);
    }
  }

  /** Once a socket disconnects it is no recipient of any later emission,
      whatever requests follow, its own id's join events included. */
  lemma DisconnectedStaysSilent(st: State, s: SocketId, reqs: seq<Request>, a: Audience)
    ensures s !in Recipients(Run(Disconnect(st, s), reqs), a)
  {
    DisconnectedReceivesNothing(st, s, a);
    RunKeepsGone(Disconnect(st, s), reqs, s);
    GoneStaysGone(Run(Disconnect(st, s), reqs), s, s, SeedUser(""), SeedChat(""), a);
  }

  /** A `chat_new` goes to the personal room of every listed participant
      and only when a chat was actually created. */
  lemma ChatNewOnlyOnCreation(st: State, kind: string, participants: seq<UserId>, name: Option<string>)
    ensures var r := CreateChat(st, kind, participants, name);
            |r.state.outbox| == |st.outbox| + (if r.state == st then 0 else |participants|)
  {
  }
}
