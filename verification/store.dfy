/** The server's in-memory tables: users, chats with their message logs, the
    notifications emitted to socket rooms, and the room subscriptions of live
    sockets. */
module Store {
  import opened Basics

  /** A user id is either one of the seeded literals ("u1", ...) or the
      reading of the server clock taken when the account was registered. */
  datatype UserId = SeedUser(tag: string) | StampedUser(stamp: nat)

  datatype ChatId = SeedChat(tag: string) | StampedChat(stamp: nat)

  datatype MessageId = StampedMessage(stamp: nat)

  type SocketId = string

  /** The only status a stored friend request ever carries. */
  datatype RequestStatus = Pending

  datatype FriendRequest = FriendRequest(from: UserId, to: UserId, status: RequestStatus)

  /** A user record. The seeded users have no password (None); `status` and
      `gameActivity` are absent until a profile update sets them. */
  datatype User = User(
    id: UserId,
    username: string,
    password: Option<string>,
    avatar: string,
    status: Option<string>,
    gameActivity: Option<string>,
    friends: seq<UserId>,
    friendRequests: seq<FriendRequest>)

  /** A user record as sent to clients: everything but the password. */
  datatype Profile = Profile(
    id: UserId,
    username: string,
    avatar: string,
    status: Option<string>,
    gameActivity: Option<string>,
    friends: seq<UserId>,
    friendRequests: seq<FriendRequest>)

  datatype Message = Message(
    id: MessageId,
    chatId: ChatId,
    senderId: UserId,
    kind: string,
    content: string,
    timestamp: nat)

  /** A chat; `kind` is the client-supplied `type` ("direct", "group", ...).
      The seeded chat has no name (None). */
  datatype Chat = Chat(
    id: ChatId,
    kind: string,
    participants: seq<UserId>,
    name: Option<string>,
    messages: seq<Message>)

  /** A socket.io room: `user_<id>` or the bare chat id. */
  datatype Room = UserRoom(user: UserId) | ChatRoom(chat: ChatId)

  /** `io.to(room).emit(...)` or the global `io.emit(...)`. */
  datatype Audience = ToRoom(room: Room) | Everyone

  datatype Event =
    | FriendRequestEvent(fromName: string)
    | ChatNew(chat: Chat)
    | MessageNew(message: Message)
    | UserUpdate(profile: Profile)

  datatype Emission = Emission(audience: Audience, event: Event)

  datatype Subscription = Subscription(socket: SocketId, room: Room)

  /** The whole server state. `clock` stands for `Date.now()`: every id the
      server creates is stamped with it, and it advances after each use. */
  datatype State = State(
    users: seq<User>,
    chats: seq<Chat>,
    outbox: seq<Emission>,
    sockets: set<SocketId>,
    subs: set<Subscription>,
    closed: set<SocketId>,
    clock: nat)

  /** An HTTP response: a JSON body, or a status code with an error text. */
  datatype Reply<T> = Ok(value: T) | Err(code: int, message: string)

  /** The state after a handler ran, with the response it sent. */
  datatype Step<T> = Step(state: State, reply: Reply<T>)

  const DirectKind: string := "direct"

  function AvatarFor(username: string): string {
    "https://api.dicebear.com/7.x/avataaars/svg?seed=" + username
  }

  function PublicView(u: User): Profile {
    Profile(u.id, u.username, u.avatar, u.status, u.gameActivity, u.friends, u.friendRequests)
  }

  function SeedRecord(tag: string, username: string): User {
    User(SeedUser(tag), username, None, AvatarFor(username), None, None, [], [])
  }

  /** The tables the server starts with: three seeded users and one direct
      chat between the first two. The seeded users have no password, so no
      login can match them, and start without friends or requests. */
  function Init(): (r: State)
    ensures |r.users| == 3 && |r.chats| == 1
    ensures forall k :: 0 <= k < |r.users| ==>
      && r.users[k].id.SeedUser? && r.users[k].password.None?
      && r.users[k].avatar == AvatarFor(r.users[k].username)
      && r.users[k].friends == [] && r.users[k].friendRequests == []
    ensures r.chats[0].kind == DirectKind && r.chats[0].participants == [r.users[0].id, r.users[1].id]
    ensures r.chats[0].messages == []
    ensures r.outbox == [] && r.sockets == {} && r.subs == {} && r.closed == {} && r.clock == 0
  {
    State(
      [SeedRecord("u1", "ProGamer22"), SeedRecord("u2", "NoobSlayer"), SeedRecord("u3", "HealerGirl")],
      [Chat(SeedChat("c1"), DirectKind, [SeedUser("u1"), SeedUser("u2")], None, [])],
      [], {}, {}, {}, 0)
  }

  /** Some user in the table has this id. */
  ghost predicate Known(users: seq<User>, id: UserId) {
    exists j :: 0 <= j < |users| && users[j].id == id
  }

  /** Some user's name equals `name` up to case. */
  ghost predicate NameTaken(users: seq<User>, name: string) {
    exists j :: 0 <= j < |users| && Lower(users[j].username) == Lower(name)
  }

  ghost predicate ChatKnown(chats: seq<Chat>, id: ChatId) {
    exists j :: 0 <= j < |chats| && chats[j].id == id
  }

  /** The position of the first user with this id. */
  function UserIndex(users: seq<User>, id: UserId): (r: Option<nat>)
    ensures r.Some? ==> r.value < |users| && users[r.value].id == id
    ensures r.Some? ==> forall k :: 0 <= k < r.value ==> users[k].id != id
    ensures r.None? <==> !Known(users, id)
  {
    FirstIndex(users, (u: User) => u.id == id)
  }

  /** The position of the first user whose name equals `name` up to case. */
  function NameIndex(users: seq<User>, name: string): (r: Option<nat>)
    ensures r.Some? ==> r.value < |users| && Lower(users[r.value].username) == Lower(name)
    ensures r.Some? ==> forall k :: 0 <= k < r.value ==> Lower(users[k].username) != Lower(name)
    ensures r.None? <==> !NameTaken(users, name)
  {
    FirstIndex(users, (u: User) => Lower(u.username) == Lower(name))
  }

  /** The position of the first chat with this id: the server's chat lookup. */
  function ChatIndex(chats: seq<Chat>, id: ChatId): (r: Option<nat>)
    ensures r.Some? ==> r.value < |chats| && chats[r.value].id == id
    ensures r.Some? ==> forall k :: 0 <= k < r.value ==> chats[k].id != id
    ensures r.None? <==> !ChatKnown(chats, id)
  {
    FirstIndex(chats, (c: Chat) => c.id == id)
  }

  /** Lookups by id only depend on the ids, position by position. */
  lemma UserIndexStable(a: seq<User>, b: seq<User>, id: UserId)
    requires |a| == |b| && forall k :: 0 <= k < |a| ==> a[k].id == b[k].id
    ensures UserIndex(a, id) == UserIndex(b, id)
  {
    var (x, y) := (UserIndex(a, id), UserIndex(b, id));
    if x.Some? { assert b[x.value].id == id; }
    if y.Some? { assert a[y.value].id == id; }
  }

  lemma NameIndexStable(a: seq<User>, b: seq<User>, name: string)
    requires |a| == |b| && forall k :: 0 <= k < |a| ==> a[k].username == b[k].username
    ensures NameIndex(a, name) == NameIndex(b, name)
  {
    var (x, y) := (NameIndex(a, name), NameIndex(b, name));
    if x.Some? { assert Lower(b[x.value].username) == Lower(name); }
    if y.Some? { assert Lower(a[y.value].username) == Lower(name); }
  }
}
