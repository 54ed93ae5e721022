/** Socket rooms: live sockets, their room subscriptions, and who receives
    an emission. */
module Rooms {
  import opened Store
  import opened Invariants

  /** A socket connects. Socket.IO gives every connection a new id, so an
      id that has disconnected never connects again: the model ignores such
      a connection. */
  function Connect(st: State, s: SocketId): (r: State)
    ensures s in st.closed ==> r == st
    ensures s !in st.closed ==> r.sockets == st.sockets + {s} && r.subs == st.subs
    ensures r.closed == st.closed
    ensures r.users == st.users && r.chats == st.chats && r.outbox == st.outbox && r.clock == st.clock
  {
    if s in st.closed then st else st.(sockets := st.sockets + {s})
  }

  /** `join_user`: a live socket joins the personal room of any user id it
      names; nothing checks who the socket belongs to. Only a connected
      socket sends events, so an event naming any other socket changes
      nothing. */
  function JoinUser(st: State, s: SocketId, userId: UserId): (r: State)
    ensures s in st.sockets ==> r.subs == st.subs + {Subscription(s, UserRoom(userId))}
    ensures s !in st.sockets ==> r == st
    ensures r.sockets == st.sockets && r.closed == st.closed
    ensures r.users == st.users && r.chats == st.chats && r.outbox == st.outbox && r.clock == st.clock
  {
    if s in st.sockets then st.(subs := st.subs + {Subscription(s, UserRoom(userId))}) else st
  }

  /** `join_chat`: a live socket joins the room of any chat id it names,
      participant or not. */
  function JoinChat(st: State, s: SocketId, chatId: ChatId): (r: State)
    ensures s in st.sockets ==> r.subs == st.subs + {Subscription(s, ChatRoom(chatId))}
    ensures s !in st.sockets ==> r == st
    ensures r.sockets == st.sockets && r.closed == st.closed
    ensures r.users == st.users && r.chats == st.chats && r.outbox == st.outbox && r.clock == st.clock
  {
    if s in st.sockets then st.(subs := st.subs + {Subscription(s, ChatRoom(chatId))}) else st
  }

  /** A socket disconnects, leaves every room it was in, and its id is
      retired. */
  function Disconnect(st: State, s: SocketId): (r: State)
    ensures r.sockets == st.sockets - {s} && r.closed == st.closed + {s}
    ensures forall x :: x in r.subs <==> x in st.subs && x.socket != s
    ensures r.users == st.users && r.chats == st.chats && r.outbox == st.outbox && r.clock == st.clock
  {
    st.(sockets := st.sockets - {s}, subs := (set x | x in st.subs && x.socket != s), closed := st.closed + {s})
  }

  /** The sockets an emission reaches when it is made in state `st`: the
      members of its room, or every live socket for a global emit. */
  function Recipients(st: State, a: Audience): (r: set<SocketId>)
    ensures a.ToRoom? ==> forall s :: s in r <==> Subscription(s, a.room) in st.subs
    ensures a.Everyone? ==> r == st.sockets
  {
    match a
    case ToRoom(room) =>
      var r := set x | x in st.subs && x.room == room :: x.socket;
      assert forall s :: Subscription(s, room) in st.subs ==> s in r by {
        forall s | Subscription(s, room) in st.subs ensures s in r {
          var x := Subscription(s, room);
          assert x in st.subs && x.room == room;
        }
      }
      r
    case Everyone => st.sockets
  }

  // ----- Properties -----

  /** A socket that has disconnected and holds no subscription. */
  ghost predicate Gone(st: State, s: SocketId) {
    && s in st.closed && s !in st.sockets
    && forall x :: x in st.subs ==> x.socket != s
  }

  /** Right after its disconnect the socket receives nothing, whatever the
      audience. */
  lemma DisconnectedReceivesNothing(st: State, s: SocketId, a: Audience)
    ensures Gone(Disconnect(st, s), s)
    ensures s !in Recipients(Disconnect(st, s), a)
  {
    var st' := Disconnect(st, s);
    if a.ToRoom? {
      assert Subscription(s, a.room) !in st'.subs;
    }
  }

  /** A gone socket receives nothing, and no socket event brings it back. */
  lemma GoneStaysGone(st: State, s: SocketId, t: SocketId, userId: UserId, chatId: ChatId, a: Audience)
    requires Gone(st, s)
    ensures s !in Recipients(st, a)
    ensures Gone(Connect(st, t), s) && Gone(JoinUser(st, t, userId), s) && Gone(JoinChat(st, t, chatId), s)
    ensures Gone(Disconnect(st, t), s)
  {
    if a.ToRoom? {
      assert Subscription(s, a.room) !in st.subs;
    }
  }

  /** A live socket that joins a chat room receives that room's emissions;
      a join naming any other socket adds no recipient. */
  lemma JoinedReceives(st: State, s: SocketId, chatId: ChatId)
    ensures s in Recipients(JoinChat(st, s, chatId), ToRoom(ChatRoom(chatId))) <==>
      s in st.sockets || s in Recipients(st, ToRoom(ChatRoom(chatId)))
  {
    if s in st.sockets {
      assert Subscription(s, ChatRoom(chatId)) in JoinChat(st, s, chatId).subs;
    }
  }

  lemma RoomsPreserveValid(st: State, s: SocketId, userId: UserId, chatId: ChatId)
    requires Valid(st)
    ensures Valid(Connect(st, s)) && Valid(JoinUser(st, s, userId)) && Valid(JoinChat(st, s, chatId))
    ensures Valid(Disconnect(st, s))
  {
  }
}
