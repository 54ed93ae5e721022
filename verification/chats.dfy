/** Chats: listing a user's chats, creating direct and group chats, and the
    message log of each chat. */
module Chats {
  import opened Basics
  import opened Store
  import opened Invariants

  /** A chat as listed for one user, with a display name and avatar. */
  datatype ChatView = ChatView(
    id: ChatId,
    kind: string,
    participants: seq<UserId>,
    name: Option<string>,
    avatar: string,
    messages: seq<Message>)

  /** The avatar URL of a non-direct chat; an absent name prints as
      "undefined" in the template string. */
  function GroupAvatar(name: Option<string>): string {
    "https://ui-avatars.com/api/?name=" + (match name case Some(n) => n case None => "undefined")
  }

  /** `k` is the position of the first participant other than `uid`. */
  predicate FirstOther(ps: seq<UserId>, uid: UserId, k: int) {
    0 <= k < |ps| && ps[k] != uid && forall k' :: 0 <= k' < k ==> ps[k'] == uid
  }

  /** The user a direct chat is named after for `uid`: the first record
      whose id is the first participant other than `uid`. There is none
      when every participant is `uid` or that participant has no record. */
  function Peer(users: seq<User>, uid: UserId, c: Chat): (r: Option<User>)
    ensures r.Some? ==> r.value in users && r.value.id in c.participants && r.value.id != uid
    ensures r.Some? ==>
      exists k, j :: FirstOther(c.participants, uid, k) && 0 <= j < |users| && users[j].id == c.participants[k]
                     && (forall j' :: 0 <= j' < j ==> users[j'].id != c.participants[k]) && r.value == users[j]
    ensures r.None? <==>
      || (forall k :: 0 <= k < |c.participants| ==> c.participants[k] == uid)
      || (exists k :: FirstOther(c.participants, uid, k) && !Known(users, c.participants[k]))
  {
    match FirstIndex(c.participants, (p: UserId) => p != uid)
    case None => None
    case Some(k) =>
      match UserIndex(users, c.participants[k])
      case None => None
      case Some(j) => Some(users[j])
  }

  /** The listing entry of one chat: a direct chat takes the other
      participant's name and avatar ("Unknown" and "" when there is none);
      any other chat keeps its name and gets a generated avatar. */
  function Enrich(users: seq<User>, uid: UserId, c: Chat): (v: ChatView)
    ensures v.id == c.id && v.kind == c.kind && v.participants == c.participants && v.messages == c.messages
    ensures c.kind == DirectKind && Peer(users, uid, c).Some? ==>
      v.name == Some(Peer(users, uid, c).value.username) && v.avatar == Peer(users, uid, c).value.avatar
    ensures c.kind == DirectKind && Peer(users, uid, c).None? ==> v.name == Some("Unknown") && v.avatar == ""
    ensures c.kind != DirectKind ==> v.name == c.name && v.avatar == GroupAvatar(c.name)
  {
    if c.kind == DirectKind then
      match Peer(users, uid, c)
      case Some(u) => ChatView(c.id, c.kind, c.participants, Some(u.username), u.avatar, c.messages)
      case None => ChatView(c.id, c.kind, c.participants, Some("Unknown"), "", c.messages)
    else ChatView(c.id, c.kind, c.participants, c.name, GroupAvatar(c.name), c.messages)
  }

  /** The listing entries of the chats `uid` takes part in, in table order. */
  function ChatsOf(users: seq<User>, uid: UserId, chats: seq<Chat>): (r: seq<ChatView>)
    ensures |r| <= |chats|
    ensures forall v :: v in r ==>
      exists k :: 0 <= k < |chats| && uid in chats[k].participants && v == Enrich(users, uid, chats[k])
    ensures forall k :: 0 <= k < |chats| && uid in chats[k].participants ==> Enrich(users, uid, chats[k]) in r
  {
    if |chats| == 0 then []
    else
      var rest := ChatsOf(users, uid, chats[1..]);
      assert forall k :: 1 <= k < |chats| ==> chats[k] == chats[1..][k - 1];
      (if uid in chats[0].participants then [Enrich(users, uid, chats[0])] else []) + rest
  }

  /** GET /api/chats. 400 without a user id; otherwise exactly the chats the
      user takes part in, enriched. */
  function ListChats(st: State, userId: Option<UserId>): (r: Reply<seq<ChatView>>)
    ensures r == Err(400, "Missing userId") <==> userId.None?
    ensures r.Ok? <==> userId.Some?
    ensures r.Ok? ==>
      && (forall v :: v in r.value ==>
            exists k :: 0 <= k < |st.chats| && userId.value in st.chats[k].participants
                        && v == Enrich(st.users, userId.value, st.chats[k]))
      && (forall k :: 0 <= k < |st.chats| && userId.value in st.chats[k].participants ==>
            Enrich(st.users, userId.value, st.chats[k]) in r.value)
  {
    match userId
    case None => Err(400, "Missing userId")
    case Some(uid) => Ok(ChatsOf(st.users, uid, st.chats))
  }

  /** An existing two-member direct chat all of whose members are among
      the requested participants. */
  predicate Covers(c: Chat, participants: seq<UserId>) {
    PairChat(c) && forall p :: p in c.participants ==> p in participants
  }

  /** One `chat_new` per listed participant, to that participant's room. */
  function ChatNewEmissions(participants: seq<UserId>, c: Chat): (r: seq<Emission>)
    ensures |r| == |participants|
    ensures forall k :: 0 <= k < |r| ==> r[k].audience == ToRoom(UserRoom(participants[k])) && r[k].event == ChatNew(c)
  {
    seq(|participants|, k requires 0 <= k < |participants| => Emission(ToRoom(UserRoom(participants[k])), ChatNew(c)))
  }

  /** POST /api/chats. A direct request covered by an existing two-member
      direct chat returns that chat and changes nothing; otherwise a new
      chat with no messages is appended and announced to every listed
      participant. */
  function CreateChat(st: State, kind: string, participants: seq<UserId>, name: Option<string>): (r: Step<Chat>)
    ensures r.reply.Ok?
    ensures r.state == st <==>
      kind == DirectKind && exists k :: 0 <= k < |st.chats| && Covers(st.chats[k], participants)
    ensures r.state == st ==> r.reply.value in st.chats && Covers(r.reply.value, participants)
    ensures r.state == st ==>
      exists k :: 0 <= k < |st.chats| && Covers(st.chats[k], participants) && r.reply.value == st.chats[k]
                  && forall k' :: 0 <= k' < k ==> !Covers(st.chats[k'], participants)
    ensures r.state != st ==>
      var c := r.reply.value;
      && r.state.chats == st.chats + [c]
      && c.kind == kind && c.participants == participants && c.messages == []
      && c.name == Some(if Truthy(name) then name.value else "")
      && c.id == StampedChat(st.clock) && r.state.clock == st.clock + 1
      && r.state.outbox == st.outbox + ChatNewEmissions(participants, c)
    ensures r.state.users == st.users && r.state.subs == st.subs && r.state.sockets == st.sockets
    ensures r.state.closed == st.closed
  {
    var existing := if kind == DirectKind then FirstIndex(st.chats, (c: Chat) => Covers(c, participants)) else None;
    if existing.Some? then Step(st, Ok(st.chats[existing.value]))
    else
      var c := Chat(StampedChat(st.clock), kind, participants, Some(if Truthy(name) then name.value else ""), []);
      Step(st.(chats := st.chats + [c], outbox := st.outbox + ChatNewEmissions(participants, c), clock := st.clock + 1),
           Ok(c))
  }

  /** GET /api/chats/:chatId/messages. */
  function GetMessages(st: State, chatId: ChatId): (r: Reply<seq<Message>>)
    ensures r == Err(404, "Chat not found") <==> !ChatKnown(st.chats, chatId)
    ensures r.Ok? <==> ChatKnown(st.chats, chatId)
    ensures r.Ok? ==>
      exists i :: 0 <= i < |st.chats| && st.chats[i].id == chatId && r.value == st.chats[i].messages
                  && forall k :: 0 <= k < i ==> st.chats[k].id != chatId
  {
    match ChatIndex(st.chats, chatId)
    case None => Err(404, "Chat not found")
    case Some(i) => Ok(st.chats[i].messages)
  }

  /** POST /api/chats/:chatId/messages. 404 for an unknown chat; otherwise
      the message is appended to that chat's log alone and a `message_new`
      goes to the chat's room. Neither the sender nor the type is checked. */
  function SendMessage(st: State, chatId: ChatId, senderId: UserId, kind: string, content: string): (r: Step<Message>)
    ensures r.reply == Err(404, "Chat not found") <==> !ChatKnown(st.chats, chatId)
    ensures r.reply.Ok? <==> ChatKnown(st.chats, chatId)
    ensures r.reply.Err? ==> r.state == st
    ensures r.reply.Ok? ==>
      var (i, m) := (ChatIndex(st.chats, chatId).value, r.reply.value);
      && m.chatId == chatId && m.senderId == senderId && m.kind == kind && m.content == content
      && m.id == StampedMessage(st.clock) && m.timestamp == st.clock && r.state.clock == st.clock + 1
      && |r.state.chats| == |st.chats|
      && (forall k :: 0 <= k < |st.chats| && k != i ==> r.state.chats[k] == st.chats[k])
      && r.state.chats[i] == st.chats[i].(messages := st.chats[i].messages + [m])
      && r.state.outbox == st.outbox + [Emission(ToRoom(ChatRoom(chatId)), MessageNew(m))]
    ensures r.state.users == st.users && r.state.subs == st.subs && r.state.sockets == st.sockets
    ensures r.state.closed == st.closed
  {
    match ChatIndex(st.chats, chatId)
    case None => Step(st, Err(404, "Chat not found"))
    case Some(i) =>
      var m := Message(StampedMessage(st.clock), chatId, senderId, kind, content, st.clock);
      var c := st.chats[i];
      Step(st.(chats := st.chats[i := c.(messages := c.messages + [m])],
               outbox := st.outbox + [Emission(ToRoom(ChatRoom(chatId)), MessageNew(m))],
               clock := st.clock + 1),
           Ok(m))
  }

  // ----- Properties -----

  /** Listing follows table order: a chat appended to the table shows up at
      the end of each participant's list. */
  lemma {:induction false} ChatsOfAppend(users: seq<User>, uid: UserId, chats: seq<Chat>, c: Chat)
    ensures ChatsOf(users, uid, chats + [c])
            == ChatsOf(users, uid, chats) + (if uid in c.participants then [Enrich(users, uid, c)] else [])
  {
    if |chats| == 0 {
      assert chats + [c] == [c];
      assert [c][1..] == [];
    } else {
      assert (chats + [c])[1..] == chats[1..] + [c];
      ChatsOfAppend(users, uid, chats[1..], c);
    }
  }

  /** A newly created chat is appended to the listing of each participant. */
  lemma CreatedChatListed(st: State, kind: string, participants: seq<UserId>, name: Option<string>, uid: UserId)
    requires CreateChat(st, kind, participants, name).state != st
    requires uid in participants
    ensures var r := CreateChat(st, kind, participants, name);
            ListChats(r.state, Some(uid)) == Ok(ListChats(st, Some(uid)).value + [Enrich(st.users, uid, r.reply.value)])
  {
    var r := CreateChat(st, kind, participants, name);
    ChatsOfAppend(st.users, uid, st.chats, r.reply.value);
  }

  /** For a two-member direct chat between distinct registered users, each
      side sees the chat under the other one's name. */
  lemma DirectChatNamedAfterPeer(users: seq<User>, c: Chat, a: nat, b: nat)
    requires UniqueUserIds(users)
    requires c.kind == DirectKind && a < |users| && b < |users| && a != b
    requires c.participants == [users[a].id, users[b].id]
    ensures Enrich(users, users[a].id, c).name == Some(users[b].username)
    ensures Enrich(users, users[b].id, c).name == Some(users[a].username)
  {
    assert users[a].id != users[b].id;
    assert UserIndex(users, users[b].id) == Some(b);
    assert UserIndex(users, users[a].id) == Some(a);
    var (x, y) := (users[a].id, users[b].id);
    var other := FirstIndex(c.participants, (p: UserId) => p != x);
    assert ((p: UserId) => p != x)(c.participants[1]);
    assert !((p: UserId) => p != x)(c.participants[0]);
    assert other == Some(1);
    var other' := FirstIndex(c.participants, (p: UserId) => p != y);
    assert ((p: UserId) => p != y)(c.participants[0]);
    assert other' == Some(0);
  }

  lemma SameCoverFirst(chats: seq<Chat>, ps: seq<UserId>, qs: seq<UserId>)
    requires Members(ps) == Members(qs)
    ensures FirstIndex(chats, (c: Chat) => Covers(c, ps)) == FirstIndex(chats, (c: Chat) => Covers(c, qs))
  {
    forall c: Chat ensures Covers(c, ps) == Covers(c, qs) {
      assert forall p :: p in ps <==> p in Members(ps);
      assert forall p :: p in qs <==> p in Members(qs);
    }
    var (x, y) := (FirstIndex(chats, (c: Chat) => Covers(c, ps)), FirstIndex(chats, (c: Chat) => Covers(c, qs)));
    if x.Some? { assert Covers(chats[x.value], qs); }
    if y.Some? { assert Covers(chats[y.value], ps); }
  }

  /** Asking again for a direct chat with the same two members, in either
      order, returns the same chat and changes nothing: no second chat,
      no second `chat_new`. */
  lemma DirectChatDeduplicated(st: State, ps: seq<UserId>, qs: seq<UserId>, name1: Option<string>, name2: Option<string>)
    requires |ps| == 2 && Members(ps) == Members(qs)
    ensures var first := CreateChat(st, DirectKind, ps, name1);
            var second := CreateChat(first.state, DirectKind, qs, name2);
            second.state == first.state && second.reply == first.reply
  {
    var first := CreateChat(st, DirectKind, ps, name1);
    var chats := first.state.chats;
    SameCoverFirst(chats, ps, qs);
    if first.state != st {
      var c := first.reply.value;
      assert Covers(c, ps);
      var hit := FirstIndex(chats, (c: Chat) => Covers(c, ps));
      assert chats[|st.chats|] == c;
      assert hit.Some? && hit.value == |st.chats|;
    }
  }

  /** The existing-chat lookup asks only that the found chat's members be
      among the requested ones. So once `u3` has a direct chat with itself,
      a request for `u3` and `u1` is answered with that chat, and no u3-u1
      chat is created. */
  lemma SelfChatAnswersPairRequest()
    ensures var first := CreateChat(Init(), DirectKind, [SeedUser("u3"), SeedUser("u3")], None);
            var second := CreateChat(first.state, DirectKind, [SeedUser("u3"), SeedUser("u1")], None);
            && |first.state.chats| == 2
            && first.state.chats[1].participants == [SeedUser("u3"), SeedUser("u3")]
            && second.state == first.state && second.reply == first.reply
  {
    var (u1, u2, u3) := (SeedUser("u1"), SeedUser("u2"), SeedUser("u3"));
    assert u1 != u3 && u2 != u3 && u2 != u1 by {
      assert "u1"[1] != "u3"[1] && "u2"[1] != "u3"[1] && "u2"[1] != "u1"[1];
    }
    var c1 := Init().chats[0];
    assert u1 in c1.participants && u2 in c1.participants;
    assert !Covers(c1, [u3, u3]);
    var first := CreateChat(Init(), DirectKind, [u3, u3], None);
    assert first.state != Init();
    assert first.state.chats[1] == first.reply.value;
    assert !Covers(first.state.chats[0], [u3, u1]);
    assert Covers(first.state.chats[1], [u3, u1]);
  }

  /** The history returned after a send is the history before it followed
      by the new message. */
  lemma HistoryAfterSend(st: State, chatId: ChatId, senderId: UserId, kind: string, content: string)
    requires ChatKnown(st.chats, chatId)
    ensures var r := SendMessage(st, chatId, senderId, kind, content);
            GetMessages(r.state, chatId) == Ok(GetMessages(st, chatId).value + [r.reply.value])
  {
    var r := SendMessage(st, chatId, senderId, kind, content);
    var i := ChatIndex(st.chats, chatId).value;
    assert ChatIndex(r.state.chats, chatId) == Some(i) by {
      var i' := ChatIndex(r.state.chats, chatId);
      assert r.state.chats[i].id == chatId;
    }
  }

  /** Sending to one chat leaves the history of every other chat alone. */
  lemma OtherHistoryUnchanged(st: State, chatId: ChatId, senderId: UserId, kind: string, content: string, other: ChatId)
    requires other != chatId
    ensures GetMessages(SendMessage(st, chatId, senderId, kind, content).state, other) == GetMessages(st, other)
  {
    var r := SendMessage(st, chatId, senderId, kind, content);
    if r.reply.Ok? {
      var cs := r.state.chats;
      assert forall k :: 0 <= k < |cs| ==> cs[k].id == st.chats[k].id;
      var (x, y) := (ChatIndex(st.chats, other), ChatIndex(cs, other));
      if x.Some? { assert cs[x.value].id == other; }
      if y.Some? { assert st.chats[y.value].id == other; }
    }
  }

  // ----- Invariant preservation -----

  lemma CreateChatPreservesValid(st: State, kind: string, participants: seq<UserId>, name: Option<string>)
    requires ChatsValid(st.chats) && StampsFresh(st)
    ensures ChatsValid(CreateChat(st, kind, participants, name).state.chats)
    ensures StampsFresh(CreateChat(st, kind, participants, name).state)
  {
    var r := CreateChat(st, kind, participants, name);
    if r.state != st {
      var (cs, c, n) := (r.state.chats, r.reply.value, |st.chats|);
      assert cs[n] == c && c.id == StampedChat(st.clock);
      assert UniqueChatIds(cs) by {
        forall k | 0 <= k < n ensures cs[k].id != c.id {
          assert cs[k] == st.chats[k];
        }
      }
      assert OnePairChat(cs) by {
        forall k | 0 <= k < n && PairChat(cs[k]) && PairChat(c)
          ensures Members(cs[k].participants) != Members(c.participants)
        {
          if Members(cs[k].participants) == Members(c.participants) {
            assert cs[k] == st.chats[k];
            forall p | p in cs[k].participants ensures p in participants {
              assert p in Members(cs[k].participants);
            }
            assert Covers(st.chats[k], participants);
            assert false;
          }
        }
      }
    }
  }

  lemma SendMessagePreservesValid(st: State, chatId: ChatId, senderId: UserId, kind: string, content: string)
    requires ChatsValid(st.chats) && StampsFresh(st)
    ensures ChatsValid(SendMessage(st, chatId, senderId, kind, content).state.chats)
    ensures StampsFresh(SendMessage(st, chatId, senderId, kind, content).state)
  {
    var r := SendMessage(st, chatId, senderId, kind, content);
    if r.reply.Ok? {
      var (cs, i, m) := (r.state.chats, ChatIndex(st.chats, chatId).value, r.reply.value);
      assert m.id.stamp == st.clock;
      assert forall k :: 0 <= k < |cs| ==> cs[k].id == st.chats[k].id && cs[k].participants == st.chats[k].participants
                                            && cs[k].kind == st.chats[k].kind;
      assert UniqueChatIds(cs);
      assert OnePairChat(cs);
      assert MessagesFiled(cs) by {
        forall k, x | 0 <= k < |cs| && x in cs[k].messages ensures x.chatId == cs[k].id {
          if x != m || k != i { assert x in st.chats[k].messages; }
        }
      }
      assert LogsOrdered(cs) by {
        var ms := st.chats[i].messages;
        forall a | 0 <= a < |ms| ensures ms[a].id.stamp < m.id.stamp { assert ms[a] in st.chats[i].messages; }
      }
      assert StampsFresh(r.state) by {
        forall k, x | 0 <= k < |cs| && x in cs[k].messages ensures x.id.stamp < r.state.clock {
          if x != m { assert x in st.chats[k].messages; }
        }
      }
    }
  }
}
