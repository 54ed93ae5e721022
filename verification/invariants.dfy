/** The consistency conditions every reachable server state satisfies. Each
    handler module proves that its operations preserve them; the Server
    module lifts that to whole request sequences. */
module Invariants {
  import opened Basics
  import opened Store

  ghost predicate UniqueUserIds(users: seq<User>) {
    forall i, j :: 0 <= i < |users| && 0 <= j < |users| && users[i].id == users[j].id ==> i == j
  }

  /** User names are unique up to case. */
  ghost predicate UniqueNames(users: seq<User>) {
    forall i, j :: 0 <= i < |users| && 0 <= j < |users| && Lower(users[i].username) == Lower(users[j].username) ==> i == j
  }

  /** Every friend id names a user of the table. */
  ghost predicate FriendsKnown(users: seq<User>) {
    forall i, f :: 0 <= i < |users| && f in users[i].friends ==> Known(users, f)
  }

  /** Friendship is mutual. */
  ghost predicate FriendsSymmetric(users: seq<User>) {
    forall i, j :: 0 <= i < |users| && 0 <= j < |users| ==>
      (users[j].id in users[i].friends <==> users[i].id in users[j].friends)
  }

  ghost predicate FriendsDistinct(users: seq<User>) {
    forall i :: 0 <= i < |users| ==> Distinct(users[i].friends)
  }

  /** Every stored request is addressed to its holder, comes from a known
      user, and is not addressed to its own sender. */
  ghost predicate RequestsWellFormed(users: seq<User>) {
    forall i, q :: 0 <= i < |users| && q in users[i].friendRequests ==>
      q.to == users[i].id && q.from != q.to && Known(users, q.from)
  }

  /** No user holds two requests from the same sender. */
  predicate OneRequestPerSender(qs: seq<FriendRequest>) {
    forall a, b :: 0 <= a < b < |qs| ==> qs[a].from != qs[b].from
  }

  ghost predicate RequestsDistinct(users: seq<User>) {
    forall i :: 0 <= i < |users| ==> OneRequestPerSender(users[i].friendRequests)
  }

  ghost predicate UsersValid(users: seq<User>) {
    && UniqueUserIds(users)
    && UniqueNames(users)
    && FriendsKnown(users)
    && FriendsSymmetric(users)
    && FriendsDistinct(users)
    && RequestsWellFormed(users)
    && RequestsDistinct(users)
  }

  ghost predicate UniqueChatIds(chats: seq<Chat>) {
    forall i, j :: 0 <= i < |chats| && 0 <= j < |chats| && chats[i].id == chats[j].id ==> i == j
  }

  /** A direct chat between exactly two participant slots. */
  predicate PairChat(c: Chat) {
    c.kind == DirectKind && |c.participants| == 2
  }

  /** At most one two-member direct chat per set of participants. */
  ghost predicate OnePairChat(chats: seq<Chat>) {
    forall i, j ::
      (0 <= i < |chats| && 0 <= j < |chats| && PairChat(chats[i]) && PairChat(chats[j])
       && Members(chats[i].participants) == Members(chats[j].participants)) ==> i == j
  }

  /** Every message is filed under the chat that holds it. */
  ghost predicate MessagesFiled(chats: seq<Chat>) {
    forall i, m :: 0 <= i < |chats| && m in chats[i].messages ==> m.chatId == chats[i].id
  }

  /** Message stamps strictly increase along each log. */
  predicate StrictlyOrdered(ms: seq<Message>) {
    forall a, b :: 0 <= a < b < |ms| ==> ms[a].id.stamp < ms[b].id.stamp
  }

  ghost predicate LogsOrdered(chats: seq<Chat>) {
    forall i :: 0 <= i < |chats| ==> StrictlyOrdered(chats[i].messages)
  }

  ghost predicate ChatsValid(chats: seq<Chat>) {
    && UniqueChatIds(chats)
    && OnePairChat(chats)
    && MessagesFiled(chats)
    && LogsOrdered(chats)
  }

  /** Every id the server stamped lies before the current clock reading. */
  ghost predicate StampsFresh(st: State) {
    && (forall i :: 0 <= i < |st.users| && st.users[i].id.StampedUser? ==> st.users[i].id.stamp < st.clock)
    && (forall i :: 0 <= i < |st.chats| && st.chats[i].id.StampedChat? ==> st.chats[i].id.stamp < st.clock)
    && (forall i, m :: 0 <= i < |st.chats| && m in st.chats[i].messages ==> m.id.stamp < st.clock)
  }

  /** Every subscription belongs to a live socket. */
  ghost predicate SubsLive(st: State) {
    forall x :: x in st.subs ==> x.socket in st.sockets
  }

  /** No live socket carries the id of one that has disconnected. */
  ghost predicate ClosedGone(st: State) {
    st.sockets !! st.closed
  }

  ghost predicate Valid(st: State) {
    && UsersValid(st.users)
    && ChatsValid(st.chats)
    && StampsFresh(st)
    && SubsLive(st)
    && ClosedGone(st)
  }

  /** Two user tables agreeing on everything the friend graph depends on
      except the pending requests. */
  ghost predicate SameGraph(a: seq<User>, b: seq<User>) {
    && |a| == |b|
    && (forall k :: 0 <= k < |a| ==> a[k].id == b[k].id && a[k].username == b[k].username)
    && (forall k :: 0 <= k < |a| ==> a[k].friends == b[k].friends)
  }

  lemma SameGraphKnown(a: seq<User>, b: seq<User>, id: UserId)
    requires SameGraph(a, b)
    ensures Known(a, id) <==> Known(b, id)
  {
    if Known(a, id) {
      var j :| 0 <= j < |a| && a[j].id == id;
      assert b[j].id == id;
    }
    if Known(b, id) {
      var j :| 0 <= j < |b| && b[j].id == id;
      assert a[j].id == id;
    }
  }

  /** The friend-graph invariants only look at ids, names and friend lists. */
  lemma SameGraphValid(a: seq<User>, b: seq<User>)
    requires SameGraph(a, b)
    requires UniqueUserIds(a) && UniqueNames(a) && FriendsKnown(a) && FriendsSymmetric(a) && FriendsDistinct(a)
    ensures UniqueUserIds(b) && UniqueNames(b) && FriendsKnown(b) && FriendsSymmetric(b) && FriendsDistinct(b)
  {
    forall i, f | 0 <= i < |b| && f in b[i].friends
      ensures Known(b, f)
    {
      assert f in a[i].friends;
      SameGraphKnown(a, b, f);
    }
  }

  /** Lower-cased, the seeded user names already differ in their first letter. */
  lemma InitNamesDistinct()
    ensures UniqueNames(Init().users)
  {
    var us := Init().users;
    assert Lower(us[0].username)[0] == 'p';
    assert Lower(us[1].username)[0] == 'n';
    assert Lower(us[2].username)[0] == 'h';
  }

  lemma InitIdsDistinct()
    ensures UniqueUserIds(Init().users)
  {
    var us := Init().users;
    assert us[0].id.tag[1] == '1' && us[1].id.tag[1] == '2' && us[2].id.tag[1] == '3';
  }

  lemma InitValid()
    ensures Valid(Init())
  {
    var st := Init();
    InitNamesDistinct();
    InitIdsDistinct();
    assert UsersValid(st.users);
    assert ChatsValid(st.chats);
  }
}
