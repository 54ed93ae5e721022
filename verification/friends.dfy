/** The friend graph: sending and accepting friend requests, and the
    friends/pending-requests page of a user. */
module Friends {
  import opened Basics
  import opened Store
  import opened Invariants
  import Accounts

  predicate HasRequestFrom(qs: seq<FriendRequest>, from: UserId) {
    exists q :: q in qs && q.from == from
  }

  /** The requests that did not come from `from`, in their original order. */
  function WithoutRequestsFrom(qs: seq<FriendRequest>, from: UserId): (r: seq<FriendRequest>)
    ensures forall q :: q in r <==> q in qs && q.from != from
    ensures OneRequestPerSender(qs) ==> OneRequestPerSender(r)
  {
    if |qs| == 0 then []
    else
      var rest := WithoutRequestsFrom(qs[1..], from);
      assert forall q :: q in qs[1..] ==> q in qs;
      if qs[0].from == from then rest else [qs[0]] + rest
  }

  /** Adds `id` at the end of the friend list unless it is already there. */
  function AddFriend(u: User, id: UserId): (r: User)
    ensures id in u.friends ==> r == u
    ensures id !in u.friends ==> r.friends == u.friends + [id]
    ensures forall x :: x in r.friends <==> x in u.friends || x == id
    ensures Distinct(u.friends) ==> Distinct(r.friends)
    ensures r.(friends := u.friends) == u
  {
    if id in u.friends then u else u.(friends := u.friends + [id])
  }

  /** POST /api/friends/request. The checks run in this order: both users
      exist (404), they differ (400), they are not friends yet (400), the
      recipient holds no request from this sender (400). On success one
      pending request is appended to the recipient's list and a
      `friend_request` event goes to the recipient's room. */
  function SendRequest(st: State, fromUserId: UserId, toUsername: string): (r: Step<()>)
    ensures r.reply.Err? ==> r.state == st
    ensures r.reply == Err(404, "User not found") <==>
      !Known(st.users, fromUserId) || !NameTaken(st.users, toUsername)
    ensures Known(st.users, fromUserId) && NameTaken(st.users, toUsername) ==>
      var t := NameIndex(st.users, toUsername).value;
      var (from, to) := (st.users[UserIndex(st.users, fromUserId).value], st.users[t]);
      && (r.reply == Err(400, "Can't add yourself") <==> from.id == to.id)
      && (r.reply == Err(400, "Already friends") <==> from.id != to.id && to.id in from.friends)
      && (r.reply == Err(400, "Request already sent") <==>
            from.id != to.id && to.id !in from.friends && HasRequestFrom(to.friendRequests, fromUserId))
      && (r.reply.Ok? <==>
            from.id != to.id && to.id !in from.friends && !HasRequestFrom(to.friendRequests, fromUserId))
      && (r.reply.Ok? ==>
            && r.state.users == st.users[t := to.(friendRequests := to.friendRequests + [FriendRequest(fromUserId, to.id, Pending)])]
            && r.state.outbox == st.outbox + [Emission(ToRoom(UserRoom(to.id)), FriendRequestEvent(from.username))])
    ensures r.state.chats == st.chats && r.state.clock == st.clock
    ensures r.state.sockets == st.sockets && r.state.subs == st.subs && r.state.closed == st.closed
  {
    var fi := UserIndex(st.users, fromUserId);
    var ti := NameIndex(st.users, toUsername);
    if fi.None? || ti.None? then Step(st, Err(404, "User not found"))
    else
      var (from, to) := (st.users[fi.value], st.users[ti.value]);
      if from.id == to.id then Step(st, Err(400, "Can't add yourself"))
      else if to.id in from.friends then Step(st, Err(400, "Already friends"))
      else if HasRequestFrom(to.friendRequests, fromUserId) then Step(st, Err(400, "Request already sent"))
      else
        var to' := to.(friendRequests := to.friendRequests + [FriendRequest(fromUserId, to.id, Pending)]);
        var note := Emission(ToRoom(UserRoom(to.id)), FriendRequestEvent(from.username));
        Step(st.(users := st.users[ti.value := to'], outbox := st.outbox + [note]), Ok(()))
  }

  /** The user table after the user at slot `i` (id `a`) accepts the user at
      slot `j` (id `b`): `a`'s requests from `b` are dropped, keeping order,
      and each gains the other at the end of its friend list unless already
      there. When both ids are the same the two updates hit the same record. */
  function AcceptedUsers(us: seq<User>, i: nat, j: nat, a: UserId, b: UserId): (us': seq<User>)
    requires i < |us| && j < |us| && us[i].id == a && us[j].id == b && (a == b ==> i == j)
    ensures |us'| == |us|
    ensures forall k :: 0 <= k < |us| && k != i && k != j ==> us'[k] == us[k]
    ensures forall k :: 0 <= k < |us| ==>
      us'[k].(friends := us[k].friends, friendRequests := us[k].friendRequests) == us[k]
    ensures us'[i].friendRequests == WithoutRequestsFrom(us[i].friendRequests, b)
    ensures j != i ==> us'[j].friendRequests == us[j].friendRequests
    ensures us'[i].friends == (if b in us[i].friends then us[i].friends else us[i].friends + [b])
    ensures us'[j].friends == (if a in us[j].friends then us[j].friends else us[j].friends + [a])
  {
    var u := us[i];
    var u' := AddFriend(u.(friendRequests := WithoutRequestsFrom(u.friendRequests, b)), b);
    var us1 := us[i := u'];
    us1[j := AddFriend(us1[j], a)]
  }

  /** What the accepted table keeps: ids, names, passwords and avatars,
      duplicate-free friend lists, one request per sender, and friend lists
      that grow exactly by the new edge. */
  lemma AcceptedUsersFacts(us: seq<User>, i: nat, j: nat, a: UserId, b: UserId)
    requires i < |us| && j < |us| && us[i].id == a && us[j].id == b && (a == b ==> i == j)
    ensures var us' := AcceptedUsers(us, i, j, a, b);
      && (forall k :: 0 <= k < |us| ==> us'[k].id == us[k].id && us'[k].username == us[k].username
                                        && us'[k].password == us[k].password && us'[k].avatar == us[k].avatar)
      && (forall q :: q in us'[i].friendRequests <==> q in us[i].friendRequests && q.from != b)
      && (forall k, x :: 0 <= k < |us| ==>
            (x in us'[k].friends <==> x in us[k].friends || (k == i && x == b) || (k == j && x == a)))
      && (forall k :: 0 <= k < |us| && Distinct(us[k].friends) ==> Distinct(us'[k].friends))
      && (forall k :: 0 <= k < |us| && OneRequestPerSender(us[k].friendRequests) ==> OneRequestPerSender(us'[k].friendRequests))
  {
    var us' := AcceptedUsers(us, i, j, a, b);
    forall k | 0 <= k < |us|
      ensures us'[k].id == us[k].id && us'[k].username == us[k].username
      ensures us'[k].password == us[k].password && us'[k].avatar == us[k].avatar
    {
      assert us'[k].(friends := us[k].friends, friendRequests := us[k].friendRequests) == us[k];
    }
  }

  /** POST /api/friends/accept. Both users must exist (404). Then every
      request from `fromUserId` leaves the accepter's list and each user is
      added to the other's friends unless already there. A missing request
      is no error. When both ids are the same the two updates hit the same
      record, as in the source. */
  function Accept(st: State, userId: UserId, fromUserId: UserId): (r: Step<()>)
    ensures r.reply == Err(404, "User not found") <==> !Known(st.users, userId) || !Known(st.users, fromUserId)
    ensures r.reply.Ok? <==> Known(st.users, userId) && Known(st.users, fromUserId)
    ensures r.reply.Err? ==> r.state == st
    ensures r.reply.Ok? ==>
      var (i, j) := (UserIndex(st.users, userId).value, UserIndex(st.users, fromUserId).value);
      var (us, us') := (st.users, r.state.users);
      && |us'| == |us|
      && (forall k :: 0 <= k < |us| && k != i && k != j ==> us'[k] == us[k])
      && (forall k :: 0 <= k < |us| ==> us'[k].id == us[k].id && us'[k].username == us[k].username
                                        && us'[k].password == us[k].password && us'[k].avatar == us[k].avatar)
      && (forall q :: q in us'[i].friendRequests <==> q in us[i].friendRequests && q.from != fromUserId)
      && (j != i ==> us'[j].friendRequests == us[j].friendRequests)
      && (forall k, x :: 0 <= k < |us| ==>
            (x in us'[k].friends <==> x in us[k].friends || (k == i && x == fromUserId) || (k == j && x == userId)))
      && (forall k :: 0 <= k < |us| && Distinct(us[k].friends) ==> Distinct(us'[k].friends))
      && (forall k :: 0 <= k < |us| && OneRequestPerSender(us[k].friendRequests) ==> OneRequestPerSender(us'[k].friendRequests))
    ensures r.reply.Ok? ==>
      var (i, j) := (UserIndex(st.users, userId).value, UserIndex(st.users, fromUserId).value);
      var (us, us') := (st.users, r.state.users);
      && us'[i].friendRequests == WithoutRequestsFrom(us[i].friendRequests, fromUserId)
      && us'[i].friends == (if fromUserId in us[i].friends then us[i].friends else us[i].friends + [fromUserId])
      && us'[j].friends == (if userId in us[j].friends then us[j].friends else us[j].friends + [userId])
    ensures r.reply.Ok? ==>
      forall k :: 0 <= k < |st.users| ==>
        r.state.users[k].(friends := st.users[k].friends, friendRequests := st.users[k].friendRequests) == st.users[k]
    ensures r.state.chats == st.chats && r.state.outbox == st.outbox && r.state.clock == st.clock
    ensures r.state.sockets == st.sockets && r.state.subs == st.subs && r.state.closed == st.closed
  {
    var ui := UserIndex(st.users, userId);
    var fi := UserIndex(st.users, fromUserId);
    if ui.None? || fi.None? then Step(st, Err(404, "User not found"))
    else
      var (i, j) := (ui.value, fi.value);
      AcceptedUsersFacts(st.users, i, j, userId, fromUserId);
      Step(st.(users := AcceptedUsers(st.users, i, j, userId, fromUserId)), Ok(()))
  }

  // ----- The friends page -----

  datatype FriendEntry = FriendEntry(id: UserId, username: string, avatar: string, status: Option<string>, isOnline: bool)

  datatype RequestEntry = RequestEntry(id: UserId, username: string, avatar: string)

  datatype FriendsPage = FriendsPage(friends: seq<FriendEntry>, requests: seq<RequestEntry>)

  /** Every friend is reported online. */
  function AsFriend(u: User): FriendEntry {
    FriendEntry(u.id, u.username, u.avatar, u.status, true)
  }

  function AsRequester(u: User): RequestEntry {
    RequestEntry(u.id, u.username, u.avatar)
  }

  /** Looks each id up; None where the source would dereference an
      undefined user and throw. */
  function FriendEntries(users: seq<User>, ids: seq<UserId>): (r: Option<seq<FriendEntry>>)
    ensures r.Some? <==> forall k :: 0 <= k < |ids| ==> Known(users, ids[k])
    ensures r.Some? ==> |r.value| == |ids|
    ensures r.Some? ==> forall k :: 0 <= k < |ids| ==> r.value[k] == AsFriend(users[UserIndex(users, ids[k]).value])
  {
    if |ids| == 0 then Some([])
    else match (UserIndex(users, ids[0]), FriendEntries(users, ids[1..]))
      case (Some(j), Some(rest)) => Some([AsFriend(users[j])] + rest)
      case _ => None
  }

  function RequestEntries(users: seq<User>, qs: seq<FriendRequest>): (r: Option<seq<RequestEntry>>)
    ensures r.Some? <==> forall k :: 0 <= k < |qs| ==> Known(users, qs[k].from)
    ensures r.Some? ==> |r.value| == |qs|
    ensures r.Some? ==> forall k :: 0 <= k < |qs| ==> r.value[k] == AsRequester(users[UserIndex(users, qs[k].from).value])
  {
    if |qs| == 0 then Some([])
    else match (UserIndex(users, qs[0].from), RequestEntries(users, qs[1..]))
      case (Some(j), Some(rest)) => Some([AsRequester(users[j])] + rest)
      case _ => None
  }

  /** GET /api/friends. 404 for an unknown user; otherwise one entry per
      friend id and one per pending request, in list order. A dangling id
      makes the source throw (500). */
  function FriendsView(st: State, userId: UserId): (r: Reply<FriendsPage>)
    ensures r == Err(404, "User not found") <==> !Known(st.users, userId)
    ensures Known(st.users, userId) ==>
      var u := st.users[UserIndex(st.users, userId).value];
      r.Ok? <==> (forall k :: 0 <= k < |u.friends| ==> Known(st.users, u.friends[k]))
                 && (forall k :: 0 <= k < |u.friendRequests| ==> Known(st.users, u.friendRequests[k].from))
    ensures r.Ok? ==>
      var u := st.users[UserIndex(st.users, userId).value];
      && |r.value.friends| == |u.friends|
      && (forall k :: 0 <= k < |u.friends| ==> r.value.friends[k].id == u.friends[k] && r.value.friends[k].isOnline)
      && (forall k :: 0 <= k < |u.friends| ==> r.value.friends[k] == AsFriend(st.users[UserIndex(st.users, u.friends[k]).value]))
      && |r.value.requests| == |u.friendRequests|
      && (forall k :: 0 <= k < |u.friendRequests| ==> r.value.requests[k].id == u.friendRequests[k].from)
      && (forall k :: 0 <= k < |u.friendRequests| ==>
            r.value.requests[k] == AsRequester(st.users[UserIndex(st.users, u.friendRequests[k].from).value]))
    ensures r.Err? ==> r == Err(404, "User not found") || r == Err(500, "Internal Server Error")
    ensures r.Err? && r.code == 500 ==>
      var u := st.users[UserIndex(st.users, userId).value];
      (exists f :: f in u.friends && !Known(st.users, f)) || (exists q :: q in u.friendRequests && !Known(st.users, q.from))
  {
    match UserIndex(st.users, userId)
    case None => Err(404, "User not found")
    case Some(i) =>
      var u := st.users[i];
      match (FriendEntries(st.users, u.friends), RequestEntries(st.users, u.friendRequests))
      case (Some(fs), Some(rs)) => Ok(FriendsPage(fs, rs))
      case _ => Err(500, "Internal Server Error")
  }

  // ----- Properties -----

  /** Filtering keeps the order of the list: a request added at the end
      stays at the end unless it comes from the filtered sender. */
  lemma {:induction false} WithoutRequestsFromAppend(qs: seq<FriendRequest>, q: FriendRequest, from: UserId)
    ensures WithoutRequestsFrom(qs + [q], from)
            == WithoutRequestsFrom(qs, from) + (if q.from == from then [] else [q])
  {
    if |qs| == 0 {
      assert qs + [q] == [q];
      assert [q][1..] == [];
    } else {
      assert (qs + [q])[1..] == qs[1..] + [q];
      WithoutRequestsFromAppend(qs[1..], q, from);
    }
  }

  lemma {:induction false} WithoutAbsentSender(qs: seq<FriendRequest>, from: UserId)
    requires !HasRequestFrom(qs, from)
    ensures WithoutRequestsFrom(qs, from) == qs
  {
    if |qs| > 0 {
      assert qs[0] in qs;
      assert !HasRequestFrom(qs[1..], from) by {
        forall q | q in qs[1..] ensures q.from != from { assert q in qs; }
      }
      WithoutAbsentSender(qs[1..], from);
    }
  }

  /** A request cannot be sent twice while the first is pending. */
  lemma RepeatedRequestRejected(st: State, fromUserId: UserId, toUsername: string)
    requires SendRequest(st, fromUserId, toUsername).reply.Ok?
    ensures SendRequest(SendRequest(st, fromUserId, toUsername).state, fromUserId, toUsername).reply
            == Err(400, "Request already sent")
  {
    var st' := SendRequest(st, fromUserId, toUsername).state;
    var (f, t) := (UserIndex(st.users, fromUserId).value, NameIndex(st.users, toUsername).value);
    var q := FriendRequest(fromUserId, st.users[t].id, Pending);
    UserIndexStable(st.users, st'.users, fromUserId);
    NameIndexStable(st.users, st'.users, toUsername);
    assert q in st'.users[t].friendRequests;
  }

  /** Accepting twice is the same as accepting once. */
  lemma AcceptIdempotent(st: State, userId: UserId, fromUserId: UserId)
    ensures Accept(Accept(st, userId, fromUserId).state, userId, fromUserId) == Accept(st, userId, fromUserId)
  {
    var once := Accept(st, userId, fromUserId);
    if once.reply.Ok? {
      var (i, j) := (UserIndex(st.users, userId).value, UserIndex(st.users, fromUserId).value);
      var us := once.state.users;
      UserIndexStable(st.users, us, userId);
      UserIndexStable(st.users, us, fromUserId);
      AcceptedUsersIdempotent(st.users, i, j, userId, fromUserId);
      assert once.state.(users := AcceptedUsers(us, i, j, userId, fromUserId)) == once.state;
    }
  }

  /** Applying the accepted-table update twice is applying it once: no
      request from `b` is left to drop and both edges are already there. */
  lemma AcceptedUsersIdempotent(us: seq<User>, i: nat, j: nat, a: UserId, b: UserId)
    requires i < |us| && j < |us| && us[i].id == a && us[j].id == b && (a == b ==> i == j)
    ensures var us' := AcceptedUsers(us, i, j, a, b);
            AcceptedUsers(us', i, j, a, b) == us'
  {
    var us' := AcceptedUsers(us, i, j, a, b);
    AcceptedUsersFacts(us, i, j, a, b);
    var u := us'[i];
    assert !HasRequestFrom(u.friendRequests, b);
    WithoutAbsentSender(u.friendRequests, b);
    assert u.(friendRequests := WithoutRequestsFrom(u.friendRequests, b)) == u;
    assert us'[i := AddFriend(u, b)] == us';
    assert a in us'[j].friends;
    assert us'[j := AddFriend(us'[j], a)] == us';
  }

  /** In a consistent table, the friends page of an existing user always
      renders: every friend id and every request sender resolves. */
  lemma FriendsViewResolves(st: State, userId: UserId)
    requires UsersValid(st.users) && Known(st.users, userId)
    ensures FriendsView(st, userId).Ok?
  {
    var u := st.users[UserIndex(st.users, userId).value];
    assert forall k :: 0 <= k < |u.friends| ==> Known(st.users, u.friends[k]);
    assert forall k :: 0 <= k < |u.friendRequests| ==> Known(st.users, u.friendRequests[k].from);
  }

  /** After a successful request, the recipient's page ends with the sender. */
  lemma RequestShowsOnRecipientPage(st: State, fromUserId: UserId, toUsername: string)
    requires UsersValid(st.users)
    requires SendRequest(st, fromUserId, toUsername).reply.Ok?
    ensures var st' := SendRequest(st, fromUserId, toUsername).state;
            var to := st.users[NameIndex(st.users, toUsername).value].id;
            var page := FriendsView(st', to);
            page.Ok? && |page.value.requests| > 0 && page.value.requests[|page.value.requests| - 1].id == fromUserId
  {
    SendRequestPreservesValid(st, fromUserId, toUsername);
    var st' := SendRequest(st, fromUserId, toUsername).state;
    var t := NameIndex(st.users, toUsername).value;
    var to := st.users[t].id;
    assert st'.users[t].id == to;
    FriendsViewResolves(st', to);
    assert UserIndex(st'.users, to) == Some(t);
  }

  /** The page rendered and lists `id` among the friends. */
  predicate ListsFriend(page: Reply<FriendsPage>, id: UserId) {
    page.Ok? && exists k :: 0 <= k < |page.value.friends| && page.value.friends[k].id == id
  }

  /** The page rendered and lists a request from `id`. */
  predicate ListsRequestFrom(page: Reply<FriendsPage>, id: UserId) {
    page.Ok? && exists k :: 0 <= k < |page.value.requests| && page.value.requests[k].id == id
  }

  /** In a consistent table, a friend in the owner's record shows on the
      owner's page. */
  lemma FriendOnPage(st: State, owner: nat, f: UserId)
    requires UsersValid(st.users) && owner < |st.users| && f in st.users[owner].friends
    ensures ListsFriend(FriendsView(st, st.users[owner].id), f)
  {
    var id := st.users[owner].id;
    FriendsViewResolves(st, id);
    assert UserIndex(st.users, id) == Some(owner);
    var k :| 0 <= k < |st.users[owner].friends| && st.users[owner].friends[k] == f;
    assert FriendsView(st, id).value.friends[k].id == f;
  }

  /** A sender with no request in the owner's record is not on the owner's
      request list. */
  lemma NoRequestOnPage(st: State, owner: nat, from: UserId)
    requires UniqueUserIds(st.users) && owner < |st.users| && !HasRequestFrom(st.users[owner].friendRequests, from)
    ensures !ListsRequestFrom(FriendsView(st, st.users[owner].id), from)
  {
    var id := st.users[owner].id;
    assert UserIndex(st.users, id) == Some(owner);
    var page := FriendsView(st, id);
    if page.Ok? {
      var qs := st.users[owner].friendRequests;
      forall k | 0 <= k < |page.value.requests| ensures page.value.requests[k].id != from {
        assert qs[k] in qs;
      }
    }
  }

  /** After accept(B, A) both pages list the other as a friend and B's page
      lists no request from A. */
  lemma AcceptShowsOnBothPages(st: State, userId: UserId, fromUserId: UserId)
    requires UsersValid(st.users)
    requires Accept(st, userId, fromUserId).reply.Ok?
    ensures ListsFriend(FriendsView(Accept(st, userId, fromUserId).state, userId), fromUserId)
    ensures ListsFriend(FriendsView(Accept(st, userId, fromUserId).state, fromUserId), userId)
    ensures !ListsRequestFrom(FriendsView(Accept(st, userId, fromUserId).state, userId), fromUserId)
  {
    AcceptPreservesValid(st, userId, fromUserId);
    var st' := Accept(st, userId, fromUserId).state;
    var (i, j) := (UserIndex(st.users, userId).value, UserIndex(st.users, fromUserId).value);
    assert st'.users[i].id == userId && st'.users[j].id == fromUserId;
    FriendOnPage(st', i, fromUserId);
    FriendOnPage(st', j, userId);
    assert !HasRequestFrom(st'.users[i].friendRequests, fromUserId);
    NoRequestOnPage(st', i, fromUserId);
  }

  // ----- Invariant preservation -----

  lemma SendRequestPreservesValid(st: State, fromUserId: UserId, toUsername: string)
    requires UsersValid(st.users)
    ensures UsersValid(SendRequest(st, fromUserId, toUsername).state.users)
  {
    var r := SendRequest(st, fromUserId, toUsername);
    if r.reply.Ok? {
      var us := r.state.users;
      var t := NameIndex(st.users, toUsername).value;
      assert SameGraph(st.users, us);
      SameGraphValid(st.users, us);
      forall i, q | 0 <= i < |us| && q in us[i].friendRequests
        ensures q.to == us[i].id && q.from != q.to && Known(us, q.from)
      {
        SameGraphKnown(st.users, us, q.from);
      }
      forall i | 0 <= i < |us| ensures OneRequestPerSender(us[i].friendRequests) {
        if i == t {
          var qs := st.users[t].friendRequests;
          forall a | 0 <= a < |qs| ensures qs[a].from != fromUserId { assert qs[a] in qs; }
        }
      }
    }
  }

  /** Adding the edge a-b in both directions keeps friendship mutual. */
  lemma AddEdgeKeepsSymmetry(us: seq<User>, us': seq<User>, i: nat, j: nat, a: UserId, b: UserId)
    requires |us| == |us'| && i < |us| && j < |us| && us[i].id == a && us[j].id == b
    requires UniqueUserIds(us) && FriendsSymmetric(us)
    requires forall k :: 0 <= k < |us| ==> us'[k].id == us[k].id
    requires forall k, x :: 0 <= k < |us| ==>
      (x in us'[k].friends <==> x in us[k].friends || (k == i && x == b) || (k == j && x == a))
    ensures FriendsSymmetric(us')
  {
    forall p, q | 0 <= p < |us'| && 0 <= q < |us'|
      ensures us'[q].id in us'[p].friends <==> us'[p].id in us'[q].friends
    {
      assert us[p].id == a <==> p == i;
      assert us[q].id == a <==> q == i;
      assert us[p].id == b <==> p == j;
      assert us[q].id == b <==> q == j;
    }
  }

  /** Tables with the same ids and names, slot by slot, know the same users
      and agree on uniqueness. */
  lemma SameIdentities(us: seq<User>, us': seq<User>)
    requires |us| == |us'|
    requires forall k :: 0 <= k < |us| ==> us'[k].id == us[k].id && us'[k].username == us[k].username
    ensures forall id :: Known(us, id) ==> Known(us', id)
    ensures UniqueUserIds(us) ==> UniqueUserIds(us')
    ensures UniqueNames(us) ==> UniqueNames(us')
  {
    forall id | Known(us, id) ensures Known(us', id) {
      var k :| 0 <= k < |us| && us[k].id == id;
      assert us'[k].id == id;
    }
  }

  /** A table obtained from a consistent one by adding the edge a-b in both
      directions and dropping some requests stays consistent. */
  lemma EdgeAddedTableValid(us: seq<User>, us': seq<User>, i: nat, j: nat, a: UserId, b: UserId)
    requires UsersValid(us)
    requires |us| == |us'| && i < |us| && j < |us| && us[i].id == a && us[j].id == b
    requires forall k :: 0 <= k < |us| ==> us'[k].id == us[k].id && us'[k].username == us[k].username
    requires forall k, x :: 0 <= k < |us| ==>
      (x in us'[k].friends <==> x in us[k].friends || (k == i && x == b) || (k == j && x == a))
    requires forall k, q :: 0 <= k < |us| && q in us'[k].friendRequests ==> q in us[k].friendRequests
    requires forall k :: 0 <= k < |us| && Distinct(us[k].friends) ==> Distinct(us'[k].friends)
    requires forall k :: 0 <= k < |us| && OneRequestPerSender(us[k].friendRequests) ==> OneRequestPerSender(us'[k].friendRequests)
    ensures UsersValid(us')
  {
    SameIdentities(us, us');
    assert FriendsKnown(us') by {
      forall k, f | 0 <= k < |us'| && f in us'[k].friends ensures Known(us', f) {
        if f in us[k].friends { assert Known(us, f); }
      }
    }
    AddEdgeKeepsSymmetry(us, us', i, j, a, b);
    assert RequestsWellFormed(us') by {
      forall k, q | 0 <= k < |us'| && q in us'[k].friendRequests
        ensures q.to == us'[k].id && q.from != q.to && Known(us', q.from)
      {
        assert q in us[k].friendRequests;
      }
    }
  }

  lemma AcceptPreservesValid(st: State, userId: UserId, fromUserId: UserId)
    requires UsersValid(st.users)
    ensures UsersValid(Accept(st, userId, fromUserId).state.users)
  {
    var r := Accept(st, userId, fromUserId);
    if r.reply.Ok? {
      var (us, us') := (st.users, r.state.users);
      var (i, j) := (UserIndex(us, userId).value, UserIndex(us, fromUserId).value);
      EdgeAddedTableValid(us, us', i, j, userId, fromUserId);
    }
  }

  // ----- The seeded records as written -----

  /** The accept handler over records that may lack the `friends` and
      `friendRequests` arrays, as the three seeded users do in the source;
      `bare` holds the ids of such records. Reading a missing array throws,
      and Express answers 500 while keeping whatever the handler changed
      before the throw. A bare accepter throws before any change. A bare
      sender throws only after the accepter's side of the edge is stored. */
  function AcceptAsWritten(st: State, bare: set<UserId>, userId: UserId, fromUserId: UserId): (r: Step<()>)
    ensures r.reply == Err(404, "User not found") <==> !Known(st.users, userId) || !Known(st.users, fromUserId)
    ensures r.reply == Err(500, "Internal Server Error") <==>
      Known(st.users, userId) && Known(st.users, fromUserId) && (userId in bare || fromUserId in bare)
    ensures r.reply == Err(404, "User not found") || userId in bare ==> r.state == st
    ensures userId !in bare && fromUserId !in bare ==> r == Accept(st, userId, fromUserId)
    ensures Known(st.users, userId) && Known(st.users, fromUserId) && userId !in bare && fromUserId in bare ==>
      var i := UserIndex(st.users, userId).value;
      && r.state.users == st.users[i := Accept(st, userId, fromUserId).state.users[i]]
      && fromUserId in r.state.users[i].friends
    ensures r.state.chats == st.chats && r.state.outbox == st.outbox && r.state.clock == st.clock
    ensures r.state.sockets == st.sockets && r.state.subs == st.subs && r.state.closed == st.closed
  {
    var ui := UserIndex(st.users, userId);
    var fi := UserIndex(st.users, fromUserId);
    if ui.None? || fi.None? then Step(st, Err(404, "User not found"))
    else if userId in bare then Step(st, Err(500, "Internal Server Error"))
    else
      var (i, j) := (ui.value, fi.value);
      var u := st.users[i];
      var u' := AddFriend(u.(friendRequests := WithoutRequestsFrom(u.friendRequests, fromUserId)), fromUserId);
      var users1 := st.users[i := u'];
      if fromUserId in bare then Step(st.(users := users1), Err(500, "Internal Server Error"))
      else Step(st.(users := users1[j := AddFriend(users1[j], userId)]), Ok(()))
  }

  /** The seeded tables with one registered user, "ann", at slot 3. */
  function WithAnn(): State {
    Accounts.Register(Init(), Some("ann"), Some("pw")).state
  }

  /** As written: when "ann" accepts a request from the seeded `u1`, the
      handler stores `u1` among ann's friends and then throws on `u1`'s
      missing list, so ann counts `u1` as a friend but not the other way. */
  lemma AcceptFromSeedOneSided()
    ensures var r := AcceptAsWritten(WithAnn(), {SeedUser("u1"), SeedUser("u2"), SeedUser("u3")}, StampedUser(0), SeedUser("u1"));
            && r.reply == Err(500, "Internal Server Error")
            && SeedUser("u1") in r.state.users[3].friends
            && StampedUser(0) !in r.state.users[0].friends
            && !FriendsSymmetric(r.state.users)
  {
    var st := WithAnn();
    assert st.users[0].id == SeedUser("u1") && st.users[3].id == StampedUser(0);
    assert UserIndex(st.users, StampedUser(0)) == Some(3);
    assert UserIndex(st.users, SeedUser("u1")) == Some(0);
    var r := AcceptAsWritten(st, {SeedUser("u1"), SeedUser("u2"), SeedUser("u3")}, StampedUser(0), SeedUser("u1"));
    assert r.state.users[0] == st.users[0];
  }

  /** With the seeded records given empty lists, the same accept succeeds and
      makes the two users friends of each other. */
  lemma AcceptFromSeedMutual()
    ensures var r := Accept(WithAnn(), StampedUser(0), SeedUser("u1"));
            && r.reply.Ok?
            && SeedUser("u1") in r.state.users[3].friends
            && StampedUser(0) in r.state.users[0].friends
  {
    var st := WithAnn();
    assert st.users[0].id == SeedUser("u1") && st.users[3].id == StampedUser(0);
    assert UserIndex(st.users, StampedUser(0)) == Some(3);
    assert UserIndex(st.users, SeedUser("u1")) == Some(0);
  }
}
