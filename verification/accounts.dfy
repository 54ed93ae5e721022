/** Accounts: registration, login, search by name and profile updates. */
module Accounts {
  import opened Basics
  import opened Store
  import opened Invariants

  /** The record of a freshly registered user. */
  function NewUser(st: State, username: string, password: string): User {
    User(StampedUser(st.clock), username, Some(password), AvatarFor(username), None, None, [], [])
  }

  /** POST /api/register. Both fields must be truthy; the name must be
      free up to case; the new record starts with no friends and no
      requests, and the reply leaves out the password. */
  function Register(st: State, username: Option<string>, password: Option<string>): (r: Step<Profile>)
    ensures r.reply == Err(400, "Username and password required") <==> !Truthy(username) || !Truthy(password)
    ensures r.reply == Err(409, "Username taken") <==>
      Truthy(username) && Truthy(password) && NameTaken(st.users, username.value)
    ensures r.reply.Ok? <==> Truthy(username) && Truthy(password) && !NameTaken(st.users, username.value)
    ensures r.reply.Err? ==> r.state == st
    ensures r.reply.Ok? ==> |r.state.users| == |st.users| + 1 && r.state.users[..|st.users|] == st.users
    ensures r.reply.Ok? ==>
      var u := r.state.users[|st.users|];
      && u.id == StampedUser(st.clock)
      && u.username == username.value
      && u.password == password
      && u.avatar == AvatarFor(username.value)
      && u.status == None && u.gameActivity == None
      && u.friends == []
      && u.friendRequests == []
      && r.reply.value == PublicView(u)
      && r.state.clock == st.clock + 1
    ensures r.state.chats == st.chats && r.state.outbox == st.outbox
    ensures r.state.sockets == st.sockets && r.state.subs == st.subs && r.state.closed == st.closed
  {
    if !Truthy(username) || !Truthy(password) then
      Step(st, Err(400, "Username and password required"))
    else if NameIndex(st.users, username.value).Some? then
      Step(st, Err(409, "Username taken"))
    else
      var u := NewUser(st, username.value, password.value);
      Step(st.(users := st.users + [u], clock := st.clock + 1), Ok(PublicView(u)))
  }

  /** The credentials of a login request name this user. */
  predicate SignsIn(u: User, name: string, pw: string) {
    Lower(u.username) == Lower(name) && u.password == Some(pw)
  }

  ghost predicate SomeoneSignsIn(users: seq<User>, name: string, pw: string) {
    exists j :: 0 <= j < |users| && SignsIn(users[j], name, pw)
  }

  /** POST /api/login: the first user whose name matches up to case and
      whose password is the given one. Seeded users have no password and
      so can never sign in. */
  function Login(st: State, username: Option<string>, password: Option<string>): (r: Reply<Profile>)
    ensures r == Err(400, "Username and password required") <==> !Truthy(username) || !Truthy(password)
    ensures r == Err(401, "Invalid credentials") <==>
      Truthy(username) && Truthy(password) && !SomeoneSignsIn(st.users, username.value, password.value)
    ensures r.Ok? <==> Truthy(username) && Truthy(password) && SomeoneSignsIn(st.users, username.value, password.value)
    ensures r.Ok? ==>
      exists j :: 0 <= j < |st.users| && SignsIn(st.users[j], username.value, password.value)
                  && (forall k :: 0 <= k < j ==> !SignsIn(st.users[k], username.value, password.value))
                  && r.value == PublicView(st.users[j])
  {
    if !Truthy(username) || !Truthy(password) then Err(400, "Username and password required")
    else
      var name, pw := username.value, password.value;
      match FirstIndex(st.users, (u: User) => SignsIn(u, name, pw))
      case Some(j) => Ok(PublicView(st.users[j]))
      case None => Err(401, "Invalid credentials")
  }

  /** POST /api/users/search: look a user up by name, ignoring case. */
  function Search(st: State, username: Option<string>): (r: Reply<Profile>)
    ensures r == Err(400, "Username required") <==> !Truthy(username)
    ensures r == Err(404, "User not found") <==> Truthy(username) && !NameTaken(st.users, username.value)
    ensures r.Ok? <==> Truthy(username) && NameTaken(st.users, username.value)
    ensures r.Ok? ==>
      exists j :: 0 <= j < |st.users| && Lower(st.users[j].username) == Lower(username.value)
                  && (forall k :: 0 <= k < j ==> Lower(st.users[k].username) != Lower(username.value))
                  && r.value == PublicView(st.users[j])
  {
    if !Truthy(username) then Err(400, "Username required")
    else match NameIndex(st.users, username.value)
      case Some(j) => Ok(PublicView(st.users[j]))
      case None => Err(404, "User not found")
  }

  /** The fields a profile update may set; a falsy avatar or status, and an
      absent game activity, leave the stored value alone. */
  function Patched(u: User, avatar: Option<string>, status: Option<string>, gameActivity: Option<string>): User {
    u.(avatar := if Truthy(avatar) then avatar.value else u.avatar,
       status := if Truthy(status) then status else u.status,
       gameActivity := if gameActivity.Some? then gameActivity else u.gameActivity)
  }

  /** PUT /api/users/:userId. Overwrites avatar and status only with truthy
      values and the game activity whenever it is given, keeps everything
      else, and broadcasts the new profile to every socket. */
  function UpdateProfile(st: State, userId: UserId, avatar: Option<string>, status: Option<string>,
                         gameActivity: Option<string>): (r: Step<Profile>)
    ensures r.reply == Err(404, "User not found") <==> !Known(st.users, userId)
    ensures r.reply.Ok? <==> Known(st.users, userId)
    ensures r.reply.Err? ==> r.state == st
    ensures r.reply.Ok? ==>
      exists i :: 0 <= i < |st.users| && st.users[i].id == userId
        && |r.state.users| == |st.users|
        && (forall k :: 0 <= k < |st.users| && k != i ==> r.state.users[k] == st.users[k])
        && var (u, u') := (st.users[i], r.state.users[i]);
        && (forall k :: 0 <= k < i ==> st.users[k].id != userId)
        && u'.id == u.id && u'.username == u.username && u'.password == u.password
        && u'.friends == u.friends && u'.friendRequests == u.friendRequests
        && u'.avatar == (if Truthy(avatar) then avatar.value else u.avatar)
        && u'.status == (if Truthy(status) then status else u.status)
        && u'.gameActivity == (if gameActivity.Some? then gameActivity else u.gameActivity)
        && r.reply.value == PublicView(u')
        && r.state.outbox == st.outbox + [Emission(Everyone, UserUpdate(r.reply.value))]
    ensures r.state.chats == st.chats && r.state.clock == st.clock
    ensures r.state.sockets == st.sockets && r.state.subs == st.subs && r.state.closed == st.closed
  {
    match UserIndex(st.users, userId)
    case None => Step(st, Err(404, "User not found"))
    case Some(i) =>
      var u := Patched(st.users[i], avatar, status, gameActivity);
      var p := PublicView(u);
      Step(st.(users := st.users[i := u], outbox := st.outbox + [Emission(Everyone, UserUpdate(p))]), Ok(p))
  }

  // ----- Properties -----

  /** A user who just registered can log in with the same credentials and
      receives the profile the registration returned. */
  lemma LoginAfterRegister(st: State, name: string, pw: string)
    requires Register(st, Some(name), Some(pw)).reply.Ok?
    ensures Login(Register(st, Some(name), Some(pw)).state, Some(name), Some(pw))
            == Register(st, Some(name), Some(pw)).reply
  {
    var r := Register(st, Some(name), Some(pw));
    var users := r.state.users;
    var n := |st.users|;
    assert users[n] == NewUser(st, name, pw);
    var found := FirstIndex(users, (u: User) => SignsIn(u, name, pw));
    assert SignsIn(users[n], name, pw);
  }

  /** After registering "name", a search for any spelling that agrees with
      it up to case finds the new user. */
  lemma SearchAfterRegister(st: State, name: string, pw: string, query: string)
    requires Register(st, Some(name), Some(pw)).reply.Ok?
    requires query != "" && Lower(query) == Lower(name)
    ensures Search(Register(st, Some(name), Some(pw)).state, Some(query))
            == Register(st, Some(name), Some(pw)).reply
  {
    var r := Register(st, Some(name), Some(pw));
    var users := r.state.users;
    var n := |st.users|;
    var found := NameIndex(users, query);
    assert Lower(users[n].username) == Lower(query);
  }

  /** Repeating a profile update changes no stored record again. */
  lemma UpdateProfileIdempotent(st: State, userId: UserId, avatar: Option<string>, status: Option<string>,
                                gameActivity: Option<string>)
    ensures var once := UpdateProfile(st, userId, avatar, status, gameActivity);
            var twice := UpdateProfile(once.state, userId, avatar, status, gameActivity);
            twice.state.users == once.state.users && twice.reply == once.reply
  {
    var once := UpdateProfile(st, userId, avatar, status, gameActivity);
    if once.reply.Ok? {
      var i := UserIndex(st.users, userId).value;
      assert UserIndex(once.state.users, userId) == Some(i) by {
        var j := UserIndex(once.state.users, userId);
        assert once.state.users[i].id == userId;
      }
    }
  }

  // ----- Invariant preservation -----

  lemma RegisterPreservesValid(st: State, username: Option<string>, password: Option<string>)
    requires Valid(st)
    ensures Valid(Register(st, username, password).state)
  {
    var r := Register(st, username, password);
    if r.reply.Ok? {
      var users := r.state.users;
      var n := |st.users|;
      var u := users[n];
      assert u.id == StampedUser(st.clock);
      assert !Known(st.users, u.id);
      forall id | Known(st.users, id) ensures Known(users, id) {
        var j :| 0 <= j < n && st.users[j].id == id;
        assert users[j].id == id;
      }
      assert UniqueUserIds(users);
      assert !NameTaken(st.users, username.value);
      assert UniqueNames(users);
      forall i, j | 0 <= i < |users| && 0 <= j < |users|
        ensures users[j].id in users[i].friends <==> users[i].id in users[j].friends
      {
        if i == n && j < n {
          assert users[j].id !in users[i].friends;
          assert users[i].id !in users[j].friends;
        } else if j == n && i < n {
          assert users[j].id !in users[i].friends;
          assert users[i].id !in users[j].friends;
        }
      }
      assert FriendsSymmetric(users);
    }
  }

  lemma UpdateProfilePreservesValid(st: State, userId: UserId, avatar: Option<string>, status: Option<string>,
                                    gameActivity: Option<string>)
    requires Valid(st)
    ensures Valid(UpdateProfile(st, userId, avatar, status, gameActivity).state)
  {
    var r := UpdateProfile(st, userId, avatar, status, gameActivity);
    if r.reply.Ok? {
      var users := r.state.users;
      assert SameGraph(st.users, users);
      SameGraphValid(st.users, users);
      forall i, q | 0 <= i < |users| && q in users[i].friendRequests
        ensures q.to == users[i].id && q.from != q.to && Known(users, q.from)
      {
        assert q in st.users[i].friendRequests;
        SameGraphKnown(st.users, users, q.from);
      }
      assert RequestsDistinct(users) by {
        forall i | 0 <= i < |users| ensures users[i].friendRequests == st.users[i].friendRequests { }
      }
    }
  }
}
