/** The request handlers of Warbler over one store: the session slot, the
    user and message tables and the follow and like edge sets. Each handler
    resolves the current user from the session first, as the before-request
    hook does, and then runs its guards in the order the route checks them. */
module Warbler {
  import opened Records
  import opened Timeline

  /** The like edges after the like button: the edge (user, msg) flips, no other edge moves. */
  function Toggle(likes: set<(UserId, MessageId)>, user: UserId, msg: MessageId): (r: set<(UserId, MessageId)>)
    ensures (user, msg) in r <==> (user, msg) !in likes
    ensures forall e :: e != (user, msg) ==> (e in r <==> e in likes)
  {
    if (user, msg) in likes then likes - {(user, msg)} else likes + {(user, msg)}
  }

  /** Pressing the like button twice leaves the like edges as they were. */
  lemma ToggleTwice(likes: set<(UserId, MessageId)>, user: UserId, msg: MessageId)
    ensures Toggle(Toggle(likes, user, msg), user, msg) == likes
  {
  }

  /** The users already holding `username` or `email` (both columns are unique). */
  function HoldersOf(users: map<UserId, User>, username: string, email: string): (r: set<UserId>)
    ensures forall k :: k in r <==> k in users && (users[k].username == username || users[k].email == email)
  {
    set k | k in users && (users[k].username == username || users[k].email == email)
  }

  /** No two users share a username or an email. */
  ghost predicate UniqueHandles(users: map<UserId, User>) {
    forall a, b :: a in users && b in users && a != b ==>
      users[a].username != users[b].username && users[a].email != users[b].email
  }

  class Store {
    /** The session slot under the current-user key: the id stored at login. */
    var session: Option<UserId>
    var users: map<UserId, User>
    var messages: map<MessageId, Message>
    /** Follow edges (follower, followed). */
    var follows: set<(UserId, UserId)>
    /** Like edges (user, message). */
    var likes: set<(UserId, MessageId)>
    /** The next values of the two serial primary keys; ids are never reused. */
    var nextUserId: nat
    var nextMessageId: nat

    ghost predicate Valid()
      reads this
    {
      && (forall k :: k in users ==> k < nextUserId)
      && (forall k :: k in messages ==> k < nextMessageId && messages[k].id == k)
      && (forall e :: e in likes ==> e.1 < nextMessageId)
      && UniqueHandles(users)
      // nobody likes their own message
      && (forall e :: e in likes && e.1 in messages ==> messages[e.1].userId != e.0)
    }

    constructor ()
      ensures Valid()
      ensures session == None && users == map[] && messages == map[]
      ensures follows == {} && likes == {}
    {
      session := None;
      users := map[];
      messages := map[];
      follows := {};
      likes := {};
      nextUserId := 1;
      nextMessageId := 1;
    }

    /** The current user of a request: the id in the session slot, provided it still names a user. */
    function CurrentUser(): (r: Option<UserId>)
      reads this`session, this`users
      ensures r.Some? ==> session == r && r.value in users
      ensures r.None? ==> session.None? || session.value !in users
    {
      if session.Some? && session.value in users then session else None
    }

    /** The ids `user` follows. */
    function Following(user: UserId): (r: set<UserId>)
      reads this`follows
      ensures forall v :: v in r <==> (user, v) in follows
    {
      set e | e in follows && e.0 == user :: e.1
    }

    /** The ids following `user`. */
    function Followers(user: UserId): (r: set<UserId>)
      reads this`follows
      ensures forall v :: v in r <==> (v, user) in follows
    {
      set e | e in follows && e.1 == user :: e.0
    }

    /** The ids of the messages `user` likes. */
    function LikedBy(user: UserId): (r: set<MessageId>)
      reads this`likes
      ensures forall m :: m in r <==> (user, m) in likes
    {
      set e | e in likes && e.0 == user :: e.1
    }

    /** True when some entry of `items` shows message `id`. */
    ghost predicate Shows(items: seq<FeedItem>, id: MessageId) {
      exists i :: 0 <= i < |items| && items[i].message.id == id
    }

    /** `items` is the home timeline of `me`: distinct stored messages of `me` and of
        the users `me` follows, newest first, at most a page, missing a qualifying message
        only when the page is full of messages no older than it, each flagged liked
        exactly when `me` likes it. */
    ghost predicate IsHomeFeed(me: UserId, items: seq<FeedItem>)
      reads this
    {
      && |items| <= PageSize
      && (forall i :: 0 <= i < |items| ==>
            && items[i].message.id in messages
            && messages[items[i].message.id] == items[i].message
            && (items[i].message.userId == me || (me, items[i].message.userId) in follows)
            && (items[i].isLiked <==> (me, items[i].message.id) in likes))
      && (forall i, j :: 0 <= i < j < |items| ==>
            items[i].message.timestamp >= items[j].message.timestamp &&
            items[i].message.id != items[j].message.id)
      && (forall id ::
            (id in messages && (messages[id].userId == me || (me, messages[id].userId) in follows) &&
             !Shows(items, id)) ==>
            |items| == PageSize &&
            forall i :: 0 <= i < |items| ==> messages[id].timestamp <= items[i].message.timestamp)
    }

    // ---------------------------------------------------------------- session

    /** Log in: store the user's id in the session slot. */
    method DoLogin(user: UserId)
      modifies this`session
      ensures session == Some(user)
    {
      session := Some(user);
    }

    /** Log out: clear the session slot if it is set. */
    method DoLogout()
      modifies this`session
      ensures session == None
    {
      if session.Some? {
        session := None;
      }
    }

    /** POST /signup. The session is cleared first, whatever happens next. A valid form
        whose username or email is already held is refused by the unique constraints. */
    method Signup(formValid: bool, form: SignupForm) returns (r: Response)
      requires Valid()
      modifies this`session, this`users, this`nextUserId
      ensures Valid()
      ensures !formValid ==>
        r == Render(SignupView, NoAlert) && session == None &&
        users == old(users) && nextUserId == old(nextUserId)
      ensures formValid && HoldersOf(old(users), form.username, form.email) != {} ==>
        r == Render(SignupView, UsernameTaken) && session == None &&
        users == old(users) && nextUserId == old(nextUserId)
      ensures formValid && HoldersOf(old(users), form.username, form.email) == {} ==>
        && r == Redirect(Root, NoAlert)
        && old(nextUserId) !in old(users)
        && users == old(users)[old(nextUserId) := User(
             form.username, form.email,
             if form.imageUrl == "" then DefaultImageUrl else form.imageUrl,
             DefaultHeaderImageUrl, "")]
        && nextUserId == old(nextUserId) + 1
        && CurrentUser() == Some(old(nextUserId))
    {
      DoLogout();
      if !formValid {
        return Render(SignupView, NoAlert);
      }
      if HoldersOf(users, form.username, form.email) != {} {
        return Render(SignupView, UsernameTaken);
      }
      var id := nextUserId;
      var image := if form.imageUrl == "" then DefaultImageUrl else form.imageUrl;
      users := users[id := User(form.username, form.email, image, DefaultHeaderImageUrl, "")];
      nextUserId := nextUserId + 1;
      DoLogin(id);
      r := Redirect(Root, NoAlert);
    }

    /** POST /login. `authenticated` is what the credential check returned: the matching
        stored user or none. */
    method Login(formValid: bool, authenticated: Option<UserId>) returns (r: Response)
      requires authenticated.Some? ==> authenticated.value in users
      modifies this`session
      ensures formValid && authenticated.Some? ==>
        r == Redirect(Root, Welcome(authenticated.value)) && session == authenticated &&
        CurrentUser() == authenticated
      ensures formValid && authenticated.None? ==>
        r == Render(LoginView, InvalidCredentials) && session == old(session)
      ensures !formValid ==> r == Render(LoginView, NoAlert) && session == old(session)
    {
      if formValid {
        if authenticated.Some? {
          DoLogin(authenticated.value);
          return Redirect(Root, Welcome(authenticated.value));
        }
        return Render(LoginView, InvalidCredentials);
      }
      r := Render(LoginView, NoAlert);
    }

    /** POST /logout: the session is cleared only for a signed-in user with a valid CSRF form. */
    method Logout(csrfValid: bool) returns (r: Response)
      modifies this`session
      ensures old(CurrentUser()).None? ==> r == Denied && session == old(session)
      ensures old(CurrentUser()).Some? ==>
        if csrfValid then r == Redirect(Root, LoggedOut) && session == None && CurrentUser() == None
        else r == Redirect(Root, NoAlert) && session == old(session)
    {
      if CurrentUser().None? {
        return Denied;
      }
      if csrfValid {
        DoLogout();
        return Redirect(Root, LoggedOut);
      }
      r := Redirect(Root, NoAlert);
    }

    // ------------------------------------------------------------- user pages

    /** GET /users: the user listing (its search query is not modelled). */
    method ListUsers() returns (r: Response)
      ensures CurrentUser().None? ==> r == Denied
      ensures CurrentUser().Some? ==> r == Render(UserIndexView, NoAlert)
    {
      if CurrentUser().None? {
        return Denied;
      }
      r := Render(UserIndexView, NoAlert);
    }

    /** GET /users/<id>. */
    method ShowUser(userId: UserId) returns (r: Response)
      ensures CurrentUser().None? ==> r == Denied
      ensures CurrentUser().Some? && userId !in users ==> r == NotFound
      ensures CurrentUser().Some? && userId in users ==> r == Render(UserView(userId), NoAlert)
    {
      if CurrentUser().None? {
        return Denied;
      }
      if userId !in users {
        return NotFound;
      }
      r := Render(UserView(userId), NoAlert);
    }

    /** GET /users/<id>/following: the users `userId` follows. */
    method ShowFollowing(userId: UserId) returns (r: Response)
      ensures CurrentUser().None? ==> r == Denied
      ensures CurrentUser().Some? && userId !in users ==> r == NotFound
      ensures CurrentUser().Some? && userId in users ==>
        r.Render? && r.view.FollowingView? && r.view.user == userId &&
        forall v :: v in r.view.following <==> (userId, v) in follows
    {
      if CurrentUser().None? {
        return Denied;
      }
      if userId !in users {
        return NotFound;
      }
      r := Render(FollowingView(userId, Following(userId)), NoAlert);
    }

    /** GET /users/<id>/followers: the users following `userId`. */
    method ShowFollowers(userId: UserId) returns (r: Response)
      ensures CurrentUser().None? ==> r == Denied
      ensures CurrentUser().Some? && userId !in users ==> r == NotFound
      ensures CurrentUser().Some? && userId in users ==>
        r.Render? && r.view.FollowersView? && r.view.user == userId &&
        forall v :: v in r.view.followers <==> (v, userId) in follows
    {
      if CurrentUser().None? {
        return Denied;
      }
      if userId !in users {
        return NotFound;
      }
      r := Render(FollowersView(userId, Followers(userId)), NoAlert);
    }

    /** GET /users/<id>/likes: the messages `userId` likes. */
    method ListLikedMessages(userId: UserId) returns (r: Response)
      ensures CurrentUser().None? ==> r == Denied
      ensures CurrentUser().Some? && userId !in users ==> r == NotFound
      ensures CurrentUser().Some? && userId in users ==>
        r.Render? && r.view.LikedView? && r.view.user == userId &&
        forall m :: m in r.view.liked <==> (userId, m) in likes
    {
      if CurrentUser().None? {
        return Denied;
      }
      if userId !in users {
        return NotFound;
      }
      r := Render(LikedView(userId, LikedBy(userId)), NoAlert);
    }

    // ----------------------------------------------------------- follow edges

    /** POST /users/follow/<id>: add the edge (me, followId); an unknown id is not found. */
    method StartFollowing(followId: UserId) returns (r: Response)
      requires Valid()
      modifies this`follows
      ensures Valid()
      ensures old(CurrentUser()).None? ==> r == Denied && follows == old(follows)
      ensures old(CurrentUser()).Some? && followId !in users ==> r == NotFound && follows == old(follows)
      ensures old(CurrentUser()).Some? && followId in users ==>
        var me := old(CurrentUser()).value;
        r == Redirect(FollowingPath(me), NoAlert) &&
        follows == old(follows) + {(me, followId)} &&
        followId in Following(me) && me in Followers(followId)
    {
      var me := CurrentUser();
      if me.None? {
        return Denied;
      }
      if followId !in users {
        return NotFound;
      }
      follows := follows + {(me.value, followId)};
      r := Redirect(FollowingPath(me.value), NoAlert);
    }

    /** POST /users/stop-following/<id>: remove the edge (me, followId). The lookup does not
        answer not-found and the removal is unguarded, so an unknown id or a user not
        currently followed raises instead of being a no-op. */
    method StopFollowing(followId: UserId) returns (r: Response)
      requires Valid()
      modifies this`follows
      ensures Valid()
      ensures old(CurrentUser()).None? ==> r == Denied && follows == old(follows)
      ensures old(CurrentUser()).Some? ==>
        var me := old(CurrentUser()).value;
        if followId in users && (me, followId) in old(follows) then
          r == Redirect(FollowingPath(me), NoAlert) &&
          follows == old(follows) - {(me, followId)} &&
          followId !in Following(me)
        else
          r == ServerError && follows == old(follows)
    {
      var me := CurrentUser();
      if me.None? {
        return Denied;
      }
      if followId !in users || (me.value, followId) !in follows {
        return ServerError;
      }
      follows := follows - {(me.value, followId)};
      r := Redirect(FollowingPath(me.value), NoAlert);
    }

    // --------------------------------------------------------------- accounts

    /** POST /users/profile. The five fields are overwritten only when the form is valid and
        the entered password re-authenticates the user; a new username or email held by
        another user fails at commit. */
    method Profile(formValid: bool, passwordOk: bool, form: ProfileForm) returns (r: Response)
      requires Valid()
      modifies this`users
      ensures Valid()
      ensures old(CurrentUser()).None? ==> r == Denied && users == old(users)
      ensures old(CurrentUser()).Some? && !formValid ==>
        r == Render(EditProfileView, NoAlert) && users == old(users)
      ensures old(CurrentUser()).Some? && formValid && !passwordOk ==>
        r == Render(EditProfileView, WrongPassword) && users == old(users)
      ensures old(CurrentUser()).Some? && formValid && passwordOk ==>
        var me := old(CurrentUser()).value;
        if HoldersOf(old(users), form.username, form.email) - {me} != {} then
          r == ServerError && users == old(users)
        else
          r == Redirect(UserPath(me), NoAlert) &&
          users == old(users)[me := User(form.username, form.email, form.imageUrl,
                                         form.headerImageUrl, form.bio)]
    {
      var me := CurrentUser();
      if me.None? {
        return Denied;
      }
      if !formValid {
        return Render(EditProfileView, NoAlert);
      }
      if !passwordOk {
        return Render(EditProfileView, WrongPassword);
      }
      var holders := HoldersOf(users, form.username, form.email);
      if holders - {me.value} != {} {
        return ServerError;
      }
      forall k | k in users && k != me.value
        ensures users[k].username != form.username && users[k].email != form.email
      {
        assert k !in holders - {me.value};
      }
      users := users[me.value := User(form.username, form.email, form.imageUrl,
                                      form.headerImageUrl, form.bio)];
      r := Redirect(UserPath(me.value), NoAlert);
    }

    /** POST /users/delete: log out, then delete the current user's row. */
    method DeleteUser() returns (r: Response)
      requires Valid()
      modifies this`session, this`users
      ensures Valid()
      ensures old(CurrentUser()).None? ==> r == Denied && unchanged(this)
      ensures old(CurrentUser()).Some? ==>
        r == Redirect(SignupPath, NoAlert) &&
        session == None &&
        users == old(users) - {old(CurrentUser()).value} &&
        CurrentUser() == None
    {
      var me := CurrentUser();
      if me.None? {
        return Denied;
      }
      DoLogout();
      users := users - {me.value};
      r := Redirect(SignupPath, NoAlert);
    }

    // --------------------------------------------------------------- messages

    /** POST /messages/new: a valid form adds a message owned by the current user,
        stamped `now` and keyed by the next message id. */
    method AddMessage(formValid: bool, text: string, now: int) returns (r: Response)
      requires Valid()
      modifies this`messages, this`nextMessageId
      ensures Valid()
      ensures old(CurrentUser()).None? ==> r == Denied && unchanged(this)
      ensures old(CurrentUser()).Some? && !formValid ==>
        r == Render(NewMessageView, NoAlert) && unchanged(this)
      ensures old(CurrentUser()).Some? && formValid ==>
        var me := old(CurrentUser()).value;
        var id := old(nextMessageId);
        && r == Redirect(UserPath(me), NoAlert)
        && id !in old(messages)
        && messages == old(messages)[id := Message(id, me, text, now)]
        && nextMessageId == id + 1
    {
      var me := CurrentUser();
      if me.None? {
        return Denied;
      }
      if !formValid {
        return Render(NewMessageView, NoAlert);
      }
      var id := nextMessageId;
      messages := messages[id := Message(id, me.value, text, now)];
      nextMessageId := nextMessageId + 1;
      r := Redirect(UserPath(me.value), NoAlert);
    }

    /** GET /messages/<id>: the message with its liked flag for the current user. */
    method ShowMessage(id: MessageId) returns (r: Response)
      ensures CurrentUser().None? ==> r == Denied
      ensures CurrentUser().Some? && id !in messages ==> r == NotFound
      ensures CurrentUser().Some? && id in messages ==>
        r.Render? && r.alert == NoAlert && r.view.MessageView? &&
        r.view.item.message == messages[id] &&
        (r.view.item.isLiked <==> (CurrentUser().value, id) in likes)
    {
      var me := CurrentUser();
      if me.None? {
        return Denied;
      }
      if id !in messages {
        return NotFound;
      }
      var liked := LikedBy(me.value);
      r := Render(MessageView(FeedItem(messages[id], id in liked)), NoAlert);
    }

    /** POST /messages/<id>/delete. The message is looked up before the gate, so an unknown
        id is not found even when nobody is signed in; only the author may delete. */
    method DeleteMessage(id: MessageId) returns (r: Response)
      requires Valid()
      modifies this`messages
      ensures Valid()
      ensures id !in old(messages) ==> r == NotFound && messages == old(messages)
      ensures id in old(messages) &&
              (old(CurrentUser()).None? || old(CurrentUser()).value != old(messages)[id].userId) ==>
        r == Denied && messages == old(messages)
      ensures id in old(messages) && old(CurrentUser()) == Some(old(messages)[id].userId) ==>
        r == Redirect(UserPath(old(messages)[id].userId), NoAlert) &&
        messages == old(messages) - {id}
    {
      if id !in messages {
        return NotFound;
      }
      var me := CurrentUser();
      if me.None? || me.value != messages[id].userId {
        return Denied;
      }
      messages := messages - {id};
      r := Redirect(UserPath(me.value), NoAlert);
    }

    /** POST /messages/<id>/like: toggle the like of the current user on a message of
        someone else, provided the CSRF form is valid. */
    method LikeMessage(id: MessageId, csrfValid: bool) returns (r: Response)
      requires Valid()
      modifies this`likes
      ensures Valid()
      ensures old(CurrentUser()).None? ==> r == Denied && likes == old(likes)
      ensures old(CurrentUser()).Some? && id !in messages ==> r == NotFound && likes == old(likes)
      ensures old(CurrentUser()).Some? && id in messages && messages[id].userId == old(CurrentUser()).value ==>
        r == Redirect(Root, CannotLikeOwn) && likes == old(likes)
      ensures old(CurrentUser()).Some? && id in messages && messages[id].userId != old(CurrentUser()).value ==>
        var me := old(CurrentUser()).value;
        r == Redirect(UserPath(me), NoAlert) &&
        likes == if csrfValid then Toggle(old(likes), me, id) else old(likes)
    {
      var me := CurrentUser();
      if me.None? {
        return Denied;
      }
      if id !in messages {
        return NotFound;
      }
      if messages[id].userId == me.value {
        return Redirect(Root, CannotLikeOwn);
      }
      if csrfValid {
        if (me.value, id) in likes {
          likes := likes - {(me.value, id)};
        } else {
          likes := likes + {(me.value, id)};
        }
      }
      r := Redirect(UserPath(me.value), NoAlert);
    }

    // -------------------------------------------------------------- home page

    /** GET /: the anonymous landing page, or the home timeline of the current user. */
    method Homepage() returns (r: Response)
      requires Valid()
      ensures CurrentUser().None? ==> r == Render(AnonHomeView, NoAlert)
      ensures CurrentUser().Some? ==>
        r.Render? && r.alert == NoAlert && r.view.HomeView? &&
        IsHomeFeed(CurrentUser().value, r.view.items)
    {
      var me := CurrentUser();
      if me.None? {
        return Render(AnonHomeView, NoAlert);
      }
      var owners := Following(me.value) + {me.value};
      var rows := Scan(messages, nextMessageId);
      ScanIsTable(messages, nextMessageId);
      var feed := Select(rows, owners);
      SelectIsNewestPage(rows, owners);
      var items := MarkLiked(feed, LikedBy(me.value));
      forall id | id in messages && messages[id].userId in owners && !Shows(items, id)
        ensures |items| == PageSize &&
                forall i :: 0 <= i < |items| ==> messages[id].timestamp <= items[i].message.timestamp
      {
        assert messages[id] in rows;
      }
      r := Render(HomeView(items), NoAlert);
    }
  }
}
