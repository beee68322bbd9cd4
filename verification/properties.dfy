/** Properties of handler sequences, as a client of the store sees them. */
module Properties {
  import opened Records
  import opened Warbler

  /** Two like requests in a row on the same message, with valid forms, answer alike and
      leave the like edges as they were. */
  method LikeTwice(store: Store, id: MessageId) returns (first: Response, second: Response)
    requires store.Valid()
    modifies store`likes
    ensures store.Valid()
    ensures store.likes == old(store.likes)
    ensures first == second
  {
    first := store.LikeMessage(id, true);
    second := store.LikeMessage(id, true);
    if store.CurrentUser().Some? {
      ToggleTwice(old(store.likes), store.CurrentUser().value, id);
    }
  }

  /** Following a user not yet followed and then unfollowing them restores the follow edges;
      a second unfollow raises, because the edge is gone. */
  method FollowUnfollowUnfollow(store: Store, id: UserId) returns (follow: Response, stop: Response, again: Response)
    requires store.Valid()
    requires store.CurrentUser().Some? && id in store.users
    requires (store.CurrentUser().value, id) !in store.follows
    modifies store
    ensures store.Valid()
    ensures follow == stop == Redirect(FollowingPath(old(store.CurrentUser()).value), NoAlert)
    ensures store.follows == old(store.follows)
    ensures again == ServerError
  {
    follow := store.StartFollowing(id);
    stop := store.StopFollowing(id);
    again := store.StopFollowing(id);
  }

  /** After the author deletes a message its page is not found. */
  method DeleteThenShow(store: Store, id: MessageId) returns (deleted: Response, shown: Response)
    requires store.Valid()
    requires id in store.messages && store.CurrentUser() == Some(store.messages[id].userId)
    modifies store
    ensures deleted == Redirect(UserPath(old(store.messages)[id].userId), NoAlert)
    ensures shown == NotFound
  {
    deleted := store.DeleteMessage(id);
    shown := store.ShowMessage(id);
  }

  /** Logging out twice leaves the session as logging out once does: empty. */
  method LogoutTwice(store: Store)
    modifies store`session
    ensures store.session == None && store.CurrentUser() == None
  {
    store.DoLogout();
    store.DoLogout();
  }
}
