# Warbler request handlers in Dafny

Warbler is a small social feed: users sign up, log in, post short messages
("warbles"), follow other users and like messages. All of its logic lives in the
route handlers of `app.py`, which sit on a web framework and an ORM. Without those
two, the handlers form a state machine over one store. This project models that
store and proves properties of it.

The store has these parts:

- a session slot holding the id stored at login, or nothing;
- the user table and the message table, as maps from primary key to row;
- the follow edges (follower, followed) and the like edges (user, message), as sets;
- the next value of each serial primary key, so that ids are never reused.

The project has four modules:

- `Records` (`records.dfy`): rows, form inputs, redirect targets, flash alerts,
  rendered views and the `Response` of a request.
  `ServerError` stands for an exception the handler does not catch.
- `Timeline` (`timeline.dfy`): the home-page query as pure functions. It scans the
  message table in key order, keeps the rows owned by the viewer or by someone the
  viewer follows, sorts them newest first and takes at most 100. A loop then sets the
  liked flag on each selected message.
- `Warbler` (`warbler.dfy`): the `Store` class. Each route is a method that changes
  only the fields its `modifies` clause names. Each method resolves the current user
  first, as the before-request hook does, then runs its guards in the order the route
  does.
- `Properties` (`properties.dfy`): what a client sees after sequences of requests:
  liking twice, follow then unfollow, delete then show, logging out twice.

`Store.Valid()` is the invariant that every state-changing handler keeps:

- every key is below its counter;
- every message row carries its own key;
- like edges only name message ids already handed out;
- usernames are unique, and so are emails;
- nobody likes their own message.

The likes part of the invariant is kept only by the like handler's guard and by fresh
message ids; the storage layer does not enforce it.

Inputs from collaborators outside the model:

- form validation and CSRF checks are booleans;
- the result of the credential check is an input: the matching user id at login, a
  boolean when the profile edit re-checks the password;
- the clock is the `now` argument of `AddMessage`.

## Behaviour of the code worth noting

- Unfollowing a user you do not follow, or an unknown id, raises; it is not a no-op.
  The handler looks the user up without a not-found answer and removes the edge
  from the `following` list without a guard. `StopFollowing` answers `ServerError`
  and changes nothing.
- A profile edit re-checks only the password. A new username or email that another
  user already holds breaks a unique constraint at commit, and the handler does not
  catch that error. `Profile` answers `ServerError` and changes nothing.
- `start_following` does not refuse a self-follow, and neither does the model.
- Signup clears the session before anything else, so even a request that only shows
  the form logs the current user out.

## Model

| member | source | states |
|---|---|---|
| `Warbler.Store.CurrentUser` | app.py:37-45 | The current user is the id in the session slot when that id names a stored user, and none when the slot is empty or the user is gone. |
| `Warbler.Store.DoLogin` | app.py:53-56 | Login stores the user's id in the session slot. |
| `Warbler.Store.DoLogout` | app.py:59-63 | Logout leaves the session slot empty, whether or not it was set. |
| `Warbler.Store.Signup` | app.py:66-101 | The session is cleared in every case. An invalid form re-renders and adds nothing. A username or email already held re-renders with the "taken" alert and leaves the users unchanged. Otherwise one user is added under the next id, with the default image when none is given, and that user becomes the current user. Valid() is kept. |
| `Warbler.Store.Login` | app.py:104-122 | The credential check only ever names a stored user. A valid form whose credentials match sets the session to that user, who is then the current user, and redirects to `/`. A mismatch re-renders with an alert and leaves the session alone, as does an invalid form. |
| `Warbler.Store.Logout` | app.py:125-144 | An anonymous request is denied and the session is kept. Otherwise a valid CSRF form empties the session, so there is no current user afterwards; an invalid form keeps it. The redirect is to `/` either way. |
| `Warbler.Store.ListUsers` | app.py:152-170 | Anonymous requests are redirected to `/` with the unauthorized alert; signed-in users get the user index. |
| `Warbler.Store.ShowUser` | app.py:173-183 | Authentication gate first, then not-found for an unknown id, else the profile page of that user. |
| `Warbler.Store.ShowFollowing` | app.py:186-195 | After the gate and the not-found check, the page lists exactly the users that the user follows. |
| `Warbler.Store.ShowFollowers` | app.py:198-207 | After the gate and the not-found check, the page lists exactly the users who follow that user. |
| `Warbler.Store.ListLikedMessages` | app.py:404-414 | After the gate and the not-found check, the page lists exactly the messages that the user likes. |
| `Warbler.Store.StartFollowing` | app.py:210-225 | Anonymous: denied, no edge changes. Unknown target: not-found, no change. Otherwise the edge (me, target) is added and nothing else changes. The target is then among the ids I follow and I am among its followers, and the response redirects to my following page. |
| `Warbler.Store.StopFollowing` | app.py:228-243 | Anonymous: denied, no change. If the target exists and I follow it, exactly that edge is removed, so I no longer follow the target. Otherwise the unguarded removal raises: ServerError, no change. |
| `Warbler.Store.Profile` | app.py:246-278 | The five profile fields of the current user are overwritten only when the form is valid and the password re-check succeeds. A failed re-check re-renders with an alert and changes no field. A clash with another user's username or email fails at commit, with no change. Uniqueness is kept. |
| `Warbler.Store.DeleteUser` | app.py:281-297 | Anonymous: denied, the store is unchanged. Otherwise the session is cleared, the current user's row is removed and nobody is signed in afterwards. The response redirects to the signup page. |
| `Warbler.Store.AddMessage` | app.py:303-323 | Anonymous: denied, the store is unchanged. An invalid form re-renders and changes nothing. Otherwise a message owned by the current user, with the given text and time, is added under a fresh id. No other message changes and the next id moves on. |
| `Warbler.Store.ShowMessage` | app.py:326-343 | Authentication gate first, then not-found for an unknown id. Otherwise the page shows the stored message, flagged liked exactly when the current user likes it. |
| `Warbler.Store.DeleteMessage` | app.py:346-363 | An unknown id is not-found even for anonymous users. The message is removed, and nothing else, exactly when a current user exists and is its author. Otherwise the request is denied with a redirect to `/` and the messages are unchanged. |
| `Warbler.Store.LikeMessage` | app.py:366-402 | The guards run in order: anonymous is denied, an unknown message is not-found, the user's own message gets the "cannot like" alert with no change. Then a valid CSRF form toggles the user's like on the message, and an invalid one changes nothing; the redirect is to the user's page in both cases. Only the like edges can change, and no self-like is ever created. |
| `Warbler.Store.Homepage` | app.py:424-456 | Anonymous: the landing page. Otherwise the home timeline: at most 100 distinct stored messages, owned by the viewer or by someone the viewer follows, newest first. A qualifying message is left out only when the page is full of messages no older than it. Each message is flagged liked exactly when the viewer likes it. |
| `Warbler.Toggle` | app.py:392-398 | The like edge (user, message) is removed when present and added when absent; no other edge changes. |
| `Warbler.ToggleTwice` | app.py:385-400 | Toggling the same like twice restores the original like edges. |
| `Timeline.ScanIsTable` | app.py:436-438 | Scanning the message table in key order yields each stored message exactly once and nothing else. |
| `Timeline.Keep` | app.py:438 | The owner filter keeps exactly the rows whose owner is among the given ids, and keeps distinct rows distinct. |
| `Timeline.Insert` | app.py:439 | Inserting a message lengthens the sequence by one; the result holds the message and the old rows, and nothing else. |
| `Timeline.InsertPermutes` | app.py:439 | Inserting adds exactly one copy of the message and keeps every other row as often as before (multiset equation). |
| `Timeline.InsertKeepsOrder` | app.py:439 | Insertion keeps a newest-first sequence newest first. |
| `Timeline.InsertKeepsDistinct` | app.py:439 | Inserting a message with a new id keeps the ids distinct. |
| `Timeline.SortNewestFirst` | app.py:439 | Ordering by descending timestamp yields a newest-first sequence with the same length and elements as the rows, keeping ids distinct. |
| `Timeline.SortPermutes` | app.py:439 | The ordering is a permutation: every row occurs in the result as often as in the input (multiset equation). |
| `Timeline.SelectIsNewestPage` | app.py:434-441 | The feed query returns at most 100 distinct qualifying rows, newest first. It leaves out a qualifying row only when the page is full of rows no older than it. |
| `Timeline.MarkLiked` | app.py:445-451 | Each selected message keeps its place and is flagged liked exactly when its id is among the viewer's liked ids. |
| `Properties.LikeTwice` | app.py:385-402 | Two like requests in a row with valid forms answer alike and leave the like edges as they were; nothing but the like edges may change, so the whole store is as before. |
| `Properties.FollowUnfollowUnfollow` | app.py:217-243 | Follow then unfollow restores the follow edges. A further unfollow raises, because the edge is gone. |
| `Properties.DeleteThenShow` | app.py:326-363 | After the author deletes a message, that message's page is not-found. |
| `Properties.LogoutTwice` | app.py:59-63 | Logging out twice leaves the session empty, as logging out once does; nothing but the session may change. |

## Left out

- Framework plumbing: routing, templates, flash display, the 404 page, the no-cache
  response header, the debug toolbar and the configuration (app.py:1-30, 460-480).
  Responses are `Response` values: redirect target and alert, view and its data,
  not-found, or uncaught error.
- `add_csrf_form_to_g` (app.py:47-50): the CSRF form's verdict is a boolean argument.
- The user search of `list_users` (app.py:163-168): it is SQL `LIKE` matching done by
  the database. `ListUsers` models only the gate and the page kind.
- `/api/messages/<id>/like` (app.py:487-509): it changes nothing; it only returns a
  serialisation defined in models.py, which is not part of this model.
- forms.py and models.py are not part of this model. Form validation is a boolean
  input. `User.authenticate` and password hashing are inputs; no password is stored.
  The `ValueError` of a signup with an empty password belongs to `User.signup` and is
  not modelled.
- `DefaultImageUrl` and `DefaultHeaderImageUrl` stand for column defaults defined in
  models.py; their values here are placeholders.
- Warbler.Store.DeleteUser: rows that depend on the deleted user (messages, follow and
  like edges) are left as they are. Cascades are defined in models.py, which is not
  part of this model. In the model, therefore, `ShowFollowing` and `ShowFollowers` of
  another user can still list the deleted id, and a former follower's `Homepage` still
  shows the deleted user's messages. With foreign keys on those rows the program
  cannot reach that state: the rows go too, or the commit fails.
- Warbler.Store.DeleteMessage: like edges naming the deleted message are left as they
  are, for the same reason. In the model `ListLikedMessages` can then still list the
  deleted message's id; with a foreign key on the like rows the program cannot.
- Warbler.Store.StartFollowing: follow edges are a set, so following twice is a no-op
  here. Whether a duplicate append to `following` fails at commit depends on the
  table definition in models.py.
- Timeline.SelectIsNewestPage: among messages with equal timestamps the SQL order is
  unspecified. The model sorts them in one fixed way and claims nothing about it.
- Timeline.MarkLiked: the source sets `is_liked` on the message objects in place; the
  model builds a new sequence of flagged items.
- Transactions, concurrency and atomicity: the code shown implements none of them.
- Timestamps are integers; only their order matters.
