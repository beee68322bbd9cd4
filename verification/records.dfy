/** Records of the Warbler social feed: identifiers, the user and message rows,
    the form inputs the handlers read, and the responses they produce. */
module Records {

  datatype Option<+T> = None | Some(value: T)

  /** Primary keys of the user and message tables (serial, so non-negative). */
  type UserId = nat
  type MessageId = nat

  /** A row of the user table, with the fields the handlers read or write.
      The password hash is not part of the model. */
  datatype User = User(
    username: string,
    email: string,
    imageUrl: string,
    headerImageUrl: string,
    bio: string)

  /** A row of the message table ("warble"). */
  datatype Message = Message(id: MessageId, userId: UserId, text: string, timestamp: int)

  /** A message as shown to a viewer: the row plus the per-request liked flag. */
  datatype FeedItem = FeedItem(message: Message, isLiked: bool)

  /** Column defaults of the user table for a signup without an image and for the header image. */
  const DefaultImageUrl: string := "/static/images/default-pic.png"
  const DefaultHeaderImageUrl: string := "/static/images/warbler-hero.jpg"

  /** What the signup form submits (the password goes to hashing, which is not modelled). */
  datatype SignupForm = SignupForm(username: string, email: string, imageUrl: string)

  /** What the profile-edit form submits besides the password to re-check. */
  datatype ProfileForm = ProfileForm(
    username: string,
    email: string,
    imageUrl: string,
    headerImageUrl: string,
    bio: string)

  /** Redirect targets. */
  datatype Path =
    | Root                         // "/"
    | SignupPath                   // "/signup"
    | UserPath(user: UserId)       // "/users/<id>"
    | FollowingPath(user: UserId)  // "/users/<id>/following"

  /** The flash message queued with a response. */
  datatype Alert =
    | NoAlert
    | AccessUnauthorized
    | CannotLikeOwn
    | UsernameTaken
    | InvalidCredentials
    | WrongPassword
    | LoggedOut
    | Welcome(user: UserId)

  /** The template rendered, with the data it is given. */
  datatype View =
    | SignupView
    | LoginView
    | UserIndexView
    | UserView(user: UserId)
    | FollowingView(user: UserId, following: set<UserId>)
    | FollowersView(user: UserId, followers: set<UserId>)
    | LikedView(user: UserId, liked: set<MessageId>)
    | EditProfileView
    | NewMessageView
    | MessageView(item: FeedItem)
    | HomeView(items: seq<FeedItem>)
    | AnonHomeView

  /** The outcome of one request. ServerError is an exception the handler does not catch. */
  datatype Response =
    | Redirect(to: Path, alert: Alert)
    | Render(view: View, alert: Alert)
    | NotFound
    | ServerError

  /** The answer of the authentication gate to an anonymous request. */
  const Denied: Response := Redirect(Root, AccessUnauthorized)
}
