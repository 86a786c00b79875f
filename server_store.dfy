/** The server's persistent state and its outgoing real-time traffic. The MongoDB
    collections become fields of one store object: posts keyed by id, and users,
    messages and notifications in insertion order (so `findOne` is the first match).
    Every Socket.IO emit becomes an entry appended to `log`. */
module ServerStore {
  import opened Common
  import opened PostModel

  type MessageId = string
  type NotificationId = string

  datatype Provider = Local | Google | Github

  /** A User document (server/src/models/User.js). `email` is stored lower-cased and
      trimmed; `password` is absent for OAuth accounts. */
  datatype User = User(
    id: UserId,
    name: string,
    email: string,
    password: Option<string>,
    provider: Provider,
    providerId: Option<string>,
    resetToken: Option<string>,
    resetExpires: Option<int>)

  /** A Message document (server/src/models/Message.js): there is no `isImage` path. */
  datatype Message = Message(
    id: MessageId,
    sender: UserId,
    receiver: UserId,
    content: string,
    read: bool,
    createdAt: int)

  /** The `type` enum of server/src/models/Notification.js. */
  datatype NotificationKind = LikeKind | CommentKind | ReshareKind | PostKind | MessageKind

  /** A Notification document; `createdAt` is the clock reading, in milliseconds, at creation. */
  datatype Notification = Notification(
    id: NotificationId,
    recipient: UserId,
    sender: UserId,
    kind: NotificationKind,
    post: Option<PostId>,
    read: bool,
    createdAt: int)

  /** The payloads the server emits. */
  datatype ServerEvent =
    | PostCreated(postId: PostId, userId: UserId, isReshare: bool)
    | LikeUpdated(postId: PostId, userId: UserId, isLiked: bool, likes: seq<UserId>)
    | CommentAdded(postId: PostId, comment: Option<Comment>)
    | CommentEdited(postId: PostId, commentId: CommentId, text: string)
    | CommentDeleted(postId: PostId, commentId: CommentId)
    | PostUpdated(postId: PostId, content: string)
    | PostDeleted(postId: PostId)
    | PostSaved(postId: PostId, userId: UserId, isSaved: bool, savedBy: seq<UserId>)
    | NewNotification(notificationId: NotificationId, kind: NotificationKind, senderId: UserId)
    | ReceiveMessage(message: Message)
    | ChatUpdate(from: UserId, preview: string)

  /** `io.emit(...)` reaches every client; `io.to(room).emit(...)` only the room
      named after a user id. */
  datatype Delivery = ToAll(event: ServerEvent) | ToRoom(room: UserId, event: ServerEvent)

  /** The authenticated user the auth middleware attached to the request. */
  datatype Caller = Caller(id: UserId, name: string)

  /** An HTTP reply: a status and either a payload or an error message. */
  datatype Response<T> = Success(status: int, value: T) | Failure(status: int, message: string)

  /** A snapshot of the whole store. */
  datatype Snapshot = Snapshot(
    posts: map<PostId, Post>,
    users: seq<User>,
    messages: seq<Message>,
    notifications: seq<Notification>,
    log: seq<Delivery>)

  class Db {
    /** `mongoose.Types.ObjectId.isValid`, left uninterpreted. */
    const isValidId: string -> bool
    var posts: map<PostId, Post>
    var users: seq<User>
    var messages: seq<Message>
    var notifications: seq<Notification>
    var log: seq<Delivery>

    constructor (isValidId: string -> bool)
      ensures this.isValidId == isValidId
      ensures State() == Snapshot(map[], [], [], [], [])
    {
      this.isValidId := isValidId;
      posts := map[];
      users := [];
      messages := [];
      notifications := [];
      log := [];
    }

    function State(): Snapshot
      reads this
    {
      Snapshot(posts, users, messages, notifications, log)
    }
  }

  /** The guard `!req.user || !req.user._id || !isValidObjectId(req.user._id)`. */
  predicate Unauthorized(isValidId: string -> bool, caller: Caller)
  {
    caller.id == "" || !isValidId(caller.id)
  }

  /** `User.findById(id)`: the user with that id, if stored. */
  function UserById(users: seq<User>, id: UserId): (r: Option<User>)
    ensures r.Some? ==> r.value in users && r.value.id == id
    ensures r.None? ==> forall i :: 0 <= i < |users| ==> users[i].id != id
  {
    if users == [] then None
    else if users[0].id == id then Some(users[0])
    else UserById(users[1..], id)
  }

  /** The notification ids in use. */
  function NotificationIds(ns: seq<Notification>): (r: set<NotificationId>)
    ensures forall i :: 0 <= i < |ns| ==> ns[i].id in r
    ensures forall id :: id in r ==> exists i :: 0 <= i < |ns| && ns[i].id == id
  {
    set i | 0 <= i < |ns| :: ns[i].id
  }
}
