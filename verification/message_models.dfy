/**
 * The row shapes that the message repository reads and builds
 * (complete/src/repository/message/message_models.rs).
 *
 * `DateTime<Utc>` is a plain instant (`int`), byte blobs are `seq<bv8>`,
 * and the `i64`/`i32` columns are unbounded integers: no code in the
 * repository does arithmetic on them.
 */
module MessageModels {
  import opened Wrappers

  type DateTime = int
  type Bytes = seq<bv8>

  /**
   * Stands in for `sqlx::Error`: a store or query failure, or a fetched row
   * that lacks a column the row type's derived `FromRow` reads.
   */
  datatype DbError = DbError(detail: string) | ColumnNotFound(column: string)

  /**
   * `MessageWithProfileQueryResult`: one message joined with its author's
   * profile, plus the id of the `message_broadcast` link row left-joined on it.
   */
  datatype MessageWithProfile = MessageWithProfile(
    id: int,
    updatedAt: DateTime,
    body: Option<string>,
    likes: int,
    image: Option<Bytes>,
    userId: int,
    userName: string,
    fullName: string,
    avatar: Option<Bytes>,
    messageBroadcastId: Option<int>)

  /**
   * `MessageWithFollowingAndBroadcastQueryResult`: the flattened row handed to
   * the transport layer; the `messageBroadcast*` fields describe the
   * broadcast target, when one was resolved.
   */
  datatype MessageWithBroadcast = MessageWithBroadcast(
    id: int,
    updatedAt: DateTime,
    body: Option<string>,
    likes: int,
    image: Option<Bytes>,
    userId: int,
    userName: string,
    fullName: string,
    avatar: Option<Bytes>,
    messageBroadcastId: Option<int>,
    messageBroadcastUpdatedAt: Option<DateTime>,
    messageBroadcastBody: Option<string>,
    messageBroadcastLikes: Option<int>,
    messageBroadcastImage: Option<Bytes>,
    messageBroadcastUserId: Option<int>,
    messageBroadcastUserName: Option<string>,
    messageBroadcastFullName: Option<string>,
    messageBroadcastAvatar: Option<Bytes>)

  /** The nine message-and-author fields both row shapes share. */
  datatype MessageView = MessageView(
    id: int,
    updatedAt: DateTime,
    body: Option<string>,
    likes: int,
    image: Option<Bytes>,
    userId: int,
    userName: string,
    fullName: string,
    avatar: Option<Bytes>)

  function ViewOf(m: MessageWithProfile): MessageView {
    MessageView(m.id, m.updatedAt, m.body, m.likes, m.image, m.userId, m.userName, m.fullName, m.avatar)
  }

  function OptionalViewOf(m: Option<MessageWithProfile>): Option<MessageView> {
    if m.Some? then Some(ViewOf(m.value)) else None
  }

  /** The primary message as an enriched row presents it. */
  function PrimaryView(r: MessageWithBroadcast): MessageView {
    MessageView(r.id, r.updatedAt, r.body, r.likes, r.image, r.userId, r.userName, r.fullName, r.avatar)
  }

  /**
   * The broadcast target as an enriched row presents it: present exactly when
   * every non-nullable column of the target (id, updated_at, likes, user_id,
   * user_name, full_name) is present.
   */
  function BroadcastView(r: MessageWithBroadcast): Option<MessageView> {
    match (r.messageBroadcastId, r.messageBroadcastUpdatedAt, r.messageBroadcastLikes,
           r.messageBroadcastUserId, r.messageBroadcastUserName, r.messageBroadcastFullName)
    case (Some(id), Some(at), Some(likes), Some(uid), Some(un), Some(fun)) =>
      Some(MessageView(id, at, r.messageBroadcastBody, likes, r.messageBroadcastImage,
                       uid, un, fun, r.messageBroadcastAvatar))
    case _ => None
  }

  /** A row carrying no broadcast data at all: all nine `messageBroadcast*` fields are absent. */
  predicate Unenriched(r: MessageWithBroadcast) {
    r.messageBroadcastId.None? && r.messageBroadcastUpdatedAt.None? && r.messageBroadcastBody.None? &&
    r.messageBroadcastLikes.None? && r.messageBroadcastImage.None? && r.messageBroadcastUserId.None? &&
    r.messageBroadcastUserName.None? && r.messageBroadcastFullName.None? && r.messageBroadcastAvatar.None?
  }
}
