/** The record shapes of the forum and the application tables: fields,
    defaults, nullability, the two uniqueness constraints on likes and the
    default orderings. User identifiers are opaque, nullable strings; no table
    references another through a foreign key. Timestamps are readings of a
    monotone clock. */
module Models {
  import opened Common

  type UserId = string

  /** The five notification kinds ('reply', 'system', 'like', 'post', 'announcement'). */
  datatype NotificationType = ReplyType | SystemType | LikeType | PostType | AnnouncementType

  /** A forum post. `userId` may be null or blank; `isSticky` defaults to false
      and `commentCount` to 0. */
  datatype Post = Post(
    id: int,
    title: string,
    content: string,
    userId: Option<UserId>,
    isSticky: bool,
    commentCount: int,
    createdAt: nat,
    updatedAt: nat)

  /** A comment. `postId` is a bare integer (no referential integrity);
      `parentCommentId` defaults to 0, meaning a top-level comment. */
  datatype Comment = Comment(
    id: int,
    postId: int,
    userId: Option<UserId>,
    content: string,
    parentCommentId: int,
    createdAt: nat,
    updatedAt: nat)

  /** A notification. A null recipient means a broadcast to every user;
      `isRead` defaults to false; the post and comment links are optional. */
  datatype Notification = Notification(
    id: int,
    recipient: Option<UserId>,
    sender: Option<UserId>,
    kind: NotificationType,
    message: string,
    isRead: bool,
    postId: Option<int>,
    commentId: Option<int>,
    createdAt: nat)

  /** A like of a post or of a comment; both targets are nullable columns. */
  datatype Like = Like(
    id: int,
    userId: Option<UserId>,
    postId: Option<int>,
    commentId: Option<int>,
    createdAt: nat)

  /** A student's application. `number` carries no uniqueness constraint;
      `value` (the admin's score) is an optional string. */
  datatype StudentApplication = StudentApplication(
    id: int,
    name: string,
    number: string,
    goodAt: Option<string>,
    grade: string,
    major: string,
    experience: Option<string>,
    otherLab: string,
    email: Option<string>,
    reason: Option<string>,
    value: Option<string>,
    adminRemark: Option<string>,
    bookTime: nat,
    phoneNumber: string,
    gaokaoMath: int,
    gaokaoEnglish: int,
    followDirection: string,
    future: string,
    createdAt: nat)

  /** A post as created: not sticky, no comments, both timestamps `now`. */
  function NewPost(id: int, title: string, content: string, userId: Option<UserId>, now: nat): Post
  {
    Post(id, title, content, userId, false, 0, now, now)
  }

  function NewComment(id: int, postId: int, userId: Option<UserId>, content: string, parent: int, now: nat): Comment
  {
    Comment(id, postId, userId, content, parent, now, now)
  }

  /** A notification as created: unread. */
  function NewNotification(id: int, recipient: Option<UserId>, sender: Option<UserId>, kind: NotificationType,
                           message: string, postId: Option<int>, commentId: Option<int>, now: nat): Notification
  {
    Notification(id, recipient, sender, kind, message, false, postId, commentId, now)
  }

  // ---------------------------------------------------------------------------
  // The two uniqueness constraints on likes. As in SQL, a NULL in either column
  // never collides, so each constraint only binds rows whose two columns are set.
  // ---------------------------------------------------------------------------

  /** Two rows that `uniq_user_post_like` forbids together. */
  predicate PostKeyClash(a: Like, b: Like)
  {
    a.userId.Some? && a.postId.Some? && a.userId == b.userId && a.postId == b.postId
  }

  /** Two rows that `uniq_user_comment_like` forbids together. */
  predicate CommentKeyClash(a: Like, b: Like)
  {
    a.userId.Some? && a.commentId.Some? && a.userId == b.userId && a.commentId == b.commentId
  }

  ghost predicate LikesUnique(likes: seq<Like>)
  {
    forall i, j :: 0 <= i < j < |likes| ==> !PostKeyClash(likes[i], likes[j]) && !CommentKeyClash(likes[i], likes[j])
  }

  /** The constraints are independent: one user may like post 5 and comment 5,
      but not post 5 twice. */
  lemma LikeConstraintsIndependent(u: UserId)
    ensures LikesUnique([Like(1, Some(u), Some(5), None, 0), Like(2, Some(u), None, Some(5), 1)])
    ensures !LikesUnique([Like(1, Some(u), Some(5), None, 0), Like(2, Some(u), Some(5), None, 1)])
  {
    var twice := [Like(1, Some(u), Some(5), None, 0), Like(2, Some(u), Some(5), None, 1)];
    assert PostKeyClash(twice[0], twice[1]);
  }

  // ---------------------------------------------------------------------------
  // Default orderings
  // ---------------------------------------------------------------------------

  /** Post ordering: sticky first, then newest first. */
  predicate PostListedBefore(a: Post, b: Post)
  {
    (a.isSticky && !b.isSticky) || (a.isSticky == b.isSticky && a.createdAt > b.createdAt)
  }

  /** Comment ordering: oldest first. */
  predicate CommentListedBefore(a: Comment, b: Comment) { a.createdAt < b.createdAt }

  /** Notification ordering: newest first. */
  predicate NotificationListedBefore(a: Notification, b: Notification) { a.createdAt > b.createdAt }

  /** Post ordering is a strict order on posts with distinct creation times. */
  lemma PostOrderStrict(a: Post, b: Post, c: Post)
    ensures !PostListedBefore(a, a)
    ensures PostListedBefore(a, b) ==> !PostListedBefore(b, a)
    ensures PostListedBefore(a, b) && PostListedBefore(b, c) ==> PostListedBefore(a, c)
    ensures a.createdAt != b.createdAt ==> PostListedBefore(a, b) || PostListedBefore(b, a)
  {
  }
}
