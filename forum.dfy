/** The forum engagement services (likes, comments, notifications and
    announcements) as functions from one database state to the next. Each
    table is a sequence in primary-key order; ids come from per-table
    counters and every saved row or `save()` takes the next reading of one
    monotone clock. */
module Forum {
  import opened Common
  import opened Models
  import PyText
  import Paging

  datatype Db = Db(
    posts: seq<Post>,
    comments: seq<Comment>,
    likes: seq<Like>,
    notifications: seq<Notification>,
    nextPostId: int,
    nextCommentId: int,
    nextLikeId: int,
    nextNotificationId: int,
    clock: nat)

  /** The state after a service call and what the call returned. */
  datatype Step<R> = Step(db: Db, result: R)

  // ---------------------------------------------------------------------------
  // Table invariants: ids and creation times grow with the position in the
  // table, the counters are ahead of every id, the clock is ahead of every
  // creation time, and the two like constraints hold.
  // ---------------------------------------------------------------------------

  ghost predicate PostsValid(posts: seq<Post>, nextId: int)
  {
    (forall i, j :: 0 <= i < j < |posts| ==> posts[i].id < posts[j].id && posts[i].createdAt < posts[j].createdAt) &&
    (forall i :: 0 <= i < |posts| ==> posts[i].id < nextId)
  }

  ghost predicate CommentsValid(comments: seq<Comment>, nextId: int, clock: nat)
  {
    (forall i, j :: 0 <= i < j < |comments| ==>
       comments[i].id < comments[j].id && comments[i].createdAt < comments[j].createdAt) &&
    (forall i :: 0 <= i < |comments| ==> comments[i].id < nextId && comments[i].createdAt < clock)
  }

  ghost predicate LikesValid(likes: seq<Like>, nextId: int)
  {
    (forall i, j :: 0 <= i < j < |likes| ==> likes[i].id < likes[j].id) &&
    (forall i :: 0 <= i < |likes| ==> likes[i].id < nextId) &&
    LikesUnique(likes)
  }

  ghost predicate NotificationsValid(ns: seq<Notification>, nextId: int, clock: nat)
  {
    (forall i, j :: 0 <= i < j < |ns| ==> ns[i].id < ns[j].id && ns[i].createdAt < ns[j].createdAt) &&
    (forall i :: 0 <= i < |ns| ==> ns[i].id < nextId && ns[i].createdAt < clock)
  }

  ghost predicate Valid(db: Db)
  {
    PostsValid(db.posts, db.nextPostId) &&
    CommentsValid(db.comments, db.nextCommentId, db.clock) &&
    LikesValid(db.likes, db.nextLikeId) &&
    NotificationsValid(db.notifications, db.nextNotificationId, db.clock)
  }

  // ---------------------------------------------------------------------------
  // Row lookups (`objects.get(pk=…)`, `filter(…)`)
  // ---------------------------------------------------------------------------

  function PostWithId(id: int): Post -> bool { (p: Post) => p.id == id }

  function CommentWithId(id: int): Comment -> bool { (c: Comment) => c.id == id }

  function NotificationWithId(id: int): Notification -> bool { (n: Notification) => n.id == id }

  /** Comments whose `post_id` is the given post. */
  function OnPost(postId: int): Comment -> bool { (c: Comment) => c.postId == postId }

  // ---------------------------------------------------------------------------
  // Notifications as the services build them
  // ---------------------------------------------------------------------------

  /** A notification before it is saved: everything but id, read flag and time. */
  datatype Draft = Draft(
    recipient: Option<UserId>,
    sender: Option<UserId>,
    kind: NotificationType,
    message: string,
    postLink: Option<int>,
    commentLink: Option<int>)

  function Row(d: Draft, id: int, now: nat): Notification
  {
    NewNotification(id, d.recipient, d.sender, d.kind, d.message, d.postLink, d.commentLink, now)
  }

  /** Save the drafts in order: each one takes the next id and clock reading. */
  function AddDrafts(db: Db, ds: seq<Draft>): (r: Db)
    ensures r.posts == db.posts && r.comments == db.comments && r.likes == db.likes
    ensures r.nextPostId == db.nextPostId && r.nextCommentId == db.nextCommentId && r.nextLikeId == db.nextLikeId
    ensures r.nextNotificationId == db.nextNotificationId + |ds| && r.clock == db.clock + |ds|
    ensures |r.notifications| == |db.notifications| + |ds|
    ensures r.notifications[..|db.notifications|] == db.notifications
    ensures forall i :: 0 <= i < |ds| ==>
              r.notifications[|db.notifications| + i] == Row(ds[i], db.nextNotificationId + i, db.clock + i)
  {
    if |ds| == 0 then db
    else
      var before := AddDrafts(db, ds[..|ds| - 1]);
      var last := Row(ds[|ds| - 1], before.nextNotificationId, before.clock);
      before.(notifications := before.notifications + [last],
              nextNotificationId := before.nextNotificationId + 1,
              clock := before.clock + 1)
  }

  function LikedPostMessage(u: UserId, title: string): string { "用户" + u + "赞了您的帖子《" + title + "》" }

  function LikedCommentMessage(u: UserId): string { "用户" + u + "赞了您的评论" }

  function CommentedMessage(u: UserId, title: string): string { "用户" + u + "评论了您的帖子《" + title + "》" }

  function RepliedMessage(u: UserId): string { "用户" + u + "回复了您的评论" }

  // ---------------------------------------------------------------------------
  // Likes
  // ---------------------------------------------------------------------------

  datatype Target = PostTarget(postId: int) | CommentTarget(commentId: int)

  /** The like row `filter(user_id=u, post_id=…)` or `filter(user_id=u, comment_id=…)` selects. */
  predicate Matches(l: Like, u: UserId, t: Target)
  {
    l.userId == Some(u) &&
    match t
    case PostTarget(id) => l.postId == Some(id)
    case CommentTarget(id) => l.commentId == Some(id)
  }

  function LikeOf(u: UserId, t: Target): Like -> bool { (l: Like) => Matches(l, u, t) }

  predicate LikedBy(likes: seq<Like>, u: UserId, t: Target)
  {
    exists i | 0 <= i < |likes| :: Matches(likes[i], u, t)
  }

  function NewLike(id: int, u: UserId, t: Target, now: nat): (l: Like)
    ensures Matches(l, u, t) && l.id == id && l.createdAt == now
    ensures t.PostTarget? ==> l.commentId.None?
    ensures t.CommentTarget? ==> l.postId.None?
  {
    match t
    case PostTarget(p) => Like(id, Some(u), Some(p), None, now)
    case CommentTarget(c) => Like(id, Some(u), None, Some(c), now)
  }

  /** What a like of an existing row needs: the row's owner and the message,
      post link and comment link of the notification it would send. */
  datatype Liked = Liked(owner: Option<UserId>, message: string, postLink: Option<int>, commentLink: Option<int>)

  /** The liked row, or None when no post (comment) has that id. */
  function LikeTarget(db: Db, t: Target, u: UserId): (r: Option<Liked>)
    ensures t.PostTarget? ==> (r.Some? <==> exists i | 0 <= i < |db.posts| :: db.posts[i].id == t.postId)
    ensures t.CommentTarget? ==> (r.Some? <==> exists i | 0 <= i < |db.comments| :: db.comments[i].id == t.commentId)
  {
    match t
    case PostTarget(id) =>
      (match IndexWhere(db.posts, PostWithId(id))
       case None => None
       case Some(k) =>
         var p := db.posts[k];
         Some(Liked(p.userId, LikedPostMessage(u, p.title), Some(p.id), None)))
    case CommentTarget(id) =>
      (match IndexWhere(db.comments, CommentWithId(id))
       case None => None
       case Some(k) =>
         var c := db.comments[k];
         Some(Liked(c.userId, LikedCommentMessage(u), Some(c.postId), Some(c.id))))
  }

  /** A like notifies the owner when the owner id is non-empty and is not the liker. */
  predicate LikeNotifies(owner: Option<UserId>, u: UserId)
  {
    PyText.Truthy(owner) && owner != Some(u)
  }

  function LikeDrafts(l: Liked, u: UserId): (ds: seq<Draft>)
    ensures |ds| == (if LikeNotifies(l.owner, u) then 1 else 0)
  {
    if LikeNotifies(l.owner, u)
    then [Draft(l.owner, Some(u), LikeType, l.message, l.postLink, l.commentLink)]
    else []
  }

  datatype ToggleOutcome = TargetMissing | Toggled(liked: bool)

  /** `toggle_like_post` / `toggle_like_comment`: fail on a missing row;
      otherwise delete the user's like if there is one, else create it and
      notify the owner. */
  function ToggleLike(db: Db, t: Target, u: UserId): Step<ToggleOutcome>
  {
    match LikeTarget(db, t, u)
    case None => Step(db, TargetMissing)
    case Some(liked) =>
      match IndexWhere(db.likes, LikeOf(u, t))
      case Some(j) => Step(db.(likes := RemoveAt(db.likes, j)), Toggled(false))
      case None =>
        var withLike := db.(likes := db.likes + [NewLike(db.nextLikeId, u, t, db.clock)],
                            nextLikeId := db.nextLikeId + 1,
                            clock := db.clock + 1);
        Step(AddDrafts(withLike, LikeDrafts(liked, u)), Toggled(true))
  }

  /** What a toggle does: it fails exactly when the row is missing and then
      changes nothing; otherwise it flips whether the user likes the row,
      deleting the one matching like or appending a new one and, when due,
      one unread like notification to the owner; posts and comments are
      never touched. */
  lemma ToggleLikeSpec(db: Db, t: Target, u: UserId, s: Step<ToggleOutcome>)
    requires s == ToggleLike(db, t, u)
    ensures s.result == TargetMissing <==> LikeTarget(db, t, u).None?
    ensures s.result == TargetMissing ==> s.db == db
    ensures s.result.Toggled? ==> s.result.liked == !LikedBy(db.likes, u, t)
    ensures s.db.posts == db.posts && s.db.comments == db.comments
    ensures s.db.nextPostId == db.nextPostId && s.db.nextCommentId == db.nextCommentId
    ensures s.result == Toggled(false) ==>
              s.db.notifications == db.notifications &&
              exists j | 0 <= j < |db.likes| :: Matches(db.likes[j], u, t) && s.db.likes == RemoveAt(db.likes, j)
    ensures s.result == Toggled(true) ==>
              s.db.likes == db.likes + [NewLike(db.nextLikeId, u, t, db.clock)] &&
              var owner := LikeTarget(db, t, u).value.owner;
              |s.db.notifications| == |db.notifications| + (if LikeNotifies(owner, u) then 1 else 0) &&
              s.db.notifications[..|db.notifications|] == db.notifications &&
              (LikeNotifies(owner, u) ==>
                 var n := s.db.notifications[|db.notifications|];
                 n.recipient == owner && n.sender == Some(u) && n.kind == LikeType && !n.isRead)
  {
    match LikeTarget(db, t, u)
    case None => ToggleOnMissing(db, t, u);
    case Some(liked) =>
      match IndexWhere(db.likes, LikeOf(u, t))
      case Some(j) => ToggleOnLiked(db, t, u, j);
      case None => ToggleOnUnliked(db, t, u, liked);
  }

  // The three outcomes of a toggle, one lemma each, for the store methods.

  lemma ToggleOnMissing(db: Db, t: Target, u: UserId)
    requires LikeTarget(db, t, u).None?
    ensures ToggleLike(db, t, u) == Step(db, TargetMissing)
  {
  }

  lemma ToggleOnLiked(db: Db, t: Target, u: UserId, j: nat)
    requires LikeTarget(db, t, u).Some?
    requires IndexWhere(db.likes, LikeOf(u, t)) == Some(j)
    ensures ToggleLike(db, t, u) == Step(db.(likes := RemoveAt(db.likes, j)), Toggled(false))
  {
  }

  lemma ToggleOnUnliked(db: Db, t: Target, u: UserId, liked: Liked)
    requires LikeTarget(db, t, u) == Some(liked)
    requires IndexWhere(db.likes, LikeOf(u, t)).None?
    ensures ToggleLike(db, t, u) ==
            Step(AddDrafts(db.(likes := db.likes + [NewLike(db.nextLikeId, u, t, db.clock)],
                               nextLikeId := db.nextLikeId + 1, clock := db.clock + 1),
                           LikeDrafts(liked, u)),
                 Toggled(true))
  {
  }

  /** Liking a row not yet liked and then toggling again gives liked, then
      unliked, and the like table exactly as it was. */
  lemma ToggleTwiceRestoresLikes(db: Db, t: Target, u: UserId)
    requires LikeTarget(db, t, u).Some? && !LikedBy(db.likes, u, t)
    ensures var first := ToggleLike(db, t, u);
            var second := ToggleLike(first.db, t, u);
            first.result == Toggled(true) && second.result == Toggled(false) &&
            second.db.likes == db.likes && second.db.posts == db.posts && second.db.comments == db.comments
  {
    var liked := LikeTarget(db, t, u).value;
    var l := NewLike(db.nextLikeId, u, t, db.clock);
    var withLike := db.(likes := db.likes + [l], nextLikeId := db.nextLikeId + 1, clock := db.clock + 1);
    ToggleOnUnliked(db, t, u, liked);
    var first := AddDrafts(withLike, LikeDrafts(liked, u));
    assert first.likes == db.likes + [l] && first.posts == db.posts && first.comments == db.comments;
    assert LikeTarget(first, t, u) == LikeTarget(db, t, u);
    IndexOfAppended(db.likes, l, LikeOf(u, t));
    ToggleOnLiked(first, t, u, |db.likes|);
    assert RemoveAt(first.likes, |db.likes|) == db.likes;
  }

  /** Under the uniqueness constraints, a second row matching the same user
      and target cannot exist. */
  lemma MatchUnique(likes: seq<Like>, u: UserId, t: Target, i: nat, j: nat)
    requires LikesUnique(likes) && i < |likes| && j < |likes| && i != j
    requires Matches(likes[j], u, t)
    ensures !Matches(likes[i], u, t)
  {
    if i < j {
      assert !PostKeyClash(likes[i], likes[j]) && !CommentKeyClash(likes[i], likes[j]);
    } else {
      assert !PostKeyClash(likes[j], likes[i]) && !CommentKeyClash(likes[j], likes[i]);
    }
  }

  /** Removing the one row that matches leaves none that does. */
  lemma RemoveOnlyMatch(likes: seq<Like>, u: UserId, t: Target, j: nat)
    requires LikesUnique(likes) && j < |likes| && Matches(likes[j], u, t)
    ensures !LikedBy(RemoveAt(likes, j), u, t)
  {
    var rest := RemoveAt(likes, j);
    forall i | 0 <= i < |rest| ensures !Matches(rest[i], u, t) {
      var i' := if i < j then i else i + 1;
      assert rest[i] == likes[i'];
      MatchUnique(likes, u, t, i', j);
    }
  }

  /** After an unlike the user no longer likes the row. */
  lemma UnlikeClearsLike(db: Db, t: Target, u: UserId)
    requires Valid(db)
    ensures var s := ToggleLike(db, t, u);
            s.result.Toggled? ==> LikedBy(s.db.likes, u, t) == s.result.liked
  {
    var s := ToggleLike(db, t, u);
    ToggleLikeSpec(db, t, u, s);
    if s.result == Toggled(false) {
      var j :| 0 <= j < |db.likes| && Matches(db.likes[j], u, t) && s.db.likes == RemoveAt(db.likes, j);
      RemoveOnlyMatch(db.likes, u, t, j);
    } else if s.result == Toggled(true) {
      assert s.db.likes[|db.likes|] == NewLike(db.nextLikeId, u, t, db.clock);
    }
  }

  /** Saving drafts keeps every table invariant. */
  lemma {:induction false} AddDraftsKeepsValid(db: Db, ds: seq<Draft>)
    requires Valid(db)
    ensures Valid(AddDrafts(db, ds))
  {
    if |ds| > 0 {
      AddDraftsKeepsValid(db, ds[..|ds| - 1]);
    }
  }

  lemma LikesValidAfterRemove(likes: seq<Like>, nextId: int, j: nat)
    requires LikesValid(likes, nextId) && j < |likes|
    ensures LikesValid(RemoveAt(likes, j), nextId)
  {
    var r := RemoveAt(likes, j);
    forall a, b | 0 <= a < b < |r|
      ensures r[a].id < r[b].id && !PostKeyClash(r[a], r[b]) && !CommentKeyClash(r[a], r[b])
    {
      var a', b' := if a < j then a else a + 1, if b < j then b else b + 1;
      assert r[a] == likes[a'] && r[b] == likes[b'];
    }
  }

  lemma LikesValidAfterAdd(likes: seq<Like>, nextId: int, u: UserId, t: Target, now: nat)
    requires LikesValid(likes, nextId) && !LikedBy(likes, u, t)
    ensures LikesValid(likes + [NewLike(nextId, u, t, now)], nextId + 1)
  {
    var l := NewLike(nextId, u, t, now);
    var r := likes + [l];
    forall a, b | 0 <= a < b < |r|
      ensures !PostKeyClash(r[a], r[b]) && !CommentKeyClash(r[a], r[b])
    {
      if b == |likes| {
        assert r[a] == likes[a] && !Matches(likes[a], u, t);
      }
    }
  }

  /** Toggling a like keeps every table invariant; in particular the create
      never trips either uniqueness constraint. */
  lemma ToggleKeepsValid(db: Db, t: Target, u: UserId)
    requires Valid(db)
    ensures Valid(ToggleLike(db, t, u).db)
  {
    match LikeTarget(db, t, u)
    case None => ToggleOnMissing(db, t, u);
    case Some(liked) =>
      match IndexWhere(db.likes, LikeOf(u, t))
      case Some(j) =>
        ToggleOnLiked(db, t, u, j);
        UnlikeKeepsValid(db, j);
      case None =>
        ToggleOnUnliked(db, t, u, liked);
        LikeKeepsValid(db, t, u);
        AddDraftsKeepsValid(db.(likes := db.likes + [NewLike(db.nextLikeId, u, t, db.clock)],
                                nextLikeId := db.nextLikeId + 1,
                                clock := db.clock + 1),
                            LikeDrafts(liked, u));
  }

  lemma UnlikeKeepsValid(db: Db, j: nat)
    requires Valid(db) && j < |db.likes|
    ensures Valid(db.(likes := RemoveAt(db.likes, j)))
  {
    LikesValidAfterRemove(db.likes, db.nextLikeId, j);
  }

  lemma LikeKeepsValid(db: Db, t: Target, u: UserId)
    requires Valid(db) && IndexWhere(db.likes, LikeOf(u, t)).None?
    ensures Valid(db.(likes := db.likes + [NewLike(db.nextLikeId, u, t, db.clock)],
                      nextLikeId := db.nextLikeId + 1,
                      clock := db.clock + 1))
  {
    assert !LikedBy(db.likes, u, t);
    LikesValidAfterAdd(db.likes, db.nextLikeId, u, t, db.clock);
  }

  // ---------------------------------------------------------------------------
  // Comments
  // ---------------------------------------------------------------------------

  /** What the comment serializer accepts. Both text fields are trimmed
      before they are checked and stored; the content must then be non-empty
      and at most 1000 characters, the user id at most 36, and neither may
      hold a NUL character. */
  predicate CommentAccepted(content: string, u: UserId)
  {
    var text := PyText.Strip(content);
    var user := PyText.Strip(u);
    1 <= |text| <= 1000 && |user| <= 36 && '\0' !in text && '\0' !in user
  }

  /** A comment that is all white space is refused, and surrounding white
      space neither counts towards the limits nor is kept. */
  lemma CommentRule(content: string, u: UserId)
    ensures (forall i :: 0 <= i < |content| ==> PyText.IsSpace(content[i])) ==> !CommentAccepted(content, u)
    ensures CommentAccepted(content, u) ==> exists i :: 0 <= i < |content| && !PyText.IsSpace(content[i])
    ensures CommentAccepted(content, u) <==> CommentAccepted(PyText.Strip(content), PyText.Strip(u))
    ensures CommentAccepted(content, u) ==>
              var text := PyText.Strip(content);
              !PyText.IsSpace(text[0]) && !PyText.IsSpace(text[|text| - 1])
  {
    PyText.StripBlank(content);
    var text := PyText.Strip(content);
    var user := PyText.Strip(u);
    if |text| > 0 { assert PyText.Strip(text) == text; }
    if |user| > 0 { assert PyText.Strip(user) == user; }
  }

  /** The author field of the comment `get(pk=parentId)` returns, when the
      parent id is positive and such a comment exists. */
  function ParentAuthor(comments: seq<Comment>, parentId: int): (r: Option<Option<UserId>>)
    ensures r.Some? <==> parentId > 0 && exists i | 0 <= i < |comments| :: comments[i].id == parentId
    ensures r.Some? ==> exists i | 0 <= i < |comments| :: comments[i].id == parentId && comments[i].userId == r.value
  {
    if parentId <= 0 then None
    else match IndexWhere(comments, CommentWithId(parentId))
      case None => None
      case Some(k) => Some(comments[k].userId)
  }

  /** The two possible reply notifications of a new comment. */
  datatype FanOut = FanOut(toOwner: Option<Draft>, toParent: Option<Draft>)

  /** `create_comment_notification`: the post owner unless the commenter
      owns the post, and the parent comment's author unless that author is
      the commenter or the post owner. */
  function ReplyFanOut(comments: seq<Comment>, c: Comment, post: Post, u: UserId): (f: FanOut)
    ensures f.toOwner.Some? <==> post.userId != Some(u)
    ensures f.toOwner.Some? ==> f.toOwner.value.recipient == post.userId && f.toOwner.value.message == CommentedMessage(u, post.title)
    ensures f.toParent.Some? <==>
              var pa := ParentAuthor(comments, c.parentCommentId);
              pa.Some? && pa.value != Some(u) && pa.value != post.userId
    ensures f.toParent.Some? ==>
              f.toParent.value.recipient == ParentAuthor(comments, c.parentCommentId).value &&
              f.toParent.value.message == RepliedMessage(u)
    ensures forall d :: d in [f.toOwner, f.toParent] && d.Some? ==>
              d.value.kind == ReplyType && d.value.sender == Some(u) &&
              d.value.postLink == Some(post.id) && d.value.commentLink == Some(c.id)
  {
    var toOwner :=
      if post.userId != Some(u)
      then Some(Draft(post.userId, Some(u), ReplyType, CommentedMessage(u, post.title), Some(post.id), Some(c.id)))
      else None;
    var toParent :=
      match ParentAuthor(comments, c.parentCommentId)
      case Some(pa) =>
        if pa != Some(u) && pa != post.userId
        then Some(Draft(pa, Some(u), ReplyType, RepliedMessage(u), Some(post.id), Some(c.id)))
        else None
      case None => None;
    FanOut(toOwner, toParent)
  }

  function FanOutDrafts(f: FanOut): seq<Draft>
  {
    (if f.toOwner.Some? then [f.toOwner.value] else []) + (if f.toParent.Some? then [f.toParent.value] else [])
  }

  /** At most two reply notifications, to distinct recipients, none of them the commenter. */
  lemma FanOutShape(comments: seq<Comment>, c: Comment, post: Post, u: UserId)
    ensures var ds := FanOutDrafts(ReplyFanOut(comments, c, post, u));
            |ds| <= 2 &&
            (forall i :: 0 <= i < |ds| ==> ds[i].recipient != Some(u) && ds[i].kind == ReplyType) &&
            (forall i, j :: 0 <= i < j < |ds| ==> ds[i].recipient != ds[j].recipient)
  {
    var f := ReplyFanOut(comments, c, post, u);
    assert f.toOwner in [f.toOwner, f.toParent] && f.toParent in [f.toOwner, f.toParent];
  }

  datatype CommentOutcome = Rejected | Created(comment: Comment)

  /** The row `serializer.save()` creates: the next id, the trimmed user id
      and content, and the current clock reading. */
  function SerializedComment(db: Db, postId: int, content: string, parentId: int, u: UserId): Comment
  {
    NewComment(db.nextCommentId, postId, Some(PyText.Strip(u)), PyText.Strip(content), parentId, db.clock)
  }

  /** `create_comment`: validate, save the comment, then, if the post exists,
      recount its comments, save it and send the reply notifications. A comment
      on a missing post is still saved and reported as created. */
  function CreateComment(db: Db, postId: int, content: string, parentId: int, u: UserId): Step<CommentOutcome>
  {
    if !CommentAccepted(content, u) then Step(db, Rejected)
    else
      var c := SerializedComment(db, postId, content, parentId, u);
      var saved := SaveComment(db, c);
      match IndexWhere(saved.posts, PostWithId(postId))
      case None => Step(saved, Created(c))
      case Some(k) =>
        var recounted := Recount(saved, k, postId);
        Step(AddDrafts(recounted, FanOutDrafts(ReplyFanOut(saved.comments, c, recounted.posts[k], u))), Created(c))
  }

  /** What creating a comment does: an invalid comment changes nothing; a
      valid one is appended with the next id and clock reading; when the post
      exists its count becomes the live count of its comments and the reply
      notifications follow, and when it does not, nothing else changes. */
  lemma CreateCommentSpec(db: Db, postId: int, content: string, parentId: int, u: UserId, s: Step<CommentOutcome>)
    requires s == CreateComment(db, postId, content, parentId, u)
    ensures !CommentAccepted(content, u) ==> s.result == Rejected && s.db == db
    ensures CommentAccepted(content, u) ==>
              s.result == Created(SerializedComment(db, postId, content, parentId, u)) &&
              s.db.comments == db.comments + [s.result.comment] &&
              s.db.nextCommentId == db.nextCommentId + 1
    ensures s.db.likes == db.likes && s.db.nextLikeId == db.nextLikeId && s.db.nextPostId == db.nextPostId
    ensures |s.db.posts| == |db.posts| && |s.db.notifications| >= |db.notifications|
    ensures s.db.notifications[..|db.notifications|] == db.notifications
    ensures IndexWhere(db.posts, PostWithId(postId)).None? ==>
              s.db.posts == db.posts && s.db.notifications == db.notifications
    ensures CommentAccepted(content, u) && IndexWhere(db.posts, PostWithId(postId)).Some? ==>
              var k := IndexWhere(db.posts, PostWithId(postId)).value;
              s.db.posts == db.posts[k := db.posts[k].(commentCount := CountWhere(s.db.comments, OnPost(postId)),
                                                        updatedAt := db.clock + 1)] &&
              var ds := FanOutDrafts(ReplyFanOut(s.db.comments, s.result.comment, db.posts[k], u));
              |s.db.notifications| == |db.notifications| + |ds| &&
              forall i :: 0 <= i < |ds| ==>
                s.db.notifications[|db.notifications| + i] == Row(ds[i], db.nextNotificationId + i, db.clock + 2 + i)
  {
    if CommentAccepted(content, u) {
      match IndexWhere(db.posts, PostWithId(postId))
      case None => CommentOnMissingPost(db, postId, content, parentId, u);
      case Some(k) => CommentOnPostSpec(db, postId, content, parentId, u, k, s);
    }
  }

  /** The case of an existing post: the comment is appended, the post's count
      becomes the live count, and the reply notifications follow in order. */
  lemma CommentOnPostSpec(db: Db, postId: int, content: string, parentId: int, u: UserId, k: nat, s: Step<CommentOutcome>)
    requires CommentAccepted(content, u) && IndexWhere(db.posts, PostWithId(postId)) == Some(k)
    requires s == CreateComment(db, postId, content, parentId, u)
    ensures k < |db.posts|
    ensures s.result == Created(SerializedComment(db, postId, content, parentId, u))
    ensures s.db.comments == db.comments + [s.result.comment] && s.db.nextCommentId == db.nextCommentId + 1
    ensures s.db.likes == db.likes && s.db.nextLikeId == db.nextLikeId && s.db.nextPostId == db.nextPostId
    ensures s.db.posts == db.posts[k := db.posts[k].(commentCount := CountWhere(s.db.comments, OnPost(postId)),
                                                      updatedAt := db.clock + 1)]
    ensures var ds := FanOutDrafts(ReplyFanOut(s.db.comments, s.result.comment, db.posts[k], u));
            |s.db.notifications| == |db.notifications| + |ds| &&
            s.db.notifications[..|db.notifications|] == db.notifications &&
            forall i :: 0 <= i < |ds| ==>
              s.db.notifications[|db.notifications| + i] == Row(ds[i], db.nextNotificationId + i, db.clock + 2 + i)
  {
    var c := SerializedComment(db, postId, content, parentId, u);
    CommentOnPost(db, postId, content, parentId, u, k);
    var saved := SaveComment(db, c);
    var recounted := Recount(saved, k, postId);
    FanOutIgnoresCounts(saved.comments, c, recounted.posts[k], saved.posts[k], u);
    ghost var ds := FanOutDrafts(ReplyFanOut(saved.comments, c, saved.posts[k], u));
    SaveRecountNotify(db, c, k, postId, ds, s.db);
    assert s.result.comment == c && s.db.comments == saved.comments;
  }

  /** Saving the comment c, recounting the post at index k and adding the
      notification rows ds, seen from the state before the comment. */
  lemma SaveRecountNotify(db: Db, c: Comment, k: nat, postId: int, ds: seq<Draft>, after: Db)
    requires k < |db.posts|
    requires after == AddDrafts(Recount(SaveComment(db, c), k, postId), ds)
    ensures after.comments == db.comments + [c] && after.nextCommentId == db.nextCommentId + 1
    ensures after.likes == db.likes && after.nextLikeId == db.nextLikeId && after.nextPostId == db.nextPostId
    ensures after.posts == db.posts[k := db.posts[k].(commentCount := CountWhere(after.comments, OnPost(postId)),
                                                      updatedAt := db.clock + 1)]
    ensures |after.notifications| == |db.notifications| + |ds|
    ensures after.notifications[..|db.notifications|] == db.notifications
    ensures forall i :: 0 <= i < |ds| ==>
              after.notifications[|db.notifications| + i] == Row(ds[i], db.nextNotificationId + i, db.clock + 2 + i)
  {
  }

  /** The reply notifications read only the post's owner, title and id. */
  lemma FanOutIgnoresCounts(comments: seq<Comment>, c: Comment, p: Post, q: Post, u: UserId)
    requires p.userId == q.userId && p.title == q.title && p.id == q.id
    ensures ReplyFanOut(comments, c, p, u) == ReplyFanOut(comments, c, q, u)
  {
  }

  // The three outcomes of a comment creation, one lemma each, for the store method.

  lemma CommentOnMissingPost(db: Db, postId: int, content: string, parentId: int, u: UserId)
    requires CommentAccepted(content, u) && IndexWhere(db.posts, PostWithId(postId)).None?
    ensures var c := SerializedComment(db, postId, content, parentId, u);
            CreateComment(db, postId, content, parentId, u) == Step(SaveComment(db, c), Created(c))
  {
  }

  lemma CommentOnPost(db: Db, postId: int, content: string, parentId: int, u: UserId, k: nat)
    requires CommentAccepted(content, u) && IndexWhere(db.posts, PostWithId(postId)) == Some(k)
    ensures k < |db.posts|
    ensures var c := SerializedComment(db, postId, content, parentId, u);
            var saved := SaveComment(db, c);
            var recounted := Recount(saved, k, postId);
            CreateComment(db, postId, content, parentId, u) ==
            Step(AddDrafts(recounted, FanOutDrafts(ReplyFanOut(saved.comments, c, recounted.posts[k], u))), Created(c))
  {
  }

  /** `serializer.save()` of a new comment. */
  function SaveComment(db: Db, c: Comment): Db
  {
    db.(comments := db.comments + [c], nextCommentId := db.nextCommentId + 1, clock := db.clock + 1)
  }

  /** `post.comment_count = …count(); post.save()` on the post at index k. */
  function Recount(saved: Db, k: nat, postId: int): Db
    requires k < |saved.posts|
  {
    var post := saved.posts[k].(commentCount := CountWhere(saved.comments, OnPost(postId)), updatedAt := saved.clock);
    saved.(posts := saved.posts[k := post], clock := saved.clock + 1)
  }

  lemma CommentsValidAfterAdd(comments: seq<Comment>, nextId: int, clock: nat, c: Comment)
    requires CommentsValid(comments, nextId, clock) && c.id == nextId && c.createdAt == clock
    ensures CommentsValid(comments + [c], nextId + 1, clock + 1)
  {
  }

  /** Post ids are unique. */
  lemma PostIdsUnique(posts: seq<Post>, nextId: int, i: nat, j: nat)
    requires PostsValid(posts, nextId) && i < |posts| && j < |posts| && posts[i].id == posts[j].id
    ensures i == j
  {
  }

  /** With unique ids, the lookup by id finds the one post carrying it. */
  lemma PostLookup(posts: seq<Post>, nextId: int, k: nat)
    requires PostsValid(posts, nextId) && k < |posts|
    ensures IndexWhere(posts, PostWithId(posts[k].id)) == Some(k)
  {
    var r := IndexWhere(posts, PostWithId(posts[k].id));
    assert PostWithId(posts[k].id)(posts[k]);
    PostIdsUnique(posts, nextId, r.value, k);
  }

  lemma PostsValidAfterUpdate(posts: seq<Post>, nextId: int, k: nat, p: Post)
    requires PostsValid(posts, nextId) && k < |posts| && p.id == posts[k].id && p.createdAt == posts[k].createdAt
    ensures PostsValid(posts[k := p], nextId)
  {
  }

  lemma RecountKeepsValid(saved: Db, k: nat, c: Comment, u: UserId)
    requires Valid(saved) && k < |saved.posts|
    ensures var recounted := Recount(saved, k, c.postId);
            Valid(AddDrafts(recounted, FanOutDrafts(ReplyFanOut(saved.comments, c, recounted.posts[k], u))))
  {
    var recounted := Recount(saved, k, c.postId);
    PostsValidAfterUpdate(saved.posts, saved.nextPostId, k, recounted.posts[k]);
    assert Valid(recounted);
    AddDraftsKeepsValid(recounted, FanOutDrafts(ReplyFanOut(saved.comments, c, recounted.posts[k], u)));
  }

  /** Creating a comment keeps every table invariant. */
  lemma CreateCommentKeepsValid(db: Db, postId: int, content: string, parentId: int, u: UserId)
    requires Valid(db)
    ensures Valid(CreateComment(db, postId, content, parentId, u).db)
  {
    if CommentAccepted(content, u) {
      var c := SerializedComment(db, postId, content, parentId, u);
      CommentsValidAfterAdd(db.comments, db.nextCommentId, db.clock, c);
      var saved := SaveComment(db, c);
      assert Valid(saved);
      var found := IndexWhere(saved.posts, PostWithId(postId));
      if found.Some? {
        RecountKeepsValid(saved, found.value, c, u);
      }
    }
  }

  /** A comment on a post with no owner sends its owner notification to
      nobody in particular: it is a broadcast, in every user's feed. */
  lemma OwnerlessPostReplyIsBroadcast(db: Db, postId: int, content: string, parentId: int, u: UserId, v: UserId)
    requires CommentAccepted(content, u)
    requires IndexWhere(db.posts, PostWithId(postId)).Some?
    requires db.posts[IndexWhere(db.posts, PostWithId(postId)).value].userId.None?
    ensures var after := CreateComment(db, postId, content, parentId, u).db;
            |after.notifications| > |db.notifications| &&
            after.notifications[|db.notifications|].recipient.None? &&
            after.notifications[|db.notifications|] in Feed(after, v, false)
  {
    var after := CreateComment(db, postId, content, parentId, u).db;
    CreateCommentSpec(db, postId, content, parentId, u, CreateComment(db, postId, content, parentId, u));
    var k := IndexWhere(db.posts, PostWithId(postId)).value;
    var ds := FanOutDrafts(ReplyFanOut(after.comments, CreateComment(db, postId, content, parentId, u).result.comment, db.posts[k], u));
    assert ds[0].recipient.None?;
    FeedHasEveryShown(after, v, false, |db.notifications|);
  }

  /** The comments of a post are listed oldest first. */
  lemma {:induction false} CommentsOldestFirst(db: Db, postId: int)
    requires Valid(db)
    ensures var r := Filter(db.comments, OnPost(postId));
            forall i, j :: 0 <= i < j < |r| ==> CommentListedBefore(r[i], r[j])
  {
    FilterOrder(db.comments, OnPost(postId), (a: Comment, b: Comment) => a.createdAt < b.createdAt);
  }

  // ---------------------------------------------------------------------------
  // Notification feed and read state
  // ---------------------------------------------------------------------------

  /** A notification is shown to u when it is addressed to u or is a broadcast. */
  predicate VisibleTo(n: Notification, u: UserId)
  {
    n.recipient == Some(u) || n.recipient.None?
  }

  function Shown(u: UserId, unreadOnly: bool): Notification -> bool
  {
    (n: Notification) => VisibleTo(n, u) && (!unreadOnly || !n.isRead)
  }

  /** The feed of u before paging: targeted and broadcast entries, only the
      unread ones when asked, newest first. */
  function Feed(db: Db, u: UserId, unreadOnly: bool): (r: seq<Notification>)
    ensures forall i :: 0 <= i < |r| ==>
              r[i] in db.notifications && VisibleTo(r[i], u) && (unreadOnly ==> !r[i].isRead)
    ensures |r| == CountWhere(db.notifications, Shown(u, unreadOnly))
  {
    var f := Filter(db.notifications, Shown(u, unreadOnly));
    CountFilter(db.notifications, Shown(u, unreadOnly));
    assert forall i :: 0 <= i < |f| ==> Reverse(f)[i] == f[|f| - 1 - i];
    Reverse(f)
  }

  /** Every notification addressed to u, or broadcast, (and unread, when
      asked) is in u's feed. */
  lemma FeedHasEveryShown(db: Db, u: UserId, unreadOnly: bool, i: nat)
    requires i < |db.notifications| && VisibleTo(db.notifications[i], u)
    requires unreadOnly ==> !db.notifications[i].isRead
    ensures db.notifications[i] in Feed(db, u, unreadOnly)
  {
    var f := Filter(db.notifications, Shown(u, unreadOnly));
    FilterHas(db.notifications, Shown(u, unreadOnly), i);
    var k :| 0 <= k < |f| && f[k] == db.notifications[i];
    ReverseHas(f, k);
  }

  /** `get_notifications`: one page of the feed, with Django's page clamping. */
  function GetNotifications(db: Db, u: UserId, page: string, pageSize: nat, unreadOnly: bool): (r: Paging.Page<Notification>)
    requires pageSize >= 1
    ensures r.totalItems == CountWhere(db.notifications, Shown(u, unreadOnly))
    ensures 1 <= r.currentPage <= r.totalPages && |r.items| <= pageSize
    ensures forall i :: 0 <= i < |r.items| ==>
              r.items[i] in db.notifications && VisibleTo(r.items[i], u) && (unreadOnly ==> !r.items[i].isRead)
  {
    Paging.Paginate(Feed(db, u, unreadOnly), page, pageSize)
  }

  /** The feed lists newer notifications first. */
  lemma {:induction false} FeedNewestFirst(db: Db, u: UserId, unreadOnly: bool)
    requires Valid(db)
    ensures var r := Feed(db, u, unreadOnly);
            forall i, j :: 0 <= i < j < |r| ==> NotificationListedBefore(r[i], r[j])
  {
    var lt := (a: Notification, b: Notification) => a.createdAt < b.createdAt;
    var f := Filter(db.notifications, Shown(u, unreadOnly));
    FilterOrder(db.notifications, Shown(u, unreadOnly), lt);
    ReverseOrder(f, lt);
    assert Feed(db, u, unreadOnly) == Reverse(f);
  }

  function UnreadFor(u: UserId): Notification -> bool
  {
    (n: Notification) => n.recipient == Some(u) && !n.isRead
  }

  /** `get_unread_count`: unread notifications addressed to u; broadcasts never count. */
  function UnreadCount(db: Db, u: UserId): (n: nat)
    ensures n <= |db.notifications|
  {
    CountWhere(db.notifications, UnreadFor(u))
  }

  datatype MarkOutcome = NotFound | Forbidden | Marked

  /** `mark_notification_read`: unknown id, someone else's (or a broadcast)
      notification, or mark it read. */
  function MarkRead(db: Db, id: int, u: UserId): (s: Step<MarkOutcome>)
    ensures s.result == NotFound <==> forall i :: 0 <= i < |db.notifications| ==> db.notifications[i].id != id
    ensures s.result != Marked ==> s.db == db
    ensures s.result == Marked ==>
              exists k | 0 <= k < |db.notifications| ::
                db.notifications[k].id == id && db.notifications[k].recipient == Some(u) &&
                s.db == db.(notifications := db.notifications[k := db.notifications[k].(isRead := true)])
    ensures s.result == Forbidden ==>
              exists k | 0 <= k < |db.notifications| :: db.notifications[k].id == id && db.notifications[k].recipient != Some(u)
  {
    match IndexWhere(db.notifications, NotificationWithId(id))
    case None => Step(db, NotFound)
    case Some(k) =>
      if db.notifications[k].recipient != Some(u) then Step(db, Forbidden)
      else Step(db.(notifications := db.notifications[k := db.notifications[k].(isRead := true)]), Marked)
  }

  /** A broadcast cannot be marked read by anyone. */
  lemma BroadcastNeverMarked(db: Db, id: int, u: UserId)
    requires Valid(db)
    requires exists k | 0 <= k < |db.notifications| :: db.notifications[k].id == id && db.notifications[k].recipient.None?
    ensures MarkRead(db, id, u).result == Forbidden
  {
    var k :| 0 <= k < |db.notifications| && db.notifications[k].id == id && db.notifications[k].recipient.None?;
    assert NotificationWithId(id)(db.notifications[k]);
  }

  /** Marking one notification read lowers u's unread count by one when it was unread. */
  lemma MarkReadUnreadCount(db: Db, id: int, u: UserId)
    ensures var s := MarkRead(db, id, u);
            s.result == Marked ==>
              var k := IndexWhere(db.notifications, NotificationWithId(id)).value;
              UnreadCount(s.db, u) == UnreadCount(db, u) - (if db.notifications[k].isRead then 0 else 1)
  {
    var s := MarkRead(db, id, u);
    if s.result == Marked {
      var k := IndexWhere(db.notifications, NotificationWithId(id)).value;
      CountUpdate(db.notifications, k, db.notifications[k].(isRead := true), UnreadFor(u));
    }
  }

  /** The bulk `update(is_read=True)` over u's unread notifications. */
  function MarkAllIn(ns: seq<Notification>, u: UserId): (r: seq<Notification>)
    ensures |r| == |ns|
    ensures forall i :: 0 <= i < |ns| ==>
              r[i] == (if ns[i].recipient == Some(u) && !ns[i].isRead then ns[i].(isRead := true) else ns[i])
  {
    if |ns| == 0 then []
    else MarkAllIn(ns[..|ns| - 1], u) +
         [var n := ns[|ns| - 1]; if n.recipient == Some(u) && !n.isRead then n.(isRead := true) else n]
  }

  /** `mark_all_notifications_read`: marks u's unread notifications and
      returns how many there were. */
  function MarkAllRead(db: Db, u: UserId): (s: Step<nat>)
    ensures s.db == db.(notifications := s.db.notifications)
    ensures |s.db.notifications| == |db.notifications|
    ensures forall i :: 0 <= i < |db.notifications| && db.notifications[i].recipient != Some(u) ==>
              s.db.notifications[i] == db.notifications[i]
    ensures forall i :: 0 <= i < |db.notifications| ==>
              s.db.notifications[i].recipient == Some(u) ==> s.db.notifications[i].isRead
    ensures s.result == UnreadCount(db, u)
  {
    Step(db.(notifications := MarkAllIn(db.notifications, u)), UnreadCount(db, u))
  }

  /** After marking all, u has nothing unread, nobody else's count moved,
      and the count returned is the number of rows whose read flag changed. */
  lemma {:induction false} MarkAllReadEffect(db: Db, u: UserId, v: UserId)
    ensures UnreadCount(MarkAllRead(db, u).db, u) == 0
    ensures v != u ==> UnreadCount(MarkAllRead(db, u).db, v) == UnreadCount(db, v)
    ensures MarkAllRead(db, u).result == DiffCount(db.notifications, MarkAllRead(db, u).db.notifications)
  {
    var after := MarkAllRead(db, u).db.notifications;
    CountNone(after, UnreadFor(u));
    if v != u {
      CountSameAfterMark(db.notifications, u, v);
    }
    MarkAllChangesUnread(db.notifications, u);
  }

  lemma {:induction false} CountSameAfterMark(ns: seq<Notification>, u: UserId, v: UserId)
    requires v != u
    ensures CountWhere(MarkAllIn(ns, u), UnreadFor(v)) == CountWhere(ns, UnreadFor(v))
  {
    if |ns| > 0 {
      CountSameAfterMark(ns[1..], u, v);
      assert MarkAllIn(ns, u)[1..] == MarkAllIn(ns[1..], u);
    }
  }

  lemma {:induction false} MarkAllChangesUnread(ns: seq<Notification>, u: UserId)
    ensures DiffCount(ns, MarkAllIn(ns, u)) == CountWhere(ns, UnreadFor(u))
  {
    if |ns| > 0 {
      MarkAllChangesUnread(ns[1..], u);
      assert MarkAllIn(ns, u)[1..] == MarkAllIn(ns[1..], u);
    }
  }

  /** Marking all a second time changes nothing and reports 0. */
  lemma MarkAllReadIdempotent(db: Db, u: UserId)
    ensures var once := MarkAllRead(db, u).db;
            MarkAllRead(once, u).db == once && MarkAllRead(once, u).result == 0
  {
    var once := MarkAllRead(db, u).db;
    assert MarkAllIn(once.notifications, u) == once.notifications;
    CountNone(once.notifications, UnreadFor(u));
  }

  /** Marking one or all notifications read keeps every table invariant. */
  lemma MarkingKeepsValid(db: Db, id: int, u: UserId)
    requires Valid(db)
    ensures Valid(MarkRead(db, id, u).db)
    ensures Valid(MarkAllRead(db, u).db)
  {
    var s := MarkRead(db, id, u);
    if s.result == Marked {
      var k := IndexWhere(db.notifications, NotificationWithId(id)).value;
      var ns := db.notifications[k := db.notifications[k].(isRead := true)];
      assert s.db == db.(notifications := ns);
      SameKeysKeepValid(db, ns);
    }
    var all := MarkAllRead(db, u).db;
    SameKeysKeepValid(db, all.notifications);
  }

  /** Rewriting notifications without touching their ids or creation times
      keeps every table invariant. */
  lemma SameKeysKeepValid(db: Db, ns: seq<Notification>)
    requires Valid(db) && |ns| == |db.notifications|
    requires forall i :: 0 <= i < |ns| ==> ns[i].id == db.notifications[i].id && ns[i].createdAt == db.notifications[i].createdAt
    ensures Valid(db.(notifications := ns))
  {
    assert NotificationsValid(ns, db.nextNotificationId, db.clock);
  }

  // ---------------------------------------------------------------------------
  // Announcements
  // ---------------------------------------------------------------------------

  function AnnouncementDrafts(ids: seq<Option<UserId>>, message: string, sender: Option<UserId>): (ds: seq<Draft>)
    ensures |ds| == |ids|
    ensures forall i :: 0 <= i < |ids| ==> ds[i] == Draft(ids[i], sender, AnnouncementType, message, None, None)
  {
    if |ids| == 0 then []
    else AnnouncementDrafts(ids[..|ids| - 1], message, sender) + [Draft(ids[|ids| - 1], sender, AnnouncementType, message, None, None)]
  }

  /** The rows `create_announcement` saves: one broadcast when there is no
      list or an empty one, else one targeted row per listed id, duplicates
      included. */
  function AnnouncementBatch(message: string, recipients: Option<seq<Option<UserId>>>, sender: Option<UserId>): seq<Draft>
  {
    if recipients.None? || recipients.value == [] then [Draft(None, sender, AnnouncementType, message, None, None)]
    else AnnouncementDrafts(recipients.value, message, sender)
  }

  function Announce(db: Db, message: string, recipients: Option<seq<Option<UserId>>>, sender: Option<UserId>): Step<nat>
  {
    var ds := AnnouncementBatch(message, recipients, sender);
    Step(AddDrafts(db, ds), |ds|)
  }

  /** What an announcement does: only notification rows are added, all of
      them unread announcements from the sender with the message; no list
      (or an empty one) gives a single broadcast and the count 1, a list
      gives one row per entry, in list order, and its length as the count. */
  lemma AnnounceSpec(db: Db, message: string, recipients: Option<seq<Option<UserId>>>, sender: Option<UserId>, s: Step<nat>)
    requires s == Announce(db, message, recipients, sender)
    ensures s.db.posts == db.posts && s.db.comments == db.comments && s.db.likes == db.likes
    ensures |s.db.notifications| == |db.notifications| + s.result
    ensures s.db.notifications[..|db.notifications|] == db.notifications
    ensures forall i :: |db.notifications| <= i < |s.db.notifications| ==>
              var n := s.db.notifications[i];
              n.kind == AnnouncementType && n.message == message && n.sender == sender && !n.isRead &&
              n.postId.None? && n.commentId.None?
    ensures recipients.None? || recipients.value == [] ==>
              s.result == 1 && s.db.notifications[|db.notifications|].recipient.None?
    ensures recipients.Some? && recipients.value != [] ==>
              s.result == |recipients.value| &&
              forall i :: 0 <= i < |recipients.value| ==>
                s.db.notifications[|db.notifications| + i].recipient == recipients.value[i]
  {
    var ds := AnnouncementBatch(message, recipients, sender);
    var after := AddDrafts(db, ds);
    assert forall i :: |db.notifications| <= i < |after.notifications| ==>
             after.notifications[i] == Row(ds[i - |db.notifications|], db.nextNotificationId + i - |db.notifications|,
                                           db.clock + i - |db.notifications|);
  }

  /** A broadcast reaches every user's feed and does not change anyone's unread count. */
  lemma BroadcastReachesEveryone(db: Db, message: string, sender: Option<UserId>, v: UserId)
    ensures var after := Announce(db, message, None, sender).db;
            after.notifications[|db.notifications|] in Feed(after, v, true) &&
            UnreadCount(after, v) == UnreadCount(db, v)
  {
    var after := Announce(db, message, None, sender).db;
    AnnounceSpec(db, message, None, sender, Announce(db, message, None, sender));
    var n := after.notifications[|db.notifications|];
    assert after.notifications == db.notifications + [n];
    CountAppend(db.notifications, n, UnreadFor(v));
    FeedHasEveryShown(after, v, true, |db.notifications|);
  }

  lemma AnnounceKeepsValid(db: Db, message: string, recipients: Option<seq<Option<UserId>>>, sender: Option<UserId>)
    requires Valid(db)
    ensures Valid(Announce(db, message, recipients, sender).db)
  {
    AddDraftsKeepsValid(db, AnnouncementBatch(message, recipients, sender));
  }

  // ---------------------------------------------------------------------------
  // Posts and comments as listed
  // ---------------------------------------------------------------------------

  function IsSticky(): Post -> bool { (p: Post) => p.isSticky }

  function NotSticky(): Post -> bool { (p: Post) => !p.isSticky }

  /** Posts in the order `-is_sticky, -created_at`, for posts kept in creation order. */
  function OrderedPosts(posts: seq<Post>): (r: seq<Post>)
    ensures multiset(r) == multiset(posts)
    ensures forall i, j :: 0 <= i < j < |r| && r[j].isSticky ==> r[i].isSticky
  {
    var sticky := Reverse(Filter(posts, IsSticky()));
    var rest := Reverse(Filter(posts, NotSticky()));
    SplitIsPermutation(posts);
    StickyBlockFirst(sticky, rest);
    sticky + rest
  }

  lemma SplitIsPermutation(posts: seq<Post>)
    ensures multiset(Reverse(Filter(posts, IsSticky())) + Reverse(Filter(posts, NotSticky()))) == multiset(posts)
  {
    FilterMultiset(posts, IsSticky(), NotSticky());
    ReverseMultiset(Filter(posts, IsSticky()));
    ReverseMultiset(Filter(posts, NotSticky()));
  }

  lemma StickyBlockFirst(sticky: seq<Post>, rest: seq<Post>)
    requires forall i :: 0 <= i < |sticky| ==> sticky[i].isSticky
    requires forall i :: 0 <= i < |rest| ==> !rest[i].isSticky
    ensures forall i, j :: 0 <= i < j < |sticky + rest| && (sticky + rest)[j].isSticky ==> (sticky + rest)[i].isSticky
  {
    var r := sticky + rest;
    forall i | 0 <= i < |r| ensures r[i].isSticky <==> i < |sticky| {
      if i < |sticky| { assert r[i] == sticky[i]; } else { assert r[i] == rest[i - |sticky|]; }
    }
  }

  predicate OlderFirst(posts: seq<Post>)
  {
    forall i, j :: 0 <= i < j < |posts| ==> posts[i].createdAt < posts[j].createdAt
  }

  predicate NewestFirst(posts: seq<Post>)
  {
    forall i, j :: 0 <= i < j < |posts| ==> posts[i].createdAt > posts[j].createdAt
  }

  /** A filtered subsequence of posts in creation order, reversed, is newest first. */
  lemma {:induction false} NewestFirstPart(posts: seq<Post>, p: Post -> bool)
    requires OlderFirst(posts)
    ensures NewestFirst(Reverse(Filter(posts, p)))
  {
    FilterOrder(posts, p, (a: Post, b: Post) => a.createdAt < b.createdAt);
    var f := Filter(posts, p);
    assert OlderFirst(f);
  }

  /** With posts in creation order, the listing is sorted by the default ordering. */
  lemma {:induction false} PostsListedInOrder(posts: seq<Post>)
    requires OlderFirst(posts)
    ensures var r := OrderedPosts(posts);
            forall i, j :: 0 <= i < j < |r| ==> PostListedBefore(r[i], r[j])
  {
    NewestFirstPart(posts, IsSticky());
    NewestFirstPart(posts, NotSticky());
    var sticky, rest := Reverse(Filter(posts, IsSticky())), Reverse(Filter(posts, NotSticky()));
    assert OrderedPosts(posts) == sticky + rest;
    StickyThenNewest(sticky, rest);
  }

  /** Sticky posts newest first, then the others newest first, is the default ordering. */
  lemma StickyThenNewest(sticky: seq<Post>, rest: seq<Post>)
    requires NewestFirst(sticky) && NewestFirst(rest)
    requires forall i :: 0 <= i < |sticky| ==> sticky[i].isSticky
    requires forall i :: 0 <= i < |rest| ==> !rest[i].isSticky
    ensures forall i, j :: 0 <= i < j < |sticky + rest| ==> PostListedBefore((sticky + rest)[i], (sticky + rest)[j])
  {
    var r := sticky + rest;
    forall i, j | 0 <= i < j < |r| ensures PostListedBefore(r[i], r[j]) {
      if j < |sticky| {
        assert r[i] == sticky[i] && r[j] == sticky[j];
      } else if i >= |sticky| {
        assert r[i] == rest[i - |sticky|] && r[j] == rest[j - |sticky|];
      } else {
        assert r[i] == sticky[i] && r[j] == rest[j - |sticky|];
      }
    }
  }

  /** `get_posts`: one page of the ordered posts, with page clamping. */
  function GetPosts(db: Db, page: string, pageSize: nat): (r: Paging.Page<Post>)
    requires pageSize >= 1
    ensures r.totalItems == |db.posts|
    ensures 1 <= r.currentPage <= r.totalPages && |r.items| <= pageSize
    ensures forall i :: 0 <= i < |r.items| ==> r.items[i] in db.posts
  {
    var ordered := OrderedPosts(db.posts);
    var r := Paging.Paginate(ordered, page, pageSize);
    assert forall i :: 0 <= i < |r.items| ==> r.items[i] in multiset(ordered);
    r
  }

  /** `get_post_detail`. */
  function PostDetail(db: Db, id: int): (r: Option<Post>)
    ensures r.Some? ==> r.value in db.posts && r.value.id == id
    ensures r.None? <==> forall i :: 0 <= i < |db.posts| ==> db.posts[i].id != id
  {
    match IndexWhere(db.posts, PostWithId(id))
    case None => None
    case Some(k) => Some(db.posts[k])
  }

  /** `get_comments`: the post's comments, oldest first, one page. */
  function GetComments(db: Db, postId: int, page: string, pageSize: nat): (r: Paging.Page<Comment>)
    requires pageSize >= 1
    ensures r.totalItems == CountWhere(db.comments, OnPost(postId))
    ensures forall i :: 0 <= i < |r.items| ==> r.items[i] in db.comments && r.items[i].postId == postId
  {
    CountFilter(db.comments, OnPost(postId));
    Paging.Paginate(Filter(db.comments, OnPost(postId)), page, pageSize)
  }
}
