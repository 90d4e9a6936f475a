/** The forum tables as the services change them in place: one object whose
    fields are the four tables and their id counters, and one method per write
    path. Each method is proved to leave the object in the state the
    corresponding function of module Forum computes, and to keep the table
    invariants. */
module ForumStore {
  import opened Common
  import opened Models
  import PyText
  import Forum

  class Store {
    var posts: seq<Post>
    var comments: seq<Comment>
    var likes: seq<Like>
    var notifications: seq<Notification>
    var nextPostId: int
    var nextCommentId: int
    var nextLikeId: int
    var nextNotificationId: int
    var clock: nat

    /** The tables as one database value. */
    function Db(): Forum.Db
      reads this
    {
      Forum.Db(posts, comments, likes, notifications, nextPostId, nextCommentId, nextLikeId, nextNotificationId, clock)
    }

    ghost predicate Valid()
      reads this
    {
      Forum.Valid(Db())
    }

    /** Empty tables; ids start at 1. */
    constructor ()
      ensures Valid()
      ensures Db() == Forum.Db([], [], [], [], 1, 1, 1, 1, 0)
    {
      posts, comments, likes, notifications := [], [], [], [];
      nextPostId, nextCommentId, nextLikeId, nextNotificationId := 1, 1, 1, 1;
      clock := 0;
    }

    /** `Notification(...).save()`. */
    method SaveNotification(d: Forum.Draft)
      modifies this
      ensures Db() == Forum.AddDrafts(old(Db()), [d])
    {
      assert Forum.AddDrafts(Db(), [d]).notifications == notifications + [Forum.Row(d, nextNotificationId, clock)];
      notifications := notifications + [Forum.Row(d, nextNotificationId, clock)];
      nextNotificationId := nextNotificationId + 1;
      clock := clock + 1;
    }

    /** `Like.objects.create(...)` and, when due, the owner's notification. */
    method AddLike(t: Forum.Target, liked: Forum.Liked, u: UserId)
      modifies this
      ensures Db() == Forum.AddDrafts(old(Db()).(likes := old(likes) + [Forum.NewLike(old(nextLikeId), u, t, old(clock))],
                                                 nextLikeId := old(nextLikeId) + 1, clock := old(clock) + 1),
                                      Forum.LikeDrafts(liked, u))
    {
      likes := likes + [Forum.NewLike(nextLikeId, u, t, clock)];
      nextLikeId := nextLikeId + 1;
      clock := clock + 1;
      if Forum.LikeNotifies(liked.owner, u) {
        SaveNotification(Forum.Draft(liked.owner, Some(u), LikeType, liked.message, liked.postLink, liked.commentLink));
      }
    }

    /** The part of a toggle after the liked row is found: delete the user's
        like of it if there is one, otherwise create the like. */
    method Flip(t: Forum.Target, liked: Forum.Liked, u: UserId) returns (outcome: Forum.ToggleOutcome)
      requires Forum.LikeTarget(Db(), t, u) == Some(liked)
      modifies this
      ensures Forum.ToggleLike(old(Db()), t, u) == Forum.Step(Db(), outcome)
    {
      var j := IndexWhere(likes, Forum.LikeOf(u, t));
      if j.Some? {
        Forum.ToggleOnLiked(Db(), t, u, j.value);
        likes := RemoveAt(likes, j.value);
        return Forum.Toggled(false);
      }
      Forum.ToggleOnUnliked(Db(), t, u, liked);
      AddLike(t, liked, u);
      return Forum.Toggled(true);
    }

    /** `LikeService.toggle_like_post`. */
    method ToggleLikePost(postId: int, u: UserId) returns (outcome: Forum.ToggleOutcome)
      requires Valid()
      modifies this
      ensures Valid()
      ensures Forum.ToggleLike(old(Db()), Forum.PostTarget(postId), u) == Forum.Step(Db(), outcome)
    {
      ghost var before := Db();
      var t := Forum.PostTarget(postId);
      var k := IndexWhere(posts, Forum.PostWithId(postId));
      if k.None? {
        Forum.ToggleOnMissing(before, t, u);
        return Forum.TargetMissing;
      }
      var post := posts[k.value];
      var liked := Forum.Liked(post.userId, Forum.LikedPostMessage(u, post.title), Some(post.id), None);
      assert Forum.LikeTarget(before, t, u) == Some(liked);
      outcome := Flip(t, liked, u);
      Forum.ToggleKeepsValid(before, t, u);
    }

    /** `LikeService.toggle_like_comment`. */
    method ToggleLikeComment(commentId: int, u: UserId) returns (outcome: Forum.ToggleOutcome)
      requires Valid()
      modifies this
      ensures Valid()
      ensures Forum.ToggleLike(old(Db()), Forum.CommentTarget(commentId), u) == Forum.Step(Db(), outcome)
    {
      ghost var before := Db();
      var t := Forum.CommentTarget(commentId);
      var k := IndexWhere(comments, Forum.CommentWithId(commentId));
      if k.None? {
        Forum.ToggleOnMissing(before, t, u);
        return Forum.TargetMissing;
      }
      var comment := comments[k.value];
      var liked := Forum.Liked(comment.userId, Forum.LikedCommentMessage(u), Some(comment.postId), Some(comment.id));
      assert Forum.LikeTarget(before, t, u) == Some(liked);
      outcome := Flip(t, liked, u);
      Forum.ToggleKeepsValid(before, t, u);
    }

    /** `CommentService.create_comment` followed by `create_comment_notification`. */
    method CreateComment(postId: int, content: string, parentId: int, u: UserId) returns (outcome: Forum.CommentOutcome)
      requires Valid()
      modifies this
      ensures Valid()
      ensures Forum.CreateComment(old(Db()), postId, content, parentId, u) == Forum.Step(Db(), outcome)
    {
      Forum.CreateCommentKeepsValid(Db(), postId, content, parentId, u);
      outcome := SaveComment(postId, content, parentId, u);
    }

    /** The writes of a comment: the row, the post's recount and the notifications. */
    method SaveComment(postId: int, content: string, parentId: int, u: UserId) returns (outcome: Forum.CommentOutcome)
      modifies this
      ensures Forum.CreateComment(old(Db()), postId, content, parentId, u) == Forum.Step(Db(), outcome)
    {
      if !Forum.CommentAccepted(content, u) {
        return Forum.Rejected;
      }
      ghost var before := Db();
      var c := NewComment(nextCommentId, postId, Some(PyText.Strip(u)), PyText.Strip(content), parentId, clock);
      comments := comments + [c];
      nextCommentId := nextCommentId + 1;
      clock := clock + 1;
      assert Db() == Forum.SaveComment(before, c);
      var k := IndexWhere(posts, Forum.PostWithId(postId));
      if k.None? {
        Forum.CommentOnMissingPost(before, postId, content, parentId, u);
        return Forum.Created(c);
      }
      Forum.CommentOnPost(before, postId, content, parentId, u, k.value);
      RecountAndNotify(k.value, c, u);
      return Forum.Created(c);
    }

    /** The post's recount and save, then the reply notifications of comment c. */
    method RecountAndNotify(k: nat, c: Comment, u: UserId)
      requires k < |posts|
      modifies this
      ensures var recounted := Forum.Recount(old(Db()), k, c.postId);
              Db() == Forum.AddDrafts(recounted, Forum.FanOutDrafts(Forum.ReplyFanOut(old(comments), c, recounted.posts[k], u)))
    {
      ghost var recounted := Forum.Recount(Db(), k, c.postId);
      var post := posts[k].(commentCount := CountWhere(comments, Forum.OnPost(c.postId)), updatedAt := clock);
      posts := posts[k := post];
      clock := clock + 1;
      assert Db() == recounted && post == recounted.posts[k];
      var fan := Forum.ReplyFanOut(comments, c, post, u);
      SaveFanOut(fan);
    }

    /** The owner's notification, then the parent author's. */
    method SaveFanOut(fan: Forum.FanOut)
      modifies this
      ensures Db() == Forum.AddDrafts(old(Db()), Forum.FanOutDrafts(fan))
    {
      ghost var before := Db();
      if fan.toOwner.Some? {
        SaveNotification(fan.toOwner.value);
      }
      if fan.toParent.Some? {
        SaveNotification(fan.toParent.value);
      }
      AddDraftsSplit(before, if fan.toOwner.Some? then [fan.toOwner.value] else [],
                     if fan.toParent.Some? then [fan.toParent.value] else []);
    }

    /** `NotificationService.mark_notification_read`. */
    method MarkNotificationRead(id: int, u: UserId) returns (outcome: Forum.MarkOutcome)
      requires Valid()
      modifies this
      ensures Valid()
      ensures Forum.MarkRead(old(Db()), id, u) == Forum.Step(Db(), outcome)
    {
      Forum.MarkingKeepsValid(Db(), id, u);
      var k := IndexWhere(notifications, Forum.NotificationWithId(id));
      if k.None? {
        return Forum.NotFound;
      }
      if notifications[k.value].recipient != Some(u) {
        return Forum.Forbidden;
      }
      notifications := notifications[k.value := notifications[k.value].(isRead := true)];
      return Forum.Marked;
    }

    /** `NotificationService.mark_all_notifications_read`: the bulk update and its row count. */
    method MarkAllNotificationsRead(u: UserId) returns (updated: nat)
      requires Valid()
      modifies this
      ensures Valid()
      ensures Forum.MarkAllRead(old(Db()), u) == Forum.Step(Db(), updated)
    {
      Forum.MarkingKeepsValid(Db(), 0, u);
      updated := CountWhere(notifications, Forum.UnreadFor(u));
      notifications := Forum.MarkAllIn(notifications, u);
    }

    /** `NotificationService.create_announcement`: one broadcast, or a loop
        saving one targeted row per listed id. */
    method CreateAnnouncement(message: string, recipients: Option<seq<Option<UserId>>>, sender: Option<UserId>)
      returns (created: nat)
      requires Valid()
      modifies this
      ensures Valid()
      ensures Forum.Announce(old(Db()), message, recipients, sender) == Forum.Step(Db(), created)
    {
      Forum.AnnounceKeepsValid(Db(), message, recipients, sender);
      created := SaveAnnouncement(message, recipients, sender);
    }

    /** The writes of an announcement. */
    method SaveAnnouncement(message: string, recipients: Option<seq<Option<UserId>>>, sender: Option<UserId>)
      returns (created: nat)
      modifies this
      ensures Forum.Announce(old(Db()), message, recipients, sender) == Forum.Step(Db(), created)
    {
      if recipients.None? || recipients.value == [] {
        SaveNotification(Forum.Draft(None, sender, AnnouncementType, message, None, None));
        created := 1;
      } else {
        var ids := recipients.value;
        created := SaveTargeted(ids, message, sender);
        assert Forum.AnnouncementBatch(message, recipients, sender) == Forum.AnnouncementDrafts(ids, message, sender);
      }
    }

    /** The loop of `create_announcement` over a recipient list: one row each. */
    method SaveTargeted(ids: seq<Option<UserId>>, message: string, sender: Option<UserId>) returns (created: nat)
      modifies this
      ensures Db() == Forum.AddDrafts(old(Db()), Forum.AnnouncementDrafts(ids, message, sender))
      ensures created == |ids|
    {
      created := 0;
      ghost var start := Db();
      for i := 0 to |ids|
        invariant Db() == Forum.AddDrafts(start, Forum.AnnouncementDrafts(ids[..i], message, sender))
        invariant created == i
      {
        var d := Forum.Draft(ids[i], sender, AnnouncementType, message, None, None);
        SaveNotification(d);
        AnnouncementRowStep(start, ids, i, message, sender);
        created := created + 1;
      }
      assert ids[..|ids|] == ids;
    }
  }

  /** Saving the row for the next recipient extends the saved batch by one. */
  lemma AnnouncementRowStep(start: Forum.Db, ids: seq<Option<UserId>>, i: nat, message: string, sender: Option<UserId>)
    requires i < |ids|
    ensures Forum.AddDrafts(Forum.AddDrafts(start, Forum.AnnouncementDrafts(ids[..i], message, sender)),
                            [Forum.Draft(ids[i], sender, AnnouncementType, message, None, None)]) ==
            Forum.AddDrafts(start, Forum.AnnouncementDrafts(ids[..i + 1], message, sender))
  {
    AddDraftsSplit(start, Forum.AnnouncementDrafts(ids[..i], message, sender),
                   [Forum.Draft(ids[i], sender, AnnouncementType, message, None, None)]);
    AnnouncementDraftsStep(ids, i, message, sender);
  }

  lemma AnnouncementDraftsStep(ids: seq<Option<UserId>>, i: nat, message: string, sender: Option<UserId>)
    requires i < |ids|
    ensures Forum.AnnouncementDrafts(ids[..i + 1], message, sender) ==
            Forum.AnnouncementDrafts(ids[..i], message, sender) + [Forum.Draft(ids[i], sender, AnnouncementType, message, None, None)]
  {
    assert ids[..i + 1][..i] == ids[..i];
  }

  /** Saving two batches of drafts one after the other is saving them together. */
  lemma {:induction false} AddDraftsSplit(db: Forum.Db, a: seq<Forum.Draft>, b: seq<Forum.Draft>)
    ensures Forum.AddDrafts(Forum.AddDrafts(db, a), b) == Forum.AddDrafts(db, a + b)
  {
    if |b| > 0 {
      assert (a + b)[..|a + b| - 1] == a + b[..|b| - 1];
      AddDraftsSplit(db, a, b[..|b| - 1]);
    } else {
      assert a + b == a;
    }
  }
}
