# Interview applications and forum: a verified model

This project models the core of a student-interview application platform that has a small forum beside it. The core has four parts:

- **Forum services.** Toggling a like on a post or a comment, creating a comment and fanning out its reply notifications, the notification feed (targeted plus broadcast entries), unread counts, marking read, announcements, and the paged post and comment listings.
- **Application intake.** A student's submission with its required-field checks, the duplicate-number check and the numeric conversions; the reviewer's 1-10 rating; and the filtered listing, latest booking first.
- **Admin panel handlers.** The login gate; pinning, featuring and deleting posts; the field-wise application update; the 1-100 score; the remark; the announcement publisher; and the results-released flag.
- **Admin front-end helpers.** The CSV export and its quoting; the counters and pager of the applications page; the HTML escaping of the forum page; and the display normalisers and score guard of the detail page.

The model is split by module:

- **Common, PyText, JsText.** Shared vocabulary, Python `str`/`int()`/truthiness, and JavaScript `String()`/`parseInt`/`trim`/truthiness.
- **Models.** The five record shapes.
- **Paging.** Django's paginator, as the services call it.
- **Forum.** The forum services as pure functions from one database value to the next.
- **ForumStore.** A `Store` class whose methods change the tables in place. Each method is proved to reach the state the matching `Forum` function computes.
- **Applications.** The intake service. Its functions are specifications; the `Store` class runs the submission's field-check loop.
- **AdminPanel.** The admin handlers. Each is a function plus a method over the store objects, proved equal to it.
- **PageCounters.** The page counter that both admin list pages keep in a module-level variable.
- **AppsPage, ForumPage, DetailPage.** The admin front-end helpers.

In these places the code behaves differently from what its names suggest, and the model follows the code:

- **Student numbers are not unique in the table.** Nothing in the table forbids a repeated student number. Only the submission path refuses one (`Applications.ResubmissionRefused`). The admin update can write a number that another row already has (`AdminPanel.UpdateCanDuplicateNumber`).
- **Posts have no featured flag.** The featured action always answers 400 for an existing post, and it never changes anything (`AdminPanel.Feature`).
- **Comments on a missing post are kept.** A comment on a post id that does not exist is still saved and reported as created; no count or notification changes (`Forum.CreateComment`).
- **Two scoring rules.** The intake service accepts ratings 1-10. The admin handler accepts scores 1-100 (`AdminPanel.ScoreRulesDiffer`).
- **A missing name is a database error.** The form view fills every key of the form from `request.POST.get` (interview/views.py:231-248), so a name left out of the POST arrives as None and the save fails the NOT NULL constraint. Only a form that lacks the `name` key altogether would be saved with an empty name, and the form view never builds one (`Applications.NameNotRequired`).

Inputs that come from outside the program are parameters:

- whether the session is logged in;
- the admin's user id;
- the parsed `book_time` (a `parseTime` function);
- the request body, already decoded into a small JSON value type.

Timestamps are readings of one monotone counter. Every new row, and every save of a post or comment (their `updated_at` is `auto_now`, interview/models.py:26 and 54), takes the next reading; the other saves record no time.

## Model

| member | source | states |
|---|---|---|
| Models.LikeConstraintsIndependent | interview/models.py:117-123 | the two like constraints are separate: one user may like post 5 and comment 5, but not post 5 twice |
| Models.PostOrderStrict | interview/models.py:28-30 | the post ordering (sticky first, then newest) is irreflexive, asymmetric and transitive, and total on distinct creation times |
| Paging.NumPages | interview/service/forum.py:21 | the page count is at least 1 and covers exactly the items (an empty list has one page) |
| Paging.ResolvePage | interview/service/forum.py:23-28 | a non-integer page gives page 1, a page in range is kept, and any other page gives the last page; the result is always within 1..num_pages |
| Paging.PageSlice | interview/service/forum.py:24 | a page holds the items from its start position, full unless it is the last page |
| Paging.Paginate | interview/service/forum.py:21-39 | the returned page number, page count, total and items agree with the paginator |
| Paging.PageStartBounds | interview/service/forum.py:24 | every page but the last holds a full page_size of items |
| Paging.PageOfPosition | interview/service/forum.py:24 | position i lies on page i / page_size + 1 |
| Paging.ItemOnItsPage | interview/service/forum.py:24 | every item is shown on exactly the page its position gives |
| Forum.AddDrafts | interview/service/forum.py:226 | saving notifications appends them in order with fresh ids and creation times and changes no other table |
| Forum.NewLike | interview/service/forum.py:358 | the new like names exactly the user and a single target |
| Forum.LikeTarget | interview/service/forum.py:348-351 | the liked row is found exactly when a post (comment) with that id exists |
| Forum.LikeDrafts | interview/service/forum.py:360-367 | a like notifies the owner exactly when the owner id is non-empty and differs from the liker |
| Forum.ToggleLikeSpec | interview/service/forum.py:347-393 | a missing target fails and changes nothing; an existing like is deleted (liked=false); otherwise one like is added (liked=true), plus the owner notification when due |
| Forum.ToggleOnMissing | interview/service/forum.py:348-351 | a toggle on a post or comment that does not exist reports the missing target and changes nothing |
| Forum.ToggleOnLiked | interview/service/forum.py:353-356 | when the user already likes the target, the toggle deletes exactly that like row and reports liked=false |
| Forum.ToggleOnUnliked | interview/service/forum.py:357-367 | when the user does not like the target, the toggle appends one like with the next id and saves the owner notification when due, reporting liked=true |
| Forum.ToggleTwiceRestoresLikes | interview/service/forum.py:353-358 | liking then toggling again restores the like table and reports liked, then unliked |
| Forum.MatchUnique | interview/models.py:120-123 | under the uniqueness constraints at most one like row matches a user and a target |
| Forum.RemoveOnlyMatch | interview/service/forum.py:355 | deleting the one like row that matches a user and target leaves that user not liking the target |
| Forum.UnlikeClearsLike | interview/service/forum.py:353-356 | after an unlike, no like row of that user on that target remains |
| Forum.AddDraftsKeepsValid | interview/service/forum.py:226 | saving notifications keeps every table invariant |
| Forum.LikesValidAfterRemove | interview/service/forum.py:355 | deleting a like keeps the like invariants |
| Forum.LikesValidAfterAdd | interview/service/forum.py:358 | adding a like the user did not have keeps both uniqueness constraints |
| Forum.UnlikeKeepsValid | interview/service/forum.py:355 | deleting any like row keeps every table invariant |
| Forum.LikeKeepsValid | interview/service/forum.py:358 | creating a like the user does not have yet keeps every table invariant |
| Forum.ToggleKeepsValid | interview/service/forum.py:347-393 | toggling a like keeps every table invariant, so the create never violates a constraint |
| Forum.ParentAuthor | interview/service/forum.py:230-232 | the parent is looked up only for a positive id, and found exactly when a comment has that id |
| Forum.ReplyFanOut | interview/service/forum.py:209-246 | the post owner is notified unless they are the commenter; the parent author is notified unless they are the commenter or the post owner; the messages and links are as in the source |
| Forum.FanOutShape | interview/service/forum.py:209-246 | at most two reply notifications, to distinct recipients, neither of them the commenter |
| Forum.CommentRule | interview/models.py:44-47 | the comment fields are trimmed before they are checked: an all-white-space content is refused, an accepted one has a non-white-space character, acceptance depends only on the trimmed texts, and the trimmed content starts and ends with a visible character |
| Forum.CreateCommentSpec | interview/service/forum.py:122-163 | an invalid comment changes nothing; a valid one is saved with its trimmed content and user id; when the post exists its comment count becomes the live count and the fan-out is saved; when it does not, the comment is still kept |
| Forum.CommentOnPostSpec | interview/service/forum.py:137-163 | on an existing post the trimmed comment is appended with the next id, that post's count becomes the live count with the save's time, the reply notifications follow in order, and the likes are untouched |
| Forum.FanOutIgnoresCounts | interview/service/forum.py:209-246 | the reply notifications read only the post's owner, title and id, so the recount does not change them |
| Forum.CommentOnMissingPost | interview/service/forum.py:137-151 | a valid comment on a post id no row has is saved alone: no recount and no notification |
| Forum.CommentOnPost | interview/service/forum.py:138-163 | a valid comment on an existing post is saved, the post's count becomes the live count, and the reply notifications follow |
| Forum.CommentsValidAfterAdd | interview/service/forum.py:138 | appending the new comment keeps the comment invariants |
| Forum.PostIdsUnique | interview/models.py:7-26 | post ids are unique in a valid table |
| Forum.PostLookup | interview/models.py:7-26 | in a valid table the lookup by a post's own id finds that post's position |
| Forum.PostsValidAfterUpdate | interview/service/forum.py:144 | saving a post in place keeps the post invariants |
| Forum.RecountKeepsValid | interview/service/forum.py:143-144 | the recount and its save keep every table invariant |
| Forum.CreateCommentKeepsValid | interview/service/forum.py:122-163 | creating a comment keeps every table invariant |
| Forum.OwnerlessPostReplyIsBroadcast | interview/service/forum.py:217-226 | a reply on a post with no owner saves its owner notification with a null recipient, so every user sees it |
| Forum.CommentsOldestFirst | interview/service/forum.py:100 | a post's comments are listed oldest first |
| Forum.Feed | interview/service/forum.py:180-187 | every feed entry is a notification addressed to the user or broadcast (and unread, on request), and the feed has as many entries as there are such notifications |
| Forum.FeedHasEveryShown | interview/service/forum.py:180-185 | every targeted or broadcast notification (unread, on request) is in the feed |
| Forum.GetNotifications | interview/service/forum.py:170-206 | the page total is the size of the feed and every shown item is a feed entry |
| Forum.FeedNewestFirst | interview/service/forum.py:187 | the feed is ordered newest first |
| Forum.UnreadCount | interview/service/forum.py:336-340 | the unread count counts only unread notifications addressed to the user; broadcasts never count |
| Forum.MarkRead | interview/service/forum.py:249-279 | an unknown id gives not-found; someone else's (or a broadcast) gives forbidden with no change; otherwise exactly that row becomes read |
| Forum.BroadcastNeverMarked | interview/service/forum.py:260-264 | no user can mark a broadcast read |
| Forum.MarkReadUnreadCount | interview/service/forum.py:249-273 | a successful mark lowers the user's unread count by one when the notification was unread, and leaves it unchanged when it was already read |
| Forum.MarkAllIn | interview/service/forum.py:289-295 | the bulk update marks exactly the user's unread notifications |
| Forum.MarkAllRead | interview/service/forum.py:282-300 | only the user's notifications change, all of them become read, and the reported count is the user's former unread count |
| Forum.MarkAllReadEffect | interview/service/forum.py:282-300 | afterwards the user has nothing unread, no other user's count moved, and the reported count equals the number of rows changed |
| Forum.CountSameAfterMark | interview/service/forum.py:289-295 | marking one user's notifications leaves every other user's unread count unchanged |
| Forum.MarkAllChangesUnread | interview/service/forum.py:295 | the rows the update changes are exactly the user's unread rows |
| Forum.MarkAllReadIdempotent | interview/service/forum.py:282-300 | marking all a second time changes nothing and reports 0 |
| Forum.SameKeysKeepValid | interview/service/forum.py:249-300 | rewriting notification rows while keeping their ids and creation times keeps every table invariant |
| Forum.MarkingKeepsValid | interview/service/forum.py:249-300 | marking one or all notifications read keeps every table invariant |
| Forum.AnnouncementDrafts | interview/service/forum.py:320-328 | one announcement per listed recipient, in list order |
| Forum.AnnounceSpec | interview/service/forum.py:303-333 | no list or an empty list saves one broadcast and reports 1; otherwise one targeted row per list entry is saved and the count is the list length; no other table changes |
| Forum.BroadcastReachesEveryone | interview/service/forum.py:310-318 | a broadcast appears in every user's feed and changes nobody's unread count |
| Forum.AnnounceKeepsValid | interview/service/forum.py:303-333 | announcing keeps every table invariant |
| Forum.SplitIsPermutation | interview/service/forum.py:20 | the sticky block followed by the other posts holds every post exactly as often as the table |
| Forum.StickyBlockFirst | interview/service/forum.py:20 | in the listing no sticky post comes after a non-sticky one |
| Forum.StickyThenNewest | interview/service/forum.py:20 | a newest-first sticky block followed by a newest-first non-sticky block follows the default ordering throughout |
| Forum.OrderedPosts | interview/service/forum.py:20 | the listing is a permutation of the posts with every sticky post first |
| Forum.NewestFirstPart | interview/service/forum.py:20 | a creation-ordered part of the posts, reversed, is newest first |
| Forum.PostsListedInOrder | interview/service/forum.py:20 | with posts kept in creation order, the listing follows the default ordering (sticky first, then newest) |
| Forum.GetPosts | interview/service/forum.py:13-39 | one clamped page of the ordered posts; the total is the number of posts |
| Forum.PostDetail | interview/service/forum.py:68-85 | the detail is the post with that id, and none exactly when no post has it |
| Forum.GetComments | interview/service/forum.py:92-119 | one clamped page of the post's comments; the total is their number |
| ForumStore.Store.constructor | interview/models.py:7-127 | empty tables with every id counter at 1 |
| ForumStore.Store.SaveNotification | interview/service/forum.py:226 | the saved notification is appended with the next id and clock reading |
| ForumStore.Store.AddLike | interview/service/forum.py:358-367 | the like row is appended with the next id and clock reading, followed by the owner notification when due |
| ForumStore.Store.Flip | interview/service/forum.py:353-367 | once the target is found, deleting or creating the like reaches the state and outcome `Forum.ToggleLike` computes |
| ForumStore.Store.ToggleLikePost | interview/service/forum.py:347-368 | the in-place toggle reaches the state and outcome `Forum.ToggleLike` computes, and keeps the invariants |
| ForumStore.Store.ToggleLikeComment | interview/service/forum.py:371-393 | the same for a comment target |
| ForumStore.Store.CreateComment | interview/service/forum.py:122-163 | the in-place comment creation, with its recount and fan-out, reaches the state `Forum.CreateComment` computes |
| ForumStore.Store.SaveComment | interview/service/forum.py:122-163 | the writes of a comment (row, recount, fan-out) reach the state and outcome `Forum.CreateComment` computes |
| ForumStore.Store.RecountAndNotify | interview/service/forum.py:143-163 | the post's recount and save are followed by the reply notifications computed from the recounted post |
| ForumStore.Store.SaveFanOut | interview/service/forum.py:217-246 | the owner notification and then the parent author's are saved, in that order, when due |
| ForumStore.Store.MarkNotificationRead | interview/service/forum.py:249-279 | the in-place mark reaches the state and outcome `Forum.MarkRead` computes |
| ForumStore.Store.MarkAllNotificationsRead | interview/service/forum.py:282-300 | the bulk update reaches `Forum.MarkAllRead`'s state and reports its count |
| ForumStore.Store.CreateAnnouncement | interview/service/forum.py:303-333 | the loop saving one row per recipient reaches `Forum.Announce`'s state and count |
| ForumStore.Store.SaveAnnouncement | interview/service/forum.py:310-333 | the broadcast, or the loop saving one row per listed id, reaches `Forum.Announce`'s state and count |
| ForumStore.Store.SaveTargeted | interview/service/forum.py:320-328 | the loop over a recipient list saves one announcement per entry, in list order, and counts them |
| ForumStore.AnnouncementRowStep | interview/service/forum.py:320-328 | saving the row of the next recipient extends the saved batch by that row |
| ForumStore.AnnouncementDraftsStep | interview/service/forum.py:320-328 | one loop iteration appends one announcement |
| ForumStore.AddDraftsSplit | interview/service/forum.py:320-328 | saving two batches in turn equals saving them together |
| PyText.OrEmpty | interview/services/interview_services.py:35 | a truthy text is kept, anything else becomes "" |
| PyText.StripLeft | interview/services/interview_services.py:39 | `lstrip()` removes exactly the leading characters Python counts as white space (ASCII controls, the space and the Unicode separators), so the result is a suffix that starts with none of them |
| PyText.StripRight | interview/services/interview_services.py:39 | `rstrip()` removes exactly the trailing white space in the same sense, so the result is a prefix that ends with none of it |
| PyText.Strip | interview/services/interview_services.py:39 | `strip()` leaves no white space at either end, never lengthens the text, and keeps a text that has none at its ends |
| PyText.StripBlank | interview/services/interview_services.py:39 | a text strips to "" exactly when every character of it is white space |
| PyText.ParseIntSpec | interview/services/interview_services.py:39 | `int()` refuses a blank text and one that starts (after stripping) with anything but a digit or a sign; a negative result needs a leading '-'; a stripped digit string gives its decimal value |
| PyText.DigitStringParses | interview/services/interview_services.py:66 | `int()` of a digit string is its decimal value |
| PyText.ParseIntOfDecimal | interview/service/forum.py:24 | `int()` reads back the decimal text of any integer |
| PyText.LowerText | interview/services/interview_services.py:86 | ASCII case folding, as SQLite's LIKE behind `icontains` does it: the length is kept and each character is its ASCII lower-case form |
| PyText.StoredText | adminpanel/views.py:308 | `v or ''` stores "" for a falsy value and the text itself for a string |
| PyText.IntOrZero | adminpanel/views.py:310-312 | `int(v or 0)` gives 0 for a falsy value and the number itself for an integer |
| JsText.Trim | admin_frontend/js/apps.js:37-38 | `trim()` yields a contiguous piece of the input with no white space at either end, and everything it drops before and after that piece is white space |
| JsText.TrimStart | admin_frontend/js/apps.js:37-38 | the leading trim keeps a suffix that does not start with white space and drops only white space |
| JsText.TrimEnd | admin_frontend/js/apps.js:37-38 | the trailing trim keeps a prefix that does not end with white space and drops only white space |
| JsText.DigitPrefix | admin_frontend/js/detail.js:70 | `parseInt` reads the longest run of digits |
| JsText.ParseInt | admin_frontend/js/detail.js:70 | `parseInt` of blank text is NaN; a negative result needs a leading '-'; text that starts (after leading white space) with 1-9 reads the longest run of decimal digits |
| JsText.ParseIntOfDigits | admin_frontend/js/apps.js:106 | `parseInt` of a digit string is its decimal value |
| Applications.GetOr | interview/services/interview_services.py:35 | `data.get(key, default)` gives the default when the key is absent and the stored value, None included, when it is present |
| Applications.AppIdsUnique | interview/models.py:132 | application ids are unique in a valid table |
| Applications.FirstMissing | interview/services/interview_services.py:16-27 | the first required field, in the source's order, whose value is falsy; none exactly when all are truthy |
| Applications.CompleteMeansNoneMissing | interview/services/interview_services.py:25-27 | the six required-field checks pass exactly when no field is missing |
| Applications.Field | interview/services/interview_services.py:36-41 | a required field that passed the check is non-empty text |
| Applications.SubmitSpec | interview/services/interview_services.py:8-57 | a failure changes nothing; the missing-field error names the first missing field; a duplicate number is refused exactly when the form is complete and the number already exists; non-numeric math or English scores fail; a success appends one row built from the form with the next id |
| Applications.SubmitOnMissing | interview/services/interview_services.py:16-27 | a form with a blank required field fails with that field's caption and changes nothing |
| Applications.SubmitOnDuplicate | interview/services/interview_services.py:29-31 | a complete form whose number is on file is refused as a duplicate and changes nothing |
| Applications.SubmitAfterChecks | interview/services/interview_services.py:33-57 | past the duplicate check, non-numeric scores fail, a constraint violation fails, and otherwise the row built from the form is appended |
| Applications.SubmitSaves | interview/services/interview_services.py:33-50 | a successful submission appends exactly the row built from the form with the next id |
| Applications.ResubmissionRefused | interview/services/interview_services.py:29-31 | after one successful submission, a second complete form with the same number is refused as a duplicate |
| Applications.NameNotRequired | interview/services/interview_services.py:35 | a form without the name key is stored with the name "", but a name that is None, as the form view sends for a missing field, fails the NOT NULL constraint |
| Applications.BlankNameKeepsRequired | interview/services/interview_services.py:25-35 | a null name changes none of the required fields or the booking time, and `get("name", "")` then gives null |
| Applications.AppendKeepsValid | interview/services/interview_services.py:34-49 | appending a row with the next id at the current clock reading keeps the table invariants |
| Applications.SubmitKeepsValid | interview/services/interview_services.py:8-57 | a submission keeps the table invariants |
| Applications.Rate | interview/services/interview_services.py:59-77 | an unknown id gives record-missing; a missing score fails; the rating is stored exactly when it is a digit string worth 1..10; only the value field changes |
| Applications.RatingOfDecimal | interview/services/interview_services.py:66 | the decimal text of n is accepted exactly when 1 <= n <= 10 |
| Applications.RateChangesOnlyValue | interview/services/interview_services.py:70-71 | rating changes at most the value of the rated row and nothing else |
| Applications.RateKeepsValid | interview/services/interview_services.py:59-77 | rating keeps the table invariants |
| Applications.InsertByBookTime | interview/services/interview_services.py:81 | inserting into the listing adds exactly one row |
| Applications.InsertKeepsLatestFirst | interview/services/interview_services.py:81 | insertion keeps the order latest booking first |
| Applications.SortByBookTime | interview/services/interview_services.py:81 | the sort is a permutation of its input |
| Applications.SortIsLatestFirst | interview/services/interview_services.py:81 | the sorted rows are latest booking first |
| Applications.TiedRowsReversed | interview/services/interview_services.py:81 | two rows booked at the same time come out in reverse table order |
| Applications.GetApplications | interview/services/interview_services.py:79-90 | the listing holds exactly the filtered rows, each as often as in the table |
| Applications.ListingSpec | interview/services/interview_services.py:79-90 | the listing is latest booking first, and a row is listed exactly when it is in the table and passes the direction (case-insensitive substring) and grade filters |
| Applications.UnfilteredListsAll | interview/services/interview_services.py:84 | no filter, or an empty one, lists every row |
| Applications.FirstBlank | interview/services/interview_services.py:25-27 | the loop over the required fields returns the first blank one, and none exactly when all are filled |
| Applications.FirstMissingAt | interview/services/interview_services.py:25-27 | a blank field preceded only by filled ones is the first missing field |
| Applications.Store.constructor | interview/models.py:130-151 | an empty table with ids starting at 1 |
| Applications.Store.SubmitForm | interview/services/interview_services.py:8-57 | the field-check loop and the save reach the outcome and state `Applications.Submit` computes |
| Applications.Store.SaveForm | interview/services/interview_services.py:8-57 | the field loop, the duplicate check, the conversions and the save reach the outcome and state `Applications.Submit` computes |
| Applications.Store.SaveChecked | interview/services/interview_services.py:33-57 | past the field and duplicate checks, the conversions, the booking time and the save reach the outcome and state `Applications.Submit` computes |
| Applications.RateRequest | interview/views.py:276-279 | the rating view passes the posted id text on: a missing id finds no record, an id text `int()` refuses makes the rating fail, and any other id rates as `Rate` does; only a rating changes the table |
| Applications.RateByDecimalId | interview/services/interview_services.py:63 | the decimal text of an id rates exactly as that number id does |
| Applications.Store.RateApplication | interview/services/interview_services.py:59-77 | the in-place rating from the posted id text reaches `Applications.RateRequest`'s outcome and state, and keeps the table invariants |
| AdminPanel.Pin | adminpanel/views.py:101-111 | 401 when logged out; 404 exactly when no post has the id; a logged-in call on an existing id succeeds, and a success flips the sticky flag and saves the post |
| AdminPanel.PinTwiceRestores | adminpanel/views.py:105-109 | pinning twice restores the sticky flag of the post |
| AdminPanel.PinKeepsValid | adminpanel/views.py:101-111 | pinning keeps the table invariants |
| AdminPanel.Feature | adminpanel/views.py:116-128 | the database never changes; 400 exactly when the post exists, since posts have no featured field; never a success |
| AdminPanel.Delete | adminpanel/views.py:133-142 | 401 when logged out; 404 exactly when no post has the id; a logged-in call on an existing id succeeds, and a success removes exactly that post; no other table changes |
| AdminPanel.DeleteRemovesExactlyThePost | adminpanel/views.py:138-139 | after the delete no post has that id, and every other post remains |
| AdminPanel.PostsValidAfterRemove | adminpanel/views.py:138-139 | removing one post keeps the post ids and creation times strictly increasing and below the id counter |
| AdminPanel.DeleteKeepsValid | adminpanel/views.py:133-142 | deleting keeps the table invariants |
| AdminPanel.PinPost | adminpanel/views.py:101-111 | the in-place handler reaches `Pin`'s state and reply |
| AdminPanel.FeaturePost | adminpanel/views.py:116-128 | the handler answers as `Feature` does |
| AdminPanel.DeletePost | adminpanel/views.py:133-142 | the in-place handler reaches `Delete`'s state and reply |
| AdminPanel.SetText | adminpanel/views.py:308 | setting one text field leaves every other field unchanged |
| AdminPanel.TextOfSetText | adminpanel/views.py:308 | after setting field f, f reads the new text and every other text field reads as before |
| AdminPanel.CopyFields | adminpanel/views.py:306-308 | the field loop changes only the ten text fields |
| AdminPanel.CopyFieldsReads | adminpanel/views.py:306-308 | after the loop, each text field holds the payload's value (or '') when its key is in the payload, and its old value otherwise |
| AdminPanel.PatchedSpec | adminpanel/views.py:306-312 | the update succeeds exactly when the math and English values convert to integers; text fields follow the payload |
| AdminPanel.Update | adminpanel/views.py:292-314 | 401 when logged out; 404 exactly for an unknown id; for an existing row, 400 exactly when the body does not parse, success with no change for an empty body, and for a JSON body success with the patched row when the scores convert and 500 when they do not |
| AdminPanel.UpdateCanDuplicateNumber | adminpanel/views.py:306-308 | an update can give a row the student number of another row |
| AdminPanel.UpdateApplication | adminpanel/views.py:292-314 | the for-loop over the field list reaches `Update`'s state and reply; a failed conversion gives a server error |
| AdminPanel.ScoreOfNumber | adminpanel/views.py:386 | a JSON number is accepted exactly when it lies in 1..100; a missing score never is |
| AdminPanel.ScoreRulesDiffer | adminpanel/views.py:386 | every rating the intake service accepts passes the admin rule, and 50 shows that the converse fails |
| AdminPanel.PostedScore | adminpanel/views.py:379-385 | a posted form score wins; otherwise the JSON body's `score` when the key is there; otherwise None, also for a body that does not parse |
| AdminPanel.PostedRemark | adminpanel/views.py:405-411 | a posted form remark wins; otherwise the JSON body's `remark` when the key is there; a body that does not parse gives ''; otherwise None |
| AdminPanel.Score | adminpanel/views.py:369-390 | 401 when logged out; 404 for an unknown id; success exactly when `str(score)` is a digit string worth 1..100, and then only the value is set to `str(score)` |
| AdminPanel.Remark | adminpanel/views.py:395-414 | 401 when logged out; 404 for an unknown id; otherwise always a success that sets the remark to the posted text, or '' |
| AdminPanel.ScoreApplication | adminpanel/views.py:369-390 | the in-place handler reaches `Score`'s state and reply |
| AdminPanel.RemarkApplication | adminpanel/views.py:395-414 | the in-place handler reaches `Remark`'s state and reply |
| AdminPanel.Publish | adminpanel/views.py:420-437 | refusals change nothing, and a logged-in refusal is answered with status 400; publishing happens exactly when logged in, the body is JSON, the message is truthy and the recipients are falsy or a list; it then creates what `create_announcement` creates, with the admin id as sender |
| AdminPanel.FalsyRecipientsBroadcast | adminpanel/views.py:433 | a falsy non-list recipients value publishes one broadcast |
| AdminPanel.PublishAnnouncement | adminpanel/views.py:420-437 | the in-place handler reaches `Publish`'s state and outcome |
| AdminPanel.FlagAfter | adminpanel/views.py:443-460 | a logged-in call sets the flag to its value; a logged-out call leaves it |
| AdminPanel.LastWriteWins | adminpanel/views.py:443-460 | the last logged-in release or hide decides the flag, and repeating a call changes nothing |
| AdminPanel.ResultsFlag.constructor | adminpanel/views.py:448 | the cache starts without a value |
| AdminPanel.ResultsFlag.Release | adminpanel/views.py:443-449 | the flag becomes true when logged in, and the reply is the release message or 401 |
| AdminPanel.ResultsFlag.Hide | adminpanel/views.py:454-460 | the flag becomes false when logged in, and the reply is the hide message or 401 |
| PageCounters.PageCounter.constructor | admin_frontend/js/apps.js:2 | the counter starts at page 1 |
| PageCounters.PageCounter.Prev | admin_frontend/js/forum.js:5 | the previous button reloads exactly when the page is above 1, and steps back by one; the page never drops below 1 |
| PageCounters.PageCounter.Next | admin_frontend/js/apps.js:27 | the next button steps forward by one |
| PageCounters.PageCounter.Reset | admin_frontend/js/apps.js:22 | a new search starts at page 1 |
| PageCounters.ServedPage | adminpanel/views.py:153-168 | the applications listing answers the page the applications page's counter sends (admin_frontend/js/apps.js:36, 59) while it exists, and the last page once the counter runs past the end |
| AppsPage.CellSpec | admin_frontend/js/apps.js:199-218 | a truthy value is written as `String(value)`; a falsy one (0 included) as '', or 未评分 for the score |
| AppsPage.RowOf | admin_frontend/js/apps.js:199-218 | a row has the 18 columns in header order |
| AppsPage.EscapeQuotes | admin_frontend/js/apps.js:221 | doubling the quotes never shortens a field |
| AppsPage.Table | admin_frontend/js/apps.js:198-220 | the header row followed by one row per item, 18 fields each |
| AppsPage.ParseQuotedBody | admin_frontend/js/apps.js:221 | a CSV reader for the quoted field body consumes input |
| AppsPage.ParseField | admin_frontend/js/apps.js:221 | a CSV reader for one quoted field consumes input |
| AppsPage.ParseRecord | admin_frontend/js/apps.js:221 | a CSV reader for one record consumes input |
| AppsPage.QuotedBodyRoundTrip | admin_frontend/js/apps.js:221 | reading back a field with its quotes doubled gives the field |
| AppsPage.FieldRoundTrip | admin_frontend/js/apps.js:221 | reading back a quoted field gives the field and the rest |
| AppsPage.RecordRoundTrip | admin_frontend/js/apps.js:221 | reading back the comma-joined quoted fields gives the fields |
| AppsPage.CsvRoundTrip | admin_frontend/js/apps.js:220-222 | reading back the newline-joined records gives the rows |
| AppsPage.GenerateCsv | admin_frontend/js/apps.js:197-225 | the export starts with the byte-order mark, and the rest reads back as the header row plus one row per item |
| AppsPage.UpdateStats | admin_frontend/js/apps.js:103-110 | total is the number of items, and passed <= scored <= total |
| AppsPage.StoredScorePasses | admin_frontend/js/apps.js:106 | a stored digit-string score counts as passed exactly when its value is at least 85 |
| AppsPage.NumPagesAboveOne | admin_frontend/js/apps.js:96 | the pager is shown exactly when there are more items than fit on one page |
| AppsPage.UpdatePagination | admin_frontend/js/apps.js:91-101 | the pager is shown exactly when there is more than one page; a single page leaves caption and buttons as they were; otherwise previous is disabled exactly on page 1 or below, next exactly from the last page on, and the caption names both numbers |
| AppsPage.PagerForServedPage | admin_frontend/js/apps.js:91-101 | for any page the server answers, the previous button is disabled exactly on page 1 and the next button exactly on the last page |
| AppsPage.LoadDispatch | admin_frontend/js/apps.js:33-66 | a trimmed number wins, then a trimmed name, otherwise a filtered listing request for the current page |
| ForumPage.EscapeChar | admin_frontend/js/forum.js:59 | each of the five characters becomes an entity starting with '&', every other character is copied |
| ForumPage.EscapedHasNoMarkup | admin_frontend/js/forum.js:59 | the escaped text contains no < > " or ' |
| ForumPage.EscapeLength | admin_frontend/js/forum.js:59 | the escaped text is never shorter, and equally long exactly when none of the five characters occurs |
| ForumPage.EscapePlainIsIdentity | admin_frontend/js/forum.js:59 | a text without the five characters is unchanged |
| ForumPage.EscapeAppend | admin_frontend/js/forum.js:59 | escaping a concatenation is concatenating the escapes |
| ForumPage.UnescapeChar | admin_frontend/js/forum.js:59 | each replacement reads back as its character, whatever follows |
| ForumPage.EscapeRoundTrip | admin_frontend/js/forum.js:59 | decoding the entities gives back the original text, so every other character is kept in order |
| ForumPage.EscapeHtmlOfTitle | admin_frontend/js/forum.js:33 | an escaped title has no markup and reads back as the title |
| ForumPage.EscapeHtmlOfNull | admin_frontend/js/forum.js:59 | a null title is shown as the text null |
| DetailPage.Nv | admin_frontend/js/detail.js:66 | undefined, null and '' become '-'; every other value is kept |
| DetailPage.NvNeverBlank | admin_frontend/js/detail.js:66 | the result is never blank, and applying `nv` twice is applying it once |
| DetailPage.NvKeepsZero | admin_frontend/js/detail.js:66 | 0 is falsy but kept, while '' becomes '-' |
| DetailPage.ShownNotEmpty | admin_frontend/js/detail.js:65 | a tile never shows an empty value |
| DetailPage.BreakLinesShape | admin_frontend/js/detail.js:67 | no line break remains, and each one adds three characters |
| DetailPage.BreakLinesPlain | admin_frontend/js/detail.js:67 | a text without line breaks is unchanged |
| DetailPage.BreakLinesAppend | admin_frontend/js/detail.js:67 | replacing line breaks in a concatenation is concatenating the replacements |
| DetailPage.MultiLineCell | admin_frontend/js/detail.js:48 | a `br(nv(x))` cell is never empty and contains no line break |
| DetailPage.ScoreCell | admin_frontend/js/detail.js:49 | a truthy value is shown followed by 分, a falsy one as 未评分 |
| DetailPage.ScoreCellOfStored | admin_frontend/js/detail.js:49 | a null or empty score column shows 未评分; a score the admin handler accepted shows with 分 and never as 未评分 |
| DetailPage.SaveScoreGuard | admin_frontend/js/detail.js:70-71 | a request is sent exactly when `parseInt` of the input is an integer in 1..100, and it carries that integer |
| DetailPage.GuardAgreesWithServer | admin_frontend/js/detail.js:70-77 | every score the page sends, the admin score handler accepts |
| DetailPage.JsParseIntOfDecimal | admin_frontend/js/detail.js:70 | `parseInt` reads back the decimal text of any integer |
| DetailPage.GuardOnNumber | admin_frontend/js/detail.js:70-71 | an integer typed in plain decimal gets through exactly when it lies in 1..100; NaN, 0 and out-of-range values are refused |
| DetailPage.GuardIgnoresTrailingText | admin_frontend/js/detail.js:70 | trailing text after the digits is ignored ("12abc" sends 12), and text with no digits sends nothing |
| DetailPage.DetailStart | admin_frontend/js/detail.js:5-6 | the page loads nothing exactly when the id parameter is missing or empty, and otherwise loads that id |

## Left out

- **Date-time parsing of `book_time`.** The parsed value comes in as the `parseTime` parameter. A parse failure is a generic submission failure.
- **Exception message texts.** The texts of caught exceptions are not modelled; they are the generic failure outcomes of `Applications.Submit`, `Applications.RateRequest`, `Applications.Rate` and `AdminPanel.UpdateApplication`.
- **Unicode digits.** Python's `isdigit`/`int()` and JavaScript's `parseInt` are modelled on ASCII digits only. Unicode digits and underscores in `int()` are not modelled. The white space that `int()` and `strip()` skip is Python's full `isspace()` set.
- **JSON value types.** JSON payload values are null, strings and integers. Floats, booleans, lists and nested objects are not modelled, except the announcement's recipient field, which is either a list of ids or some other value.
- **Column limits.** Database column widths (`max_length`) and IntegerField overflow are not modelled, except the comment serializer's limits of 1000 characters of content and 36 of user id. The mapping of IntegrityError onto a NOT NULL violation covers only the name and future columns.
- **Forum list and post creation.** The admin `forum_posts` listing and `create_post` are not part of this model. The listing has no route (adminpanel/urls.py routes only the index, login and logout, the application views and announcements, so the pin, feature, delete, release and hide handlers have no route either; they are modelled as written), and it orders by the missing `is_featured` field, so it would raise; the forum page's pager (admin_frontend/js/forum.js:11) is therefore never answered with a page, and `PageCounters.ServedPage` covers only the applications listing. The comment serializer's trimming, blank, length and NUL rules are modelled in `Forum.CommentAccepted`; a request whose `content` field is missing or not text is not. The serializer's integer field `parent_comment_id` (interview/models.py:50) is not modelled either: the model takes it as an `int`, while DRF refuses a value that is not an integer and accepts a numeric string such as "3".
- **Other application views.** `application_create`, `application_delete`, `application_detail`, `application_by_name` and `application_result_by_number` are record-level views outside this model. So is `application_list`, apart from its page clamping, which is `PageCounters.ServedPage`. The same holds for the result lookup that reads the released flag.
- **Page size.** `page_size` is required to be at least 1. Django's Paginator raises on 0, on a negative size and on one that is not an integer, so the requirement excludes only inputs the source refuses.
- **Sort ties.** The listing sort is not stable. Rows with equal `book_time` come out in reverse table order (`Applications.TiedRowsReversed`). The database does not promise any order for them either, so this is one of the orders it may return.
- **Browser plumbing.** The DOM, `fetch`, `Blob`, `confirm`, `setTimeout` and the `updatePager` display of the forum page are browser plumbing. `renderTable` of the applications page is covered only through its score expression, which is `DetailPage.ScoreCell`.
- **saveRemark's `trim()`.** It is the `JsText.Trim` already modelled; the request itself is network I/O.
- **Concurrency.** Concurrent requests and the locking a real database would need are not modelled; each operation is one atomic step.
- **Results flag persistence.** The flag lives in a process cache, modelled as one object. Cache expiry and sharing between processes are not modelled.
- **Admin sender id.** The admin's `request.user.id` is an integer parameter. Its `str()` is the sender id.
