/** The admin panel's write handlers: every one first checks for a logged-in
    session; then the forum post actions (pin, feature, delete), the
    application edits (field-wise update, 1-100 score, remark), the
    announcement publisher's validation, and the results-released flag.
    Each handler is a method over the store objects, proved to leave them in
    the state the handler's specification function computes. */
module AdminPanel {
  import opened Common
  import opened Models
  import PyText
  import Forum
  import ForumStore
  import Applications

  /** A JSON response: its HTTP status and message. */
  datatype Reply = Reply(status: int, message: string)

  const NotLoggedIn := Reply(401, "未登录")
  const NoSuchPost := Reply(404, "帖子不存在")
  const NoSuchRecord := Reply(404, "记录不存在")
  const MalformedJson := Reply(400, "请求数据格式错误，需要有效的 JSON")
  const Success := Reply(200, "")

  /** A request body: empty, not valid JSON, or a JSON object. */
  datatype Body = EmptyBody | Unparsable | Json(payload: map<string, PyText.PyValue>)

  /** `payload.get(key)`. */
  function Lookup(payload: map<string, PyText.PyValue>, key: string): PyText.PyValue
  {
    if key in payload then payload[key] else PyText.PyNone
  }

  // ---------------------------------------------------------------------------
  // Forum posts
  // ---------------------------------------------------------------------------

  /** `forum_post_pin`: flip the sticky flag and save, which also stamps
      `updated_at`. */
  function Pin(db: Forum.Db, authenticated: bool, id: int): (r: Forum.Step<Reply>)
    ensures r.result != Success ==> r.db == db
    ensures !authenticated ==> r.result == NotLoggedIn
    ensures authenticated ==> (r.result == NoSuchPost <==> forall k | 0 <= k < |db.posts| :: db.posts[k].id != id)
    ensures authenticated && (exists k | 0 <= k < |db.posts| :: db.posts[k].id == id) ==> r.result == Success
    ensures r.result == Success ==>
              authenticated &&
              exists k | 0 <= k < |db.posts| ::
                db.posts[k].id == id &&
                r.db == db.(posts := db.posts[k := db.posts[k].(isSticky := !db.posts[k].isSticky, updatedAt := db.clock)],
                            clock := db.clock + 1)
  {
    if !authenticated then Forum.Step(db, NotLoggedIn)
    else match IndexWhere(db.posts, Forum.PostWithId(id))
      case None => Forum.Step(db, NoSuchPost)
      case Some(k) =>
        var p := db.posts[k];
        Forum.Step(db.(posts := db.posts[k := p.(isSticky := !p.isSticky, updatedAt := db.clock)], clock := db.clock + 1),
                   Success)
  }

  /** Pinning twice gives the post back as it was, except for its last
      update time; no other row changes. */
  lemma PinTwiceRestores(db: Forum.Db, id: int, k: nat)
    requires Forum.Valid(db) && k < |db.posts| && db.posts[k].id == id
    ensures var twice := Pin(Pin(db, true, id).db, true, id).db;
            twice.posts == db.posts[k := db.posts[k].(updatedAt := db.clock + 1)] &&
            twice.comments == db.comments && twice.likes == db.likes && twice.notifications == db.notifications
  {
    Forum.PostLookup(db.posts, db.nextPostId, k);
    var p := db.posts[k];
    var once := db.(posts := db.posts[k := p.(isSticky := !p.isSticky, updatedAt := db.clock)], clock := db.clock + 1);
    assert Pin(db, true, id).db == once;
    Forum.PostsValidAfterUpdate(db.posts, db.nextPostId, k, once.posts[k]);
    Forum.PostLookup(once.posts, once.nextPostId, k);
    var q := once.posts[k];
    var twice := once.(posts := once.posts[k := q.(isSticky := !q.isSticky, updatedAt := once.clock)], clock := once.clock + 1);
    assert Pin(once, true, id).db == twice;
    assert twice.posts == db.posts[k := p.(updatedAt := db.clock + 1)];
  }

  lemma PinKeepsValid(db: Forum.Db, authenticated: bool, id: int)
    requires Forum.Valid(db)
    ensures Forum.Valid(Pin(db, authenticated, id).db)
  {
    if authenticated {
      var k := IndexWhere(db.posts, Forum.PostWithId(id));
      if k.Some? {
        var p := db.posts[k.value];
        Forum.PostsValidAfterUpdate(db.posts, db.nextPostId, k.value, p.(isSticky := !p.isSticky, updatedAt := db.clock));
      }
    }
  }

  /** `forum_post_feature`: posts have no featured flag, so an existing post
      always gets the "unsupported" answer and nothing is written. */
  function Feature(db: Forum.Db, authenticated: bool, id: int): (r: Forum.Step<Reply>)
    ensures r.db == db
    ensures !authenticated ==> r.result == NotLoggedIn
    ensures authenticated ==> (r.result == NoSuchPost <==> forall k | 0 <= k < |db.posts| :: db.posts[k].id != id)
    ensures authenticated ==> (r.result.status == 400 <==> exists k | 0 <= k < |db.posts| :: db.posts[k].id == id)
    ensures r.result.status != 200
  {
    if !authenticated then Forum.Step(db, NotLoggedIn)
    else if IndexWhere(db.posts, Forum.PostWithId(id)).None? then Forum.Step(db, NoSuchPost)
    else Forum.Step(db, Reply(400, "未支持加精字段"))
  }

  /** `forum_post_delete`: the post row goes; the comments, likes and
      notifications that refer to it stay. */
  function Delete(db: Forum.Db, authenticated: bool, id: int): (r: Forum.Step<Reply>)
    ensures r.result != Success ==> r.db == db
    ensures !authenticated ==> r.result == NotLoggedIn
    ensures authenticated ==> (r.result == NoSuchPost <==> forall k | 0 <= k < |db.posts| :: db.posts[k].id != id)
    ensures authenticated && (exists k | 0 <= k < |db.posts| :: db.posts[k].id == id) ==> r.result == Success
    ensures r.db.comments == db.comments && r.db.likes == db.likes && r.db.notifications == db.notifications
    ensures r.result == Success ==>
              exists k | 0 <= k < |db.posts| :: db.posts[k].id == id && r.db == db.(posts := RemoveAt(db.posts, k))
  {
    if !authenticated then Forum.Step(db, NotLoggedIn)
    else match IndexWhere(db.posts, Forum.PostWithId(id))
      case None => Forum.Step(db, NoSuchPost)
      case Some(k) => Forum.Step(db.(posts := RemoveAt(db.posts, k)), Success)
  }

  /** After a delete the id is gone from the posts, and every other post is
      still there. */
  lemma DeleteRemovesExactlyThePost(db: Forum.Db, id: int, other: Post)
    requires Forum.Valid(db)
    ensures forall k | 0 <= k < |Delete(db, true, id).db.posts| :: Delete(db, true, id).db.posts[k].id != id
    ensures other in db.posts && other.id != id ==> other in Delete(db, true, id).db.posts
  {
    var k := IndexWhere(db.posts, Forum.PostWithId(id));
    if k.Some? {
      var after := RemoveAt(db.posts, k.value);
      forall i | 0 <= i < |after|
        ensures after[i].id != id
      {
        if i < k.value {
          assert after[i] == db.posts[i];
        } else {
          assert after[i] == db.posts[i + 1];
          assert db.posts[k.value].id < db.posts[i + 1].id;
        }
      }
      if other in db.posts && other.id != id {
        var j :| 0 <= j < |db.posts| && db.posts[j] == other;
        if j < k.value { assert after[j] == other; }
        else { assert j != k.value; assert after[j - 1] == other; }
      }
    }
  }

  lemma DeleteKeepsValid(db: Forum.Db, authenticated: bool, id: int)
    requires Forum.Valid(db)
    ensures Forum.Valid(Delete(db, authenticated, id).db)
  {
    if authenticated {
      var k := IndexWhere(db.posts, Forum.PostWithId(id));
      if k.Some? {
        PostsValidAfterRemove(db.posts, db.nextPostId, k.value);
      }
    }
  }

  /** Deleting one post keeps the ids and creation times increasing and below the counter. */
  lemma PostsValidAfterRemove(posts: seq<Post>, nextId: int, k: nat)
    requires Forum.PostsValid(posts, nextId) && k < |posts|
    ensures Forum.PostsValid(RemoveAt(posts, k), nextId)
  {
    var after := RemoveAt(posts, k);
    forall i, j | 0 <= i < j < |after|
      ensures after[i].id < after[j].id && after[i].createdAt < after[j].createdAt
    {
      var i' := if i < k then i else i + 1;
      var j' := if j < k then j else j + 1;
      assert after[i] == posts[i'] && after[j] == posts[j'];
    }
    forall i | 0 <= i < |after|
      ensures after[i].id < nextId
    {
      assert after[i] == posts[if i < k then i else i + 1];
    }
  }

  method PinPost(store: ForumStore.Store, authenticated: bool, id: int) returns (reply: Reply)
    requires store.Valid()
    modifies store
    ensures store.Valid()
    ensures Pin(old(store.Db()), authenticated, id) == Forum.Step(store.Db(), reply)
  {
    PinKeepsValid(store.Db(), authenticated, id);
    if !authenticated {
      return NotLoggedIn;
    }
    var k := IndexWhere(store.posts, Forum.PostWithId(id));
    if k.None? {
      return NoSuchPost;
    }
    var post := store.posts[k.value];
    post := post.(isSticky := !post.isSticky);
    store.posts := store.posts[k.value := post.(updatedAt := store.clock)];
    store.clock := store.clock + 1;
    return Success;
  }

  method FeaturePost(store: ForumStore.Store, authenticated: bool, id: int) returns (reply: Reply)
    ensures Feature(store.Db(), authenticated, id) == Forum.Step(store.Db(), reply)
  {
    if !authenticated {
      return NotLoggedIn;
    }
    var k := IndexWhere(store.posts, Forum.PostWithId(id));
    if k.None? {
      return NoSuchPost;
    }
    return Reply(400, "未支持加精字段");
  }

  method DeletePost(store: ForumStore.Store, authenticated: bool, id: int) returns (reply: Reply)
    requires store.Valid()
    modifies store
    ensures store.Valid()
    ensures Delete(old(store.Db()), authenticated, id) == Forum.Step(store.Db(), reply)
  {
    DeleteKeepsValid(store.Db(), authenticated, id);
    if !authenticated {
      return NotLoggedIn;
    }
    var k := IndexWhere(store.posts, Forum.PostWithId(id));
    if k.None? {
      return NoSuchPost;
    }
    store.posts := RemoveAt(store.posts, k.value);
    return Success;
  }

  // ---------------------------------------------------------------------------
  // Application update: the ten text fields, then the two scores
  // ---------------------------------------------------------------------------

  /** The text fields `application_update` copies from the payload, in order. */
  const TextFields: seq<string> :=
    ["name", "number", "grade", "phone_number", "follow_direction", "good_at", "reason", "future", "value", "admin_remark"]

  /** The column named f, as an optional text (None for a name outside the list). */
  function TextOf(a: StudentApplication, f: string): Option<string>
  {
    if f == "name" then Some(a.name)
    else if f == "number" then Some(a.number)
    else if f == "grade" then Some(a.grade)
    else if f == "phone_number" then Some(a.phoneNumber)
    else if f == "follow_direction" then Some(a.followDirection)
    else if f == "good_at" then a.goodAt
    else if f == "reason" then a.reason
    else if f == "future" then Some(a.future)
    else if f == "value" then a.value
    else if f == "admin_remark" then a.adminRemark
    else None
  }

  /** `setattr(obj, f, text)` for one of the ten text fields. */
  function SetText(a: StudentApplication, f: string, text: string): (r: StudentApplication)
    ensures r.(name := a.name, number := a.number, grade := a.grade, phoneNumber := a.phoneNumber,
               followDirection := a.followDirection, goodAt := a.goodAt, reason := a.reason, future := a.future,
               value := a.value, adminRemark := a.adminRemark) == a
  {
    if f == "name" then a.(name := text)
    else if f == "number" then a.(number := text)
    else if f == "grade" then a.(grade := text)
    else if f == "phone_number" then a.(phoneNumber := text)
    else if f == "follow_direction" then a.(followDirection := text)
    else if f == "good_at" then a.(goodAt := Some(text))
    else if f == "reason" then a.(reason := Some(text))
    else if f == "future" then a.(future := text)
    else if f == "value" then a.(value := Some(text))
    else if f == "admin_remark" then a.(adminRemark := Some(text))
    else a
  }

  lemma TextOfSetText(a: StudentApplication, f: string, text: string, g: string)
    requires f in TextFields && g in TextFields
    ensures TextOf(SetText(a, f, text), g) == if g == f then Some(text) else TextOf(a, g)
  {
    if g == f {
      SetTextReadsBack(a, f, text);
    } else {
      SetTextKeepsOthers(a, f, text, g);
    }
  }

  lemma SetTextReadsBack(a: StudentApplication, f: string, text: string)
    requires f in TextFields
    ensures TextOf(SetText(a, f, text), f) == Some(text)
  {
  }

  lemma SetTextKeepsOthers(a: StudentApplication, f: string, text: string, g: string)
    requires f in TextFields && g in TextFields && g != f
    ensures TextOf(SetText(a, f, text), g) == TextOf(a, g)
  {
    if f == "name" {
      assert SetText(a, f, text) == a.(name := text);
    } else if f == "number" {
      assert SetText(a, f, text) == a.(number := text);
    } else if f == "grade" {
      assert SetText(a, f, text) == a.(grade := text);
    } else if f == "phone_number" {
      assert SetText(a, f, text) == a.(phoneNumber := text);
    } else if f == "follow_direction" {
      assert SetText(a, f, text) == a.(followDirection := text);
    } else if f == "good_at" {
      assert SetText(a, f, text) == a.(goodAt := Some(text));
    } else if f == "reason" {
      assert SetText(a, f, text) == a.(reason := Some(text));
    } else if f == "future" {
      assert SetText(a, f, text) == a.(future := text);
    } else if f == "value" {
      assert SetText(a, f, text) == a.(value := Some(text));
    } else {
      assert SetText(a, f, text) == a.(adminRemark := Some(text));
    }
  }

  /** The copy loop over `fields`: each one present in the payload is set to
      its value, or to '' when that value is falsy. */
  function CopyFields(a: StudentApplication, payload: map<string, PyText.PyValue>, fields: seq<string>): (r: StudentApplication)
    ensures r.(name := a.name, number := a.number, grade := a.grade, phoneNumber := a.phoneNumber,
               followDirection := a.followDirection, goodAt := a.goodAt, reason := a.reason, future := a.future,
               value := a.value, adminRemark := a.adminRemark) == a
  {
    if |fields| == 0 then a
    else
      var b := CopyFields(a, payload, fields[..|fields| - 1]);
      var f := fields[|fields| - 1];
      if f in payload then SetText(b, f, PyText.StoredText(payload[f])) else b
  }

  /** Field by field: a listed text field present in the payload holds the
      payload's text, any other keeps its value. */
  lemma {:induction false} CopyFieldsReads(a: StudentApplication, payload: map<string, PyText.PyValue>, fields: seq<string>, g: string)
    requires forall i :: 0 <= i < |fields| ==> fields[i] in TextFields
    requires g in TextFields
    ensures TextOf(CopyFields(a, payload, fields), g) ==
            if g in fields && g in payload then Some(PyText.StoredText(payload[g])) else TextOf(a, g)
  {
    if |fields| > 0 {
      var prefix := fields[..|fields| - 1];
      var f := fields[|fields| - 1];
      CopyFieldsReads(a, payload, prefix, g);
      assert fields == prefix + [f];
      if f in payload {
        TextOfSetText(CopyFields(a, payload, prefix), f, PyText.StoredText(payload[f]), g);
      }
    }
  }

  /** The row after the update, or None when `int()` of a present score
      raises (the handler then fails before saving). */
  function Patched(a: StudentApplication, payload: map<string, PyText.PyValue>): (r: Option<StudentApplication>)
  {
    var b := CopyFields(a, payload, TextFields);
    var math := if "gaokao_math" in payload then PyText.IntOrZero(payload["gaokao_math"]) else Some(a.gaokaoMath);
    var english := if "gaokao_english" in payload then PyText.IntOrZero(payload["gaokao_english"]) else Some(a.gaokaoEnglish);
    if math.None? || english.None? then None
    else Some(b.(gaokaoMath := math.value, gaokaoEnglish := english.value))
  }

  /** What the update promises: only the listed fields present in the
      payload change; text fields become their value or ''; scores become
      `int(x or 0)`; every other column (email, major, experience, other_lab,
      book_time, id, created_at) is kept. */
  lemma PatchedSpec(a: StudentApplication, payload: map<string, PyText.PyValue>, g: string)
    requires g in TextFields
    ensures Patched(a, payload).Some? <==>
              ("gaokao_math" in payload ==> PyText.IntOrZero(payload["gaokao_math"]).Some?) &&
              ("gaokao_english" in payload ==> PyText.IntOrZero(payload["gaokao_english"]).Some?)
    ensures Patched(a, payload).Some? ==>
              var b := Patched(a, payload).value;
              TextOf(b, g) == (if g in payload then Some(PyText.StoredText(payload[g])) else TextOf(a, g)) &&
              b.gaokaoMath == (if "gaokao_math" in payload then PyText.IntOrZero(payload["gaokao_math"]).value else a.gaokaoMath) &&
              b.gaokaoEnglish == (if "gaokao_english" in payload then PyText.IntOrZero(payload["gaokao_english"]).value else a.gaokaoEnglish) &&
              b.id == a.id && b.email == a.email && b.major == a.major && b.experience == a.experience &&
              b.otherLab == a.otherLab && b.bookTime == a.bookTime && b.createdAt == a.createdAt
  {
    var b := CopyFields(a, payload, TextFields);
    CopyFieldsReads(a, payload, TextFields, g);
    if Patched(a, payload).Some? {
      var c := Patched(a, payload).value;
      TextOfIgnoresScores(b, c.gaokaoMath, c.gaokaoEnglish, g);
    }
  }

  /** The scores are not text columns. */
  lemma TextOfIgnoresScores(b: StudentApplication, math: int, english: int, g: string)
    ensures TextOf(b.(gaokaoMath := math, gaokaoEnglish := english), g) == TextOf(b, g)
  {
  }

  /** `application_update`. */
  function Update(db: Applications.AppDb, authenticated: bool, id: int, body: Body): (r: Applications.Step<Reply>)
    ensures r.result != Success ==> r.db == db
    ensures !authenticated ==> r.result == NotLoggedIn
    ensures authenticated ==> (r.result == NoSuchRecord <==> forall k | 0 <= k < |db.apps| :: db.apps[k].id != id)
    ensures r.result == Success ==>
              exists k | 0 <= k < |db.apps| ::
                db.apps[k].id == id &&
                (body.Json? ==> Patched(db.apps[k], body.payload).Some? &&
                                r.db == db.(apps := db.apps[k := Patched(db.apps[k], body.payload).value])) &&
                (!body.Json? ==> r.db == db)
    ensures authenticated && (exists k | 0 <= k < |db.apps| :: db.apps[k].id == id) ==>
              (r.result == MalformedJson <==> body.Unparsable?) &&
              (body.EmptyBody? ==> r.result == Success)
    ensures authenticated && body.Json? ==>
              forall k | 0 <= k < |db.apps| && db.apps[k].id == id && (forall i | 0 <= i < k :: db.apps[i].id != id) ::
                (Patched(db.apps[k], body.payload).Some? ==> r.result == Success) &&
                (Patched(db.apps[k], body.payload).None? ==> r.result == Reply(500, ""))
  {
    if !authenticated then Applications.Step(db, NotLoggedIn)
    else match IndexWhere(db.apps, Applications.AppWithId(id))
      case None => Applications.Step(db, NoSuchRecord)
      case Some(k) =>
        match body
        case Unparsable => Applications.Step(db, MalformedJson)
        case EmptyBody => Applications.Step(db, Success)
        case Json(payload) =>
          match Patched(db.apps[k], payload)
          case None => Applications.Step(db, Reply(500, ""))
          case Some(b) => Applications.Step(db.(apps := db.apps[k := b]), Success)
  }

  /** The student number carries no uniqueness constraint: an update can give
      a row the number of another, after which a new submission with that
      number is refused. */
  lemma UpdateCanDuplicateNumber(db: Applications.AppDb, i: nat, j: nat)
    requires Applications.TableValid(db) && i < |db.apps| && j < |db.apps| && i != j && db.apps[j].number != ""
    ensures var payload := map["number" := PyText.PyStr(db.apps[j].number)];
            var after := Update(db, true, db.apps[i].id, Json(payload)).db;
            |after.apps| == |db.apps| && after.apps[i].number == after.apps[j].number
  {
    var payload := map["number" := PyText.PyStr(db.apps[j].number)];
    var k := IndexWhere(db.apps, Applications.AppWithId(db.apps[i].id));
    assert k.Some?;
    Applications.AppIdsUnique(db, k.value, i);
    PatchedSpec(db.apps[i], payload, "number");
    assert "number" in TextFields;
  }

  method UpdateApplication(store: Applications.Store, authenticated: bool, id: int, body: Body) returns (reply: Reply)
    requires store.Valid()
    modifies store
    ensures store.Valid()
    ensures Update(old(store.Db()), authenticated, id, body) == Applications.Step(store.Db(), reply)
  {
    if !authenticated {
      return NotLoggedIn;
    }
    var k := IndexWhere(store.apps, Applications.AppWithId(id));
    if k.None? {
      return NoSuchRecord;
    }
    if body.Unparsable? {
      return MalformedJson;
    }
    if body.EmptyBody? {
      return Success;
    }
    var payload := body.payload;
    var obj := store.apps[k.value];
    ghost var original := obj;
    for i := 0 to |TextFields|
      invariant obj == CopyFields(original, payload, TextFields[..i])
    {
      assert TextFields[..i + 1][..i] == TextFields[..i];
      if TextFields[i] in payload {
        obj := SetText(obj, TextFields[i], PyText.StoredText(payload[TextFields[i]]));
      }
    }
    assert TextFields[..|TextFields|] == TextFields;
    if "gaokao_math" in payload {
      var math := PyText.IntOrZero(payload["gaokao_math"]);
      if math.None? {
        return Reply(500, "");
      }
      obj := obj.(gaokaoMath := math.value);
    }
    if "gaokao_english" in payload {
      var english := PyText.IntOrZero(payload["gaokao_english"]);
      if english.None? {
        return Reply(500, "");
      }
      obj := obj.(gaokaoEnglish := english.value);
    }
    assert obj == Patched(original, payload).value;
    store.apps := store.apps[k.value := obj];
    return Success;
  }

  // ---------------------------------------------------------------------------
  // Application score and remark
  // ---------------------------------------------------------------------------

  /** The score the handler reads: the form field, else (when there is a
      body) the JSON field; a body that does not parse gives None. */
  function PostedScore(posted: Option<string>, body: Body): (r: PyText.PyValue)
    ensures posted.Some? ==> r == PyText.PyStr(posted.value)
    ensures posted.None? && body.Json? && "score" in body.payload ==> r == body.payload["score"]
    ensures posted.None? && !(body.Json? && "score" in body.payload) ==> r == PyText.PyNone
  {
    if posted.Some? then PyText.PyStr(posted.value)
    else match body
      case Json(payload) => Lookup(payload, "score")
      case _ => PyText.PyNone
  }

  /** The admin's score rule: `str(score)` is a digit string whose value is 1..100. */
  predicate ScoreAccepted(score: PyText.PyValue)
  {
    PyText.IsDigitString(PyText.Str(score)) && 1 <= DecimalValue(PyText.Str(score)) <= 100
  }

  /** A JSON number is accepted exactly when it lies in 1..100; a missing
      score (`str(None)` is "None") never is. */
  lemma ScoreOfNumber(i: int)
    ensures ScoreAccepted(PyText.PyInt(i)) <==> 1 <= i <= 100
    ensures !ScoreAccepted(PyText.PyNone)
  {
    assert !IsAsciiDigit(PyText.Str(PyText.PyNone)[0]);
    if i >= 0 {
      DecimalRoundTrip(i);
    } else {
      assert !IsAsciiDigit(PyText.Str(PyText.PyInt(i))[0]);
    }
  }

  /** The two score validators differ: every rating the reviewer's 1-10 rule
      accepts passes the admin's 1-100 rule, but not the other way round. */
  lemma ScoreRulesDiffer(s: string)
    ensures Applications.RatingAccepted(s) ==> ScoreAccepted(PyText.PyStr(s))
    ensures ScoreAccepted(PyText.PyStr("50")) && !Applications.RatingAccepted("50")
  {
    assert DecimalValue("50") == 50 by { assert "50"[..1] == "5"; }
  }

  /** `application_score`. */
  function Score(db: Applications.AppDb, authenticated: bool, id: int, posted: Option<string>, body: Body): (r: Applications.Step<Reply>)
    ensures r.result != Reply(200, "评分成功") ==> r.db == db
    ensures !authenticated ==> r.result == NotLoggedIn
    ensures authenticated ==> (r.result == NoSuchRecord <==> forall k | 0 <= k < |db.apps| :: db.apps[k].id != id)
    ensures r.result == Reply(200, "评分成功") <==>
              authenticated && (exists k | 0 <= k < |db.apps| :: db.apps[k].id == id) && ScoreAccepted(PostedScore(posted, body))
    ensures r.result == Reply(200, "评分成功") ==>
              exists k | 0 <= k < |db.apps| ::
                db.apps[k].id == id &&
                r.db == db.(apps := db.apps[k := db.apps[k].(value := Some(PyText.Str(PostedScore(posted, body))))])
  {
    if !authenticated then Applications.Step(db, NotLoggedIn)
    else match IndexWhere(db.apps, Applications.AppWithId(id))
      case None => Applications.Step(db, NoSuchRecord)
      case Some(k) =>
        var score := PostedScore(posted, body);
        if !ScoreAccepted(score) then Applications.Step(db, Reply(400, "评分必须是1-100的数字"))
        else Applications.Step(db.(apps := db.apps[k := db.apps[k].(value := Some(PyText.Str(score)))]), Reply(200, "评分成功"))
  }

  /** The remark the handler reads: the form field, else the JSON field; a
      body that does not parse gives ''. */
  function PostedRemark(posted: Option<string>, body: Body): (r: PyText.PyValue)
    ensures posted.Some? ==> r == PyText.PyStr(posted.value)
    ensures posted.None? && body.Json? && "remark" in body.payload ==> r == body.payload["remark"]
    ensures posted.None? && body.Unparsable? ==> r == PyText.PyStr("")
    ensures posted.None? && (body.EmptyBody? || (body.Json? && "remark" !in body.payload)) ==> r == PyText.PyNone
  {
    if posted.Some? then PyText.PyStr(posted.value)
    else match body
      case EmptyBody => PyText.PyNone
      case Unparsable => PyText.PyStr("")
      case Json(payload) => Lookup(payload, "remark")
  }

  /** `application_remark`: the remark is always saved, as '' when falsy. */
  function Remark(db: Applications.AppDb, authenticated: bool, id: int, posted: Option<string>, body: Body): (r: Applications.Step<Reply>)
    ensures r.result != Reply(200, "备注已保存") ==> r.db == db
    ensures !authenticated ==> r.result == NotLoggedIn
    ensures authenticated ==> (r.result == NoSuchRecord <==> forall k | 0 <= k < |db.apps| :: db.apps[k].id != id)
    ensures authenticated && (exists k | 0 <= k < |db.apps| :: db.apps[k].id == id) ==> r.result == Reply(200, "备注已保存")
    ensures r.result == Reply(200, "备注已保存") ==>
              exists k | 0 <= k < |db.apps| ::
                db.apps[k].id == id &&
                r.db == db.(apps := db.apps[k := db.apps[k].(adminRemark := Some(PyText.StoredText(PostedRemark(posted, body))))])
  {
    if !authenticated then Applications.Step(db, NotLoggedIn)
    else match IndexWhere(db.apps, Applications.AppWithId(id))
      case None => Applications.Step(db, NoSuchRecord)
      case Some(k) =>
        var text := PyText.StoredText(PostedRemark(posted, body));
        Applications.Step(db.(apps := db.apps[k := db.apps[k].(adminRemark := Some(text))]), Reply(200, "备注已保存"))
  }

  method ScoreApplication(store: Applications.Store, authenticated: bool, id: int, posted: Option<string>, body: Body)
    returns (reply: Reply)
    requires store.Valid()
    modifies store
    ensures store.Valid()
    ensures Score(old(store.Db()), authenticated, id, posted, body) == Applications.Step(store.Db(), reply)
  {
    if !authenticated {
      return NotLoggedIn;
    }
    var k := IndexWhere(store.apps, Applications.AppWithId(id));
    if k.None? {
      return NoSuchRecord;
    }
    var score := PostedScore(posted, body);
    if !ScoreAccepted(score) {
      return Reply(400, "评分必须是1-100的数字");
    }
    store.apps := store.apps[k.value := store.apps[k.value].(value := Some(PyText.Str(score)))];
    return Reply(200, "评分成功");
  }

  method RemarkApplication(store: Applications.Store, authenticated: bool, id: int, posted: Option<string>, body: Body)
    returns (reply: Reply)
    requires store.Valid()
    modifies store
    ensures store.Valid()
    ensures Remark(old(store.Db()), authenticated, id, posted, body) == Applications.Step(store.Db(), reply)
  {
    if !authenticated {
      return NotLoggedIn;
    }
    var k := IndexWhere(store.apps, Applications.AppWithId(id));
    if k.None? {
      return NoSuchRecord;
    }
    var remark := PostedRemark(posted, body);
    store.apps := store.apps[k.value := store.apps[k.value].(adminRemark := Some(PyText.StoredText(remark)))];
    return Reply(200, "备注已保存");
  }

  // ---------------------------------------------------------------------------
  // Announcements
  // ---------------------------------------------------------------------------

  /** The `recipient_user_ids` field: a JSON array of ids, or any other value
      (absent reads as None). */
  datatype RecipientsField = NotAList(v: PyText.PyValue) | IdList(ids: seq<Option<UserId>>)

  /** The announcement request body. An empty body reads as `{}`. */
  datatype AnnounceBody = AnnounceUnparsable | AnnounceJson(message: PyText.PyValue, recipients: RecipientsField)

  datatype PublishOutcome = Refused(reply: Reply) | Published(created: nat)

  /** The recipient list handed to the service: falsy values mean "no list". */
  function RecipientList(f: RecipientsField): Option<seq<Option<UserId>>>
  {
    match f
    case IdList(ids) => Some(ids)
    case NotAList(_) => None
  }

  /** `publish_announcement`: the message must be truthy and the recipient
      field, when truthy, a list; the sender is the admin's id as text. */
  function Publish(db: Forum.Db, authenticated: bool, adminId: int, body: AnnounceBody): (r: Forum.Step<PublishOutcome>)
    ensures r.result.Refused? ==> r.db == db
    ensures !authenticated ==> r.result == Refused(NotLoggedIn)
    ensures authenticated && r.result.Refused? ==> r.result.reply.status == 400
    ensures r.result.Published? <==>
              authenticated && body.AnnounceJson? && PyText.TruthyValue(body.message) &&
              !(body.recipients.NotAList? && PyText.TruthyValue(body.recipients.v))
    ensures r.result.Published? ==>
              Forum.Announce(db, PyText.Str(body.message), RecipientList(body.recipients), Some(IntToDecimal(adminId))) ==
              Forum.Step(r.db, r.result.created)
  {
    if !authenticated then Forum.Step(db, Refused(NotLoggedIn))
    else match body
      case AnnounceUnparsable => Forum.Step(db, Refused(MalformedJson))
      case AnnounceJson(message, recipients) =>
        if !PyText.TruthyValue(message) then Forum.Step(db, Refused(Reply(400, "message 不能为空")))
        else if recipients.NotAList? && PyText.TruthyValue(recipients.v) then
          Forum.Step(db, Refused(Reply(400, "recipient_user_ids 必须为数组")))
        else
          var s := Forum.Announce(db, PyText.Str(message), RecipientList(recipients), Some(IntToDecimal(adminId)));
          Forum.Step(s.db, Published(s.result))
  }

  /** A falsy non-list recipient field ("", 0, null or no field) publishes one
      broadcast, like an empty list does. */
  lemma FalsyRecipientsBroadcast(db: Forum.Db, adminId: int, message: PyText.PyValue, v: PyText.PyValue)
    requires PyText.TruthyValue(message) && !PyText.TruthyValue(v)
    ensures var r := Publish(db, true, adminId, AnnounceJson(message, NotAList(v)));
            r.result == Published(1) && r.db.notifications[|db.notifications|].recipient.None? &&
            r == Publish(db, true, adminId, AnnounceJson(message, IdList([])))
  {
    var text := PyText.Str(message);
    var sender := Some(IntToDecimal(adminId));
    Forum.AnnounceSpec(db, text, None, sender, Forum.Announce(db, text, None, sender));
  }

  method PublishAnnouncement(store: ForumStore.Store, authenticated: bool, adminId: int, body: AnnounceBody)
    returns (outcome: PublishOutcome)
    requires store.Valid()
    modifies store
    ensures store.Valid()
    ensures Publish(old(store.Db()), authenticated, adminId, body) == Forum.Step(store.Db(), outcome)
  {
    if !authenticated {
      return Refused(NotLoggedIn);
    }
    if body.AnnounceUnparsable? {
      return Refused(MalformedJson);
    }
    if !PyText.TruthyValue(body.message) {
      return Refused(Reply(400, "message 不能为空"));
    }
    if body.recipients.NotAList? && PyText.TruthyValue(body.recipients.v) {
      return Refused(Reply(400, "recipient_user_ids 必须为数组"));
    }
    var created := store.CreateAnnouncement(PyText.Str(body.message), RecipientList(body.recipients), Some(IntToDecimal(adminId)));
    return Published(created);
  }

  // ---------------------------------------------------------------------------
  // The results-released flag
  // ---------------------------------------------------------------------------

  /** The cache cell after a logged-in or anonymous write of `value`. */
  function FlagAfter(cell: Option<bool>, authenticated: bool, value: bool): (r: Option<bool>)
    ensures authenticated ==> r == Some(value)
    ensures !authenticated ==> r == cell
  {
    if authenticated then Some(value) else cell
  }

  /** The last logged-in write wins, and a repeated write changes nothing. */
  lemma LastWriteWins(cell: Option<bool>, a: bool, v: bool, w: bool)
    ensures FlagAfter(FlagAfter(cell, a, v), true, w) == Some(w)
    ensures FlagAfter(FlagAfter(cell, a, v), a, v) == FlagAfter(cell, a, v)
  {
  }

  /** The shared `interview_results_released` cache entry; unset at first. */
  class ResultsFlag {
    var released: Option<bool>

    constructor ()
      ensures released == None
    {
      released := None;
    }

    /** `release_results`. */
    method Release(authenticated: bool) returns (reply: Reply)
      modifies this
      ensures released == FlagAfter(old(released), authenticated, true)
      ensures reply == if authenticated then Reply(200, "已发布面试结果") else NotLoggedIn
    {
      if !authenticated {
        return NotLoggedIn;
      }
      released := Some(true);
      return Reply(200, "已发布面试结果");
    }

    /** `hide_results`. */
    method Hide(authenticated: bool) returns (reply: Reply)
      modifies this
      ensures released == FlagAfter(old(released), authenticated, false)
      ensures reply == if authenticated then Reply(200, "已隐藏面试结果") else NotLoggedIn
    {
      if !authenticated {
        return NotLoggedIn;
      }
      released := Some(false);
      return Reply(200, "已隐藏面试结果");
    }
  }
}
