/** The application intake service: a student's submission, validated field by
    field and checked against earlier submissions of the same student number;
    the reviewer's 1-10 rating; and the filtered listing, latest booking
    first. The table is a sequence of rows in insertion order, with an id
    counter and a clock. */
module Applications {
  import opened Common
  import opened Models
  import PyText

  /** The submitted form: each key the form view reads, with the text it
      received or None when the request did not carry it. */
  type Form = map<string, Option<string>>

  /** `data.get(key)`. */
  function Get(data: Form, key: string): Option<string>
  {
    if key in data then data[key] else None
  }

  /** `data.get(key, default)`: the default only when the key is absent. */
  function GetOr(data: Form, key: string, default: string): (r: Option<string>)
    ensures key !in data ==> r == Some(default)
    ensures key in data ==> r == Get(data, key)
  {
    if key in data then data[key] else Some(default)
  }

  datatype AppDb = AppDb(apps: seq<StudentApplication>, nextId: int, clock: nat)

  /** A new table state and what the call answered. */
  datatype Step<R> = Step(db: AppDb, result: R)

  /** Ids ascend in insertion order and stay below the counter; rows were
      created before the current clock reading. */
  ghost predicate TableValid(db: AppDb)
  {
    db.nextId >= 1 &&
    (forall i :: 0 <= i < |db.apps| ==> db.apps[i].id < db.nextId && db.apps[i].createdAt < db.clock) &&
    (forall i, j :: 0 <= i < j < |db.apps| ==> db.apps[i].id < db.apps[j].id)
  }

  function AppWithId(id: int): StudentApplication -> bool
  {
    (a: StudentApplication) => a.id == id
  }

  function AppWithNumber(number: string): StudentApplication -> bool
  {
    (a: StudentApplication) => a.number == number
  }

  /** Application ids are unique. */
  lemma AppIdsUnique(db: AppDb, i: nat, j: nat)
    requires TableValid(db) && i < |db.apps| && j < |db.apps| && db.apps[i].id == db.apps[j].id
    ensures i == j
  {
  }

  // ---------------------------------------------------------------------------
  // submit_application
  // ---------------------------------------------------------------------------

  /** A required form key and the caption its error message names. */
  datatype Required = Required(key: string, caption: string)

  /** The required fields, in the order they are checked. */
  const RequiredFields: seq<Required> := [
    Required("number", "学号"),
    Required("grade", "年级"),
    Required("phone_number", "电话"),
    Required("gaokao_math", "高考数学成绩"),
    Required("gaokao_english", "高考英语成绩"),
    Required("follow_direction", "发展方向")
  ]

  function MissingIn(data: Form): Required -> bool
  {
    (f: Required) => !PyText.Truthy(Get(data, f.key))
  }

  /** The position of the first required field that is absent or blank. */
  function FirstMissing(data: Form): (r: Option<nat>)
    ensures r.Some? ==> r.value < |RequiredFields| && !PyText.Truthy(Get(data, RequiredFields[r.value].key))
    ensures r.Some? ==> forall j :: 0 <= j < r.value ==> PyText.Truthy(Get(data, RequiredFields[j].key))
    ensures r.None? <==> forall j :: 0 <= j < |RequiredFields| ==> PyText.Truthy(Get(data, RequiredFields[j].key))
  {
    var r := IndexWhere(RequiredFields, MissingIn(data));
    assert r.None? ==> forall j :: 0 <= j < |RequiredFields| ==> !MissingIn(data)(RequiredFields[j]);
    assert r.Some? ==> MissingIn(data)(RequiredFields[r.value]);
    r
  }

  /** The form passed the required-field check: every required field is
      present and non-blank. */
  predicate Complete(data: Form)
  {
    PyText.Truthy(Get(data, "number")) && PyText.Truthy(Get(data, "grade")) &&
    PyText.Truthy(Get(data, "phone_number")) && PyText.Truthy(Get(data, "gaokao_math")) &&
    PyText.Truthy(Get(data, "gaokao_english")) && PyText.Truthy(Get(data, "follow_direction"))
  }

  lemma CompleteMeansNoneMissing(data: Form)
    ensures Complete(data) <==> FirstMissing(data).None?
  {
    assert RequiredFields[0].key == "number" && RequiredFields[1].key == "grade";
    assert RequiredFields[2].key == "phone_number" && RequiredFields[3].key == "gaokao_math";
    assert RequiredFields[4].key == "gaokao_english" && RequiredFields[5].key == "follow_direction";
  }

  /** The text of a required field of a complete form. */
  function Field(data: Form, key: string): (r: string)
    requires PyText.Truthy(Get(data, key))
    ensures r != ""
  {
    Get(data, key).value
  }

  datatype SubmitOutcome =
    | MissingField(caption: string)  // "<caption>不能为空"
    | DuplicateNumber              // "该学号已提交过申请"
    | NotNumeric                   // int() of a score raised ValueError
    | ConstraintViolation          // IntegrityError: a NOT NULL column got None
    | SubmitFailed                 // any other exception, e.g. an unreadable book_time
    | Submitted(id: int)           // "申请成功！申请ID：<id>"

  /** The message each outcome is reported with (the caught exception's text
      is not modelled). */
  function SubmitMessage(o: SubmitOutcome): string
  {
    match o
    case MissingField(caption) => caption + "不能为空"
    case DuplicateNumber => "该学号已提交过申请"
    case NotNumeric => "数据格式错误：数学/英语成绩必须是数字"
    case ConstraintViolation => "数据库错误：数据不符合表结构约束（如字段长度超限）"
    case SubmitFailed => "提交失败："
    case Submitted(id) => "申请成功！申请ID：" + IntToDecimal(id)
  }

  /** The row a complete, well-formed form is saved as. Only the listed
      fields are taken from the form; the rest keep their column defaults
      (major "null", other_lab "", email and experience null) and no score. */
  function NewApplication(id: int, data: Form, name: string, math: int, english: int, future: string,
                          bookTime: nat, now: nat): StudentApplication
    requires Complete(data)
  {
    StudentApplication(
      id, name, Field(data, "number"), GetOr(data, "good_at", ""), Field(data, "grade"),
      "null", None, "", None, GetOr(data, "reason", ""), None, None, bookTime,
      Field(data, "phone_number"), math, english, Field(data, "follow_direction"), future, now)
  }

  /** `book_time`: the submitted text read as a time by `parseTime`, or the
      current time when the field is blank. None means the text is not a time. */
  function BookTime(data: Form, parseTime: string -> Option<nat>, now: nat): Option<nat>
  {
    if PyText.Truthy(Get(data, "book_time")) then parseTime(Get(data, "book_time").value) else Some(now)
  }

  /** `submit_application(data)` against the table. */
  function Submit(db: AppDb, data: Form, parseTime: string -> Option<nat>): Step<SubmitOutcome>
  {
    CompleteMeansNoneMissing(data);
    match FirstMissing(data)
    case Some(i) => Step(db, MissingField(RequiredFields[i].caption))
    case None =>
      var number := Field(data, "number");
      if IndexWhere(db.apps, AppWithNumber(number)).Some? then Step(db, DuplicateNumber)
      else
        var math := PyText.ParseInt(Field(data, "gaokao_math"));
        var english := PyText.ParseInt(Field(data, "gaokao_english"));
        if math.None? || english.None? then Step(db, NotNumeric)
        else
          var bookTime := BookTime(data, parseTime, db.clock);
          if bookTime.None? then Step(db, SubmitFailed)
          else
            var name := GetOr(data, "name", "");
            var future := GetOr(data, "future", "");
            if name.None? || future.None? then Step(db, ConstraintViolation)
            else
              var a := NewApplication(db.nextId, data, name.value, math.value, english.value, future.value,
                                      bookTime.value, db.clock);
              Step(AppDb(db.apps + [a], db.nextId + 1, db.clock + 1), Submitted(db.nextId))
  }

  /** What a submission does: a failure changes nothing; the missing-field
      error names the first blank required field; a duplicate is reported
      exactly for a complete form whose number is on file; a non-numeric
      score fails; a success appends one row built from the form, with the
      next id and the current clock reading. */
  lemma SubmitSpec(db: AppDb, data: Form, parseTime: string -> Option<nat>, r: Step<SubmitOutcome>)
    requires r == Submit(db, data, parseTime)
    ensures !r.result.Submitted? ==> r.db == db
    ensures r.result.MissingField? <==> !Complete(data)
    ensures r.result.MissingField? ==>
              exists j | 0 <= j < |RequiredFields| ::
                r.result.caption == RequiredFields[j].caption && !PyText.Truthy(Get(data, RequiredFields[j].key)) &&
                forall i :: 0 <= i < j ==> PyText.Truthy(Get(data, RequiredFields[i].key))
    ensures r.result.DuplicateNumber? <==>
              Complete(data) && exists k | 0 <= k < |db.apps| :: db.apps[k].number == Get(data, "number").value
    ensures r.result.NotNumeric? ==>
              Complete(data) && (PyText.ParseInt(Get(data, "gaokao_math").value).None? ||
                                 PyText.ParseInt(Get(data, "gaokao_english").value).None?)
    ensures r.result.Submitted? ==>
              Complete(data) &&
              r.result.id == db.nextId && r.db.nextId == db.nextId + 1 && r.db.clock == db.clock + 1 &&
              |r.db.apps| == |db.apps| + 1 && r.db.apps[..|db.apps|] == db.apps &&
              (forall k :: 0 <= k < |db.apps| ==> db.apps[k].number != Get(data, "number").value) &&
              var a := r.db.apps[|db.apps|];
              a.id == db.nextId && a.number == Get(data, "number").value && a.grade == Get(data, "grade").value &&
              a.phoneNumber == Get(data, "phone_number").value &&
              a.followDirection == Get(data, "follow_direction").value &&
              Some(a.gaokaoMath) == PyText.ParseInt(Get(data, "gaokao_math").value) &&
              Some(a.gaokaoEnglish) == PyText.ParseInt(Get(data, "gaokao_english").value) &&
              Some(a.name) == GetOr(data, "name", "") && Some(a.future) == GetOr(data, "future", "") &&
              a.value == None && a.adminRemark == None && a.createdAt == db.clock
  {
    CompleteMeansNoneMissing(data);
    if Complete(data) {
      var number := Field(data, "number");
      var dup := IndexWhere(db.apps, AppWithNumber(number));
      if dup.Some? {
        assert db.apps[dup.value].number == Get(data, "number").value;
      } else {
        assert forall k :: 0 <= k < |db.apps| ==> db.apps[k].number != Get(data, "number").value;
        if r.result.Submitted? {
          SubmitSaves(db, data, parseTime);
        }
      }
    }
  }

  // The failure outcomes of a submission, one lemma each, for the store method.

  lemma SubmitOnMissing(db: AppDb, data: Form, parseTime: string -> Option<nat>, i: nat)
    requires FirstMissing(data) == Some(i)
    ensures i < |RequiredFields| && Submit(db, data, parseTime) == Step(db, MissingField(RequiredFields[i].caption))
  {
  }

  lemma SubmitOnDuplicate(db: AppDb, data: Form, parseTime: string -> Option<nat>)
    requires Complete(data) && IndexWhere(db.apps, AppWithNumber(Field(data, "number"))).Some?
    ensures Submit(db, data, parseTime) == Step(db, DuplicateNumber)
  {
    CompleteMeansNoneMissing(data);
  }

  /** Past the duplicate check: what the score conversions, the booking time
      and the two optional columns decide. */
  lemma SubmitAfterChecks(db: AppDb, data: Form, parseTime: string -> Option<nat>)
    requires Complete(data) && IndexWhere(db.apps, AppWithNumber(Field(data, "number"))).None?
    ensures var math := PyText.ParseInt(Field(data, "gaokao_math"));
            var english := PyText.ParseInt(Field(data, "gaokao_english"));
            var bookTime := BookTime(data, parseTime, db.clock);
            var name := GetOr(data, "name", "");
            var future := GetOr(data, "future", "");
            Submit(db, data, parseTime) ==
            if math.None? || english.None? then Step(db, NotNumeric)
            else if bookTime.None? then Step(db, SubmitFailed)
            else if name.None? || future.None? then Step(db, ConstraintViolation)
            else
              var a := NewApplication(db.nextId, data, name.value, math.value, english.value, future.value,
                                      bookTime.value, db.clock);
              Step(AppDb(db.apps + [a], db.nextId + 1, db.clock + 1), Submitted(db.nextId))
  {
    CompleteMeansNoneMissing(data);
  }

  /** The success path of a submission: the row built from the form is appended. */
  lemma SubmitSaves(db: AppDb, data: Form, parseTime: string -> Option<nat>)
    requires Complete(data) && IndexWhere(db.apps, AppWithNumber(Field(data, "number"))).None?
    requires Submit(db, data, parseTime).result.Submitted?
    ensures var math := PyText.ParseInt(Field(data, "gaokao_math"));
            var english := PyText.ParseInt(Field(data, "gaokao_english"));
            var bookTime := BookTime(data, parseTime, db.clock);
            var name := GetOr(data, "name", "");
            var future := GetOr(data, "future", "");
            math.Some? && english.Some? && bookTime.Some? && name.Some? && future.Some? &&
            var a := NewApplication(db.nextId, data, name.value, math.value, english.value, future.value,
                                    bookTime.value, db.clock);
            Submit(db, data, parseTime) == Step(AppDb(db.apps + [a], db.nextId + 1, db.clock + 1), Submitted(db.nextId))
  {
    SubmitAfterChecks(db, data, parseTime);
  }

  /** A second submission with a number already on file is refused, whatever
      else the form says: the duplicate check follows only the required-field
      check. */
  lemma ResubmissionRefused(db: AppDb, first: Form, second: Form, parseTime: string -> Option<nat>)
    requires Submit(db, first, parseTime).result.Submitted?
    requires Complete(second) && Get(second, "number") == Get(first, "number")
    ensures Submit(Submit(db, first, parseTime).db, second, parseTime).result == DuplicateNumber
  {
    var r := Submit(db, first, parseTime);
    SubmitSpec(db, first, parseTime, r);
    var s := r.db;
    assert s.apps[|db.apps|].number == Field(second, "number");
    assert AppWithNumber(Field(second, "number"))(s.apps[|db.apps|]);
    SubmitOnDuplicate(s, second, parseTime);
  }

  /** The name is not a required field: a complete form whose name key is
      absent is stored with the empty name, while one whose name key is
      present but empty of any value (as the form view sends it when the
      request has no name) breaks the NOT NULL column. */
  lemma NameNotRequired(db: AppDb, data: Form, parseTime: string -> Option<nat>)
    requires Complete(data) && "name" !in data && "name" != "future" && Get(data, "future").Some?
    requires forall k | 0 <= k < |db.apps| :: db.apps[k].number != Get(data, "number").value
    requires PyText.ParseInt(Get(data, "gaokao_math").value).Some?
    requires PyText.ParseInt(Get(data, "gaokao_english").value).Some?
    requires BookTime(data, parseTime, db.clock).Some?
    ensures Submit(db, data, parseTime).result == Submitted(db.nextId)
    ensures var saved := Submit(db, data, parseTime).db.apps;
            |saved| > |db.apps| && saved[|db.apps|].name == ""
    ensures Submit(db, data["name" := None], parseTime).result == ConstraintViolation
  {
    assert IndexWhere(db.apps, AppWithNumber(Field(data, "number"))).None?;
    SubmitSaves(db, data, parseTime);
    var blank := data["name" := None];
    BlankNameKeepsRequired(data);
    SubmitAfterChecks(db, blank, parseTime);
  }

  /** Setting the name key touches none of the fields the checks read. */
  lemma BlankNameKeepsRequired(data: Form)
    ensures forall j :: 0 <= j < |RequiredFields| ==> Get(data["name" := None], RequiredFields[j].key) == Get(data, RequiredFields[j].key)
    ensures Get(data["name" := None], "book_time") == Get(data, "book_time")
    ensures GetOr(data["name" := None], "name", "") == None
  {
  }

  lemma SubmitKeepsValid(db: AppDb, data: Form, parseTime: string -> Option<nat>)
    requires TableValid(db)
    ensures TableValid(Submit(db, data, parseTime).db)
  {
    CompleteMeansNoneMissing(data);
    match FirstMissing(data)
    case Some(i) => SubmitOnMissing(db, data, parseTime, i);
    case None =>
      if IndexWhere(db.apps, AppWithNumber(Field(data, "number"))).Some? {
        SubmitOnDuplicate(db, data, parseTime);
      } else {
        SubmitAfterChecks(db, data, parseTime);
        var r := Submit(db, data, parseTime);
        if r.result.Submitted? {
          SubmitSaves(db, data, parseTime);
          AppendKeepsValid(db, r.db.apps[|db.apps|]);
          assert r.db == AppDb(db.apps + [r.db.apps[|db.apps|]], db.nextId + 1, db.clock + 1);
        }
      }
  }

  /** Appending a row with the next id at the current clock reading keeps the invariant. */
  lemma AppendKeepsValid(db: AppDb, a: StudentApplication)
    requires TableValid(db) && a.id == db.nextId && a.createdAt == db.clock
    ensures TableValid(AppDb(db.apps + [a], db.nextId + 1, db.clock + 1))
  {
  }

  // ---------------------------------------------------------------------------
  // rate_application
  // ---------------------------------------------------------------------------

  datatype RateOutcome =
    | RecordMissing  // "申请记录不存在"
    | BadRating      // "评分必须是1-10的数字"
    | RateFailed     // "评分失败：…": the score was None, so `score.isdigit()` raised
    | Rated          // "评分成功"

  /** The reviewer's score rule: a digit string whose value is 1..10. */
  predicate RatingAccepted(score: string)
  {
    PyText.IsDigitString(score) && 1 <= DecimalValue(score) <= 10
  }

  /** `rate_application(app_id, score)` once the lookup has converted
      `app_id` to the number id. */
  function Rate(db: AppDb, id: int, score: Option<string>): (r: Step<RateOutcome>)
    ensures !r.result.Rated? ==> r.db == db
    ensures r.result == RecordMissing <==> forall k | 0 <= k < |db.apps| :: db.apps[k].id != id
    ensures r.result == RateFailed <==> (exists k | 0 <= k < |db.apps| :: db.apps[k].id == id) && score.None?
    ensures r.result == Rated <==>
              (exists k | 0 <= k < |db.apps| :: db.apps[k].id == id) && score.Some? && RatingAccepted(score.value)
    ensures r.result == Rated ==>
              exists k | 0 <= k < |db.apps| ::
                db.apps[k].id == id && (forall i | 0 <= i < k :: db.apps[i].id != id) &&
                r.db == db.(apps := db.apps[k := db.apps[k].(value := score)])
  {
    match IndexWhere(db.apps, AppWithId(id))
    case None => Step(db, RecordMissing)
    case Some(k) =>
      if score.None? then Step(db, RateFailed)
      else if !RatingAccepted(score.value) then Step(db, BadRating)
      else Step(db.(apps := db.apps[k := db.apps[k].(value := score)]), Rated)
  }

  /** `rate_application(app_id, score)` with `app_id` as the form posts it:
      a missing id matches no row, and one that `int()` refuses makes the
      lookup raise ValueError, which is caught as 评分失败. */
  function RateRequest(db: AppDb, appId: Option<string>, score: Option<string>): (r: Step<RateOutcome>)
    ensures !r.result.Rated? ==> r.db == db
    ensures appId.None? ==> r.result == RecordMissing
    ensures appId.Some? && PyText.ParseInt(appId.value).None? ==> r.result == RateFailed
  {
    match appId
    case None => Step(db, RecordMissing)
    case Some(text) =>
      match PyText.ParseInt(text)
      case None => Step(db, RateFailed)
      case Some(id) => Rate(db, id, score)
  }

  /** An id posted as the decimal text of a number rates by that number. */
  lemma RateByDecimalId(db: AppDb, n: int, score: Option<string>)
    ensures RateRequest(db, Some(IntToDecimal(n)), score) == Rate(db, n, score)
  {
    PyText.ParseIntOfDecimal(n);
  }

  /** The accepted ratings are exactly the texts of the numbers 1 to 10 with
      optional leading zeros: in particular every `str(n)` for n in 1..10. */
  lemma RatingOfDecimal(n: nat)
    ensures RatingAccepted(NatToDecimal(n)) <==> 1 <= n <= 10
  {
    DecimalRoundTrip(n);
  }

  /** Rating changes only the score of the rated row. */
  lemma RateChangesOnlyValue(db: AppDb, id: int, score: Option<string>, i: nat)
    requires i < |db.apps|
    ensures |Rate(db, id, score).db.apps| == |db.apps|
    ensures Rate(db, id, score).db.apps[i] == db.apps[i] ||
            Rate(db, id, score).db.apps[i] == db.apps[i].(value := score)
    ensures Rate(db, id, score).db.nextId == db.nextId && Rate(db, id, score).db.clock == db.clock
  {
  }

  lemma RateKeepsValid(db: AppDb, id: int, score: Option<string>)
    requires TableValid(db)
    ensures TableValid(Rate(db, id, score).db)
  {
  }

  // ---------------------------------------------------------------------------
  // get_applications
  // ---------------------------------------------------------------------------

  /** The rows `filters` keeps: a direction filter is a case-insensitive
      substring test, a grade filter an exact match; each applies only when its
      key is present, and an empty or missing filter keeps every row. */
  function Selects(filters: Option<map<string, string>>): StudentApplication -> bool
  {
    (a: StudentApplication) => filters.None? || |filters.value| == 0 ||
         (("direction" in filters.value ==> PyText.ContainsIgnoreCase(a.followDirection, filters.value["direction"])) &&
          ("grade" in filters.value ==> a.grade == filters.value["grade"]))
  }

  /** Latest booking first. */
  ghost predicate LatestFirst(s: seq<StudentApplication>)
  {
    forall i, j :: 0 <= i < j < |s| ==> s[i].bookTime >= s[j].bookTime
  }

  /** Insert a before the first row booked strictly earlier. */
  function InsertByBookTime(a: StudentApplication, s: seq<StudentApplication>): (r: seq<StudentApplication>)
    ensures multiset(r) == multiset(s) + multiset{a}
    ensures |r| == |s| + 1
  {
    if |s| == 0 || s[0].bookTime < a.bookTime then [a] + s
    else
      assert s == [s[0]] + s[1..];
      [s[0]] + InsertByBookTime(a, s[1..])
  }

  lemma {:induction false} InsertKeepsLatestFirst(a: StudentApplication, s: seq<StudentApplication>)
    requires LatestFirst(s)
    ensures LatestFirst(InsertByBookTime(a, s))
    ensures |s| > 0 ==> InsertByBookTime(a, s)[0] == (if s[0].bookTime < a.bookTime then a else s[0])
  {
    if |s| == 0 || s[0].bookTime < a.bookTime {
    } else {
      InsertKeepsLatestFirst(a, s[1..]);
      var t := InsertByBookTime(a, s[1..]);
      var r := [s[0]] + t;
      forall i, j | 0 <= i < j < |r|
        ensures r[i].bookTime >= r[j].bookTime
      {
        if i == 0 {
          assert r[j] in multiset(t);
          assert r[j] in multiset(s[1..]) + multiset{a};
          if r[j] in multiset(s[1..]) {
            var k :| 0 <= k < |s[1..]| && s[1..][k] == r[j];
            assert s[k + 1] == r[j];
          }
        }
      }
    }
  }

  /** The rows sorted latest booking first; rows booked at the same time come
      out in reverse table order (see `TiedRowsReversed`). */
  function SortByBookTime(s: seq<StudentApplication>): (r: seq<StudentApplication>)
    ensures multiset(r) == multiset(s)
  {
    if |s| == 0 then []
    else
      assert s == [s[0]] + s[1..];
      InsertByBookTime(s[0], SortByBookTime(s[1..]))
  }

  lemma {:induction false} SortIsLatestFirst(s: seq<StudentApplication>)
    ensures LatestFirst(SortByBookTime(s))
  {
    if |s| > 0 {
      SortIsLatestFirst(s[1..]);
      InsertKeepsLatestFirst(s[0], SortByBookTime(s[1..]));
    }
  }

  /** The sort is not stable: of two rows booked at the same time, the later
      table row comes first. The database promises no order for such rows
      either. */
  lemma TiedRowsReversed(a: StudentApplication, b: StudentApplication)
    requires a.bookTime == b.bookTime
    ensures SortByBookTime([a, b]) == [b, a]
  {
    assert [a, b][1..] == [b];
    assert SortByBookTime([b]) == [b];
  }

  /** `get_applications(filters)`. */
  function GetApplications(apps: seq<StudentApplication>, filters: Option<map<string, string>>): (r: seq<StudentApplication>)
    ensures multiset(r) == multiset(Filter(apps, Selects(filters)))
  {
    SortByBookTime(Filter(apps, Selects(filters)))
  }

  /** The listing holds exactly the selected rows, each as often as in the
      table, latest booking first. */
  lemma ListingSpec(apps: seq<StudentApplication>, filters: Option<map<string, string>>, a: StudentApplication)
    ensures LatestFirst(GetApplications(apps, filters))
    ensures a in GetApplications(apps, filters) <==> a in apps && Selects(filters)(a)
  {
    var f := Filter(apps, Selects(filters));
    SortIsLatestFirst(f);
    FilterMember(apps, Selects(filters), a);
    assert a in GetApplications(apps, filters) <==> a in multiset(f);
  }

  /** Without filters (None or an empty map) the listing is the whole table. */
  lemma UnfilteredListsAll(apps: seq<StudentApplication>, a: StudentApplication)
    ensures a in GetApplications(apps, None) <==> a in apps
    ensures a in GetApplications(apps, Some(map[])) <==> a in apps
  {
    ListingSpec(apps, None, a);
    ListingSpec(apps, Some(map[]), a);
  }

  // ---------------------------------------------------------------------------
  // The table as the service writes it
  // ---------------------------------------------------------------------------

  /** The loop over the required fields: the position of the first blank
      one, or None when the form is complete. */
  method FirstBlank(data: Form) returns (missing: Option<nat>)
    ensures missing == FirstMissing(data)
  {
    var i := 0;
    while i < |RequiredFields|
      invariant 0 <= i <= |RequiredFields|
      invariant forall j :: 0 <= j < i ==> PyText.Truthy(Get(data, RequiredFields[j].key))
    {
      if !PyText.Truthy(Get(data, RequiredFields[i].key)) {
        FirstMissingAt(data, i);
        return Some(i);
      }
      i := i + 1;
    }
    return None;
  }

  /** The first blank required field is where FirstMissing points. */
  lemma FirstMissingAt(data: Form, i: nat)
    requires i < |RequiredFields| && !PyText.Truthy(Get(data, RequiredFields[i].key))
    requires forall j :: 0 <= j < i ==> PyText.Truthy(Get(data, RequiredFields[j].key))
    ensures FirstMissing(data) == Some(i)
  {
  }

  class Store {
    var apps: seq<StudentApplication>
    var nextId: int
    var clock: nat

    function Db(): AppDb
      reads this
    {
      AppDb(apps, nextId, clock)
    }

    ghost predicate Valid()
      reads this
    {
      TableValid(Db())
    }

    constructor ()
      ensures Valid() && Db() == AppDb([], 1, 0)
    {
      apps, nextId, clock := [], 1, 0;
    }

    /** `submit_application`: the loop over the required fields returns at the
        first blank one; then the duplicate check, the score conversions and
        the save. */
    method SubmitForm(data: Form, parseTime: string -> Option<nat>) returns (outcome: SubmitOutcome)
      requires Valid()
      modifies this
      ensures Valid()
      ensures Submit(old(Db()), data, parseTime) == Step(Db(), outcome)
    {
      SubmitKeepsValid(Db(), data, parseTime);
      outcome := SaveForm(data, parseTime);
    }

    /** The body of `submit_application`: the loop over the required fields
        returns at the first blank one; then the duplicate check, the score
        conversions and the save. */
    method SaveForm(data: Form, parseTime: string -> Option<nat>) returns (outcome: SubmitOutcome)
      modifies this
      ensures Submit(old(Db()), data, parseTime) == Step(Db(), outcome)
    {
      ghost var before := Db();
      var missing := FirstBlank(data);
      if missing.Some? {
        SubmitOnMissing(before, data, parseTime, missing.value);
        return MissingField(RequiredFields[missing.value].caption);
      }
      CompleteMeansNoneMissing(data);
      var number := Get(data, "number").value;
      var dup := IndexWhere(apps, AppWithNumber(number));
      if dup.Some? {
        SubmitOnDuplicate(before, data, parseTime);
        return DuplicateNumber;
      }
      outcome := SaveChecked(data, parseTime);
    }

    /** The rest of `submit_application` once the form is complete and the
        number is new: the score conversions, the booking time and the save. */
    method SaveChecked(data: Form, parseTime: string -> Option<nat>) returns (outcome: SubmitOutcome)
      requires Complete(data) && IndexWhere(apps, AppWithNumber(Field(data, "number"))).None?
      modifies this
      ensures Submit(old(Db()), data, parseTime) == Step(Db(), outcome)
    {
      ghost var before := Db();
      SubmitAfterChecks(before, data, parseTime);
      var math := PyText.ParseInt(Field(data, "gaokao_math"));
      var english := PyText.ParseInt(Field(data, "gaokao_english"));
      if math.None? || english.None? {
        return NotNumeric;
      }
      var bookTime := BookTime(data, parseTime, clock);
      if bookTime.None? {
        return SubmitFailed;
      }
      var name := GetOr(data, "name", "");
      var future := GetOr(data, "future", "");
      if name.None? || future.None? {
        return ConstraintViolation;
      }
      var a := NewApplication(nextId, data, name.value, math.value, english.value, future.value, bookTime.value, clock);
      apps := apps + [a];
      outcome := Submitted(nextId);
      nextId := nextId + 1;
      clock := clock + 1;
      assert Db() == AppDb(before.apps + [a], before.nextId + 1, before.clock + 1);
    }

    /** `rate_application`: look the row up, check the score, assign and save. */
    method RateApplication(appId: Option<string>, score: Option<string>) returns (outcome: RateOutcome)
      requires Valid()
      modifies this
      ensures Valid()
      ensures RateRequest(old(Db()), appId, score) == Step(Db(), outcome)
    {
      if appId.None? {
        return RecordMissing;
      }
      var n := PyText.ParseInt(appId.value);
      if n.None? {
        return RateFailed;
      }
      var id := n.value;
      RateKeepsValid(Db(), id, score);
      var k := IndexWhere(apps, AppWithId(id));
      if k.None? {
        return RecordMissing;
      }
      if score.None? {
        return RateFailed;
      }
      if !RatingAccepted(score.value) {
        return BadRating;
      }
      apps := apps[k.value := apps[k.value].(value := score)];
      return Rated;
    }
  }
}
