/** The applications list page's pure helpers: the CSV export, the three
    counters above the table, the pager's button rule, and which request a
    reload sends. A data item is the JSON object the list endpoints return,
    with an absent key reading as undefined. */
module AppsPage {
  import opened Common
  import opened JsText
  import Paging

  type Item = map<string, JsValue>

  /** `item.key`. */
  function Prop(item: Item, key: string): JsValue
  {
    if key in item then item[key] else Undefined
  }

  // ---------------------------------------------------------------------------
  // CSV export
  // ---------------------------------------------------------------------------

  /** The byte-order mark written ahead of the table. */
  const Bom: char := '\U{FEFF}'

  const Headers: seq<string> :=
    ["ID", "姓名", "学号", "年级", "专业班级", "手机号", "邮箱", "高考数学", "高考英语", "意向方向",
     "擅长领域", "报名原因", "未来规划", "项目经历", "其他实验室", "分数", "备注", "报名时间"]

  /** The item keys behind the columns, in column order. */
  const Columns: seq<string> :=
    ["id", "name", "number", "grade", "major", "phone_number", "email", "gaokao_math", "gaokao_english",
     "follow_direction", "good_at", "reason", "future", "experience", "other_lab", "value", "admin_remark",
     "created_at"]

  /** One cell: `item.key || ''`, except the score column, where a falsy
      score reads '未评分'. */
  function Cell(item: Item, key: string): (r: string)
  {
    var v := Prop(item, key);
    if Truthy(v) then ToJsString(v) else if key == "value" then "未评分" else ""
  }

  /** What a cell holds: a truthy value's text, or the column's stand-in —
      so a score of 0 or a blank field exports as empty, and an unscored row
      as '未评分'. */
  lemma CellSpec(item: Item, key: string)
    ensures Truthy(Prop(item, key)) ==> Cell(item, key) == ToJsString(Prop(item, key))
    ensures !Truthy(Prop(item, key)) ==> Cell(item, key) == (if key == "value" then "未评分" else "")
    ensures Prop(item, key) == JsNum(0) ==> Cell(item, key) == (if key == "value" then "未评分" else "")
  {
  }

  /** The 18 cells of one item, in header order. */
  function RowOf(item: Item): (r: seq<string>)
    ensures |r| == |Columns|
    ensures forall j :: 0 <= j < |r| ==> r[j] == Cell(item, Columns[j])
  {
    seq(|Columns|, j requires 0 <= j < |Columns| => Cell(item, Columns[j]))
  }

  /** Every inner double quote doubled. */
  function EscapeQuotes(s: string): (r: string)
    ensures |r| >= |s|
  {
    if |s| == 0 then "" else (if s[0] == '"' then "\"\"" else [s[0]]) + EscapeQuotes(s[1..])
  }

  function QuoteField(s: string): string
  {
    "\"" + EscapeQuotes(s) + "\""
  }

  /** The quoted fields joined with ','. */
  function JoinFields(fields: seq<string>): string
    requires |fields| >= 1
  {
    if |fields| == 1 then QuoteField(fields[0]) else QuoteField(fields[0]) + "," + JoinFields(fields[1..])
  }

  predicate AllNonEmpty(rows: seq<seq<string>>)
  {
    forall i :: 0 <= i < |rows| ==> |rows[i]| >= 1
  }

  /** The records joined with '\n' (no trailing line break). */
  function JoinRecords(rows: seq<seq<string>>): string
    requires |rows| >= 1 && AllNonEmpty(rows)
  {
    if |rows| == 1 then JoinFields(rows[0]) else JoinFields(rows[0]) + "\n" + JoinRecords(rows[1..])
  }

  /** The header row and then one row per item. */
  function Table(data: seq<Item>): (t: seq<seq<string>>)
    ensures |t| == |data| + 1 && t[0] == Headers
    ensures forall i :: 0 <= i < |data| ==> t[i + 1] == RowOf(data[i])
    ensures forall i :: 0 <= i < |t| ==> |t[i]| == 18
  {
    [Headers] + seq(|data|, i requires 0 <= i < |data| => RowOf(data[i]))
  }

  // The reading side: quoted fields as section 2 (items 5 to 7) of RFC 4180
  // describes them, with '\n' between records instead of CRLF.

  /** The rest of a quoted field after its opening quote: the field's text
      and what follows the closing quote. A doubled quote stands for one. */
  function ParseQuotedBody(s: string): (r: Option<(string, string)>)
    ensures r.Some? ==> |r.value.1| < |s|
  {
    if |s| == 0 then None
    else if s[0] == '"' then
      if |s| >= 2 && s[1] == '"' then
        match ParseQuotedBody(s[2..])
        case None => None
        case Some(p) => Some(("\"" + p.0, p.1))
      else Some(("", s[1..]))
    else
      match ParseQuotedBody(s[1..])
      case None => None
      case Some(p) => Some(([s[0]] + p.0, p.1))
  }

  function ParseField(s: string): (r: Option<(string, string)>)
    ensures r.Some? ==> |r.value.1| < |s|
  {
    if |s| > 0 && s[0] == '"' then ParseQuotedBody(s[1..]) else None
  }

  /** One record: fields separated by ','; stops before a line break. */
  function ParseRecord(s: string): (r: Option<(seq<string>, string)>)
    ensures r.Some? ==> |r.value.1| < |s|
    decreases |s|
  {
    match ParseField(s)
    case None => None
    case Some(p) =>
      if |p.1| > 0 && p.1[0] == ',' then
        match ParseRecord(p.1[1..])
        case None => None
        case Some(q) => Some(([p.0] + q.0, q.1))
      else Some(([p.0], p.1))
  }

  /** Records separated by '\n', up to the end of the text. */
  function ParseCsv(s: string): Option<seq<seq<string>>>
    decreases |s|
  {
    match ParseRecord(s)
    case None => None
    case Some(p) =>
      if |p.1| == 0 then Some([p.0])
      else if p.1[0] == '\n' then
        match ParseCsv(p.1[1..])
        case None => None
        case Some(rest) => Some([p.0] + rest)
      else None
  }

  lemma {:induction false} QuotedBodyRoundTrip(f: string, rest: string)
    requires |rest| == 0 || rest[0] != '"'
    ensures ParseQuotedBody(EscapeQuotes(f) + "\"" + rest) == Some((f, rest))
  {
    var s := EscapeQuotes(f) + "\"" + rest;
    if |f| == 0 {
      assert s == "\"" + rest;
      assert s[1..] == rest;
    } else if f[0] == '"' {
      assert s == "\"\"" + (EscapeQuotes(f[1..]) + "\"" + rest);
      assert s[2..] == EscapeQuotes(f[1..]) + "\"" + rest;
      QuotedBodyRoundTrip(f[1..], rest);
      assert "\"" + f[1..] == f;
    } else {
      assert s == [f[0]] + (EscapeQuotes(f[1..]) + "\"" + rest);
      assert s[1..] == EscapeQuotes(f[1..]) + "\"" + rest;
      QuotedBodyRoundTrip(f[1..], rest);
      assert [f[0]] + f[1..] == f;
    }
  }

  lemma FieldRoundTrip(f: string, rest: string)
    requires |rest| == 0 || rest[0] != '"'
    ensures ParseField(QuoteField(f) + rest) == Some((f, rest))
  {
    var s := QuoteField(f) + rest;
    assert s[1..] == EscapeQuotes(f) + "\"" + rest;
    QuotedBodyRoundTrip(f, rest);
  }

  lemma {:induction false} RecordRoundTrip(fields: seq<string>, rest: string)
    requires |fields| >= 1
    requires |rest| == 0 || (rest[0] != '"' && rest[0] != ',')
    ensures ParseRecord(JoinFields(fields) + rest) == Some((fields, rest))
  {
    var s := JoinFields(fields) + rest;
    if |fields| == 1 {
      assert s == QuoteField(fields[0]) + rest;
      FieldRoundTrip(fields[0], rest);
      assert ParseField(s) == Some((fields[0], rest));
      assert [fields[0]] == fields;
    } else {
      var tail := "," + (JoinFields(fields[1..]) + rest);
      assert s == QuoteField(fields[0]) + tail;
      FieldRoundTrip(fields[0], tail);
      assert ParseField(s) == Some((fields[0], tail));
      assert tail[1..] == JoinFields(fields[1..]) + rest;
      RecordRoundTrip(fields[1..], rest);
      assert ParseRecord(tail[1..]) == Some((fields[1..], rest));
      assert [fields[0]] + fields[1..] == fields;
    }
  }

  /** Reading the joined records back gives every field of every record. */
  lemma {:induction false} CsvRoundTrip(rows: seq<seq<string>>)
    requires |rows| >= 1 && AllNonEmpty(rows)
    ensures ParseCsv(JoinRecords(rows)) == Some(rows)
  {
    if |rows| == 1 {
      RecordRoundTrip(rows[0], "");
      assert JoinFields(rows[0]) + "" == JoinFields(rows[0]) == JoinRecords(rows);
      assert ParseRecord(JoinRecords(rows)) == Some((rows[0], ""));
      assert [rows[0]] == rows;
    } else {
      var tail := "\n" + JoinRecords(rows[1..]);
      assert JoinRecords(rows) == JoinFields(rows[0]) + tail;
      RecordRoundTrip(rows[0], tail);
      assert tail[1..] == JoinRecords(rows[1..]);
      CsvRoundTrip(rows[1..]);
      assert [rows[0]] + rows[1..] == rows;
    }
  }

  /** `generateCSV(data)`: the mark, then a text that reads back as the
      header row followed by each item's 18 cells. */
  function GenerateCsv(data: seq<Item>): (r: string)
    ensures |r| >= 1 && r[0] == Bom
    ensures ParseCsv(r[1..]) == Some(Table(data))
  {
    var t := Table(data);
    CsvRoundTrip(t);
    var r := [Bom] + JoinRecords(t);
    assert r[1..] == JoinRecords(t);
    r
  }

  // ---------------------------------------------------------------------------
  // The counters above the table
  // ---------------------------------------------------------------------------

  datatype Stats = Stats(total: nat, scored: nat, passed: nat)

  function Scored(): Item -> bool
  {
    (it: Item) => Truthy(Prop(it, "value"))
  }

  /** `parseInt(value) >= 85`; NaN compares false. */
  predicate PassMark(v: JsValue)
  {
    var n := ParseInt(ToJsString(v));
    n.Some? && n.value >= 85
  }

  function Passed(): Item -> bool
  {
    (it: Item) => Truthy(Prop(it, "value")) && PassMark(Prop(it, "value"))
  }

  /** `updateStats(data)`. */
  function UpdateStats(data: seq<Item>): (r: Stats)
    ensures r.total == |data|
    ensures r.passed <= r.scored <= r.total
  {
    CountImplies(data, Passed(), Scored());
    Stats(|data|, CountWhere(data, Scored()), CountWhere(data, Passed()))
  }

  /** A score the admin stored (a digit string) passes exactly when it is at
      least 85. */
  lemma StoredScorePasses(s: string)
    requires |s| >= 1 && AllDigits(s)
    ensures PassMark(JsStr(s)) <==> DecimalValue(s) >= 85
  {
    ParseIntOfDigits(s);
  }

  // ---------------------------------------------------------------------------
  // The pager
  // ---------------------------------------------------------------------------

  /** The pager's visible state: shown or hidden, its caption, and the two
      buttons' disabled flags. */
  datatype Pager = Pager(shown: bool, caption: string, prevDisabled: bool, nextDisabled: bool)

  /** `updatePagination`: a single page hides the pager and leaves the rest
      as it was; otherwise the caption and both buttons are set. */
  function UpdatePagination(view: Pager, current: int, total: int): (r: Pager)
    ensures r.shown <==> total > 1
    ensures total <= 1 ==> r.caption == view.caption && r.prevDisabled == view.prevDisabled && r.nextDisabled == view.nextDisabled
    ensures total > 1 ==> (r.prevDisabled <==> current <= 1) && (r.nextDisabled <==> current >= total)
    ensures total > 1 ==> r.caption == "第 " + IntToDecimal(current) + " 页，共 " + IntToDecimal(total) + " 页"
  {
    if total <= 1 then view.(shown := false)
    else Pager(true, "第 " + IntToDecimal(current) + " 页，共 " + IntToDecimal(total) + " 页",
               current <= 1, current >= total)
  }

  lemma NumPagesAboveOne(count: nat, perPage: nat)
    requires perPage >= 1
    ensures Paging.NumPages(count, perPage) > 1 <==> count > perPage
  {
    var n := Paging.NumPages(count, perPage);
    if n > 1 {
      assert (n - 1) * perPage >= perPage;
    }
    if count > perPage {
      Paging.FactorLess(1, n, perPage);
    }
  }

  /** For a page the server paginated: the pager shows exactly when the
      list does not fit on one page; then a button is enabled exactly when
      its neighbour page exists, so at least one of them is. */
  lemma PagerForServedPage<T>(view: Pager, items: seq<T>, requested: string, perPage: nat)
    requires perPage >= 1
    ensures var p := Paging.Paginate(items, requested, perPage);
            var r := UpdatePagination(view, p.currentPage, p.totalPages);
            (r.shown <==> |items| > perPage) &&
            (r.shown ==> (!r.prevDisabled <==> p.currentPage - 1 >= 1) &&
                         (!r.nextDisabled <==> p.currentPage + 1 <= p.totalPages) &&
                         !(r.prevDisabled && r.nextDisabled))
  {
    NumPagesAboveOne(|items|, perPage);
  }

  // ---------------------------------------------------------------------------
  // Which request a reload sends
  // ---------------------------------------------------------------------------

  datatype Query =
    | ByNumber(number: string)
    | ByName(name: string)
    | Listing(page: int, pageSize: nat, direction: Option<string>, grade: Option<string>)

  function NonEmpty(s: string): Option<string>
  {
    if s == "" then None else Some(s)
  }

  /** `loadData`: a student number in the search box wins, then a name;
      otherwise the paged list with the filters that are set. */
  function LoadDispatch(numberInput: string, nameInput: string, direction: string, grade: string, page: int): (q: Query)
    ensures q.ByNumber? <==> Trim(numberInput) != ""
    ensures q.ByNumber? ==> q.number == Trim(numberInput)
    ensures q.ByName? <==> Trim(numberInput) == "" && Trim(nameInput) != ""
    ensures q.ByName? ==> q.name == Trim(nameInput)
    ensures q.Listing? <==> Trim(numberInput) == "" && Trim(nameInput) == ""
    ensures q.Listing? ==>
              q.page == page && q.pageSize == 10 &&
              (q.direction.Some? <==> direction != "") && (q.direction.Some? ==> q.direction.value == direction) &&
              (q.grade.Some? <==> grade != "") && (q.grade.Some? ==> q.grade.value == grade)
  {
    var number := Trim(numberInput);
    var name := Trim(nameInput);
    if number != "" then ByNumber(number)
    else if name != "" then ByName(name)
    else Listing(page, 10, NonEmpty(direction), NonEmpty(grade))
  }
}
