/** The application detail page: how it shows stored fields (`nv` puts a
    dash in place of a blank value, `br` turns line breaks into `<br>`), the
    score cell, the range guard in front of the score request, and the start
    of the page, which needs an `id` query parameter. */
module DetailPage {
  import opened Common
  import opened JsText
  import PyText
  import AdminPanel

  /** undefined, null and '' are the values `nv` replaces. */
  predicate Blank(v: JsValue)
  {
    v == Undefined || v == Null || v == JsStr("")
  }

  /** `nv(v)`: a dash in place of a blank value, any other value as it is. */
  function Nv(v: JsValue): (r: JsValue)
    ensures Blank(v) ==> r == JsStr("-")
    ensures !Blank(v) ==> r == v
  {
    if Blank(v) then JsStr("-") else v
  }

  /** `nv` never yields a blank value, and applying it twice changes nothing. */
  lemma NvNeverBlank(v: JsValue)
    ensures !Blank(Nv(v))
    ensures Nv(Nv(v)) == Nv(v)
  {
  }

  /** `nv` tests for blank values, not for falsy ones: a score of 0 is shown
      as 0, while the empty text becomes a dash. */
  lemma NvKeepsZero()
    ensures !Truthy(JsNum(0)) && Nv(JsNum(0)) == JsNum(0)
    ensures Nv(JsStr("")) == JsStr("-")
  {
  }

  /** The text a template literal shows for a value: `${nv(value)}`. */
  function Shown(v: JsValue): string
  {
    ToJsString(Nv(v))
  }

  /** A tile is never left empty. */
  lemma ShownNotEmpty(v: JsValue)
    ensures Shown(v) != ""
  {
    if !Blank(v) {
      match v
      case JsNum(n) =>
        if n < 0 { assert |"-" + NatToDecimal(-n)| > 0; }
      case _ =>
    }
  }

  /** The global replace of '\n' by "<br>", one character at a time. */
  function BreakLines(s: string): string
  {
    if |s| == 0 then ""
    else (if s[0] == '\n' then "<br>" else [s[0]]) + BreakLines(s[1..])
  }

  /** `br(t)`. */
  function Br(t: JsValue): string
  {
    BreakLines(ToJsString(t))
  }

  function Newlines(s: string): nat
  {
    if |s| == 0 then 0 else (if s[0] == '\n' then 1 else 0) + Newlines(s[1..])
  }

  /** No line break survives, and each one grows the text by three characters. */
  lemma {:induction false} BreakLinesShape(s: string)
    ensures forall i :: 0 <= i < |BreakLines(s)| ==> BreakLines(s)[i] != '\n'
    ensures |BreakLines(s)| == |s| + 3 * Newlines(s)
  {
    if |s| > 0 {
      BreakLinesShape(s[1..]);
      var head: string := if s[0] == '\n' then "<br>" else [s[0]];
      var tail := BreakLines(s[1..]);
      forall i | 0 <= i < |head + tail|
        ensures (head + tail)[i] != '\n'
      {
        if i >= |head| {
          assert (head + tail)[i] == tail[i - |head|];
        }
      }
    }
  }

  /** A text without line breaks is shown as it is. */
  lemma {:induction false} BreakLinesPlain(s: string)
    requires forall i :: 0 <= i < |s| ==> s[i] != '\n'
    ensures BreakLines(s) == s
  {
    if |s| > 0 {
      assert forall i :: 0 <= i < |s[1..]| ==> s[1..][i] == s[i + 1];
      BreakLinesPlain(s[1..]);
      assert [s[0]] + s[1..] == s;
    }
  }

  /** The replacement of each character does not depend on its neighbours. */
  lemma {:induction false} BreakLinesAppend(a: string, b: string)
    ensures BreakLines(a + b) == BreakLines(a) + BreakLines(b)
  {
    if |a| > 0 {
      assert (a + b)[1..] == a[1..] + b;
      BreakLinesAppend(a[1..], b);
    } else {
      assert a + b == b;
    }
  }

  /** A multi-line cell `br(nv(x))`: never empty, and free of line breaks. */
  lemma MultiLineCell(v: JsValue)
    ensures Br(Nv(v)) != ""
    ensures forall i :: 0 <= i < |Br(Nv(v))| ==> Br(Nv(v))[i] != '\n'
  {
    ShownNotEmpty(v);
    BreakLinesShape(Shown(v));
  }

  /** A stored text column as the JSON answer carries it: null or a string. */
  function Stored(x: Option<string>): JsValue
  {
    if x.None? then Null else JsStr(x.value)
  }

  /** The current-score cell: the value followed by 分, or 未评分 when the
      value is falsy. */
  function ScoreCell(value: JsValue): (r: string)
    ensures Truthy(value) ==> r == ToJsString(value) + "分"
    ensures !Truthy(value) ==> r == "未评分"
  {
    if Truthy(value) then ToJsString(value) + "分" else "未评分"
  }

  /** A null or empty score column shows as unscored, any other text with
      its unit; a score the admin handler accepted (a digit string) can never
      be mistaken for the unscored cell. */
  lemma ScoreCellOfStored(x: Option<string>, score: PyText.PyValue)
    ensures !PyText.Truthy(x) ==> ScoreCell(Stored(x)) == "未评分"
    ensures PyText.Truthy(x) ==> ScoreCell(Stored(x)) == x.value + "分"
    ensures AdminPanel.ScoreAccepted(score) ==>
              ScoreCell(Stored(Some(PyText.Str(score)))) == PyText.Str(score) + "分" != "未评分"
  {
    if AdminPanel.ScoreAccepted(score) {
      var t := PyText.Str(score);
      assert (t + "分")[0] == t[0];
      assert IsAsciiDigit(t[0]);
    }
  }

  /** The score `saveScore` sends: `parseInt(input.value || '')`, refused
      (no request) when it is NaN, 0 or outside 1..100. */
  function SaveScoreGuard(input: string): (r: Option<int>)
    ensures r.Some? <==> ParseInt(input).Some? && 1 <= ParseInt(input).value <= 100
    ensures r.Some? ==> r.value == ParseInt(input).value
  {
    // `input.value || ''` only replaces an empty text by itself, and the
    // refusal of 0 is part of the range test.
    var score := ParseInt(input);
    if score.None? || score.value < 1 || score.value > 100 then None
    else score
  }

  /** The JSON body of the request: `{score}`. */
  function ScoreBody(n: int): AdminPanel.Body
  {
    AdminPanel.Json(map["score" := PyText.PyInt(n)])
  }

  /** Every score the page lets through, the admin handler accepts. */
  lemma GuardAgreesWithServer(input: string)
    ensures SaveScoreGuard(input).Some? ==>
              AdminPanel.ScoreAccepted(AdminPanel.PostedScore(None, ScoreBody(SaveScoreGuard(input).value)))
  {
    if SaveScoreGuard(input).Some? {
      var n := SaveScoreGuard(input).value;
      assert AdminPanel.PostedScore(None, ScoreBody(n)) == PyText.PyInt(n);
      AdminPanel.ScoreOfNumber(n);
    }
  }

  /** `parseInt` reads back the decimal text of any integer. */
  lemma JsParseIntOfDecimal(n: int)
    ensures ParseInt(IntToDecimal(n)) == Some(n)
  {
    var d := NatToDecimal(if n < 0 then -n else n);
    DecimalRoundTrip(if n < 0 then -n else n);
    if n < 0 {
      var s := "-" + d;
      assert !IsJsSpace(s[0]);
      assert TrimStart(s) == s;
      assert s[1..] == d;
      DigitPrefixOfDigits(d);
    } else {
      ParseIntOfDigits(d);
    }
  }

  /** Typed as a plain integer, a score gets through exactly when it lies in 1..100. */
  lemma GuardOnNumber(n: int)
    ensures SaveScoreGuard(IntToDecimal(n)) == (if 1 <= n <= 100 then Some(n) else None)
  {
    JsParseIntOfDecimal(n);
  }

  /** `parseInt` stops at the first non-digit, so trailing text is ignored. */
  lemma GuardIgnoresTrailingText()
    ensures SaveScoreGuard("12abc") == Some(12)
    ensures SaveScoreGuard("abc") == None
  {
    var s := "12abc";
    assert !IsJsSpace(s[0]) && TrimStart(s) == s;
    assert DigitPrefix(s[2..], false) == "";
    assert DigitPrefix(s, false) == "12";
    assert DecimalValue("12") == 12 by { assert "12"[..1] == "1"; }
    var t := "abc";
    assert !IsJsSpace(t[0]) && TrimStart(t) == t;
    assert DigitPrefix(t, false) == "";
  }

  /** What the page does on load. */
  datatype Start = MissingId | Load(id: string)

  /** The `id` query parameter (null when absent) decides whether the page loads. */
  function DetailStart(id: Option<string>): (r: Start)
    ensures r == MissingId <==> id.None? || id.value == ""
    ensures r.Load? ==> id == Some(r.id)
  {
    if id.None? || id.value == "" then MissingId else Load(id.value)
  }
}
