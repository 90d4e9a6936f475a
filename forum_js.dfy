/** The admin forum page's HTML escaping, applied to every post title before
    it is put into the table: `String(s)` with each of & < > " ' replaced by
    its entity. The page counter of the same page is PageCounters.PageCounter. */
module ForumPage {
  import opened JsText

  /** The five characters the escaping rewrites. */
  predicate Special(c: char)
  {
    c == '&' || c == '<' || c == '>' || c == '"' || c == '\''
  }

  /** A character the escaped text must not contain: every markup
      character except '&', which still starts each entity. */
  predicate Markup(c: char)
  {
    c == '<' || c == '>' || c == '"' || c == '\''
  }

  /** The replacement of one character: its entity, or the character itself. */
  function EscapeChar(c: char): (r: string)
    ensures Special(c) ==> |r| > 1 && r[0] == '&'
    ensures !Special(c) ==> r == [c]
    ensures forall i :: 0 <= i < |r| ==> !Markup(r[i])
  {
    match c
    case '&' => "&amp;"
    case '<' => "&lt;"
    case '>' => "&gt;"
    case '"' => "&quot;"
    case '\'' => "&#39;"
    case _ => [c]
  }

  /** The global replace, one character at a time, left to right. */
  function EscapeText(s: string): string
  {
    if |s| == 0 then "" else EscapeChar(s[0]) + EscapeText(s[1..])
  }

  /** `escapeHtml(s)`. */
  function EscapeHtml(v: JsValue): string
  {
    EscapeText(ToJsString(v))
  }

  /** No < > " or ' survives the escaping. */
  lemma {:induction false} EscapedHasNoMarkup(s: string)
    ensures forall i :: 0 <= i < |EscapeText(s)| ==> !Markup(EscapeText(s)[i])
  {
    if |s| > 0 {
      EscapedHasNoMarkup(s[1..]);
      var head := EscapeChar(s[0]);
      var tail := EscapeText(s[1..]);
      forall i | 0 <= i < |head + tail|
        ensures !Markup((head + tail)[i])
      {
        if i >= |head| {
          assert (head + tail)[i] == tail[i - |head|];
        }
      }
    }
  }

  /** The escaped text is never shorter, and it has the same length exactly
      when there was nothing to escape. */
  lemma {:induction false} EscapeLength(s: string)
    ensures |EscapeText(s)| >= |s|
    ensures |EscapeText(s)| == |s| <==> forall i :: 0 <= i < |s| ==> !Special(s[i])
  {
    if |s| > 0 {
      EscapeLength(s[1..]);
      assert forall i :: 1 <= i < |s| ==> s[i] == s[1..][i - 1];
      if !Special(s[0]) && (forall i :: 0 <= i < |s[1..]| ==> !Special(s[1..][i])) {
        assert forall i :: 0 <= i < |s| ==> !Special(s[i]);
      }
    }
  }

  /** A text with none of the five characters is shown as it is. */
  lemma {:induction false} EscapePlainIsIdentity(s: string)
    requires forall i :: 0 <= i < |s| ==> !Special(s[i])
    ensures EscapeText(s) == s
  {
    if |s| > 0 {
      assert forall i :: 0 <= i < |s[1..]| ==> s[1..][i] == s[i + 1];
      EscapePlainIsIdentity(s[1..]);
      assert [s[0]] + s[1..] == s;
    }
  }

  /** Escaping distributes over concatenation: the replacement of each
      character does not depend on its neighbours. */
  lemma {:induction false} EscapeAppend(a: string, b: string)
    ensures EscapeText(a + b) == EscapeText(a) + EscapeText(b)
  {
    if |a| > 0 {
      assert (a + b)[1..] == a[1..] + b;
      EscapeAppend(a[1..], b);
    } else {
      assert a + b == b;
    }
  }

  /** Reading the entities back, as a browser does when it renders the cell. */
  function Unescape(t: string): string
  {
    if |t| == 0 then ""
    else if |t| >= 5 && t[..5] == "&amp;" then "&" + Unescape(t[5..])
    else if |t| >= 4 && t[..4] == "&lt;" then "<" + Unescape(t[4..])
    else if |t| >= 4 && t[..4] == "&gt;" then ">" + Unescape(t[4..])
    else if |t| >= 6 && t[..6] == "&quot;" then "\"" + Unescape(t[6..])
    else if |t| >= 5 && t[..5] == "&#39;" then "'" + Unescape(t[5..])
    else [t[0]] + Unescape(t[1..])
  }

  /** Reading back one replaced character, whatever follows it. */
  lemma UnescapeChar(c: char, t: string)
    ensures Unescape(EscapeChar(c) + t) == [c] + Unescape(t)
  {
    var e := EscapeChar(c);
    var u := e + t;
    assert u[..|e|] == e && u[|e|..] == t;
    if Special(c) {
      // The second character tells the five entities apart.
      assert |u| >= 4 ==> u[..4][1] == e[1];
      assert |u| >= 5 ==> u[..5][1] == e[1];
      assert |u| >= 6 ==> u[..6][1] == e[1];
    } else {
      // No entity starts with any other character than '&'.
      assert |u| >= 4 ==> u[..4][0] == c;
      assert |u| >= 5 ==> u[..5][0] == c;
      assert |u| >= 6 ==> u[..6][0] == c;
    }
  }

  /** The rendered cell shows exactly the original title: the escaping
      loses nothing and copies every other character in order. */
  lemma {:induction false} EscapeRoundTrip(s: string)
    ensures Unescape(EscapeText(s)) == s
  {
    if |s| > 0 {
      EscapeRoundTrip(s[1..]);
      UnescapeChar(s[0], EscapeText(s[1..]));
      assert [s[0]] + s[1..] == s;
    }
  }

  /** `escapeHtml` of a title: no markup in the output, and the title read back. */
  lemma EscapeHtmlOfTitle(title: string)
    ensures EscapeHtml(JsStr(title)) == EscapeText(title)
    ensures Unescape(EscapeHtml(JsStr(title))) == title
    ensures forall i :: 0 <= i < |EscapeHtml(JsStr(title))| ==> !Markup(EscapeHtml(JsStr(title))[i])
  {
    EscapeRoundTrip(title);
    EscapedHasNoMarkup(title);
  }

  /** A missing title is shown as the text of `String(null)`. */
  lemma EscapeHtmlOfNull()
    ensures EscapeHtml(Null) == "null"
  {
    EscapePlainIsIdentity("null");
  }
}
