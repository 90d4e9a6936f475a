/** The JavaScript value semantics the admin pages rely on: the values a
    JSON field can hold there, truthiness (`x || ''`, `x ? a : b`), `String(x)`,
    `parseInt(x)` with no radix, and `String.prototype.trim`. Numbers are
    integers here: no field the pages read holds a fraction. */
module JsText {
  import opened Common

  datatype JsValue = Undefined | Null | JsStr(s: string) | JsNum(n: int)

  /** JavaScript truthiness: undefined, null, "" and 0 are falsy. */
  predicate Truthy(v: JsValue)
  {
    match v
    case Undefined => false
    case Null => false
    case JsStr(s) => s != ""
    case JsNum(n) => n != 0
  }

  /** `String(v)`. */
  function ToJsString(v: JsValue): string
  {
    match v
    case Undefined => "undefined"
    case Null => "null"
    case JsStr(s) => s
    case JsNum(n) => IntToDecimal(n)
  }

  /** WhiteSpace and LineTerminator code points of ECMAScript (section 12.2 and 12.3 of ECMA-262). */
  predicate IsJsSpace(c: char)
  {
    c == '\t' || c == '\n' || c == '\U{B}' || c == '\U{C}' || c == '\r' || c == ' ' ||
    c == '\U{A0}' || c == '\U{1680}' || ('\U{2000}' <= c <= '\U{200A}') ||
    c == '\U{2028}' || c == '\U{2029}' || c == '\U{202F}' || c == '\U{205F}' ||
    c == '\U{3000}' || c == '\U{FEFF}'
  }

  function TrimStart(s: string): (r: string)
    ensures |r| <= |s| && r == s[|s| - |r|..]
    ensures |r| > 0 ==> !IsJsSpace(r[0])
    ensures forall i :: 0 <= i < |s| - |r| ==> IsJsSpace(s[i])
  {
    if |s| > 0 && IsJsSpace(s[0]) then TrimStart(s[1..]) else s
  }

  function TrimEnd(s: string): (r: string)
    ensures |r| <= |s| && r == s[..|r|]
    ensures |r| > 0 ==> !IsJsSpace(r[|r| - 1])
    ensures forall i :: |r| <= i < |s| ==> IsJsSpace(s[i])
  {
    if |s| > 0 && IsJsSpace(s[|s| - 1]) then TrimEnd(s[..|s| - 1]) else s
  }

  /** `s.trim()`: s without its leading and trailing white space, that is a
      contiguous piece of s with no white space at either end and only white
      space around it. */
  function Trim(s: string): (r: string)
    ensures |r| <= |s|
    ensures OccursAt(s, r, |s| - |TrimStart(s)|)
    ensures |r| > 0 ==> !IsJsSpace(r[0]) && !IsJsSpace(r[|r| - 1])
    ensures forall i :: 0 <= i < |s| - |TrimStart(s)| ==> IsJsSpace(s[i])
    ensures forall i :: |s| - |TrimStart(s)| + |r| <= i < |s| ==> IsJsSpace(s[i])
  {
    var t := TrimStart(s);
    var r := TrimEnd(t);
    PrefixOfSuffix(s, t, r);
    r
  }

  /** A prefix r of a suffix t of s sits in s at |s| - |t|, and what follows
      it in s is what follows it in t. */
  lemma PrefixOfSuffix(s: string, t: string, r: string)
    requires |t| <= |s| && t == s[|s| - |t|..]
    requires |r| <= |t| && r == t[..|r|]
    requires forall i :: |r| <= i < |t| ==> IsJsSpace(t[i])
    ensures OccursAt(s, r, |s| - |t|)
    ensures forall i :: |s| - |t| + |r| <= i < |s| ==> IsJsSpace(s[i])
  {
    assert s[|s| - |t|..][..|r|] == s[|s| - |t|..|s| - |t| + |r|];
    forall i | |s| - |t| + |r| <= i < |s|
      ensures IsJsSpace(s[i])
    {
      assert s[i] == t[i - (|s| - |t|)];
    }
  }

  predicate IsHexDigit(c: char) { IsAsciiDigit(c) || ('a' <= c <= 'f') || ('A' <= c <= 'F') }

  function HexValue(c: char): nat
    requires IsHexDigit(c)
  {
    if IsAsciiDigit(c) then DigitValue(c)
    else if 'a' <= c <= 'f' then (c as int) - ('a' as int) + 10
    else (c as int) - ('A' as int) + 10
  }

  /** The longest prefix of s made of digits of the given radix. */
  function DigitPrefix(s: string, hex: bool): (r: string)
    ensures |r| <= |s| && r == s[..|r|]
    ensures forall i :: 0 <= i < |r| ==> (if hex then IsHexDigit(r[i]) else IsAsciiDigit(r[i]))
    ensures |r| < |s| ==> !(if hex then IsHexDigit(s[|r|]) else IsAsciiDigit(s[|r|]))
  {
    if |s| > 0 && (if hex then IsHexDigit(s[0]) else IsAsciiDigit(s[0]))
    then [s[0]] + DigitPrefix(s[1..], hex)
    else []
  }

  function HexDigitsValue(s: string): nat
    requires forall i :: 0 <= i < |s| ==> IsHexDigit(s[i])
  {
    if |s| == 0 then 0 else HexDigitsValue(s[..|s| - 1]) * 16 + HexValue(s[|s| - 1])
  }

  /** `parseInt(s)` with no radix (section 19.2.5 of ECMA-262): skip leading
      white space, take an optional sign, a "0x"/"0X" prefix switches to
      base 16, then read the longest run of digits; no digits gives NaN (None). */
  function ParseInt(s: string): (r: Option<int>)
    ensures TrimStart(s) == "" ==> r.None?
    ensures r.Some? && r.value < 0 ==> TrimStart(s)[0] == '-'
    ensures |TrimStart(s)| > 0 && '1' <= TrimStart(s)[0] <= '9' ==>
              r == Some(DecimalValue(DigitPrefix(TrimStart(s), false)))
  {
    var t := TrimStart(s);
    var negative := |t| > 0 && t[0] == '-';
    var u := if |t| > 0 && (t[0] == '-' || t[0] == '+') then t[1..] else t;
    var hex := |u| >= 2 && u[0] == '0' && (u[1] == 'x' || u[1] == 'X');
    var body := if hex then u[2..] else u;
    var digits := DigitPrefix(body, hex);
    if |digits| == 0 then None
    else
      var v: int := if hex then HexDigitsValue(digits) else DecimalValue(digits);
      Some(if negative then -v else v)
  }

  /** On a plain decimal text without sign or padding, parseInt reads its value. */
  lemma ParseIntOfDigits(s: string)
    requires |s| >= 1 && AllDigits(s)
    ensures ParseInt(s) == Some(DecimalValue(s))
  {
    assert !IsJsSpace(s[0]);
    assert TrimStart(s) == s;
    DigitPrefixOfDigits(s);
  }

  lemma {:induction false} DigitPrefixOfDigits(s: string)
    requires AllDigits(s)
    ensures DigitPrefix(s, false) == s
  {
    if |s| > 0 { DigitPrefixOfDigits(s[1..]); }
  }
}
